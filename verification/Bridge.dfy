/** The bridge loops: re-encrypting a client's stream towards its upstream and back. */
module Bridge {
  import opened Bytes
  import opened Ciphers
  import opened Framing
  import opened Splitter
  import Net
  import opened TlsRecords
  import opened ClientStream

  /** Decrypt with one stream, re-encrypt with another. */
  function Reencrypt(dec: KeyStream, p: nat, enc: KeyStream, q: nat, wire: seq<byte>): (out: seq<byte>)
    ensures |out| == |wire|
  {
    Crypt(enc, q, Crypt(dec, p, wire))
  }

  lemma ReencryptAppend(dec: KeyStream, p: nat, enc: KeyStream, q: nat, a: seq<byte>, b: seq<byte>)
    ensures Reencrypt(dec, p, enc, q, a + b) ==
      Reencrypt(dec, p, enc, q, a) + Reencrypt(dec, p + |a|, enc, q + |a|, b)
  {
    CryptAppend(dec, p, a, b);
    CryptAppend(enc, q, Crypt(dec, p, a), Crypt(dec, p + |a|, b));
  }

  // Joining ------------------------------------------------------------------

  /** The side whose direction ended first, and where the other direction was aborted for it. */
  datatype ClosedBy = ByClient | ByUpstream
  datatype Closing = Closing(first: ClosedBy, stop: Net.Stop)

  /**
   * The two directions of a bridge as they are joined: the one that ends first runs to its own end, and
   * the other is aborted wherever it is then, which may be anywhere. They share no state, so that one
   * before the other stands for every interleaving of the two.
   */
  method JoinBridge(closing: Closing) returns (upload: Net.Task, download: Net.Task)
    ensures fresh(upload) && fresh(download) && upload != download && !upload.aborted && !download.aborted
    ensures closing.first.ByClient? ==> upload.stop.None? && download.stop == Some(closing.stop)
    ensures closing.first.ByUpstream? ==> download.stop.None? && upload.stop == Some(closing.stop)
    ensures closing.stop.awaits == 0 ==>
      upload.Over() == closing.first.ByUpstream? && download.Over() == closing.first.ByClient?
  {
    upload := new Net.Task(if closing.first.ByClient? then None else Some(closing.stop));
    download := new Net.Task(if closing.first.ByUpstream? then None else Some(closing.stop));
  }

  // Frames -------------------------------------------------------------------

  /**
   * What a direction leaves behind when it ends: input it never read, and re-encrypted bytes it read
   * but had not sent.
   */
  datatype Left = Left(unread: seq<byte>, unsent: seq<byte>) {
    predicate Nothing() { unread == [] && unsent == [] }
  }

  /**
   * What the frames of an upload have to do with the relay stream: every byte of it is sent, unsent
   * or unread, in this order; and the frames are cut at its packets unless the upstream is a tunnel.
   */
  ghost predicate Delivered(ks: KeyStream, packets: Option<ProtoTag>, relay: seq<byte>, sent: seq<seq<byte>>,
                            left: Left) {
    && Concat(sent) + left.unsent <= relay
    && |Concat(sent)| + |left.unsent| + |left.unread| == |relay|
    && (forall f | f in sent :: f != [])
    && (packets.None? ==> forall f | f in sent :: |f| <= READ_BUF)
    && (packets.Some? ==> PacketAligned(ks, packets.value, relay, sent, left.Nothing()))
  }

  ghost predicate PacketAligned(ks: KeyStream, proto: ProtoTag, relay: seq<byte>, sent: seq<seq<byte>>,
                                complete: bool) {
    var plain := Crypt(ks, HANDSHAKE_LEN, relay);
    var lens := Cuts(proto, plain);
    && Total(lens) <= |relay|
    && (forall i | 0 <= i < |sent| && i < |lens| :: sent[i] == Slices(relay, lens)[i])
    && (complete && !Stops(proto, plain) ==>
          var rest := relay[Total(lens)..];
          sent == Slices(relay, lens) + if rest == [] then [] else [rest])
  }

  /** Frames of a run over a front of the stream, cut off anywhere, are frames of the stream. */
  lemma RunDelivers(ks: KeyStream, proto: ProtoTag, chunks: seq<seq<byte>>, relay: seq<byte>, k: nat)
    requires Concat(chunks) <= relay
    requires k <= |Run(Fresh(ks, proto), chunks).1|
    ensures var frames := Run(Fresh(ks, proto), chunks).1;
      && PacketAligned(ks, proto, relay, frames[..k], false)
      && forall f | f in frames[..k] :: f != []
  {
    hide Run, Cuts, Stops, PacketLen, Crypt, Concat, Slices, Total;
    RunMeaning(ks, proto, chunks);
    var (s, frames) := Run(Fresh(ks, proto), chunks);
    var front, more := Concat(chunks), relay[|Concat(chunks)|..];
    assert relay == front + more;
    AlignedFront(ks, proto, front, more, frames, s);
    assert forall f | f in frames[..k] :: f in frames;
  }

  lemma AlignedFront(ks: KeyStream, proto: ProtoTag, front: seq<byte>, more: seq<byte>, frames: seq<seq<byte>>,
                     s: State)
    requires Means(ks, proto, front, s, frames)
    ensures PacketAligned(ks, proto, front + more, frames, false)
  {
    hide Cuts, Stops, PacketLen, Crypt, Concat, Slices, Total;
    var p, q := Crypt(ks, HANDSHAKE_LEN, front), Crypt(ks, HANDSHAKE_LEN + |front|, more);
    CryptAppend(ks, HANDSHAKE_LEN, front, more);
    CutsExtend(proto, p, q);
    CutsTotal(proto, p + q);
    var lens, all := Cuts(proto, p), Cuts(proto, p + q);
    SlicesOfPrefix(front, more, lens);
    if !s.disabled {
      var tail := Cuts(proto, p[Total(lens)..] + q);
      TotalAppend(lens, tail);
      SlicesAppend(front + more, lens, tail);
    }
  }

  /** A run over the whole stream, and the flush behind it, deliver all of it. */
  lemma RunCompletes(ks: KeyStream, proto: ProtoTag, chunks: seq<seq<byte>>, relay: seq<byte>, sent: seq<seq<byte>>)
    requires Concat(chunks) == relay
    requires var (s, frames) := Run(Fresh(ks, proto), chunks);
      sent == frames + if s.buf == [] then [] else [s.buf]
    ensures Concat(sent) == relay && PacketAligned(ks, proto, relay, sent, true)
    ensures forall f | f in sent :: f != []
  {
    hide Run, Cuts, Stops, PacketLen, Crypt, Slices, Total, Concat;
    RunMeaning(ks, proto, chunks);
    var (s, frames) := Run(Fresh(ks, proto), chunks);
    ConcatSnoc(frames, s.buf);
    assert frames + [] == frames;
    assert relay + [] == relay;
    AlignedFront(ks, proto, relay, [], frames, s);
    var lens := Cuts(proto, Crypt(ks, HANDSHAKE_LEN, relay));
    if !s.disabled {
      SlicesConcat(relay, lens);
      assert s.buf == relay[Total(lens)..];
    }
  }

  // Upload -------------------------------------------------------------------

  /**
   * Send frames one by one until one fails or the task is aborted. A send it is aborted in may or may
   * not have got its frame out.
   */
  method SendAll(task: Net.Task, sink: Net.WsSink, parts: seq<seq<byte>>)
    returns (ok: bool, ghost unsent: seq<seq<byte>>)
    requires !sink.failed && !task.aborted
    modifies task, sink
    ensures ok == (!sink.failed && !task.aborted)
    ensures old(sink.frames) <= sink.frames && sink.frames + unsent == old(sink.frames) + parts
    ensures ok ==> unsent == [] && sink.frames == old(sink.frames) + parts
    ensures sink.failed ==> sink.limit.Some? && unsent != []
    ensures task.aborted ==> task.stop.Some?
    ensures task.passed >= old(task.passed)
  {
    for i := 0 to |parts|
      invariant sink.frames == old(sink.frames) + parts[..i] && !sink.failed && !task.aborted
      invariant task.passed >= old(task.passed)
    {
      ok := task.Await();
      if ok {
        ok := sink.Send(parts[i]);
      } else if task.stop.value.part > 0 {
        var gone := sink.Send(parts[i]);
      }
      if !ok {
        unsent := parts[|sink.frames| - |old(sink.frames)|..];
        assert parts[..i] + [parts[i]] == parts[..i + 1];
        return;
      }
    }
    ok, unsent := true, [];
  }

  /**
   * Client to WebSocket: decrypt, re-encrypt and frame every read, then flush. `splitter` is
   * null for a tunnel upstream. Unless a send failed or the task was aborted, nothing is left.
   */
  method UploadWs(task: Net.Task, reader: ClientReader, cltDec: CtrCipher, tgEnc: CtrCipher, splitter: MsgSplitter?,
                  sink: Net.WsSink)
    returns (ghost left: Left)
    requires !sink.failed && !task.aborted
    requires cltDec != tgEnc && tgEnc.pos == HANDSHAKE_LEN
    requires splitter != null ==>
      && splitter.Valid() && splitter.View() == Fresh(tgEnc.ks, splitter.proto)
      && splitter.dec != cltDec && splitter.dec != tgEnc
    modifies task, reader, reader.reader, cltDec, tgEnc, sink
    modifies if splitter == null then {} else {splitter, splitter.dec}
    ensures old(sink.frames) <= sink.frames
    ensures var relay := Reencrypt(cltDec.ks, old(cltDec.pos), tgEnc.ks, HANDSHAKE_LEN, old(reader.Remaining()));
      Delivered(tgEnc.ks, Aligned(splitter), relay, sink.frames[|old(sink.frames)|..], left)
    ensures left.unread == [] || left.unread == reader.Remaining()
    ensures !sink.failed && !task.aborted ==> left.Nothing()
    ensures sink.failed ==> sink.limit.Some? && left.unsent != []
    ensures task.aborted ==> task.stop.Some?
    ensures old(task.Over()) ==>
      sink.frames == old(sink.frames) && !sink.failed && left == Left(old(reader.Remaining()), [])
  {
    hide *;
    ghost var input, base, start := reader.Remaining(), cltDec.pos, sink.frames;
    var ok, up, unread, unsent := UploadReads(task, reader, cltDec, tgEnc, splitter, sink);
    AlignedIs(splitter);
    left := Left(unread, Concat(unsent) + up.Buffered(tgEnc.ks, Aligned(splitter)));
    Rejoin(start, up.Frames(tgEnc.ks, Aligned(splitter)), sink.frames, unsent);
    if !ok {
      NothingRelayed(cltDec.ks, base, tgEnc.ks, Aligned(splitter), unread);
      CutShort(cltDec.ks, base, tgEnc.ks, Aligned(splitter), input, up, sink.frames[|start|..], unsent, left);
      return;
    }
    var tail := [];
    if splitter != null { tail := splitter.Flush(); }
    BufferedIs(tgEnc.ks, Aligned(splitter), up);
    ghost var frames := sink.frames;
    var sent;
    sent, unsent := SendAll(task, sink, tail);
    Rejoin(frames, tail, sink.frames, unsent);
    Rejoined(start, frames, sink.frames, tail, unsent);
    left := Left([], Concat(unsent));
    Finished(cltDec.ks, base, tgEnc.ks, Aligned(splitter), input, up, sink.frames[|start|..], tail, unsent);
  }

  /** The protocol whose packets an upload is cut at, if it is cut at all. */
  ghost function Aligned(splitter: MsgSplitter?): Option<ProtoTag> {
    if splitter == null then None else Some(splitter.proto)
  }

  lemma BufferedIs(ks: KeyStream, packets: Option<ProtoTag>, up: Progress)
    ensures up.Buffered(ks, packets) == if packets.None? then [] else up.State(ks, packets.value).buf
  {}

  lemma Rejoin<T>(start: seq<T>, all: seq<T>, sent: seq<T>, unsent: seq<T>)
    requires start <= sent && (sent + unsent == start + all)
    ensures sent[|start|..] + unsent == all
  {
    assert sent[|start|..] + unsent == (sent + unsent)[|start|..];
    assert all == (start + all)[|start|..];
  }

  lemma Rejoined<T>(start: seq<T>, middle: seq<T>, sent: seq<T>, tail: seq<T>, unsent: seq<T>)
    requires start <= middle <= sent && (sent[|middle|..] + unsent == tail)
    ensures middle[|start|..] <= sent[|start|..] && (sent[|start|..] + unsent == middle[|start|..] + tail)
  {
    assert sent[|start|..] == middle[|start|..] + sent[|middle|..];
  }

  lemma AlignedIs(splitter: MsgSplitter?)
    ensures Aligned(splitter) == if splitter == null then None else Some(splitter.proto)
  {}

  /** The read loop of an upload, until the client's stream ends, a send fails or the task is aborted. */
  method UploadReads(task: Net.Task, reader: ClientReader, cltDec: CtrCipher, tgEnc: CtrCipher, splitter: MsgSplitter?,
                     sink: Net.WsSink)
    returns (ok: bool, ghost up: Progress, ghost unread: seq<byte>, ghost unsent: seq<seq<byte>>)
    requires !sink.failed && !task.aborted
    requires cltDec != tgEnc && tgEnc.pos == HANDSHAKE_LEN
    requires splitter != null ==>
      && splitter.Valid() && splitter.View() == Fresh(tgEnc.ks, splitter.proto)
      && splitter.dec != cltDec && splitter.dec != tgEnc
    modifies task, reader, reader.reader, cltDec, tgEnc, sink
    modifies if splitter == null then {} else {splitter, splitter.dec}
    ensures ok == (!sink.failed && !task.aborted)
    ensures up.Ok(cltDec.ks, old(cltDec.pos), tgEnc.ks) && up.fed + unread == old(reader.Remaining())
    ensures unread == if ok then [] else reader.Remaining()
    ensures old(sink.frames) <= sink.frames
    ensures sink.frames + unsent == old(sink.frames) + up.Frames(tgEnc.ks, Aligned(splitter))
    ensures ok ==> unsent == []
    ensures splitter != null ==> splitter.Valid() && splitter.View() == up.State(tgEnc.ks, splitter.proto)
    ensures sink.failed ==> sink.limit.Some? && unsent != []
    ensures task.aborted ==> task.stop.Some?
    ensures old(task.Over()) ==>
      !ok && !sink.failed && up == Progress([], []) && unsent == [] && sink.frames == old(sink.frames)
  {
    hide *;
    ghost var input, base, start, packets := reader.Remaining(), cltDec.pos, sink.frames, Aligned(splitter);
    ghost var over := task.Over();
    AlignedIs(splitter);
    up := Progress([], []);
    NothingRelayed(cltDec.ks, base, tgEnc.ks, packets, input);
    var buf := new byte[READ_BUF];
    while true
      invariant cltDec.pos == base + |up.fed| && tgEnc.pos == HANDSHAKE_LEN + |up.fed|
      invariant up.Ok(cltDec.ks, base, tgEnc.ks) && up.fed + reader.Remaining() == input
      invariant splitter != null ==> splitter.Valid() && splitter.View() == up.State(tgEnc.ks, splitter.proto)
      invariant sink.frames == start + up.Frames(tgEnc.ks, packets) && !sink.failed && !task.aborted
      invariant over ==> task.Over() && up == Progress([], [])
      decreases |reader.Remaining()|
    {
      unread, unsent := reader.Remaining(), [];
      ok := task.Await();
      assert sink.frames + [] == sink.frames;
      if !ok { return; }
      ghost var before, next := up.Frames(tgEnc.ks, packets), up;
      var more;
      ok, more, next, unsent := UploadRead(task, reader, cltDec, tgEnc, splitter, sink, buf, up, base, input);
      if !more {
        unread := [];
        return;
      }
      Continued(start, before, next.Frames(tgEnc.ks, packets), sink.frames, unsent);
      up, unread := next, reader.Remaining();
      if !ok { return; }
    }
  }

  lemma Continued<T>(start: seq<T>, before: seq<T>, after: seq<T>, sent: seq<T>, unsent: seq<T>)
    requires before <= after && (sent + unsent == start + before + after[|before|..])
    ensures sent + unsent == start + after
    ensures unsent == [] ==> sent == start + after
  {
    assert before + after[|before|..] == after;
    assert start + before + after[|before|..] == start + (before + after[|before|..]);
  }

  /** One read of an upload, forwarded; `more` is false at the end of the client's stream. */
  method UploadRead(task: Net.Task, reader: ClientReader, cltDec: CtrCipher, tgEnc: CtrCipher, splitter: MsgSplitter?,
                    sink: Net.WsSink, buf: array<byte>, ghost up: Progress, ghost base: nat, ghost input: seq<byte>)
    returns (ok: bool, more: bool, ghost next: Progress, ghost unsent: seq<seq<byte>>)
    requires !sink.failed && !task.aborted && cltDec != tgEnc && buf.Length == READ_BUF
    requires cltDec.pos == base + |up.fed| && tgEnc.pos == HANDSHAKE_LEN + |up.fed|
    requires up.Ok(cltDec.ks, base, tgEnc.ks) && up.fed + reader.Remaining() == input
    requires splitter != null ==>
      && splitter.Valid() && splitter.View() == up.State(tgEnc.ks, splitter.proto)
      && splitter.dec != cltDec && splitter.dec != tgEnc
    modifies task, reader, reader.reader, cltDec, tgEnc, sink, buf
    modifies if splitter == null then {} else {splitter, splitter.dec}
    ensures !more ==>
      ok && old(reader.Remaining()) == [] && next == up && sink.frames == old(sink.frames) && unsent == []
    ensures more ==> |reader.Remaining()| < |old(reader.Remaining())|
    ensures more ==> next.fed + reader.Remaining() == input
    ensures ok == (!sink.failed && !task.aborted)
    ensures next.Ok(cltDec.ks, base, tgEnc.ks)
    ensures cltDec.pos == base + |next.fed| && tgEnc.pos == HANDSHAKE_LEN + |next.fed|
    ensures splitter != null ==> splitter.Valid() && splitter.View() == next.State(tgEnc.ks, splitter.proto)
    ensures var before, after := up.Frames(tgEnc.ks, Aligned(splitter)), next.Frames(tgEnc.ks, Aligned(splitter));
      && before <= after && old(sink.frames) <= sink.frames
      && sink.frames + unsent == old(sink.frames) + after[|before|..]
    ensures ok ==> unsent == []
    ensures sink.failed ==> sink.limit.Some? && unsent != []
    ensures task.aborted ==> task.stop.Some?
  {
    hide *;
    AlignedIs(splitter);
    ok, next, unsent := true, up, [];
    var chunk, piece := ReadReencrypted(reader, cltDec, tgEnc, buf);
    more := chunk != [];
    if !more {
      NothingAdded(sink.frames, up.Frames(tgEnc.ks, Aligned(splitter)));
      return;
    }
    next := Progress(up.fed + piece, up.chunks + [chunk]);
    OneRead(cltDec.ks, base, tgEnc.ks, Aligned(splitter), input, up, next, piece, chunk, reader.Remaining());
    ghost var parts;
    ok, parts, unsent := Forward(task, splitter, sink, chunk);
    assert (up.Frames(tgEnc.ks, Aligned(splitter)) + parts)[|up.Frames(tgEnc.ks, Aligned(splitter))|..] == parts;
  }

  lemma NothingAdded<T>(sent: seq<T>, before: seq<T>)
    ensures sent + [] == sent + before[|before|..]
  {}

  /** One read of an upload or download loop, through both ciphers; empty at the end. */
  method ReadReencrypted(reader: ClientReader, dec: CtrCipher, enc: CtrCipher, buf: array<byte>)
    returns (chunk: seq<byte>, ghost piece: seq<byte>)
    requires dec != enc && (buf.Length == READ_BUF || (!reader.faketls && 0 < buf.Length <= READ_BUF))
    modifies reader, reader.reader, dec, enc, buf
    ensures |chunk| == |piece| <= READ_BUF
    ensures chunk == [] ==> old(reader.Remaining()) == []
    ensures chunk != [] ==> piece + reader.Remaining() == old(reader.Remaining())
    ensures chunk == Crypt(enc.ks, old(enc.pos), Crypt(dec.ks, old(dec.pos), piece))
    ensures dec.pos == old(dec.pos) + |piece| && enc.pos == old(enc.pos) + |piece|
  {
    hide Crypt, Incoming;
    var n := reader.Read(buf);
    piece := buf[..n];
    chunk := dec.ApplyKeystream(buf[..n]);
    chunk := enc.ApplyKeystream(chunk);
  }

  /** Send one re-encrypted read: packet by packet, or as one frame. */
  method Forward(task: Net.Task, splitter: MsgSplitter?, sink: Net.WsSink, chunk: seq<byte>)
    returns (ok: bool, ghost parts: seq<seq<byte>>, ghost unsent: seq<seq<byte>>)
    requires !sink.failed && !task.aborted
    requires splitter != null ==> splitter.Valid()
    modifies task, sink
    modifies if splitter == null then {} else {splitter, splitter.dec}
    ensures ok == (!sink.failed && !task.aborted)
    ensures splitter == null ==> parts == [chunk]
    ensures splitter != null ==>
      splitter.Valid() && (splitter.View(), parts) == Step(old(splitter.View()), chunk)
    ensures old(sink.frames) <= sink.frames && sink.frames + unsent == old(sink.frames) + parts
    ensures ok ==> unsent == [] && sink.frames == old(sink.frames) + parts
    ensures sink.failed ==> sink.limit.Some? && unsent != []
    ensures task.aborted ==> task.stop.Some?
    ensures task.passed >= old(task.passed)
  {
    hide Step, Crypt;
    var frames := [chunk];
    if splitter != null { frames := splitter.Split(chunk); }
    parts := frames;
    ok, unsent := SendAll(task, sink, frames);
  }

  /** How far an upload has come: client bytes read, and the re-encrypted reads. */
  datatype Progress = Progress(fed: seq<byte>, chunks: seq<seq<byte>>) {
    ghost predicate Ok(dec: KeyStream, base: nat, enc: KeyStream) {
      && Concat(chunks) == Reencrypt(dec, base, enc, HANDSHAKE_LEN, fed)
      && forall c | c in chunks :: 1 <= |c| <= READ_BUF
    }

    ghost function State(ks: KeyStream, proto: ProtoTag): State {
      Run(Fresh(ks, proto), chunks).0
    }

    /** What the splitter still holds back. */
    ghost function Buffered(ks: KeyStream, packets: Option<ProtoTag>): seq<byte> {
      if packets.None? then [] else State(ks, packets.value).buf
    }

    ghost function Frames(ks: KeyStream, packets: Option<ProtoTag>): seq<seq<byte>> {
      if packets.None? then chunks else Run(Fresh(ks, packets.value), chunks).1
    }
  }

  lemma NothingRelayed(dec: KeyStream, base: nat, enc: KeyStream, packets: Option<ProtoTag>, input: seq<byte>)
    ensures var up := Progress([], []);
      && up.Ok(dec, base, enc) && up.fed + input == input
      && up.Frames(enc, packets) == [] && Concat([]) + up.Buffered(enc, packets) == []
      && forall proto :: up.State(enc, proto) == Fresh(enc, proto)
  {
    assert Reencrypt(dec, base, enc, HANDSHAKE_LEN, []) == [];
  }

  /** One read carries an upload forward by one re-encrypted chunk. */
  lemma OneRead(dec: KeyStream, base: nat, enc: KeyStream, packets: Option<ProtoTag>, input: seq<byte>,
                up: Progress, next: Progress, piece: seq<byte>, chunk: seq<byte>, rest: seq<byte>)
    requires up.Ok(dec, base, enc) && 1 <= |piece| <= READ_BUF
    requires chunk == Crypt(enc, HANDSHAKE_LEN + |up.fed|, Crypt(dec, base + |up.fed|, piece))
    requires next == Progress(up.fed + piece, up.chunks + [chunk])
    requires up.fed + (piece + rest) == input
    ensures next.Ok(dec, base, enc) && next.fed + rest == input
    ensures packets.Some? ==>
      var (s, parts) := Step(up.State(enc, packets.value), chunk);
      && next.State(enc, packets.value) == s
      && next.Frames(enc, packets) == up.Frames(enc, packets) + parts
    ensures packets.None? ==> next.Frames(enc, packets) == up.Frames(enc, packets) + [chunk]
  {
    hide Crypt, Step;
    ReencryptAppend(dec, base, enc, HANDSHAKE_LEN, up.fed, piece);
    ConcatSnoc(up.chunks, chunk);
    Assoc(up.fed, piece, rest);
    var last := |next.chunks| - 1;
    assert next.chunks[..last] == up.chunks && next.chunks[last] == chunk;
  }

  /** Every byte read is in a frame, or still in the splitter. */
  lemma FramesCarry(dec: KeyStream, base: nat, enc: KeyStream, packets: Option<ProtoTag>, up: Progress)
    requires up.Ok(dec, base, enc)
    ensures Concat(up.Frames(enc, packets)) + up.Buffered(enc, packets) ==
      Reencrypt(dec, base, enc, HANDSHAKE_LEN, up.fed)
    ensures forall f | f in up.Frames(enc, packets) :: f != []
  {
    hide Run, Reencrypt, Concat, Cuts, Stops, Slices, Crypt, Total;
    if packets.None? {
      assert Concat(up.chunks) + [] == Concat(up.chunks);
    } else {
      RunMeaning(enc, packets.value, up.chunks);
    }
  }

  /** An upload stopped in its read loop has delivered a front of the stream, and is left with the rest. */
  lemma CutShort(dec: KeyStream, base: nat, enc: KeyStream, packets: Option<ProtoTag>, input: seq<byte>,
                 up: Progress, sent: seq<seq<byte>>, unsent: seq<seq<byte>>, left: Left)
    requires up.Ok(dec, base, enc) && up.fed + left.unread == input
    requires sent + unsent == up.Frames(enc, packets)
    requires left.unsent == Concat(unsent) + up.Buffered(enc, packets)
    ensures Delivered(enc, packets, Reencrypt(dec, base, enc, HANDSHAKE_LEN, input), sent, left)
    ensures unsent != [] ==> left.unsent != []
  {
    hide Run, Crypt, Concat, PacketAligned;
    ReencryptAppend(dec, base, enc, HANDSHAKE_LEN, up.fed, left.unread);
    FramesCarry(dec, base, enc, packets, up);
    var relay, frames := Reencrypt(dec, base, enc, HANDSHAKE_LEN, input), up.Frames(enc, packets);
    var buf := up.Buffered(enc, packets);
    ConcatAppend(sent, unsent);
    Assoc(Concat(sent), Concat(unsent), buf);
    assert sent == frames[..|sent|];
    assert forall f | f in sent :: f in frames;
    if unsent != [] {
      assert unsent[0] == frames[|sent|] && unsent[0] in frames;
      ConcatFirst(unsent);
    }
    if packets.None? {
      assert forall f | f in sent :: f in up.chunks;
    } else if left.Nothing() {
      assert sent == frames && up.fed == input;
      RunCompletes(enc, packets.value, up.chunks, relay, sent);
    } else {
      RunDelivers(enc, packets.value, up.chunks, relay, |sent|);
    }
  }

  lemma ConcatFirst(parts: seq<seq<byte>>)
    requires parts != []
    ensures parts[0] != [] ==> Concat(parts) != []
  {}

  /** An upload that reached the end of the stream, in its flush or behind it. */
  lemma Finished(dec: KeyStream, base: nat, enc: KeyStream, packets: Option<ProtoTag>, input: seq<byte>,
                 up: Progress, sent: seq<seq<byte>>, tail: seq<seq<byte>>, unsent: seq<seq<byte>>)
    requires up.Ok(dec, base, enc) && up.fed == input
    requires up.Frames(enc, packets) <= sent && sent + unsent == up.Frames(enc, packets) + tail
    requires tail == if up.Buffered(enc, packets) == [] then [] else [up.Buffered(enc, packets)]
    ensures Delivered(enc, packets, Reencrypt(dec, base, enc, HANDSHAKE_LEN, input), sent, Left([], Concat(unsent)))
    ensures unsent == [] <==> Left([], Concat(unsent)).Nothing()
    ensures unsent != [] ==> Concat(unsent) != []
  {
    hide Run, Crypt, PacketAligned;
    var frames, buf := up.Frames(enc, packets), up.Buffered(enc, packets);
    assert input + [] == input;
    if sent == frames {
      assert unsent == (sent + unsent)[|sent|..] == tail;
      assert Concat(unsent) == buf;
      assert frames + [] == frames && [] + buf == buf;
      CutShort(dec, base, enc, packets, input, up, sent, [], Left([], buf));
    } else {
      assert |sent| > |frames| && |tail| == 1;
      assert unsent == [] && sent == frames + tail;
      FramesCarry(dec, base, enc, packets, up);
      RunCompletes(enc, packets.value, up.chunks, Reencrypt(dec, base, enc, HANDSHAKE_LEN, input), sent);
    }
  }

  /**
   * What Telegram reads off the frames of an upload: the client's plaintext in order, up to exactly
   * what is left, so that it is all of it if and only if nothing is; and in `Packets` framing one
   * packet of that plaintext per frame.
   */
  lemma TelegramReads(clt: KeyStream, tg: KeyStream, packets: Option<ProtoTag>, plain: seq<byte>,
                      sent: seq<seq<byte>>, left: Left)
    requires Delivered(tg, packets, Reencrypt(clt, HANDSHAKE_LEN, tg, HANDSHAKE_LEN, Crypt(clt, HANDSHAKE_LEN, plain)),
                       sent, left)
    ensures Crypt(tg, HANDSHAKE_LEN, Concat(sent)) <= plain
    ensures |Concat(sent)| + |left.unsent| + |left.unread| == |plain|
    ensures Crypt(tg, HANDSHAKE_LEN, Concat(sent)) == plain <==> left.Nothing()
    ensures packets.Some? ==> OnePacketEach(tg, packets.value, plain, sent)
  {
    hide Crypt, Concat, PacketAligned, OnePacketEach;
    var relay := Crypt(tg, HANDSHAKE_LEN, plain);
    CryptTwice(clt, HANDSHAKE_LEN, plain);
    assert Concat(sent) <= relay;
    FrontDecrypts(tg, HANDSHAKE_LEN, plain, Concat(sent));
    if packets.Some? { FramesDecrypt(tg, packets.value, plain, sent, left.Nothing()); }
  }

  /** Each frame decrypts, at its own offset, to the packet of the plaintext it stands for. */
  ghost predicate OnePacketEach(ks: KeyStream, proto: ProtoTag, plain: seq<byte>, sent: seq<seq<byte>>) {
    var lens := Cuts(proto, plain);
    && Total(lens) <= |plain|
    && forall i | 0 <= i < |sent| && i < |lens| ::
         Crypt(ks, HANDSHAKE_LEN + Total(lens[..i]), sent[i]) == Slices(plain, lens)[i]
  }

  lemma FrontDecrypts(ks: KeyStream, pos: nat, plain: seq<byte>, front: seq<byte>)
    requires front <= Crypt(ks, pos, plain)
    ensures Crypt(ks, pos, front) <= plain
    ensures front == Crypt(ks, pos, plain) ==> Crypt(ks, pos, front) == plain
  {
    hide Crypt;
    CryptTwice(ks, pos, plain);
    CryptDrop(ks, pos, Crypt(ks, pos, plain), |front|);
    assert Crypt(ks, pos, plain)[..|front|] == front;
  }

  lemma FramesDecrypt(ks: KeyStream, proto: ProtoTag, plain: seq<byte>, sent: seq<seq<byte>>, complete: bool)
    requires PacketAligned(ks, proto, Crypt(ks, HANDSHAKE_LEN, plain), sent, complete)
    ensures OnePacketEach(ks, proto, plain, sent)
  {
    hide Crypt, Cuts, Stops, PacketLen, Slices, Total;
    CryptTwice(ks, HANDSHAKE_LEN, plain);
    var lens := Cuts(proto, plain);
    forall i | 0 <= i < |sent| && i < |lens|
      ensures Crypt(ks, HANDSHAKE_LEN + Total(lens[..i]), sent[i]) == Slices(plain, lens)[i]
    {
      SliceDecrypts(ks, HANDSHAKE_LEN, plain, lens, i);
    }
  }

  /** A slice of an encrypted stream decrypts, at its own offset, to the slice of the plaintext. */
  lemma {:induction false} SliceDecrypts(ks: KeyStream, pos: nat, plain: seq<byte>, lens: seq<nat>, i: nat)
    requires Total(lens) <= |plain| && i < |lens|
    decreases i
    ensures Crypt(ks, pos + Total(lens[..i]), Slices(Crypt(ks, pos, plain), lens)[i]) == Slices(plain, lens)[i]
  {
    hide Crypt;
    var n := lens[0];
    CryptDrop(ks, pos, plain, n);
    if i == 0 {
      assert lens[..0] == [];
      CryptTwice(ks, pos, plain[..n]);
    } else {
      assert lens[..i][1..] == lens[1..][..i - 1];
      SliceDecrypts(ks, pos + n, plain[n..], lens[1..], i - 1);
    }
  }

  // Download and relay -------------------------------------------------------

  /** A message off the WebSocket: data in either kind, ping or pong, or anything that ends it. */
  datatype Message = Data(bytes: seq<byte>) | Control | Close

  /** The data messages before the one that ends the session. */
  function Received(messages: seq<Message>): (data: seq<seq<byte>>) {
    if messages == [] || messages[0].Close? then []
    else (if messages[0].Data? then [messages[0].bytes] else []) + Received(messages[1..])
  }

  /**
   * The writes of one direction: re-encrypted they are the part of `input` that was read, and `wire` with
   * what is unsent is those writes on the receiver's side of the framing.
   */
  ghost predicate Written(dec: KeyStream, p: nat, enc: KeyStream, q: nat, faketls: bool, input: seq<byte>,
                          writes: seq<seq<byte>>, wire: seq<byte>, left: Left) {
    && |Concat(writes)| + |left.unread| == |input| && input[|Concat(writes)|..] == left.unread
    && Concat(writes) == Reencrypt(dec, p, enc, q, input[..|Concat(writes)|])
    && wire + left.unsent == OnWire(faketls, writes)
  }

  /** One message through both ciphers and out to the client. */
  method WriteMessage(task: Net.Task, piece: seq<byte>, dec: CtrCipher, enc: CtrCipher, writer: ClientWriter)
    returns (data: seq<byte>, ok: bool, ghost unsent: seq<byte>)
    requires dec != enc && !writer.writer.failed && !task.aborted
    modifies task, dec, enc, writer.writer
    ensures data == Crypt(enc.ks, old(enc.pos), Crypt(dec.ks, old(dec.pos), piece))
    ensures dec.pos == old(dec.pos) + |piece| && enc.pos == old(enc.pos) + |piece|
    ensures ok == (!writer.writer.failed && !task.aborted)
    ensures old(writer.writer.sent) <= writer.writer.sent
    ensures writer.writer.sent + unsent == old(writer.writer.sent) + Framed(writer.faketls, data)
    ensures ok ==> unsent == [] && writer.writer.sent == old(writer.writer.sent) + Framed(writer.faketls, data)
    ensures writer.writer.failed ==> writer.writer.limit.Some?
    ensures task.aborted ==> task.stop.Some?
  {
    hide Crypt, Wire, AppData;
    data := dec.ApplyKeystream(piece);
    data := enc.ApplyKeystream(data);
    ok, unsent := writer.WriteAs(task, data);
  }

  /** Telegram to client over a WebSocket; `taken` messages are read off it. */
  method DownloadWs(task: Net.Task, messages: seq<Message>, tgDec: CtrCipher, cltEnc: CtrCipher, writer: ClientWriter)
    returns (ghost writes: seq<seq<byte>>, ghost taken: nat, ghost left: Left)
    requires tgDec != cltEnc && !writer.writer.failed && !task.aborted
    modifies task, tgDec, cltEnc, writer.writer
    ensures old(writer.writer.sent) <= writer.writer.sent
    ensures Written(tgDec.ks, old(tgDec.pos), cltEnc.ks, old(cltEnc.pos), writer.faketls, Concat(Received(messages)),
                    writes, writer.writer.sent[|old(writer.writer.sent)|..], left)
    ensures taken <= |messages| && left.unread == Concat(Received(messages[taken..]))
    ensures !writer.writer.failed && !task.aborted ==> left.Nothing()
    ensures writer.writer.failed ==> writer.writer.limit.Some?
    ensures task.aborted ==> task.stop.Some?
    ensures old(task.Over()) ==>
      writer.writer.sent == old(writer.writer.sent) && !writer.writer.failed && taken == 0 && left.unsent == []
  {
    hide *;
    ghost var p, q, start, input := tgDec.pos, cltEnc.pos, writer.writer.sent, Concat(Received(messages));
    ghost var over := task.Over();
    ghost var done: seq<byte> := [];
    writes, taken := [], 0;
    NothingWritten(tgDec.ks, p, cltEnc.ks, q, writer.faketls);
    assert messages[0..] == messages;
    var i := 0;
    while true
      invariant i == taken <= |messages|
      invariant done + Concat(Received(messages[i..])) == input
      invariant tgDec.pos == p + |done| && cltEnc.pos == q + |done|
      invariant Concat(writes) == Reencrypt(tgDec.ks, p, cltEnc.ks, q, done)
      invariant writer.writer.sent == start + OnWire(writer.faketls, writes) && !writer.writer.failed && !task.aborted
      invariant over ==> task.Over() && i == 0 && writes == []
      decreases |messages| - i
    {
      var ok := task.Await();
      if !ok || i == |messages| || messages[i].Close? {
        if ok { NoMessages(messages, i); }
        left := Left(Concat(Received(messages[i..])), []);
        assert writer.writer.sent + [] == writer.writer.sent;
        StoppedWriting(tgDec.ks, p, cltEnc.ks, q, writer.faketls, done, left.unread, writes,
                       start, writer.writer.sent, []);
        return;
      }
      NextMessage(messages, i, done);
      var data;
      ghost var unsent := [];
      if messages[i].Data? {
        data, ok, unsent := WriteMessage(task, messages[i].bytes, tgDec, cltEnc, writer);
        OneWrite(tgDec.ks, p, cltEnc.ks, q, writer.faketls, done, messages[i].bytes, data, writes);
        done, writes := done + messages[i].bytes, writes + [data];
      }
      i, taken := i + 1, taken + 1;
      if !ok {
        left := Left(Concat(Received(messages[i..])), unsent);
        StoppedWriting(tgDec.ks, p, cltEnc.ks, q, writer.faketls, done, left.unread, writes,
                       start, writer.writer.sent, unsent);
        return;
      }
    }
  }

  /**
   * One direction of a relay or TCP bridge: read, re-encrypt and write until the source ends, a write
   * fails or the task is aborted.
   */
  method Pump(task: Net.Task, reader: ClientReader, dec: CtrCipher, enc: CtrCipher, writer: ClientWriter, bufSize: nat)
    returns (ghost writes: seq<seq<byte>>, ghost left: Left)
    requires !writer.writer.failed && !task.aborted
    requires dec != enc && (bufSize == READ_BUF || (!reader.faketls && 0 < bufSize <= READ_BUF))
    modifies task, reader, reader.reader, dec, enc, writer.writer
    ensures old(writer.writer.sent) <= writer.writer.sent
    ensures Written(dec.ks, old(dec.pos), enc.ks, old(enc.pos), writer.faketls, old(reader.Remaining()),
                    writes, writer.writer.sent[|old(writer.writer.sent)|..], left)
    ensures left.unread == [] || left.unread == reader.Remaining()
    ensures !writer.writer.failed && !task.aborted ==> left.Nothing()
    ensures writer.writer.failed ==> writer.writer.limit.Some?
    ensures task.aborted ==> task.stop.Some?
    ensures old(task.Over()) ==>
      && writer.writer.sent == old(writer.writer.sent) && !writer.writer.failed
      && left == Left(old(reader.Remaining()), [])
  {
    hide *;
    ghost var p, q, start, input := dec.pos, enc.pos, writer.writer.sent, reader.Remaining();
    ghost var over := task.Over();
    ghost var done: seq<byte> := [];
    writes := [];
    NothingWritten(dec.ks, p, enc.ks, q, writer.faketls);
    var buf := new byte[bufSize];
    while true
      invariant done + reader.Remaining() == input
      invariant dec.pos == p + |done| && enc.pos == q + |done|
      invariant Concat(writes) == Reencrypt(dec.ks, p, enc.ks, q, done)
      invariant writer.writer.sent == start + OnWire(writer.faketls, writes) && !writer.writer.failed && !task.aborted
      invariant over ==> task.Over() && done == [] && writes == []
      decreases |reader.Remaining()|
    {
      var ok := task.Await();
      ghost var rest := reader.Remaining();
      if !ok {
        left := Left(rest, []);
        assert writer.writer.sent + [] == writer.writer.sent;
        StoppedWriting(dec.ks, p, enc.ks, q, writer.faketls, done, rest, writes, start, writer.writer.sent, []);
        return;
      }
      var chunk, piece := ReadReencrypted(reader, dec, enc, buf);
      if chunk == [] {
        left := Left([], []);
        assert writer.writer.sent + [] == writer.writer.sent;
        StoppedWriting(dec.ks, p, enc.ks, q, writer.faketls, done, [], writes, start, writer.writer.sent, []);
        return;
      }
      rest := reader.Remaining();
      OneWrite(dec.ks, p, enc.ks, q, writer.faketls, done, piece, chunk, writes);
      Assoc(done, piece, rest);
      ghost var unsent;
      ok, unsent := writer.WriteAs(task, chunk);
      done, writes := done + piece, writes + [chunk];
      if !ok {
        left := Left(rest, unsent);
        StoppedWriting(dec.ks, p, enc.ks, q, writer.faketls, done, rest, writes, start, writer.writer.sent, unsent);
        return;
      }
    }
  }

  /**
   * What the receiver of a direction reads, framed or raw and under its own cipher: the sender's
   * plaintext in order, and all of it if and only if nothing is left.
   */
  lemma ReceiverReads(from: KeyStream, p: nat, to: KeyStream, q: nat, faketls: bool, plain: seq<byte>,
                      writes: seq<seq<byte>>, wire: seq<byte>, left: Left)
    requires Written(from, p, to, q, faketls, Crypt(from, p, plain), writes, wire, left)
    ensures Crypt(to, q, Incoming(faketls, [], wire)) <= plain
    ensures Crypt(to, q, Incoming(faketls, [], wire)) == plain <==> left.Nothing()
  {
    hide Crypt, Concat, OnWire, Incoming;
    var got, n := Incoming(faketls, [], wire), |Concat(writes)|;
    assert wire <= wire + left.unsent;
    FrontArrives(faketls, writes, wire);
    WritesArrive(faketls, writes);
    CryptDrop(from, p, plain, n);
    CryptTwice(from, p, plain[..n]);
    assert Concat(writes) == Crypt(to, q, plain[..n]);
    FrontDecrypts(to, q, plain[..n], got);
    if left.Nothing() {
      assert wire + [] == wire && plain[..n] == plain;
    } else {
      CutsLess(got, Concat(writes), plain, wire, left, OnWire(faketls, writes));
    }
  }

  lemma CutsLess(got: seq<byte>, data: seq<byte>, plain: seq<byte>, wire: seq<byte>, left: Left, all: seq<byte>)
    requires got <= data && |data| + |left.unread| == |plain| && wire + left.unsent == all
    requires got == data ==> wire == all
    requires !left.Nothing()
    ensures |got| < |plain|
  {}

  lemma NothingWritten(dec: KeyStream, p: nat, enc: KeyStream, q: nat, faketls: bool)
    ensures Concat([]) == Reencrypt(dec, p, enc, q, []) == OnWire(faketls, []) == []
  {}

  lemma OneWrite(dec: KeyStream, p: nat, enc: KeyStream, q: nat, faketls: bool, done: seq<byte>, piece: seq<byte>,
                 data: seq<byte>, writes: seq<seq<byte>>)
    requires Concat(writes) == Reencrypt(dec, p, enc, q, done)
    requires data == Crypt(enc, q + |done|, Crypt(dec, p + |done|, piece))
    ensures Concat(writes + [data]) == Reencrypt(dec, p, enc, q, done + piece)
    ensures OnWire(faketls, writes + [data]) == OnWire(faketls, writes) + Framed(faketls, data)
  {
    hide Concat, Crypt, OnWire;
    ConcatSnoc(writes, data);
    ReencryptAppend(dec, p, enc, q, done, piece);
    OnWireSnoc(faketls, writes, data);
  }

  lemma StoppedWriting(dec: KeyStream, p: nat, enc: KeyStream, q: nat, faketls: bool, done: seq<byte>, rest: seq<byte>,
                       writes: seq<seq<byte>>, start: seq<byte>, sent: seq<byte>, unsent: seq<byte>)
    requires Concat(writes) == Reencrypt(dec, p, enc, q, done)
    requires start <= sent && (sent + unsent == start + OnWire(faketls, writes))
    ensures Written(dec, p, enc, q, faketls, done + rest, writes, sent[|start|..], Left(rest, unsent))
    ensures Left(rest, unsent).Nothing() <==> rest == [] && unsent == []
  {
    hide Concat, Crypt, OnWire;
    assert (done + rest)[..|done|] == done;
    assert sent[|start|..] + unsent == (sent + unsent)[|start|..];
    assert OnWire(faketls, writes) == (start + OnWire(faketls, writes))[|start|..];
  }

  lemma NextMessage(messages: seq<Message>, i: nat, done: seq<byte>)
    requires i < |messages| && !messages[i].Close?
    ensures done + Concat(Received(messages[i..])) ==
      (if messages[i].Data? then done + messages[i].bytes else done) + Concat(Received(messages[i + 1..]))
  {
    assert messages[i..][1..] == messages[i + 1..];
    var later := Received(messages[i + 1..]);
    if messages[i].Data? {
      assert ([messages[i].bytes] + later)[1..] == later;
      Assoc(done, messages[i].bytes, Concat(later));
    } else {
      assert [] + later == later;
    }
  }

  lemma NoMessages(messages: seq<Message>, i: nat)
    requires i == |messages| || (i < |messages| && messages[i].Close?)
    ensures Concat(Received(messages[i..])) == []
  {}
}

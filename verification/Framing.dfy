/** Cutting an encrypted MTProto stream into packets: length parsing and what a run of cuts means. */
module Framing {
  import opened Bytes
  import opened Ciphers

  // Length parsers -----------------------------------------------------------

  function Le32(b0: nat, b1: nat, b2: nat, b3: nat): (n: nat) {
    b0 + 0x100 * b1 + 0x1_0000 * b2 + 0x100_0000 * b3
  }

  function AbridgedLen(plain: seq<byte>): (len: Option<nat>)
    requires plain != []
  {
    var first := plain[0];
    if first == 0x7F || first == 0xFF then
      if |plain| < 4 then None
      else
        Complete(plain, 4, Le32(plain[1], plain[2], plain[3], 0) * 4)
    else
      Complete(plain, 1, Le32(first % 0x80, 0, 0, 0) * 4)
  }

  function IntermediateLen(plain: seq<byte>): (len: Option<nat>) {
    if |plain| < 4 then None
    else
      Complete(plain, 4, Le32(plain[0], plain[1], plain[2], plain[3]) % 0x8000_0000)
  }

  /** The common tail of both parsers: a zero payload disables, a short one waits. */
  function Complete(plain: seq<byte>, headerLen: nat, payloadLen: nat): (len: Option<nat>) {
    if payloadLen == 0 then Some(0)
    else if |plain| < headerLen + payloadLen then None
    else Some(headerLen + payloadLen)
  }

  function PacketLen(proto: ProtoTag, plain: seq<byte>): (len: Option<nat>)
    ensures len.Some? ==> len.value <= |plain| && plain != []
  {
    if plain == [] then None
    else if proto == Abridged then AbridgedLen(plain)
    else IntermediateLen(plain)
  }

  /** Bytes that arrive later never change a length that was already decided. */
  lemma PacketLenMonotone(proto: ProtoTag, a: seq<byte>, b: seq<byte>)
    requires PacketLen(proto, a).Some?
    ensures PacketLen(proto, a + b) == PacketLen(proto, a)
  {
    assert forall i | 0 <= i < |a| :: (a + b)[i] == a[i];
  }

  lemma PacketLenMonotoneIfSome(proto: ProtoTag, a: seq<byte>, b: seq<byte>)
    ensures PacketLen(proto, a).Some? ==> PacketLen(proto, a + b) == PacketLen(proto, a)
  {
    if PacketLen(proto, a).Some? { PacketLenMonotone(proto, a, b); }
  }

  // One-shot parse -----------------------------------------------------------

  /** Lengths of the leading complete packets of a plaintext stream. */
  function Cuts(proto: ProtoTag, plain: seq<byte>): (lens: seq<nat>)
    decreases |plain|
  {
    match PacketLen(proto, plain)
    case None => []
    case Some(n) => if n == 0 then [] else [n] + Cuts(proto, plain[n..])
  }

  /** Whether a zero-length header follows those packets. */
  predicate Stops(proto: ProtoTag, plain: seq<byte>)
    decreases |plain|
  {
    match PacketLen(proto, plain)
    case None => false
    case Some(n) => n == 0 || Stops(proto, plain[n..])
  }

  function Total(lens: seq<nat>): (t: nat) {
    if lens == [] then 0 else lens[0] + Total(lens[1..])
  }

  /** Cut the front of `s` into pieces of the given lengths. */
  function Slices(s: seq<byte>, lens: seq<nat>): (parts: seq<seq<byte>>)
    requires Total(lens) <= |s|
    ensures |parts| == |lens|
  {
    if lens == [] then [] else [s[..lens[0]]] + Slices(s[lens[0]..], lens[1..])
  }

  /** The bytes behind the complete packets: where the stream stops or waits. */
  lemma {:induction false} CutsTotal(proto: ProtoTag, plain: seq<byte>)
    ensures Total(Cuts(proto, plain)) <= |plain|
    ensures forall n | n in Cuts(proto, plain) :: n > 0
    ensures var rest := plain[Total(Cuts(proto, plain))..];
      PacketLen(proto, rest) == if Stops(proto, plain) then Some(0) else None
    decreases |plain|
  {
    match PacketLen(proto, plain)
    case None =>
      assert plain[0..] == plain;
    case Some(n) =>
      if n == 0 {
        assert plain[0..] == plain;
      } else {
        CutsTotal(proto, plain[n..]);
        var t := Total(Cuts(proto, plain[n..]));
        assert Cuts(proto, plain)[1..] == Cuts(proto, plain[n..]);
        assert plain[n..][t..] == plain[n + t..];
      }
  }

  /** Parsing more bytes keeps every packet already found and goes on from the rest. */
  lemma {:induction false} CutsExtend(proto: ProtoTag, a: seq<byte>, b: seq<byte>)
    ensures Total(Cuts(proto, a)) <= |a|
    ensures Stops(proto, a) ==> Cuts(proto, a + b) == Cuts(proto, a) && Stops(proto, a + b)
    ensures !Stops(proto, a) ==>
      var rest := a[Total(Cuts(proto, a))..] + b;
      && Cuts(proto, a + b) == Cuts(proto, a) + Cuts(proto, rest)
      && Stops(proto, a + b) == Stops(proto, rest)
    decreases |a|
  {
    PacketLenMonotoneIfSome(proto, a, b);
    hide PacketLen;
    match PacketLen(proto, a)
    case None =>
      assert a[0..] + b == a + b;
    case Some(n) =>
      if n > 0 {
        var a', tail := a[n..], Cuts(proto, a[n..]);
        CutsExtend(proto, a', b);
        assert (a + b)[n..] == a' + b;
        assert Cuts(proto, a)[1..] == tail;
        assert a'[Total(tail)..] == a[Total(Cuts(proto, a))..];
        Reassoc(n, tail, Cuts(proto, a'[Total(tail)..] + b));
      }
  }

  lemma Reassoc(n: nat, a: seq<nat>, b: seq<nat>)
    ensures [n] + (a + b) == ([n] + a) + b
  {}

  lemma {:induction false} TotalAppend(a: seq<nat>, b: seq<nat>)
    ensures Total(a + b) == Total(a) + Total(b)
  {
    if a == [] {
      assert a + b == b;
    } else {
      assert (a + b)[1..] == a[1..] + b;
      TotalAppend(a[1..], b);
    }
  }

  lemma {:induction false} SlicesAppend(s: seq<byte>, a: seq<nat>, b: seq<nat>)
    requires Total(a) + Total(b) <= |s|
    ensures Total(a + b) <= |s|
    ensures Slices(s, a + b) == Slices(s, a) + Slices(s[Total(a)..], b)
  {
    TotalAppend(a, b);
    if a == [] {
      assert a + b == b && s[0..] == s;
    } else {
      hide Total;
      var n, rest := a[0], s[a[0]..];
      assert Total(a) == n + Total(a[1..]) by { UnfoldTotal(a); }
      SlicesAppend(rest, a[1..], b);
      assert (a + b)[1..] == a[1..] + b && (a + b)[0] == n;
      assert rest[Total(a[1..])..] == s[Total(a)..];
    }
  }

  lemma UnfoldTotal(a: seq<nat>)
    requires a != []
    ensures Total(a) == a[0] + Total(a[1..])
  {}

  lemma {:induction false} SlicesConcat(s: seq<byte>, lens: seq<nat>)
    requires Total(lens) <= |s|
    ensures Concat(Slices(s, lens)) == s[..Total(lens)]
  {
    if lens != [] {
      var rest := s[lens[0]..];
      SlicesConcat(rest, lens[1..]);
      assert Slices(s, lens)[1..] == Slices(rest, lens[1..]);
      assert s[..Total(lens)] == s[..lens[0]] + rest[..Total(lens[1..])];
    }
  }

  lemma {:induction false} SlicesOfPrefix(s: seq<byte>, more: seq<byte>, lens: seq<nat>)
    requires Total(lens) <= |s|
    ensures Slices(s + more, lens) == Slices(s, lens)
  {
    if lens != [] {
      SlicesOfPrefix(s[lens[0]..], more, lens[1..]);
      assert (s + more)[lens[0]..] == s[lens[0]..] + more;
      assert (s + more)[..lens[0]] == s[..lens[0]];
    }
  }

  // Splitter state -----------------------------------------------------------

  /** The splitter's observable state: `fed` counts the bytes its cipher has seen. */
  datatype State = State(ks: KeyStream, proto: ProtoTag, fed: nat, buf: seq<byte>, disabled: bool) {
    /** Keystream position of the first buffered byte. */
    function Base(): (p: nat)
      requires |buf| <= fed
    {
      HANDSHAKE_LEN + fed - |buf|
    }

    predicate Ok() {
      && |buf| <= fed
      && (if disabled then buf == [] else PacketLen(proto, Crypt(ks, Base(), buf)) == None)
    }
  }

  function Fresh(ks: KeyStream, proto: ProtoTag): (s: State)
    ensures s.Ok()
  {
    State(ks, proto, 0, [], false)
  }

  /** Everything a buffer yields: its packets, and all of it once a zero header shows. */
  function Yield(s: State): (r: (State, seq<seq<byte>>))
    requires |s.buf| <= s.fed
    ensures |r.0.buf| <= r.0.fed
  {
    var plain := Crypt(s.ks, s.Base(), s.buf);
    var lens := Cuts(s.proto, plain);
    CutsTotal(s.proto, plain);
    var parts, rest := Slices(s.buf, lens), s.buf[Total(lens)..];
    if Stops(s.proto, plain) then
      (s.(buf := [], disabled := true), parts + [rest])
    else
      (s.(buf := rest), parts)
  }

  /** One `split` call. */
  function Step(s: State, chunk: seq<byte>): (r: (State, seq<seq<byte>>))
    requires |s.buf| <= s.fed
    ensures |r.0.buf| <= r.0.fed
  {
    if chunk == [] then (s, [])
    else if s.disabled then (s, [chunk])
    else Yield(s.(fed := s.fed + |chunk|, buf := s.buf + chunk))
  }

  lemma YieldFacts(s: State)
    requires |s.buf| <= s.fed && !s.disabled
    ensures Yield(s).0.Ok()
    ensures Concat(Yield(s).1) + Yield(s).0.buf == s.buf
    ensures forall f | f in Yield(s).1 :: f != []
  {
    hide PacketLen, Cuts, Stops, Slices, Crypt, Total, Concat;
    var plain := Crypt(s.ks, s.Base(), s.buf);
    var lens := Cuts(s.proto, plain);
    CutsTotal(s.proto, plain);
    SlicesConcat(s.buf, lens);
    SlicesNonEmpty(s.buf, lens);
    CryptDrop(s.ks, s.Base(), s.buf, Total(lens));
    ConcatSnoc(Slices(s.buf, lens), s.buf[Total(lens)..]);
    assert s.buf[..Total(lens)] + s.buf[Total(lens)..] == s.buf;
    if Stops(s.proto, plain) {
      assert plain[Total(lens)..] != [];
    }
  }

  /** A call keeps the lockstep, loses and invents no byte, and sends no empty frame. */
  lemma StepFacts(s: State, chunk: seq<byte>)
    requires s.Ok()
    ensures Step(s, chunk).0.Ok()
    ensures Concat(Step(s, chunk).1) + Step(s, chunk).0.buf == s.buf + chunk
    ensures forall f | f in Step(s, chunk).1 :: f != []
  {
    hide PacketLen, Cuts, Stops, Slices, Crypt, Total, Yield;
    if chunk != [] {
      if s.disabled {
        ConcatSnoc([], chunk);
        assert [] + [chunk] == [chunk];
      } else {
        YieldFacts(s.(fed := s.fed + |chunk|, buf := s.buf + chunk));
      }
    }
  }

  lemma {:induction false} SlicesNonEmpty(s: seq<byte>, lens: seq<nat>)
    requires Total(lens) <= |s| && forall n | n in lens :: n > 0
    ensures forall f | f in Slices(s, lens) :: f != []
  {
    if lens != [] {
      assert lens[0] in lens && forall n | n in lens[1..] :: n in lens;
      SlicesNonEmpty(s[lens[0]..], lens[1..]);
    }
  }

  /** All frames of a run of `split` calls, and the state it leaves. */
  function Run(s: State, chunks: seq<seq<byte>>): (r: (State, seq<seq<byte>>))
    requires |s.buf| <= s.fed
    ensures |r.0.buf| <= r.0.fed
  {
    if chunks == [] then (s, [])
    else
      var last := |chunks| - 1;
      var before := Run(s, chunks[..last]);
      var step := Step(before.0, chunks[last]);
      (step.0, before.1 + step.1)
  }

  /**
   * The frames `frames` and the state `s` are what the stream `all` means: the packets of
   * its one-shot parse, and behind a zero-length header the remaining bytes unparsed.
   */
  ghost predicate Means(ks: KeyStream, proto: ProtoTag, all: seq<byte>, s: State, frames: seq<seq<byte>>) {
    var plain := Crypt(ks, HANDSHAKE_LEN, all);
    var lens := Cuts(proto, plain);
    && s.ks == ks && s.proto == proto
    && Total(lens) <= |all|
    && Concat(frames) + s.buf == all
    && s.disabled == Stops(proto, plain)
    && (!s.disabled ==> s.fed == |all| && frames == Slices(all, lens))
    && (s.disabled ==> |lens| < |frames| && frames[..|lens|] == Slices(all, lens))
  }

  lemma MeansStep(ks: KeyStream, proto: ProtoTag, all: seq<byte>, s: State, frames: seq<seq<byte>>, chunk: seq<byte>)
    requires s.Ok() && Means(ks, proto, all, s, frames)
    ensures Means(ks, proto, all + chunk, Step(s, chunk).0, frames + Step(s, chunk).1)
  {
    hide PacketLen, Cuts, Stops, Slices, Crypt, Total, Concat, Step, Means;
    var (s', parts) := Step(s, chunk);
    if chunk == [] {
      StepNothing(s);
      assert all + chunk == all && frames + [] == frames;
    } else {
      StepFacts(s, chunk);
      MeansConcat(ks, proto, all, s, frames);
      ConcatAppend(frames, parts);
      Assoc(Concat(frames), Concat(parts), s'.buf);
      Assoc(Concat(frames), s.buf, chunk);
      MeansExtend(ks, proto, all, s, frames, chunk);
    }
  }

  lemma StepNothing(s: State)
    requires |s.buf| <= s.fed
    ensures Step(s, []) == (s, [])
  {}

  lemma MeansConcat(ks: KeyStream, proto: ProtoTag, all: seq<byte>, s: State, frames: seq<seq<byte>>)
    requires Means(ks, proto, all, s, frames)
    ensures Concat(frames) + s.buf == all
  {}

  lemma MeansExtend(ks: KeyStream, proto: ProtoTag, all: seq<byte>, s: State, frames: seq<seq<byte>>, chunk: seq<byte>)
    requires s.Ok() && Means(ks, proto, all, s, frames) && chunk != []
    requires Concat(frames + Step(s, chunk).1) + Step(s, chunk).0.buf == all + chunk
    ensures Means(ks, proto, all + chunk, Step(s, chunk).0, frames + Step(s, chunk).1)
  {
    hide PacketLen, Cuts, Stops, Slices, Crypt, Total, Concat;
    var p, q := Crypt(ks, HANDSHAKE_LEN, all), Crypt(ks, HANDSHAKE_LEN + |all|, chunk);
    var lens := Cuts(proto, p);
    CryptAppend(ks, HANDSHAKE_LEN, all, chunk);
    CutsExtend(proto, p, q);
    SlicesOfPrefix(all, chunk, lens);
    if s.disabled {
      assert (frames + [chunk])[..|lens|] == frames[..|lens|];
    } else {
      var t := Total(lens);
      SlicesConcat(all, lens);
      assert s.buf == all[t..];
      CryptDrop(ks, HANDSHAKE_LEN, all, t);
      CryptAppend(ks, HANDSHAKE_LEN + t, s.buf, chunk);
      var more := Cuts(proto, p[t..] + q);
      CutsTotal(proto, p[t..] + q);
      SlicesAppend(all + chunk, lens, more);
      assert (all + chunk)[t..] == s.buf + chunk;
    }
  }

  /** Every run of calls emits exactly what the one-shot parse of the decrypted stream means. */
  lemma {:induction false} RunMeaning(ks: KeyStream, proto: ProtoTag, chunks: seq<seq<byte>>)
    ensures var (s, frames) := Run(Fresh(ks, proto), chunks);
      s.Ok() && Means(ks, proto, Concat(chunks), s, frames) && forall f | f in frames :: f != []
  {
    if chunks == [] {
      assert Crypt(ks, HANDSHAKE_LEN, []) == [];
    } else {
      var last := |chunks| - 1;
      RunMeaning(ks, proto, chunks[..last]);
      assert chunks == chunks[..last] + [chunks[last]];
      ConcatSnoc(chunks[..last], chunks[last]);
      var (s, frames) := Run(Fresh(ks, proto), chunks[..last]);
      StepFacts(s, chunks[last]);
      MeansStep(ks, proto, Concat(chunks[..last]), s, frames, chunks[last]);
    }
  }

  /**
   * Chunking independence: two ways of cutting the same stream into calls give the same
   * packets; only the frames behind a zero-length header may be cut differently, and even
   * those carry the same bytes.
   */
  lemma ChunkingIndependence(ks: KeyStream, proto: ProtoTag, a: seq<seq<byte>>, b: seq<seq<byte>>)
    requires Concat(a) == Concat(b)
    ensures var (s, f) := Run(Fresh(ks, proto), a);
      var (t, g) := Run(Fresh(ks, proto), b);
      var packets := |Cuts(proto, Crypt(ks, HANDSHAKE_LEN, Concat(a)))|;
      && s.disabled == t.disabled && s.buf == t.buf
      && (if s.disabled then
            && packets < |f| && packets < |g| && f[..packets] == g[..packets]
            && Concat(f[packets..]) == Concat(g[packets..])
          else f == g)
  {
    hide PacketLen, Cuts, Stops, Slices, Crypt, Total, Concat, Run;
    RunMeaning(ks, proto, a);
    RunMeaning(ks, proto, b);
    var (s, f) := Run(Fresh(ks, proto), a);
    var (t, g) := Run(Fresh(ks, proto), b);
    if s.disabled {
      assert s.buf == [] && t.buf == [];
      assert Concat(f) + [] == Concat(f) && Concat(g) + [] == Concat(g);
      var packets := |Cuts(proto, Crypt(ks, HANDSHAKE_LEN, Concat(a)))|;
      SlicesConcat(Concat(a), Cuts(proto, Crypt(ks, HANDSHAKE_LEN, Concat(a))));
      SplitConcat(f, packets);
      SplitConcat(g, packets);
    } else {
      assert s.buf == Concat(a)[|Concat(f)|..] && t.buf == Concat(b)[|Concat(g)|..];
    }
  }

  lemma SplitConcat(f: seq<seq<byte>>, n: nat)
    requires n <= |f|
    ensures Concat(f) == Concat(f[..n]) + Concat(f[n..])
  {
    assert f == f[..n] + f[n..];
    ConcatAppend(f[..n], f[n..]);
  }
}

/**
 * One client connection over a WebSocket upstream: from its first byte, a FakeTLS hello where the
 * listener asks for one, to the frames Telegram gets and the bytes that go back.
 */
module Session {
  import opened Bytes
  import opened Ciphers
  import ClientHello
  import opened FakeTls
  import opened Handshake
  import Splitter
  import opened Net
  import opened TlsRecords
  import opened ClientStream
  import opened Bridge

  /** Raw obfuscated streams, or FakeTLS for a domain with the random parts of its answer. */
  datatype Inbound = Plain | FakeTls(domain: seq<byte>, keyShare: seq<byte>, cert: seq<byte>)

  /** The listener: its primitives, secrets and inbound framing; `checked` builds panic on overflow. */
  datatype Server = Server(
    suite: Suite, utf8: seq<byte> -> bool, secrets: seq<seq<byte>>, inbound: Inbound, checked: bool)
  {
    /** The obfuscated stream inside what a client sends; none where its hello is not welcome. */
    function Arrived(stream: seq<byte>): (s: Option<seq<byte>>) {
      if inbound.Plain? then Some(stream)
      else if Welcome(suite, utf8, secrets, inbound.domain, stream) then
        Some(Payload(Opening(stream).value.1, READ_BUF))
      else None
    }

    /** What the listener answers before it reads on. */
    function Answer(stream: seq<byte>): (answer: seq<byte>) {
      if inbound.Plain? || !Welcome(suite, utf8, secrets, inbound.domain, stream) then []
      else
        var (hello, secret) := FirstAuthentic(suite, utf8, Opening(stream).value.0, secrets).value;
        var digest := ServerDigest(suite, secret, hello, inbound.keyShare, inbound.cert);
        Wire(ServerRecords(hello, digest, inbound.keyShare, inbound.cert))
    }
  }

  /** What a client sends: a handshake made for `secret`, then `plain` under its own cipher. */
  datatype Client = Client(secret: seq<byte>, handshake: seq<byte>, proto: ProtoTag, dcIdx: i16, plain: seq<byte>) {
    /** `stream` is this client's, and the handler matches its handshake to its own secret. */
    ghost predicate Sends(server: Server, stream: seq<byte>) {
      && |handshake| == HANDSHAKE_LEN
      && Carries(Own(server.suite), handshake, proto, dcIdx)
      && server.Arrived(stream) == Some(handshake + Crypt(Own(server.suite), HANDSHAKE_LEN, plain))
      && FirstMatch(server.suite, handshake, server.secrets).Some?
      && FirstMatch(server.suite, handshake, server.secrets).value.1 == secret
    }

    function Own(suite: Suite): KeyStream
      requires |handshake| == HANDSHAKE_LEN
    {
      ClientKs(suite, handshake[8..56], secret)
    }
  }

  /** The first configured secret that the handshake parses under. */
  function FirstMatch(suite: Suite, handshake: seq<byte>, secrets: seq<seq<byte>>)
    : (r: Option<(HandshakeInfo, seq<byte>)>)
    requires |handshake| == HANDSHAKE_LEN
    ensures r.Some? ==>
      exists i | 0 <= i < |secrets| ::
        && r.value.1 == secrets[i] && ParseHandshake(suite, handshake, secrets[i]) == Some(r.value.0)
        && forall j | 0 <= j < i :: ParseHandshake(suite, handshake, secrets[j]).None?
    ensures r.None? ==> forall s | s in secrets :: ParseHandshake(suite, handshake, s).None?
  {
    if secrets == [] then None
    else
      var parsed := ParseHandshake(suite, handshake, secrets[0]);
      if parsed.Some? then Some((parsed.value, secrets[0])) else FirstMatch(suite, handshake, secrets[1..])
  }

  /** A client whose secret is configured is matched, unless an earlier secret happens to fit too. */
  lemma {:induction false} OwnSecretMatches(suite: Suite, client: Client, before: seq<seq<byte>>, after: seq<seq<byte>>)
    requires |client.handshake| == HANDSHAKE_LEN
    requires Carries(client.Own(suite), client.handshake, client.proto, client.dcIdx)
    requires forall s | s in before :: ParseHandshake(suite, client.handshake, s).None?
    ensures var found := FirstMatch(suite, client.handshake, before + [client.secret] + after);
      && found.Some? && found.value.1 == client.secret
      && found.value.0.proto == client.proto && found.value.0.isMedia == (client.dcIdx < 0)
      && found.value.0.dcId == if client.dcIdx < 0 then -(client.dcIdx as int) else client.dcIdx as int
  {
    hide ParseHandshake, Carries, ClientKs;
    if before == [] {
      ParsesBack(suite, client.handshake, client.secret, client.proto, client.dcIdx);
    } else {
      assert before[0] in before && forall s | s in before[1..] :: s in before;
      OwnSecretMatches(suite, client, before[1..], after);
      assert (before + [client.secret] + after)[1..] == before[1..] + [client.secret] + after;
    }
  }

  /** What reaches Telegram: the init it decodes, then its own reading of the rest. */
  ghost predicate TelegramGets(suite: Suite, frames: seq<seq<byte>>, client: Client, tunnel: bool, left: Left) {
    && frames != [] && |frames[0]| == HANDSHAKE_LEN
    && Carries(RelayKs(suite, frames[0]), frames[0], client.proto, client.dcIdx)
    && BodyReads(RelayKs(suite, frames[0]), frames[1..], client, tunnel, left)
  }

  /** The client's plaintext in order, up to exactly what is left of it. */
  ghost predicate BodyReads(ks: KeyStream, body: seq<seq<byte>>, client: Client, tunnel: bool, left: Left) {
    && Crypt(ks, HANDSHAKE_LEN, Concat(body)) <= client.plain
    && |Concat(body)| + |left.unsent| + |left.unread| == |client.plain|
    && (Crypt(ks, HANDSHAKE_LEN, Concat(body)) == client.plain <==> left.Nothing())
    && (if tunnel then forall f | f in body :: 1 <= |f| <= READ_BUF
        else OnePacketEach(ks, client.proto, client.plain, body))
  }

  /** Read the 64-byte init, raw or behind a FakeTLS hello, and keep the rest of the stream. */
  method ReadInit(server: Server, tcp: TcpReader, out: TcpWriter) returns (r: Option<(seq<byte>, ClientReader)>)
    requires !out.failed
    modifies tcp, out
    ensures out.failed ==> out.limit.Some?
    ensures var arrived := server.Arrived(old(tcp.data));
      && (r.Some? <==> arrived.Some? && |arrived.value| >= HANDSHAKE_LEN && !out.failed)
      && (arrived.None? ==> out.sent == old(out.sent))
      && (r.Some? ==>
            && |r.value.0| == HANDSHAKE_LEN
            && fresh(r.value.1) && r.value.1.reader == tcp && r.value.1.faketls == server.inbound.FakeTls?
            && r.value.0 + r.value.1.Remaining() == arrived.value
            && out.sent == old(out.sent) + server.Answer(old(tcp.data)))
  {
    hide Welcome, Opening, Payload, FirstAuthentic, ServerRecords, ServerDigest, Wire;
    ghost var all := tcp.data;
    if server.inbound.FakeTls? {
      var (domain, keyShare, cert) := (server.inbound.domain, server.inbound.keyShare, server.inbound.cert);
      var init, answered :=
        AcceptInboundFaketls(server.suite, server.utf8, tcp, out, server.secrets, domain, keyShare, cert);
      if init.None? { return None; }
      var reader := new ClientReader(true, tcp, init.value.1);
      return Some((init.value.0, reader));
    }
    IncomingPlain([], all);
    var buf := new byte[HANDSHAKE_LEN];
    var ok := tcp.ReadExact(buf, HANDSHAKE_LEN);
    if !ok { return None; }
    assert buf[..] == buf[..HANDSHAKE_LEN];
    assert all[..HANDSHAKE_LEN] + all[HANDSHAKE_LEN..] == all;
    assert out.sent + [] == out.sent;
    var reader := new ClientReader(false, tcp, []);
    return Some((buf[..], reader));
  }

  lemma IncomingPlain(pending: seq<byte>, data: seq<byte>)
    ensures Incoming(false, pending, data) == data
  {}

  datatype Accepted = Accepted(reader: ClientReader, info: HandshakeInfo, secret: seq<byte>, dcIdx: i16)

  /** What a handshake means to the handler: who it is for, under which secret. */
  function Understood(suite: Suite, handshake: seq<byte>, secrets: seq<seq<byte>>, checked: bool):
    (r: Option<(HandshakeInfo, seq<byte>, i16)>)
    requires |handshake| == HANDSHAKE_LEN
  {
    var found := FirstMatch(suite, handshake, secrets);
    if found.None? then None
    else
      var dcIdx := RebuiltIndex(found.value.0, checked);
      if dcIdx.None? then None else Some((found.value.0, found.value.1, dcIdx.value))
  }

  /** The stream opens with an init that is complete and understood. */
  predicate Acceptable(server: Server, stream: seq<byte>) {
    var arrived := server.Arrived(stream);
    && arrived.Some? && |arrived.value| >= HANDSHAKE_LEN
    && Understood(server.suite, arrived.value[..HANDSHAKE_LEN], server.secrets, server.checked).Some?
  }

  /** What an accepted connection is to its stream. */
  ghost predicate AcceptedFrom(server: Server, stream: seq<byte>, a: Accepted, remaining: seq<byte>) {
    var arrived := server.Arrived(stream);
    && arrived.Some? && |arrived.value| >= HANDSHAKE_LEN
    && Understood(server.suite, arrived.value[..HANDSHAKE_LEN], server.secrets, server.checked) ==
       Some((a.info, a.secret, a.dcIdx))
    && |a.info.prekeyAndIv| == PREKEY_LEN + IV_LEN
    && remaining == arrived.value[HANDSHAKE_LEN..]
  }

  /** Steps 1 and 2: the init, the secret it parses under, and the index it asks for. */
  method Accept(server: Server, tcp: TcpReader, out: TcpWriter) returns (r: Option<Accepted>)
    requires !out.failed
    modifies tcp, out
    ensures out.failed ==> out.limit.Some?
    ensures r.Some? <==> Acceptable(server, old(tcp.data)) && !out.failed
    ensures server.Arrived(old(tcp.data)).None? ==> out.sent == old(out.sent)
    ensures r.Some? ==>
      && fresh(r.value.reader) && r.value.reader.reader == tcp && r.value.reader.faketls == server.inbound.FakeTls?
      && AcceptedFrom(server, old(tcp.data), r.value, r.value.reader.Remaining())
      && out.sent == old(out.sent) + server.Answer(old(tcp.data))
  {
    hide Incoming, FirstMatch, ParseHandshake, RebuiltIndex, Server.Arrived, Server.Answer;
    ghost var arrived := server.Arrived(tcp.data);
    var init := ReadInit(server, tcp, out);
    if init.None? { return None; }
    var (handshake, reader) := init.value;
    assert arrived.value[..HANDSHAKE_LEN] == handshake && arrived.value[HANDSHAKE_LEN..] == reader.Remaining();
    var found := FirstMatch(server.suite, handshake, server.secrets);
    if found.None? { return None; }
    var (info, secret) := found.value;
    var dcIdx := RebuiltIndex(info, server.checked);
    if dcIdx.None? { return None; }
    return Some(Accepted(reader, info, secret, dcIdx.value));
  }

  /** What the frames of a session are: the relay init, then the delivered stream. */
  ghost predicate Relayed(suite: Suite, client: KeyStream, proto: ProtoTag, dcIdx: i16, wire: seq<byte>,
                          tunnel: bool, frames: seq<seq<byte>>, left: Left) {
    && frames != [] && |frames[0]| == HANDSHAKE_LEN
    && var ks := RelayKs(suite, frames[0]);
      && Carries(ks, frames[0], proto, dcIdx)
      && Delivered(ks, if tunnel then None else Some(proto),
                   Reencrypt(client, HANDSHAKE_LEN, ks, HANDSHAKE_LEN, wire), frames[1..], left)
  }

  /** What goes back to the client: the re-encrypted messages of the session, on its side of the framing. */
  ghost predicate Returned(suite: Suite, prekeyAndIv: seq<byte>, secret: seq<byte>, faketls: bool, relayInit: seq<byte>,
                           messages: seq<Message>, writes: seq<seq<byte>>, wire: seq<byte>, left: Left) {
    && |prekeyAndIv| == PREKEY_LEN + IV_LEN && |relayInit| == HANDSHAKE_LEN
    && Written(TelegramKs(suite, relayInit), 0, ProxyKs(suite, prekeyAndIv, secret), 0, faketls,
               Concat(Received(messages)), writes, wire, left)
  }

  /** Steps 3, 4 and 6: the relay init goes out as the first frame, then both directions are bridged and joined. */
  method Relay(suite: Suite, client: Accepted, draws: seq<seq<byte>>, pad: seq<byte>, tunnel: bool, sink: WsSink,
               messages: seq<Message>, out: TcpWriter, closing: Closing)
    returns (started: bool, ghost writes: seq<seq<byte>>, ghost up: Left, ghost down: Left)
    requires sink.frames == [] && !sink.failed && !out.failed
    requires |client.info.prekeyAndIv| == PREKEY_LEN + IV_LEN
    requires |pad| == 2 && forall d | d in draws :: |d| == HANDSHAKE_LEN
    modifies client.reader, client.reader.reader, sink, out
    ensures !started ==> sink.frames == [] && out.sent == old(out.sent) && !out.failed
    ensures Handshake.Accepted(draws).None? ==> !started
    ensures !started ==> Handshake.Accepted(draws).None? || sink.failed
    ensures started ==> old(out.sent) <= out.sent
    ensures started ==>
      Relayed(suite, ClientKs(suite, client.info.prekeyAndIv, client.secret), client.info.proto, client.dcIdx,
              old(client.reader.Remaining()), tunnel, sink.frames, up)
    ensures started ==>
      && sink.frames != []
      && Returned(suite, client.info.prekeyAndIv, client.secret, client.reader.faketls, sink.frames[0], messages,
                  writes, out.sent[|old(out.sent)|..], down)
    ensures started ==> up.unread == [] || up.unread == client.reader.Remaining()
    ensures started && closing.first.ByClient? && !sink.failed ==> up.Nothing()
    ensures started && closing.first.ByUpstream? && !out.failed ==> down.Nothing()
    ensures sink.failed ==> sink.limit.Some?
    ensures out.failed ==> out.limit.Some?
    ensures started && closing.stop.awaits == 0 ==>
      if closing.first.ByClient? then out.sent == old(out.sent) && !out.failed
      else |sink.frames| == 1 && !sink.failed
  {
    hide *;
    started, writes, up, down := false, [], Left([], []), Left([], []);
    var relayInit := GenerateRelayInit(suite, client.info.proto, client.dcIdx, draws, pad);
    if relayInit.None? { return; }
    InitLength(relayInit.value, Handshake.Accepted(draws).value);
    var ciphers := new ConnectionCiphers(suite, client.info.prekeyAndIv, client.secret, relayInit.value);
    var ok := sink.Send(relayInit.value);
    if !ok { return; }
    started := true;
    var upload, download := JoinBridge(closing);
    up := Upload(upload, suite, client, relayInit.value, ciphers.cltDec, ciphers.tgEnc, tunnel, sink);
    var writer := new ClientWriter(client.reader.faketls, out);
    ghost var taken;
    writes, taken, down := DownloadWs(download, messages, ciphers.tgDec, ciphers.cltEnc, writer);
    ReturnedIs(suite, client.info.prekeyAndIv, client.secret, client.reader.faketls, relayInit.value, messages, writes,
               out.sent[|old(out.sent)|..], down);
  }

  /** The upload of a session, behind the init: cut into packets, or tunnelled. */
  method Upload(task: Task, suite: Suite, client: Accepted, relayInit: seq<byte>, cltDec: CtrCipher, tgEnc: CtrCipher,
                tunnel: bool, sink: WsSink)
    returns (ghost left: Left)
    requires !sink.failed && !task.aborted && sink.frames == [relayInit] && |relayInit| == HANDSHAKE_LEN
    requires |client.info.prekeyAndIv| == PREKEY_LEN + IV_LEN
    requires Carries(RelayKs(suite, relayInit), relayInit, client.info.proto, client.dcIdx)
    requires cltDec != tgEnc && cltDec.pos == HANDSHAKE_LEN && tgEnc.pos == HANDSHAKE_LEN
    requires cltDec.ks == ClientKs(suite, client.info.prekeyAndIv, client.secret)
    requires tgEnc.ks == RelayKs(suite, relayInit)
    modifies task, client.reader, client.reader.reader, cltDec, tgEnc, sink
    ensures Relayed(suite, ClientKs(suite, client.info.prekeyAndIv, client.secret), client.info.proto, client.dcIdx,
                    old(client.reader.Remaining()), tunnel, sink.frames, left)
    ensures sink.frames != [] && sink.frames[0] == relayInit
    ensures left.unread == [] || left.unread == client.reader.Remaining()
    ensures !sink.failed && !task.aborted ==> left.Nothing()
    ensures sink.failed ==> sink.limit.Some?
    ensures task.aborted ==> task.stop.Some?
    ensures old(task.Over()) ==> |sink.frames| == 1 && !sink.failed
  {
    hide *;
    var splitter: Splitter.MsgSplitter? := null;
    if !tunnel {
      splitter := new Splitter.MsgSplitter(suite, relayInit, client.info.proto);
      SameKey(suite, relayInit);
    }
    left := UploadWs(task, client.reader, cltDec, tgEnc, splitter, sink);
    AlignedIs(splitter);
    assert sink.frames[0] == relayInit && sink.frames[1..] == sink.frames[|[relayInit]|..];
    RelayedIs(suite, ClientKs(suite, client.info.prekeyAndIv, client.secret), client.info.proto, client.dcIdx,
              old(client.reader.Remaining()), tunnel, sink.frames, left);
  }

  lemma ReturnedIs(suite: Suite, prekeyAndIv: seq<byte>, secret: seq<byte>, faketls: bool, relayInit: seq<byte>,
                   messages: seq<Message>, writes: seq<seq<byte>>, wire: seq<byte>, left: Left)
    requires |prekeyAndIv| == PREKEY_LEN + IV_LEN && |relayInit| == HANDSHAKE_LEN
    requires Written(TelegramKs(suite, relayInit), 0, ProxyKs(suite, prekeyAndIv, secret), 0, faketls,
                     Concat(Received(messages)), writes, wire, left)
    ensures Returned(suite, prekeyAndIv, secret, faketls, relayInit, messages, writes, wire, left)
  {}

  lemma InitLength(packet: seq<byte>, rnd: seq<byte>)
    requires MadeFrom(packet, rnd)
    ensures |packet| == HANDSHAKE_LEN
  {}

  lemma SameKey(suite: Suite, relayInit: seq<byte>)
    requires |relayInit| == HANDSHAKE_LEN
    ensures RelayKs(suite, relayInit) == suite.aesCtr(relayInit[8..40], relayInit[40..56])
  {}

  lemma RelayedIs(suite: Suite, client: KeyStream, proto: ProtoTag, dcIdx: i16, wire: seq<byte>,
                  tunnel: bool, frames: seq<seq<byte>>, left: Left)
    requires frames != [] && |frames[0]| == HANDSHAKE_LEN
    requires var ks := RelayKs(suite, frames[0]);
      && Carries(ks, frames[0], proto, dcIdx)
      && Delivered(ks, if tunnel then None else Some(proto),
                   Reencrypt(client, HANDSHAKE_LEN, ks, HANDSHAKE_LEN, wire), frames[1..], left)
    ensures Relayed(suite, client, proto, dcIdx, wire, tunnel, frames, left)
  {}

  /**
   * What an honest client reads behind the listener's answer, under its own cipher: Telegram's `reply`
   * in order, and all of it if and only if nothing is left.
   */
  ghost predicate ClientReads(suite: Suite, client: Client, faketls: bool, wire: seq<byte>, reply: seq<byte>,
                              left: Left) {
    && |client.handshake| == HANDSHAKE_LEN
    && var got := Crypt(ProxyKs(suite, client.handshake[8..56], client.secret), 0, Incoming(faketls, [], wire));
      got <= reply && (got == reply <==> left.Nothing())
  }

  /** `unread` is still on the socket, behind what the reader took off it for the init. */
  ghost predicate StillThere(inbound: Inbound, data: seq<byte>, unread: seq<byte>) {
    exists pending :: unread == Incoming(inbound.FakeTls?, pending, data)
  }

  /** The messages of a session are `reply` as Telegram encrypts it for this relay init. */
  ghost predicate Replies(suite: Suite, messages: seq<Message>, relayInit: seq<byte>, reply: seq<byte>) {
    |relayInit| == HANDSHAKE_LEN && Concat(Received(messages)) == Crypt(TelegramKs(suite, relayInit), 0, reply)
  }

  /**
   * A connection routed to a WebSocket, from its first byte. For an honest client whose secret is the
   * one its handshake is matched to, and however its stream is cut into reads or records, Telegram
   * decodes the protocol and index the client asked for. It reads the client's plaintext and the client
   * reads Telegram's, in order and up to what is left of each direction when the session closes. The
   * direction that ended first has nothing left unless its sink failed; the other is aborted with
   * whatever it has.
   */
  method Handle(server: Server, tcp: TcpReader, out: TcpWriter, draws: seq<seq<byte>>, pad: seq<byte>, tunnel: bool,
                sink: WsSink, messages: seq<Message>, closing: Closing)
    returns (started: bool, ghost up: Left, ghost down: Left)
    requires sink.frames == [] && !sink.failed && !out.failed && out.sent == []
    requires |pad| == 2 && forall d | d in draws :: |d| == HANDSHAKE_LEN
    modifies tcp, sink, out
    ensures !started ==> sink.frames == []
    ensures started ==> server.Answer(old(tcp.data)) <= out.sent && sink.frames != []
    ensures started ==>
      forall client: Client | client.Sends(server, old(tcp.data)) ::
        && TelegramGets(server.suite, sink.frames, client, tunnel, up)
        && forall reply | Replies(server.suite, messages, sink.frames[0], reply) ::
             ClientReads(server.suite, client, server.inbound.FakeTls?,
                         out.sent[|server.Answer(old(tcp.data))|..], reply, down)
    ensures started ==> up.unread == [] || StillThere(server.inbound, tcp.data, up.unread)
    ensures started && closing.first.ByClient? && !sink.failed ==> up.Nothing()
    ensures started && closing.first.ByUpstream? && !out.failed ==> down.Nothing()
    ensures started && closing.stop.awaits == 0 ==>
      if closing.first.ByClient? then out.sent == server.Answer(old(tcp.data)) && !out.failed
      else |sink.frames| == 1 && !sink.failed
    ensures sink.failed ==> sink.limit.Some?
    ensures out.failed ==> out.limit.Some?
    ensures !started ==>
      !Acceptable(server, old(tcp.data)) || Handshake.Accepted(draws).None? || sink.failed || out.failed
  {
    hide *;
    started, up, down := false, Left([], []), Left([], []);
    ghost var stream := tcp.data;
    var client := Accept(server, tcp, out);
    if client.None? { return; }
    ghost var answer, remaining := out.sent, client.value.reader.Remaining();
    assert [] + server.Answer(stream) == server.Answer(stream);
    PrekeyLength(server, stream, client.value, remaining);
    ghost var writes;
    started, writes, up, down := Relay(server.suite, client.value, draws, pad, tunnel, sink, messages, out, closing);
    if started {
      IsThere(server.inbound, client.value.reader);
      forall c: Client | c.Sends(server, stream)
        ensures TelegramGets(server.suite, sink.frames, c, tunnel, up)
        ensures forall reply | Replies(server.suite, messages, sink.frames[0], reply) ::
          ClientReads(server.suite, c, server.inbound.FakeTls?, out.sent[|answer|..], reply, down)
      {
        ReadByTelegram(server, c, stream, client.value, remaining, tunnel, sink.frames, up);
        ReadByClient(server, c, stream, client.value, remaining, sink.frames[0], messages, writes, out.sent[|answer|..],
                     down);
      }
    }
  }

  lemma IsThere(inbound: Inbound, r: ClientReader)
    requires r.faketls == inbound.FakeTls?
    ensures StillThere(inbound, r.reader.data, r.Remaining())
  {
    assert r.Remaining() == Incoming(r.faketls, r.pending, r.reader.data);
  }

  // What the join loses ----------------------------------------------------------------

  /**
   * Nothing fails and everything is lost: the upstream closes before the upload got to run, and Telegram
   * reads none of what the client sent.
   */
  method UploadIsLost(server: Server, ghost client: Client, stream: seq<byte>, draws: seq<seq<byte>>, pad: seq<byte>,
                      tunnel: bool, messages: seq<Message>)
    returns (frames: seq<seq<byte>>, failed: bool)
    requires client.Sends(server, stream) && client.plain != [] && Acceptable(server, stream)
    requires |pad| == 2 && (forall d | d in draws :: |d| == HANDSHAKE_LEN) && Handshake.Accepted(draws).Some?
    ensures !failed && |frames| == 1 && |frames[0]| == HANDSHAKE_LEN
    ensures Carries(RelayKs(server.suite, frames[0]), frames[0], client.proto, client.dcIdx)
    ensures Crypt(RelayKs(server.suite, frames[0]), HANDSHAKE_LEN, Concat(frames[1..])) < client.plain
  {
    hide *;
    var tcp := new TcpReader(stream, []);
    var out := new TcpWriter(None);
    var sink := new WsSink(None);
    var closing := Closing(ByUpstream, Stop(0, 0));
    ghost var up, down;
    var started;
    started, up, down := Handle(server, tcp, out, draws, pad, tunnel, sink, messages, closing);
    frames, failed := sink.frames, sink.failed || out.failed;
    OnlyTheInit(server.suite, frames, client, tunnel, up);
  }

  lemma OnlyTheInit(suite: Suite, frames: seq<seq<byte>>, client: Client, tunnel: bool, left: Left)
    requires TelegramGets(suite, frames, client, tunnel, left) && |frames| == 1 && client.plain != []
    ensures |frames[0]| == HANDSHAKE_LEN
    ensures Carries(RelayKs(suite, frames[0]), frames[0], client.proto, client.dcIdx)
    ensures Crypt(RelayKs(suite, frames[0]), HANDSHAKE_LEN, Concat(frames[1..])) < client.plain
  {
    hide Carries, RelayKs;
  }

  /**
   * The other way round: the client stops sending before the download got to run, and reads nothing
   * behind the listener's answer, whatever Telegram sent.
   */
  method ReplyIsLost(server: Server, stream: seq<byte>, draws: seq<seq<byte>>, pad: seq<byte>, tunnel: bool,
                     messages: seq<Message>)
    returns (back: seq<byte>, failed: bool)
    requires Acceptable(server, stream)
    requires |pad| == 2 && (forall d | d in draws :: |d| == HANDSHAKE_LEN) && Handshake.Accepted(draws).Some?
    ensures !failed && back == server.Answer(stream)
  {
    hide *;
    var tcp := new TcpReader(stream, []);
    var out := new TcpWriter(None);
    var sink := new WsSink(None);
    var closing := Closing(ByClient, Stop(0, 0));
    ghost var up, down;
    var started;
    started, up, down := Handle(server, tcp, out, draws, pad, tunnel, sink, messages, closing);
    back, failed := out.sent, sink.failed || out.failed;
  }

  lemma PrekeyLength(server: Server, stream: seq<byte>, a: Accepted, remaining: seq<byte>)
    requires AcceptedFrom(server, stream, a, remaining)
    ensures |a.info.prekeyAndIv| == PREKEY_LEN + IV_LEN
  {}

  /** An honest client is accepted as what it is. */
  lemma KnownClient(server: Server, c: Client, stream: seq<byte>, a: Accepted, remaining: seq<byte>)
    requires c.Sends(server, stream) && AcceptedFrom(server, stream, a, remaining)
    ensures |c.handshake| == HANDSHAKE_LEN
    ensures a.info.prekeyAndIv == c.handshake[8..56] && a.secret == c.secret
    ensures a.info.proto == c.proto && a.dcIdx == c.dcIdx
    ensures remaining == Crypt(ClientKs(server.suite, c.handshake[8..56], c.secret), HANDSHAKE_LEN, c.plain)
  {
    hide Carries, ParseHandshake, FirstMatch, Crypt, ClientKs, Server.Arrived;
    ParsesBack(server.suite, c.handshake, c.secret, c.proto, c.dcIdx);
    FirstParses(server.suite, c.handshake, server.secrets);
    var arrived := server.Arrived(stream).value;
    assert arrived[..HANDSHAKE_LEN] == c.handshake;
    assert arrived[HANDSHAKE_LEN..] ==
      Crypt(ClientKs(server.suite, c.handshake[8..56], c.secret), HANDSHAKE_LEN, c.plain);
  }

  lemma FirstParses(suite: Suite, handshake: seq<byte>, secrets: seq<seq<byte>>)
    requires |handshake| == HANDSHAKE_LEN && FirstMatch(suite, handshake, secrets).Some?
    ensures var (info, secret) := FirstMatch(suite, handshake, secrets).value;
      ParseHandshake(suite, handshake, secret) == Some(info)
  {
    hide ParseHandshake;
  }

  /** Relayed frames of an honest client's stream read as its plaintext at Telegram. */
  lemma ReadByTelegram(server: Server, c: Client, stream: seq<byte>, a: Accepted, remaining: seq<byte>, tunnel: bool,
                       frames: seq<seq<byte>>, left: Left)
    requires c.Sends(server, stream) && AcceptedFrom(server, stream, a, remaining)
    requires |a.info.prekeyAndIv| == PREKEY_LEN + IV_LEN
    requires Relayed(server.suite, ClientKs(server.suite, a.info.prekeyAndIv, a.secret), a.info.proto, a.dcIdx,
                     remaining, tunnel, frames, left)
    ensures TelegramGets(server.suite, frames, c, tunnel, left)
  {
    hide Carries, Delivered, ParseHandshake, FirstMatch, Crypt, Concat, OnePacketEach, RelayKs, ClientKs, Client.Sends,
      AcceptedFrom;
    KnownClient(server, c, stream, a, remaining);
    var clt := ClientKs(server.suite, c.handshake[8..56], c.secret);
    var ks := RelayKs(server.suite, frames[0]);
    TelegramReads(clt, ks, if tunnel then None else Some(c.proto), c.plain, frames[1..], left);
    FrameSizes(ks, if tunnel then None else Some(c.proto), Reencrypt(clt, HANDSHAKE_LEN, ks, HANDSHAKE_LEN, remaining),
               frames[1..], left);
  }

  /** What goes back reads as Telegram's plaintext at the client. */
  lemma ReadByClient(server: Server, c: Client, stream: seq<byte>, a: Accepted, remaining: seq<byte>,
                     relayInit: seq<byte>,
                     messages: seq<Message>, writes: seq<seq<byte>>, wire: seq<byte>, left: Left)
    requires c.Sends(server, stream) && AcceptedFrom(server, stream, a, remaining)
    requires Returned(server.suite, a.info.prekeyAndIv, a.secret, server.inbound.FakeTls?, relayInit, messages, writes,
                      wire, left)
    ensures forall reply | Replies(server.suite, messages, relayInit, reply) ::
      ClientReads(server.suite, c, server.inbound.FakeTls?, wire, reply, left)
  {
    hide Crypt, Concat, Received, Written, Incoming, TelegramKs, ProxyKs, Client.Sends, AcceptedFrom;
    KnownClient(server, c, stream, a, remaining);
    forall reply | Replies(server.suite, messages, relayInit, reply)
      ensures ClientReads(server.suite, c, server.inbound.FakeTls?, wire, reply, left)
    {
      ReceiverReads(TelegramKs(server.suite, relayInit), 0, ProxyKs(server.suite, a.info.prekeyAndIv, a.secret), 0,
                    server.inbound.FakeTls?, reply, writes, wire, left);
    }
  }

  lemma FrameSizes(ks: KeyStream, packets: Option<ProtoTag>, relay: seq<byte>, sent: seq<seq<byte>>, left: Left)
    requires Delivered(ks, packets, relay, sent, left)
    ensures packets.None? ==> forall f | f in sent :: 1 <= |f| <= READ_BUF
  {}

  // FakeTLS clients ------------------------------------------------------------------

  /** The hello of a FakeTLS client for `domain`, signed with `secret`. */
  function SignedHello(suite: Suite, domain: seq<byte>, sessionId: seq<byte>, secret: seq<byte>, time: seq<byte>)
    : (h: seq<byte>)
    requires |time| == 4
  {
    var unsigned := ClientHello.Record(ClientHello.Built(domain, sessionId, ClientHello.Zeros()));
    ClientHello.WithRandom(unsigned, ClientHello.Stamp(suite.hmac(secret, ClientHello.Zeroed(unsigned)), time))
  }

  /**
   * A client of a FakeTLS listener: a hello for its domain signed with a configured secret, then any
   * records that fit a read and carry the obfuscated stream. It is an honest client of the listener,
   * and what the listener answers is drained up to what is sent back.
   */
  lemma FakeTlsClientSends(server: Server, c: Client, sessionId: seq<byte>, time: seq<byte>, helloSecret: seq<byte>,
                           before: seq<seq<byte>>, after: seq<seq<byte>>, recs: seq<Rec>, back: seq<byte>)
    requires server.inbound.FakeTls? && server.utf8(server.inbound.domain) && |server.inbound.domain| + 175 <= READ_BUF
    requires |server.inbound.keyShare| == 32 && |server.inbound.cert| <= READ_BUF
    requires |sessionId| == 32 && |time| == 4 && server.secrets == before + [helloSecret] + after
    requires var signed := SignedHello(server.suite, server.inbound.domain, sessionId, helloSecret, time);
      forall s | s in before :: ClientHello.ParseHello(server.suite, server.utf8, signed, s).None?
    requires forall r | r in recs :: Fits(r, READ_BUF)
    requires |c.handshake| == HANDSHAKE_LEN && Carries(c.Own(server.suite), c.handshake, c.proto, c.dcIdx)
    requires AppBytes(recs) == c.handshake + Crypt(c.Own(server.suite), HANDSHAKE_LEN, c.plain)
    requires FirstMatch(server.suite, c.handshake, server.secrets).Some?
    requires FirstMatch(server.suite, c.handshake, server.secrets).value.1 == c.secret
    ensures var stream := SignedHello(server.suite, server.inbound.domain, sessionId, helloSecret, time) + Wire(recs);
      c.Sends(server, stream) && Drained(server.Answer(stream) + back, MAX_HANDSHAKE_RECORDS) == Some(back)
  {
    hide Wire, AppBytes, Payload, Crypt, Carries, FirstMatch, FirstAuthentic, Opening, ServerRecords, ServerDigest,
      Drained;
    hide ClientHello.Record, ClientHello.WithRandom, ClientHello.Stamp, ClientHello.Zeroed, ClientHello.Built;
    var signed := SignedHello(server.suite, server.inbound.domain, sessionId, helloSecret, time);
    SignedHelloIsWelcome(server.suite, server.utf8, server.inbound.domain, sessionId, helloSecret, time, before, after,
                         Wire(recs));
    ReadWritten(recs, [], READ_BUF);
    PayloadOfNothing(READ_BUF);
    assert Wire(recs) + [] == Wire(recs) && AppBytes(recs) + [] == AppBytes(recs);
    var (hello, secret) := FirstAuthentic(server.suite, server.utf8, signed, server.secrets).value;
    OwnHello(server, sessionId, time, helloSecret, before, after);
    AnswerIsDrained(server.suite, secret, hello, server.inbound.keyShare, server.inbound.cert, back);
  }

  /** The listener reads the hello as it was built. */
  lemma OwnHello(server: Server, sessionId: seq<byte>, time: seq<byte>, helloSecret: seq<byte>,
                 before: seq<seq<byte>>, after: seq<seq<byte>>)
    requires server.inbound.FakeTls? && server.utf8(server.inbound.domain) && |server.inbound.domain| + 175 <= READ_BUF
    requires |sessionId| == 32 && |time| == 4 && server.secrets == before + [helloSecret] + after
    requires var signed := SignedHello(server.suite, server.inbound.domain, sessionId, helloSecret, time);
      forall s | s in before :: ClientHello.ParseHello(server.suite, server.utf8, signed, s).None?
    ensures var signed := SignedHello(server.suite, server.inbound.domain, sessionId, helloSecret, time);
      var found := FirstAuthentic(server.suite, server.utf8, signed, server.secrets);
      found.Some? && |found.value.0.sessionId| == 32 && |found.value.0.cipherSuite| == 2
  {
    hide ClientHello.Record, ClientHello.WithRandom, ClientHello.Stamp, ClientHello.Zeroed, ClientHello.Built;
    hide ClientHello.ParseHello, FirstAuthentic;
    var signed := SignedHello(server.suite, server.inbound.domain, sessionId, helloSecret, time);
    ClientHello.HelloRoundTrip(server.suite, server.utf8, server.inbound.domain, sessionId, helloSecret, time);
    OwnIsFirst(server.suite, server.utf8, signed, helloSecret, before, after);
  }
}

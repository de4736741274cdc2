/** An upstream MTProto proxy: connecting to it, relaying through it, and what it makes of the stream. */
module Upstream {
  import ClientHello
  import opened Bridge
  import opened Bytes
  import opened Ciphers
  import opened ClientStream
  import opened FakeTls
  import opened Handshake
  import Net
  import opened Session
  import opened TlsRecords

  const RELAY_BUF: nat := 16 * 1024

  /** A configured proxy: its key, and the host name of a FakeTLS secret. */
  datatype Secret = Secret(key: seq<byte>, hostname: Option<seq<byte>>)

  datatype Connection = Connection(reader: Net.TcpReader, writer: Net.TcpWriter, enc: CtrCipher, dec: CtrCipher,
                                   faketls: bool)

  /** What connecting puts on the wire: the handshake, behind a signed hello and in a record for FakeTLS. */
  function Greeting(suite: Suite, secret: Secret, sessionId: seq<byte>, time: seq<byte>, handshake: seq<byte>)
    : (wire: seq<byte>)
    requires |time| == 4
  {
    if secret.hostname.None? then handshake
    else SignedHello(suite, secret.hostname.value, sessionId, secret.key, time) + Wire(AppData(handshake))
  }

  /** The two ciphers of a session are those the upstream derives from its handshake, in mirror image. */
  ghost predicate Keyed(suite: Suite, secret: Secret, handshake: seq<byte>, proto: ProtoTag, dcIdx: i16) {
    && |handshake| == HANDSHAKE_LEN
    && Carries(ClientKs(suite, handshake[8..56], secret.key), handshake, proto, dcIdx)
  }

  /** What stands in the way of a connection once TCP is open. */
  predicate Blocked(utf8: seq<byte> -> bool, secret: Secret, checked: bool, draws: seq<seq<byte>>, data: seq<byte>,
                    failed: bool)
    requires forall d | d in draws :: |d| == HANDSHAKE_LEN
  {
    || failed || Handshake.Accepted(draws).None?
    || (secret.hostname.Some? &&
          (|| !utf8(secret.hostname.value)
           || (checked && |secret.hostname.value| % 0x1_0000 >= 0xfffb)
           || Drained(data, MAX_HANDSHAKE_RECORDS).None?))
  }

  /** The steps behind the TCP connect: the handshake, and for FakeTLS hello and answer around it. */
  method ConnectMtprotoUpstream(suite: Suite, utf8: seq<byte> -> bool, secret: Secret, dcIdx: i16, proto: ProtoTag,
                                reader: Net.TcpReader, writer: Net.TcpWriter, sessionId: seq<byte>, time: seq<byte>,
                                draws: seq<seq<byte>>, checked: bool)
    returns (r: Option<Connection>, ghost handshake: seq<byte>)
    requires |sessionId| == 32 && |time| == 4 && forall d | d in draws :: |d| == HANDSHAKE_LEN
    requires !writer.failed
    modifies reader, writer
    ensures writer.failed ==> writer.limit.Some?
    ensures r.None? <==> Blocked(utf8, secret, checked, draws, old(reader.data), writer.failed)
    ensures r.Some? ==>
      && r.value.reader == reader && r.value.writer == writer && r.value.faketls == secret.hostname.Some?
      && fresh(r.value.enc) && fresh(r.value.dec) && r.value.enc != r.value.dec
    ensures r.Some? ==>
      && Keyed(suite, secret, handshake, proto, dcIdx) && !writer.failed
      && writer.sent == old(writer.sent) + Greeting(suite, secret, sessionId, time, handshake)
      && r.value.enc.ks == ClientKs(suite, handshake[8..56], secret.key) && r.value.enc.pos == HANDSHAKE_LEN
      && r.value.dec.ks == ProxyKs(suite, handshake[8..56], secret.key) && r.value.dec.pos == 0
      && (if r.value.faketls then Drained(old(reader.data), MAX_HANDSHAKE_RECORDS) == Some(reader.data)
          else reader.data == old(reader.data))
  {
    hide Carries, ParseHandshake, Handshake.Accepted, Wire, AppData, Drained;
    hide ClientHello.Record, ClientHello.Built, ClientHello.WithRandom, ClientHello.Stamp, ClientHello.Zeroed;
    r, handshake := None, [];
    var generated := GenerateClientHandshake(suite, secret.key, dcIdx, proto, draws);
    if generated.None? { return; }
    var (shake, enc, dec) := generated.value;
    handshake := shake;
    if secret.hostname.None? {
      var ok := writer.WriteAll(shake);
      if !ok { return; }
      return Some(Connection(reader, writer, enc, dec, false)), handshake;
    }
    if !utf8(secret.hostname.value) { return; }
    var hello := ClientHello.BuildFaketlsClientHello(secret.hostname.value, sessionId, checked);
    if hello.None? { return; }
    ghost var start := writer.sent;
    var ok := SendHello(suite, secret, sessionId, time, hello.value, writer);
    if !ok { return; }
    ok := DrainFaketlsServerHello(reader);
    if !ok { return; }
    ok := WriteTlsAppData(writer, shake);
    if !ok { return; }
    Assoc(start, SignedHello(suite, secret.hostname.value, sessionId, secret.key, time), Wire(AppData(shake)));
    return Some(Connection(reader, writer, enc, dec, true)), handshake;
  }

  /** Sign the hello in place and send it. */
  method SendHello(suite: Suite, secret: Secret, sessionId: seq<byte>, time: seq<byte>, unsigned: seq<byte>,
                   writer: Net.TcpWriter)
    returns (ok: bool)
    requires secret.hostname.Some? && |sessionId| == 32 && |time| == 4 && !writer.failed
    requires unsigned == ClientHello.Record(ClientHello.Built(secret.hostname.value, sessionId, ClientHello.Zeros()))
    modifies writer
    ensures ok == !writer.failed && (writer.failed ==> writer.limit.Some?)
    ensures ok ==>
      writer.sent == old(writer.sent) + SignedHello(suite, secret.hostname.value, sessionId, secret.key, time)
  {
    hide ClientHello.Built, ClientHello.WithRandom, ClientHello.Stamp, ClientHello.Zeroed;
    HelloLength(secret.hostname.value, sessionId);
    hide ClientHello.Record;
    var hello := new byte[|unsigned|](i requires 0 <= i < |unsigned| => unsigned[i]);
    assert hello[..] == unsigned;
    ClientHello.SignFaketlsClientHello(suite, hello, secret.key, time);
    ok := writer.WriteAll(hello[..]);
  }

  lemma HelloLength(hostname: seq<byte>, sessionId: seq<byte>)
    requires |sessionId| == 32
    ensures |ClientHello.Record(ClientHello.Built(hostname, sessionId, ClientHello.Zeros()))| >= ClientHello.MIN_RECORD
  {
    hide ClientHello.Record, ClientHello.OtherExts;
    ClientHello.FramedIfShort(ClientHello.Built(hostname, sessionId, ClientHello.Zeros()));
  }

  /** Both directions of a relay, pumped and joined. */
  method BridgeRelay(client: Accepted, cltDec: CtrCipher, cltEnc: CtrCipher, out: Net.TcpWriter, conn: Connection,
                     closing: Closing)
    returns (ghost sent: seq<seq<byte>>, ghost up: Left, ghost returned: seq<seq<byte>>, ghost down: Left)
    requires !out.failed && !conn.writer.failed && out != conn.writer && client.reader.reader != conn.reader
    requires cltDec != cltEnc && conn.enc != conn.dec && {cltDec, cltEnc} !! {conn.enc, conn.dec}
    modifies client.reader, client.reader.reader, cltDec, cltEnc, out, conn.reader, conn.writer, conn.enc, conn.dec
    ensures old(conn.writer.sent) <= conn.writer.sent && old(out.sent) <= out.sent
    ensures Written(cltDec.ks, old(cltDec.pos), conn.enc.ks, old(conn.enc.pos), conn.faketls,
                    old(client.reader.Remaining()), sent, conn.writer.sent[|old(conn.writer.sent)|..], up)
    ensures Written(conn.dec.ks, old(conn.dec.pos), cltEnc.ks, old(cltEnc.pos), client.reader.faketls,
                    Incoming(conn.faketls, [], old(conn.reader.data)), returned, out.sent[|old(out.sent)|..], down)
    ensures up.unread == [] || up.unread == client.reader.Remaining()
    ensures conn.faketls || down.unread == [] || down.unread == conn.reader.data
    ensures closing.first.ByClient? && !conn.writer.failed ==> up.Nothing()
    ensures closing.first.ByUpstream? && !out.failed ==> down.Nothing()
    ensures conn.writer.failed ==> conn.writer.limit.Some?
    ensures out.failed ==> out.limit.Some?
  {
    hide Written, Incoming, Left.Nothing;
    var toUpstream := new ClientWriter(conn.faketls, conn.writer);
    var fromUpstream := new ClientReader(conn.faketls, conn.reader, []);
    var toClient := new ClientWriter(client.reader.faketls, out);
    var upload, download := JoinBridge(closing);
    sent, up := Pump(upload, client.reader, cltDec, conn.enc, toUpstream, READ_BUF);
    returned, down :=
      Pump(download, fromUpstream, conn.dec, cltEnc, toClient, if conn.faketls then READ_BUF else RELAY_BUF);
    RawRemaining(fromUpstream);
  }

  lemma RawRemaining(r: ClientReader)
    ensures !r.faketls ==> r.Remaining() == r.reader.data
  {}

  // What the upstream sees ----------------------------------------------------------------

  /**
   * The upstream proxy, which accepts clients as this one does, sees an honest client of its own: one
   * with this handshake, whose plaintext is the original client's, in order and all of it if and only
   * if nothing is left.
   */
  lemma UpstreamSeesClient(up: Server, secret: Secret, sessionId: seq<byte>, time: seq<byte>, handshake: seq<byte>,
                           proto: ProtoTag, dcIdx: i16, clt: KeyStream, plain: seq<byte>, sent: seq<seq<byte>>,
                           wire: seq<byte>, left: Left, before: seq<seq<byte>>, after: seq<seq<byte>>)
    returns (c: Client)
    requires |sessionId| == 32 && |time| == 4 && Keyed(up.suite, secret, handshake, proto, dcIdx)
    requires Serves(up, secret, sessionId, time, handshake, before, after)
    requires Written(clt, HANDSHAKE_LEN, ClientKs(up.suite, handshake[8..56], secret.key), HANDSHAKE_LEN,
                     secret.hostname.Some?, Crypt(clt, HANDSHAKE_LEN, plain), sent, wire, left)
    ensures c.Sends(up, Greeting(up.suite, secret, sessionId, time, handshake) + wire)
    ensures c.handshake == handshake && c.proto == proto && c.dcIdx == dcIdx
    ensures c.plain <= plain && (c.plain == plain <==> left.Nothing())
  {
    hide Written, Carries, Crypt, Incoming, ParseHandshake, ClientKs, FirstMatch, Server.Arrived, Greeting, Announced;
    var ks, faketls := ClientKs(up.suite, handshake[8..56], secret.key), secret.hostname.Some?;
    ReceiverReads(clt, HANDSHAKE_LEN, ks, HANDSHAKE_LEN, faketls, plain, sent, wire, left);
    var body := Incoming(faketls, [], wire);
    c := Client(secret.key, handshake, proto, dcIdx, Crypt(ks, HANDSHAKE_LEN, body));
    CryptTwice(ks, HANDSHAKE_LEN, body);
    OwnSecretMatches(up.suite, c, before, after);
    GreetingArrives(up, secret, sessionId, time, handshake, before, after, wire);
  }

  /** The upstream has this secret, and neither hello nor handshake fits an earlier one of its own. */
  ghost predicate Serves(up: Server, secret: Secret, sessionId: seq<byte>, time: seq<byte>, handshake: seq<byte>,
                         before: seq<seq<byte>>, after: seq<seq<byte>>)
    requires |time| == 4
  {
    && |handshake| == HANDSHAKE_LEN && up.secrets == before + [secret.key] + after
    && (forall s | s in before :: ParseHandshake(up.suite, handshake, s).None?)
    && Announced(up, secret, sessionId, time, before)
  }

  /** The upstream listens the way the secret says, and takes this hello for the secret's own. */
  ghost predicate Announced(up: Server, secret: Secret, sessionId: seq<byte>, time: seq<byte>, before: seq<seq<byte>>)
    requires |time| == 4
  {
    if secret.hostname.None? then up.inbound.Plain?
    else
      && up.inbound.FakeTls? && up.inbound.domain == secret.hostname.value
      && up.utf8(secret.hostname.value) && |secret.hostname.value| + 175 <= READ_BUF
      && var signed := SignedHello(up.suite, secret.hostname.value, sessionId, secret.key, time);
        forall s | s in before :: ClientHello.ParseHello(up.suite, up.utf8, signed, s).None?
  }

  /** Behind the greeting the upstream's listener finds the handshake and the relayed bytes. */
  lemma GreetingArrives(up: Server, secret: Secret, sessionId: seq<byte>, time: seq<byte>, handshake: seq<byte>,
                        before: seq<seq<byte>>, after: seq<seq<byte>>, wire: seq<byte>)
    requires |sessionId| == 32 && |time| == 4 && |handshake| == HANDSHAKE_LEN
    requires up.secrets == before + [secret.key] + after && Announced(up, secret, sessionId, time, before)
    ensures up.Arrived(Greeting(up.suite, secret, sessionId, time, handshake) + wire) ==
      Some(handshake + Incoming(secret.hostname.Some?, [], wire))
  {
    hide Wire, AppData, Payload, Opening, FirstAuthentic, AppBytes;
    hide ClientHello.Record, ClientHello.Built, ClientHello.WithRandom, ClientHello.Stamp, ClientHello.Zeroed,
      ClientHello.ParseHello;
    if secret.hostname.Some? {
      var signed := SignedHello(up.suite, secret.hostname.value, sessionId, secret.key, time);
      var data := Wire(AppData(handshake)) + wire;
      Assoc(signed, Wire(AppData(handshake)), wire);
      SignedHelloIsWelcome(up.suite, up.utf8, secret.hostname.value, sessionId, secret.key, time, before, after, data);
      AppDataRecords(handshake);
      ReadWritten(AppData(handshake), wire, READ_BUF);
      assert [] + Payload(wire, READ_BUF) == Payload(wire, READ_BUF);
    }
  }

  /** `data` is `reply` as the upstream writes it for this handshake, behind its answer to a hello. */
  ghost predicate Replied(suite: Suite, secret: Secret, handshake: seq<byte>, data: seq<byte>, reply: seq<byte>) {
    && |handshake| == HANDSHAKE_LEN
    && exists writes: seq<seq<byte>> ::
         && Concat(writes) == Crypt(ProxyKs(suite, handshake[8..56], secret.key), 0, reply)
         && (if secret.hostname.Some? then Drained(data, MAX_HANDSHAKE_RECORDS) == Some(OnWire(true, writes))
             else data == OnWire(false, writes))
  }

  /**
   * The other direction: what the client reads is the upstream's plaintext, in order and all of it if
   * and only if nothing is left, when the upstream writes it as records or raw.
   */
  lemma ClientSeesUpstream(suite: Suite, c: Client, secret: Secret, handshake: seq<byte>, faketls: bool,
                           data: seq<byte>, rest: seq<byte>, reply: seq<byte>, returned: seq<seq<byte>>,
                           wire: seq<byte>, left: Left)
    requires |c.handshake| == HANDSHAKE_LEN && Replied(suite, secret, handshake, data, reply)
    requires if secret.hostname.Some? then Drained(data, MAX_HANDSHAKE_RECORDS) == Some(rest) else data == rest
    requires Written(ProxyKs(suite, handshake[8..56], secret.key), 0, ProxyKs(suite, c.handshake[8..56], c.secret), 0,
                     faketls, Incoming(secret.hostname.Some?, [], rest), returned, wire, left)
    ensures ClientReads(suite, c, faketls, wire, reply, left)
  {
    hide Written, Crypt, Incoming, OnWire, ProxyKs, Concat, Drained;
    var writes :| && Concat(writes) == Crypt(ProxyKs(suite, handshake[8..56], secret.key), 0, reply)
                  && rest == OnWire(secret.hostname.Some?, writes);
    WritesArrive(secret.hostname.Some?, writes);
    ReceiverReads(ProxyKs(suite, handshake[8..56], secret.key), 0, ProxyKs(suite, c.handshake[8..56], c.secret), 0,
                  faketls, reply, returned, wire, left);
  }

  // The whole session ------------------------------------------------------------------------

  /**
   * Some honest client of the upstream sends `wire`: with this handshake, what `client` asked for, and
   * its plaintext in order, all of it if and only if nothing is left.
   */
  ghost predicate UpstreamGets(up: Server, wire: seq<byte>, handshake: seq<byte>, client: Client, left: Left) {
    exists c: Client ::
      && c.Sends(up, wire) && c.handshake == handshake && c.proto == client.proto && c.dcIdx == client.dcIdx
      && c.plain <= client.plain && (c.plain == client.plain <==> left.Nothing())
  }

  /**
   * A connection relayed to an upstream MTProto proxy, from its first byte to the proxy's own accept:
   * for an honest client, every upstream that serves the secret sees an honest client of its own, which
   * asks for the same and sends the same plaintext, and the client reads what the upstream replies; in
   * order, and all of it if and only if nothing is left when the session closes, as it is for the
   * direction that ended first unless its sink failed.
   */
  method HandleUpstream(server: Server, tcp: Net.TcpReader, out: Net.TcpWriter, draws: seq<seq<byte>>, pad: seq<byte>,
                        secret: Secret, reader: Net.TcpReader, writer: Net.TcpWriter, sessionId: seq<byte>,
                        time: seq<byte>, ownDraws: seq<seq<byte>>, closing: Closing)
    returns (started: bool, ghost handshake: seq<byte>, ghost up: Left, ghost down: Left)
    requires !out.failed && !writer.failed && out.sent == [] && writer.sent == [] && out != writer && tcp != reader
    requires |pad| == 2 && |sessionId| == 32 && |time| == 4
    requires (forall d | d in draws :: |d| == HANDSHAKE_LEN) && forall d | d in ownDraws :: |d| == HANDSHAKE_LEN
    modifies tcp, out, reader, writer
    ensures started ==> server.Answer(old(tcp.data)) <= out.sent
    ensures started ==>
      forall client: Client | client.Sends(server, old(tcp.data)) ::
        && (forall proxy: Server, before, after |
             proxy.suite == server.suite && Serves(proxy, secret, sessionId, time, handshake, before, after) ::
             UpstreamGets(proxy, writer.sent, handshake, client, up))
        && forall reply | Replied(server.suite, secret, handshake, old(reader.data), reply) ::
             ClientReads(server.suite, client, server.inbound.FakeTls?,
                         out.sent[|server.Answer(old(tcp.data))|..], reply, down)
    ensures started ==> up.unread == [] || StillThere(server.inbound, tcp.data, up.unread)
    ensures started && closing.first.ByClient? && !writer.failed ==> up.Nothing()
    ensures started && closing.first.ByUpstream? && !out.failed ==> down.Nothing()
    ensures writer.failed ==> writer.limit.Some?
    ensures out.failed ==> out.limit.Some?
    ensures !started ==>
      || !Acceptable(server, old(tcp.data)) || Handshake.Accepted(draws).None? || out.failed
      || Blocked(server.utf8, secret, server.checked, ownDraws, old(reader.data), writer.failed)
  {
    hide *;
    started, handshake, up, down := false, [], Left([], []), Left([], []);
    ghost var stream, data := tcp.data, reader.data;
    var client := Accept(server, tcp, out);
    if client.None? { return; }
    ghost var answer, remaining := out.sent, client.value.reader.Remaining();
    assert [] + server.Answer(stream) == server.Answer(stream);
    PrekeyLength(server, stream, client.value, remaining);
    var (info, own, dcIdx) := (client.value.info, client.value.secret, client.value.dcIdx);
    var relayInit := GenerateRelayInit(server.suite, info.proto, dcIdx, draws, pad);
    if relayInit.None? { return; }
    InitLength(relayInit.value, Handshake.Accepted(draws).value);
    var ciphers := new ConnectionCiphers(server.suite, info.prekeyAndIv, own, relayInit.value);
    var conn;
    conn, handshake := ConnectMtprotoUpstream(server.suite, server.utf8, secret, dcIdx, info.proto, reader, writer,
                                              sessionId, time, ownDraws, server.checked);
    if conn.None? { return; }
    started := true;
    ghost var greeting, rest := writer.sent, reader.data;
    ghost var sent, returned;
    sent, up, returned, down := BridgeRelay(client.value, ciphers.cltDec, ciphers.cltEnc, out, conn.value, closing);
    IsThere(server.inbound, client.value.reader);
    forall c: Client | c.Sends(server, stream)
      ensures forall proxy: Server, before, after |
        proxy.suite == server.suite && Serves(proxy, secret, sessionId, time, handshake, before, after) ::
        UpstreamGets(proxy, writer.sent, handshake, c, up)
      ensures forall reply | Replied(server.suite, secret, handshake, data, reply) ::
        ClientReads(server.suite, c, server.inbound.FakeTls?, out.sent[|answer|..], reply, down)
    {
      KnownClient(server, c, stream, client.value, remaining);
      forall proxy: Server, before, after |
        proxy.suite == server.suite && Serves(proxy, secret, sessionId, time, handshake, before, after)
        ensures UpstreamGets(proxy, writer.sent, handshake, c, up)
      {
        GetsIt(proxy, secret, sessionId, time, handshake, c, ClientKs(server.suite, info.prekeyAndIv, own), sent,
               greeting, writer.sent, up, before, after);
      }
      forall reply | Replied(server.suite, secret, handshake, data, reply)
        ensures ClientReads(server.suite, c, server.inbound.FakeTls?, out.sent[|answer|..], reply, down)
      {
        ClientSeesUpstream(server.suite, c, secret, handshake, server.inbound.FakeTls?, data, rest, reply, returned,
                           out.sent[|answer|..], down);
      }
    }
  }

  lemma GetsIt(up: Server, secret: Secret, sessionId: seq<byte>, time: seq<byte>, handshake: seq<byte>, client: Client,
               clt: KeyStream, sent: seq<seq<byte>>, greeting: seq<byte>, all: seq<byte>, left: Left,
               before: seq<seq<byte>>, after: seq<seq<byte>>)
    requires |sessionId| == 32 && |time| == 4 && Keyed(up.suite, secret, handshake, client.proto, client.dcIdx)
    requires Serves(up, secret, sessionId, time, handshake, before, after)
    requires greeting <= all && greeting == [] + Greeting(up.suite, secret, sessionId, time, handshake)
    requires Written(clt, HANDSHAKE_LEN, ClientKs(up.suite, handshake[8..56], secret.key), HANDSHAKE_LEN,
                     secret.hostname.Some?, Crypt(clt, HANDSHAKE_LEN, client.plain), sent, all[|greeting|..], left)
    ensures UpstreamGets(up, all, handshake, client, left)
  {
    hide *;
    var c := UpstreamSeesClient(up, secret, sessionId, time, handshake, client.proto, client.dcIdx, clt, client.plain,
                                sent, all[|greeting|..], left, before, after);
    assert all == greeting + all[|greeting|..];
    assert [] + Greeting(up.suite, secret, sessionId, time, handshake) ==
      Greeting(up.suite, secret, sessionId, time, handshake);
    GetsAs(up, all, handshake, client, left, c);
  }

  lemma GetsAs(up: Server, wire: seq<byte>, handshake: seq<byte>, client: Client, left: Left, c: Client)
    requires c.Sends(up, wire) && c.handshake == handshake && c.proto == client.proto && c.dcIdx == client.dcIdx
    requires c.plain <= client.plain && (c.plain == client.plain <==> left.Nothing())
    ensures UpstreamGets(up, wire, handshake, client, left)
  {
    hide Client.Sends, Left.Nothing;
  }
}

/** One client connection over raw TCP to a DC, the last resort of the ladder. */
module TcpFallback {
  import opened Bridge
  import opened Bytes
  import opened Ciphers
  import opened ClientStream
  import opened Handshake
  import opened Net
  import opened Session
  import Upstream

  /**
   * A remote decodes the init in front of `wire`, and behind it reads the client's plaintext in order,
   * all of it if and only if nothing is left.
   */
  ghost predicate RemoteReads(suite: Suite, wire: seq<byte>, client: Client, left: Left) {
    && |wire| >= HANDSHAKE_LEN
    && var init, body := wire[..HANDSHAKE_LEN], wire[HANDSHAKE_LEN..];
      && Carries(RelayKs(suite, init), init, client.proto, client.dcIdx)
      && var got := Crypt(RelayKs(suite, init), HANDSHAKE_LEN, body);
        got <= client.plain && (got == client.plain <==> left.Nothing())
  }

  /** `data` is `reply` as the remote encrypts it for the init in front of `wire`. */
  ghost predicate Answers(suite: Suite, wire: seq<byte>, data: seq<byte>, reply: seq<byte>) {
    |wire| >= HANDSHAKE_LEN && data == Crypt(TelegramKs(suite, wire[..HANDSHAKE_LEN]), 0, reply)
  }

  /** What goes up a bridge behind its init. */
  ghost predicate SentUp(suite: Suite, a: Accepted, relayInit: seq<byte>, remaining: seq<byte>, up: seq<seq<byte>>,
                         wire: seq<byte>, left: Left) {
    && |a.info.prekeyAndIv| == PREKEY_LEN + IV_LEN && |relayInit| == HANDSHAKE_LEN
    && Carries(RelayKs(suite, relayInit), relayInit, a.info.proto, a.dcIdx)
    && Written(ClientKs(suite, a.info.prekeyAndIv, a.secret), HANDSHAKE_LEN, RelayKs(suite, relayInit), HANDSHAKE_LEN,
               false, remaining, up, wire, left)
  }

  /** What comes down a bridge. */
  ghost predicate SentDown(suite: Suite, a: Accepted, relayInit: seq<byte>, faketls: bool, data: seq<byte>,
                           down: seq<seq<byte>>, wire: seq<byte>, left: Left) {
    && |a.info.prekeyAndIv| == PREKEY_LEN + IV_LEN && |relayInit| == HANDSHAKE_LEN
    && Written(TelegramKs(suite, relayInit), 0, ProxyKs(suite, a.info.prekeyAndIv, a.secret), 0, faketls, data, down,
               wire, left)
  }

  /** Behind the TCP connect: the init goes out raw, and what follows is a relay without records. */
  method BridgeTcp(suite: Suite, client: Accepted, draws: seq<seq<byte>>, pad: seq<byte>, out: TcpWriter,
                   remoteIn: TcpReader, remoteOut: TcpWriter, closing: Closing)
    returns (started: bool, ghost relayInit: seq<byte>, ghost sent: seq<seq<byte>>, ghost up: Left,
             ghost returned: seq<seq<byte>>, ghost down: Left)
    requires !out.failed && !remoteOut.failed && remoteOut.sent == []
    requires out != remoteOut && client.reader.reader != remoteIn
    requires |client.info.prekeyAndIv| == PREKEY_LEN + IV_LEN
    requires |pad| == 2 && forall d | d in draws :: |d| == HANDSHAKE_LEN
    modifies client.reader, client.reader.reader, out, remoteIn, remoteOut
    ensures Handshake.Accepted(draws).None? ==> !started && remoteOut.sent == []
    ensures !started ==> out.sent == old(out.sent) && (Handshake.Accepted(draws).None? || remoteOut.failed)
    ensures !started ==> remoteOut.sent <= relayInit
    ensures started ==> old(out.sent) <= out.sent && relayInit <= remoteOut.sent
    ensures started ==>
      && SentUp(suite, client, relayInit, old(client.reader.Remaining()), sent, remoteOut.sent[|relayInit|..], up)
      && SentDown(suite, client, relayInit, client.reader.faketls, old(remoteIn.data), returned,
                  out.sent[|old(out.sent)|..], down)
    ensures started ==> up.unread == [] || up.unread == client.reader.Remaining()
    ensures started ==> down.unread == [] || down.unread == remoteIn.data
    ensures started && closing.first.ByClient? && !remoteOut.failed ==> up.Nothing()
    ensures started && closing.first.ByUpstream? && !out.failed ==> down.Nothing()
    ensures remoteOut.failed ==> remoteOut.limit.Some?
    ensures out.failed ==> out.limit.Some?
  {
    hide Written, Incoming, Crypt, Carries, MadeFrom, Handshake.Accepted, SentUp, SentDown, RelayKs, TelegramKs,
      ClientKs, ProxyKs;
    hide ClientReader.Remaining;
    started, relayInit, sent, up, returned, down := false, [], [], Left([], []), [], Left([], []);
    var init := GenerateRelayInit(suite, client.info.proto, client.dcIdx, draws, pad);
    if init.None? { return; }
    InitLength(init.value, Handshake.Accepted(draws).value);
    relayInit := init.value;
    var ciphers := new ConnectionCiphers(suite, client.info.prekeyAndIv, client.secret, init.value);
    assert [] + init.value == init.value;
    started := remoteOut.WriteAll(init.value);
    if !started { return; }
    var remote := Upstream.Connection(remoteIn, remoteOut, ciphers.tgEnc, ciphers.tgDec, false);
    IncomingPlain([], remoteIn.data);
    sent, up, returned, down := Upstream.BridgeRelay(client, ciphers.cltDec, ciphers.cltEnc, out, remote, closing);
    BridgedIs(suite, client, relayInit, old(client.reader.Remaining()), sent, remoteOut.sent[|relayInit|..], up,
              client.reader.faketls, old(remoteIn.data), returned, out.sent[|old(out.sent)|..], down);
  }

  lemma BridgedIs(suite: Suite, a: Accepted, relayInit: seq<byte>, remaining: seq<byte>, sent: seq<seq<byte>>,
                  wire: seq<byte>, up: Left, faketls: bool, data: seq<byte>, returned: seq<seq<byte>>,
                  back: seq<byte>, down: Left)
    requires |a.info.prekeyAndIv| == PREKEY_LEN + IV_LEN && |relayInit| == HANDSHAKE_LEN
    requires Carries(RelayKs(suite, relayInit), relayInit, a.info.proto, a.dcIdx)
    requires Written(ClientKs(suite, a.info.prekeyAndIv, a.secret), HANDSHAKE_LEN, RelayKs(suite, relayInit),
                     HANDSHAKE_LEN, false, remaining, sent, wire, up)
    requires Written(TelegramKs(suite, relayInit), 0, ProxyKs(suite, a.info.prekeyAndIv, a.secret), 0, faketls, data,
                     returned, back, down)
    ensures SentUp(suite, a, relayInit, remaining, sent, wire, up)
    ensures SentDown(suite, a, relayInit, faketls, data, returned, back, down)
  {}

  /**
   * A connection that fell back to raw TCP, from its first byte: for an honest client, plain or FakeTLS
   * and however its stream is cut, Telegram decodes what the client asked for. It reads the client's
   * plaintext and the client reads Telegram's, in order, and all of it if and only if nothing is left
   * when the session closes, as it is for the direction that ended first unless its sink failed.
   */
  method HandleTcp(server: Server, tcp: TcpReader, out: TcpWriter, draws: seq<seq<byte>>, pad: seq<byte>,
                   remoteIn: TcpReader, remoteOut: TcpWriter, closing: Closing)
    returns (started: bool, ghost up: Left, ghost down: Left)
    requires !out.failed && !remoteOut.failed && out.sent == [] && remoteOut.sent == []
    requires out != remoteOut && tcp != remoteIn
    requires |pad| == 2 && forall d | d in draws :: |d| == HANDSHAKE_LEN
    modifies tcp, out, remoteIn, remoteOut
    ensures started ==> server.Answer(old(tcp.data)) <= out.sent && |remoteOut.sent| >= HANDSHAKE_LEN
    ensures started ==>
      forall client: Client | client.Sends(server, old(tcp.data)) ::
        && RemoteReads(server.suite, remoteOut.sent, client, up)
        && forall reply | Answers(server.suite, remoteOut.sent, old(remoteIn.data), reply) ::
             ClientReads(server.suite, client, server.inbound.FakeTls?,
                         out.sent[|server.Answer(old(tcp.data))|..], reply, down)
    ensures started ==> up.unread == [] || StillThere(server.inbound, tcp.data, up.unread)
    ensures started ==> down.unread == [] || down.unread == remoteIn.data
    ensures started && closing.first.ByClient? && !remoteOut.failed ==> up.Nothing()
    ensures started && closing.first.ByUpstream? && !out.failed ==> down.Nothing()
    ensures remoteOut.failed ==> remoteOut.limit.Some?
    ensures out.failed ==> out.limit.Some?
    ensures !started ==>
      || !Acceptable(server, old(tcp.data)) || Handshake.Accepted(draws).None? || remoteOut.failed || out.failed
  {
    hide *;
    started, up, down := false, Left([], []), Left([], []);
    ghost var stream, data := tcp.data, remoteIn.data;
    var client := Accept(server, tcp, out);
    if client.None? { return; }
    ghost var answer, remaining := out.sent, client.value.reader.Remaining();
    assert [] + server.Answer(stream) == server.Answer(stream);
    PrekeyLength(server, stream, client.value, remaining);
    ghost var relayInit, sent, returned;
    started, relayInit, sent, up, returned, down :=
      BridgeTcp(server.suite, client.value, draws, pad, out, remoteIn, remoteOut, closing);
    if started {
      IsThere(server.inbound, client.value.reader);
      SentUpIs(server.suite, client.value, relayInit, remaining, sent, remoteOut.sent[|relayInit|..], up);
      assert remoteOut.sent[..HANDSHAKE_LEN] == relayInit;
      forall c: Client | c.Sends(server, stream)
        ensures RemoteReads(server.suite, remoteOut.sent, c, up)
        ensures forall reply | Answers(server.suite, remoteOut.sent, data, reply) ::
          ClientReads(server.suite, c, server.inbound.FakeTls?, out.sent[|answer|..], reply, down)
      {
        ReadByRemote(server, c, stream, client.value, remaining, relayInit, sent, remoteOut.sent, up);
        forall reply | Answers(server.suite, remoteOut.sent, data, reply)
          ensures ClientReads(server.suite, c, server.inbound.FakeTls?, out.sent[|answer|..], reply, down)
        {
          AnswersIs(server.suite, remoteOut.sent, data, reply);
          ReadBack(server, c, stream, client.value, remaining, relayInit, data, reply, returned, out.sent[|answer|..],
                   down);
        }
      }
    }
  }

  lemma AnswersIs(suite: Suite, wire: seq<byte>, data: seq<byte>, reply: seq<byte>)
    requires Answers(suite, wire, data, reply)
    ensures |wire| >= HANDSHAKE_LEN && data == Crypt(TelegramKs(suite, wire[..HANDSHAKE_LEN]), 0, reply)
  {}

  lemma SentUpIs(suite: Suite, a: Accepted, relayInit: seq<byte>, remaining: seq<byte>, up: seq<seq<byte>>,
                 wire: seq<byte>, left: Left)
    requires SentUp(suite, a, relayInit, remaining, up, wire, left)
    ensures |relayInit| == HANDSHAKE_LEN
  {}

  /** Upwards the remote reads the client's plaintext. */
  lemma ReadByRemote(server: Server, c: Client, stream: seq<byte>, a: Accepted, remaining: seq<byte>,
                     relayInit: seq<byte>, up: seq<seq<byte>>, wire: seq<byte>, left: Left)
    requires c.Sends(server, stream) && AcceptedFrom(server, stream, a, remaining)
    requires relayInit <= wire && SentUp(server.suite, a, relayInit, remaining, up, wire[|relayInit|..], left)
    ensures RemoteReads(server.suite, wire, c, left)
  {
    hide Crypt, Written, Incoming, Carries, RelayKs, ClientKs, Client.Sends, AcceptedFrom;
    KnownClient(server, c, stream, a, remaining);
    var clt, ks := ClientKs(server.suite, c.handshake[8..56], c.secret), RelayKs(server.suite, relayInit);
    var body := wire[HANDSHAKE_LEN..];
    assert wire[..HANDSHAKE_LEN] == relayInit;
    ReceiverReads(clt, HANDSHAKE_LEN, ks, HANDSHAKE_LEN, false, c.plain, up, body, left);
    IncomingPlain([], body);
  }

  /** Downwards the client reads what the remote encrypted for this init. */
  lemma ReadBack(server: Server, c: Client, stream: seq<byte>, a: Accepted, remaining: seq<byte>,
                 relayInit: seq<byte>, data: seq<byte>, reply: seq<byte>, down: seq<seq<byte>>, wire: seq<byte>,
                 left: Left)
    requires c.Sends(server, stream) && AcceptedFrom(server, stream, a, remaining)
    requires SentDown(server.suite, a, relayInit, server.inbound.FakeTls?, data, down, wire, left)
    requires data == Crypt(TelegramKs(server.suite, relayInit), 0, reply)
    ensures ClientReads(server.suite, c, server.inbound.FakeTls?, wire, reply, left)
  {
    hide Crypt, Written, Incoming, TelegramKs, ProxyKs, Client.Sends, AcceptedFrom;
    KnownClient(server, c, stream, a, remaining);
    ReceiverReads(TelegramKs(server.suite, relayInit), 0, ProxyKs(server.suite, a.info.prekeyAndIv, a.secret), 0,
                  server.inbound.FakeTls?, reply, down, wire, left);
  }
}

/** Both ends of the FakeTLS handshake: answering a client's hello, and getting past a server's answer. */
module FakeTls {
  import opened Bytes
  import opened Ciphers
  import opened ClientHello
  import ClientStream
  import Net
  import opened TlsRecords

  const MAX_HANDSHAKE_RECORDS: nat := 20

  // One record ----------------------------------------------------------------------

  datatype Raw = Raw(kind: byte, version: seq<byte>, payload: seq<byte>)

  /** The record a stream starts with, if it is all there and not too large, and what follows it. */
  function FirstRecord(stream: seq<byte>, max: nat): (r: Option<(Raw, seq<byte>)>)
    ensures r.Some? ==> |r.value.1| < |stream| && |r.value.0.payload| < 0x1_0000
  {
    if |stream| < 5 then None
    else
      var len := FromBe16(stream[3], stream[4]);
      if len > max || |stream| < 5 + len then None
      else Some((Raw(stream[0], [stream[1], stream[2]], stream[5..5 + len]), stream[5 + len..]))
  }

  method ReadTlsRecord(reader: Net.TcpReader, max: nat) returns (r: Option<Raw>)
    modifies reader
    ensures var first := FirstRecord(old(reader.data), max);
      && (r.Some? <==> first.Some?)
      && (r.Some? ==> r.value == first.value.0 && reader.data == first.value.1)
  {
    ghost var stream := reader.data;
    var header := new byte[5];
    var ok := reader.ReadExact(header, 5);
    if !ok { return None; }
    assert forall i | 0 <= i < 5 :: header[i] == header[..5][i] == stream[i];
    var len := FromBe16(header[3], header[4]);
    if len > max { return None; }
    var payload := new byte[len];
    ok := reader.ReadExact(payload, len);
    if !ok { return None; }
    assert stream[5..][..len] == stream[5..5 + len];
    return Some(Raw(header[0], [header[1], header[2]], payload[..len]));
  }

  lemma FirstOfRecord(kind: byte, version: seq<byte>, payload: seq<byte>, rest: seq<byte>, max: nat)
    requires |version| == 2 && |payload| < 0x1_0000
    ensures FirstRecord([kind] + version + Be16(|payload|) + payload + rest, max) ==
      if |payload| > max then None else Some((Raw(kind, version, payload), rest))
  {
    var stream := [kind] + version + Be16(|payload|) + payload + rest;
    Be16RoundTrip(|payload|);
    assert stream[3] == Be16(|payload|)[0] && stream[4] == Be16(|payload|)[1];
    assert version == [stream[1], stream[2]];
    assert stream[5..5 + |payload|] == payload && stream[5 + |payload|..] == rest;
  }

  // Getting past the server's handshake ------------------------------------------------

  /** What is left of a stream behind its first Application Data record, within `n` records. */
  function Drained(stream: seq<byte>, n: nat): (rest: Option<seq<byte>>)
    decreases n
  {
    if n == 0 then None
    else
      var first := FirstRecord(stream, READ_BUF);
      if first.None? || first.value.0.version != [0x03, 0x03] then None
      else if first.value.0.kind == APPLICATION_DATA then Some(first.value.1)
      else if first.value.0.kind == HANDSHAKE || first.value.0.kind == CHANGE_CIPHER_SPEC then
        Drained(first.value.1, n - 1)
      else None
  }

  method DrainFaketlsServerHello(reader: Net.TcpReader) returns (ok: bool)
    modifies reader
    ensures ok == Drained(old(reader.data), MAX_HANDSHAKE_RECORDS).Some?
    ensures ok ==> Some(reader.data) == Drained(old(reader.data), MAX_HANDSHAKE_RECORDS)
  {
    hide FirstRecord;
    var header := new byte[5];
    for i := 0 to MAX_HANDSHAKE_RECORDS
      invariant Drained(reader.data, MAX_HANDSHAKE_RECORDS - i) == Drained(old(reader.data), MAX_HANDSHAKE_RECORDS)
    {
      ghost var stream := reader.data;
      FirstIs(stream);
      ok := reader.ReadExact(header, 5);
      if !ok { return; }
      assert forall i | 0 <= i < 5 :: header[i] == header[..5][i] == stream[i];
      var kind, len := header[0], FromBe16(header[3], header[4]);
      if [header[1], header[2]] != [0x03, 0x03] { return false; }
      if len > READ_BUF { return false; }
      var payload := new byte[len];
      ok := reader.ReadExact(payload, len);
      if !ok { return; }
      if kind == APPLICATION_DATA { return true; }
      if kind != HANDSHAKE && kind != CHANGE_CIPHER_SPEC { return false; }
    }
    ok := false;
  }

  lemma FirstIs(stream: seq<byte>)
    ensures FirstRecord(stream, READ_BUF) ==
      if |stream| < 5 then None
      else if FromBe16(stream[3], stream[4]) > READ_BUF || |stream[5..]| < FromBe16(stream[3], stream[4]) then None
      else
        var len := FromBe16(stream[3], stream[4]);
        Some((Raw(stream[0], [stream[1], stream[2]], stream[5..][..len]), stream[5..][len..]))
  {
    if |stream| >= 5 {
      var len := FromBe16(stream[3], stream[4]);
      if |stream| >= 5 + len {
        assert stream[5..][..len] == stream[5..5 + len] && stream[5..][len..] == stream[5 + len..];
      }
    }
  }

  /** Handshake records of any number below the limit are drained up to the first Application Data record. */
  lemma {:induction false} DrainsRecords(recs: seq<Rec>, last: seq<byte>, rest: seq<byte>, n: nat)
    requires forall r | r in recs :: (r.kind == HANDSHAKE || r.kind == CHANGE_CIPHER_SPEC) && |r.payload| <= READ_BUF
    requires |last| <= READ_BUF
    ensures Drained(Wire(recs) + (Header(APPLICATION_DATA, |last|) + last + rest), n) ==
      if |recs| < n then Some(rest) else None
    decreases n
  {
    hide FirstRecord, Header;
    if n > 0 {
      var tail := Header(APPLICATION_DATA, |last|) + last + rest;
      if recs == [] {
        assert Wire(recs) + tail == tail;
        FirstOfWire(APPLICATION_DATA, last, rest);
      } else {
        assert recs[0] in recs && forall r | r in recs[1..] :: r in recs;
        var front := Header(recs[0].kind, |recs[0].payload|) + recs[0].payload;
        Assoc(front, Wire(recs[1..]), tail);
        FirstOfWire(recs[0].kind, recs[0].payload, Wire(recs[1..]) + tail);
        DrainsRecords(recs[1..], last, rest, n - 1);
      }
    }
  }

  lemma FirstOfWire(kind: byte, payload: seq<byte>, rest: seq<byte>)
    requires |payload| <= READ_BUF
    ensures FirstRecord(Header(kind, |payload|) + payload + rest, READ_BUF) ==
      Some((Raw(kind, [0x03, 0x03], payload), rest))
  {
    FirstOfRecord(kind, [0x03, 0x03], payload, rest, READ_BUF);
    assert [kind] + [0x03, 0x03] == [kind, 0x03, 0x03];
  }

  // Answering a hello --------------------------------------------------------------------

  const SERVER_EXTS: seq<byte> := [
    0x00, 0x00, 0x2e, 0x00, 0x2b, 0x00, 0x02, 0x03, 0x04, 0x00, 0x33, 0x00, 0x24, 0x00, 0x1d, 0x00, 0x20]

  /** Everything in the ServerHello behind its random. */
  function ServerRest(hello: Parsed, keyShare: seq<byte>): (b: seq<byte>) {
    [|hello.sessionId| % 256] + hello.sessionId + hello.cipherSuite + SERVER_EXTS + keyShare
  }

  function ServerHandshake(hello: Parsed, random: seq<byte>, keyShare: seq<byte>): (b: seq<byte>) {
    var rest := ServerRest(hello, keyShare);
    ([0x02] + Be24(2 + |random| + |rest|) + [0x03, 0x03]) + (random + rest)
  }

  function ServerRecords(hello: Parsed, random: seq<byte>, keyShare: seq<byte>, cert: seq<byte>): (recs: seq<Rec>) {
    [Rec(HANDSHAKE, ServerHandshake(hello, random, keyShare)), Rec(CHANGE_CIPHER_SPEC, [0x01]),
     Rec(APPLICATION_DATA, cert)]
  }

  /** The digest of an answer: over the client's random and the answer with its own random zeroed. */
  function ServerDigest(suite: Suite, secret: seq<byte>, hello: Parsed, keyShare: seq<byte>, cert: seq<byte>): Digest {
    suite.hmac(secret, hello.random + Wire(ServerRecords(hello, Zeros(), keyShare, cert)))
  }

  /** The answer to an authenticated hello; `keyShare` and `cert` are random. */
  method BuildFaketlsServerHello(suite: Suite, secret: seq<byte>, hello: Parsed, keyShare: seq<byte>, cert: seq<byte>)
    returns (answer: seq<byte>)
    ensures answer == Wire(ServerRecords(hello, ServerDigest(suite, secret, hello, keyShare, cert), keyShare, cert))
  {
    hide Be24, Header, ServerRest, Wire;
    var body := [0x03, 0x03] + Zeros() + ServerRest(hello, keyShare);
    var handshake := [0x02] + Be24(|body|) + body;
    HandshakeIs(hello, Zeros(), keyShare);
    var bytes := PushTlsRecord([], HANDSHAKE, handshake);
    bytes := PushTlsRecord(bytes, CHANGE_CIPHER_SPEC, [0x01]);
    bytes := PushTlsRecord(bytes, APPLICATION_DATA, cert);
    ThreeRecords(HANDSHAKE, handshake, CHANGE_CIPHER_SPEC, [0x01], APPLICATION_DATA, cert);
    assert bytes == Wire(ServerRecords(hello, Zeros(), keyShare, cert));

    var digest := suite.hmac(secret, hello.random + bytes);
    DigestStands(hello, Zeros(), digest, keyShare, cert);
    var packet := new byte[|bytes|](i requires 0 <= i < |bytes| => bytes[i]);
    for i := 0 to DIGEST_LEN
      invariant forall j | 0 <= j < packet.Length ::
        packet[j] == if DIGEST_POS <= j < DIGEST_POS + i then digest[j - DIGEST_POS] else bytes[j]
    {
      packet[DIGEST_POS + i] := digest[i];
    }
    assert packet[..] == WithRandom(bytes, digest);
    answer := packet[..];
  }

  method PushTlsRecord(out: seq<byte>, kind: byte, payload: seq<byte>) returns (bytes: seq<byte>)
    ensures bytes == out + (Header(kind, |payload|) + payload)
  {
    bytes := out + [kind];
    bytes := bytes + [0x03, 0x03];
    bytes := bytes + Be16(|payload|);
    bytes := bytes + payload;
  }

  lemma ThreeRecords(k0: byte, p0: seq<byte>, k1: byte, p1: seq<byte>, k2: byte, p2: seq<byte>)
    ensures Wire([Rec(k0, p0), Rec(k1, p1), Rec(k2, p2)]) ==
      [] + (Header(k0, |p0|) + p0) + (Header(k1, |p1|) + p1) + (Header(k2, |p2|) + p2)
  {
    hide Header;
    var recs := [Rec(k0, p0), Rec(k1, p1), Rec(k2, p2)];
    WireAppend([recs[0]], [recs[1], recs[2]]);
    WireAppend([recs[1]], [recs[2]]);
    OneRecord(recs[0]);
    OneRecord(recs[1]);
    OneRecord(recs[2]);
    assert recs == [recs[0]] + [recs[1], recs[2]] && [recs[1], recs[2]] == [recs[1]] + [recs[2]];
    Assoc(Wire([recs[0]]), Wire([recs[1]]), Wire([recs[2]]));
    assert [] + Wire([recs[0]]) == Wire([recs[0]]);
  }

  lemma OneRecord(r: Rec)
    ensures Wire([r]) == Header(r.kind, |r.payload|) + r.payload
  {
    assert [r][1..] == [];
    assert Wire([r]) == Header(r.kind, |r.payload|) + r.payload + [];
  }

  lemma HandshakeIs(hello: Parsed, random: seq<byte>, keyShare: seq<byte>)
    ensures var body := [0x03, 0x03] + random + ServerRest(hello, keyShare);
      [0x02] + Be24(|body|) + body == ServerHandshake(hello, random, keyShare)
  {
    hide Be24, ServerRest;
    var rest := ServerRest(hello, keyShare);
    Assoc([0x03, 0x03], random, rest);
    Assoc([0x02] + Be24(2 + |random| + |rest|), [0x03, 0x03], random + rest);
  }

  /** The digest goes where the random stands, and nothing else changes. */
  lemma DigestStands(hello: Parsed, random: seq<byte>, digest: seq<byte>, keyShare: seq<byte>, cert: seq<byte>)
    requires |random| == |digest| == DIGEST_LEN
    ensures WithRandom(Wire(ServerRecords(hello, random, keyShare, cert)), digest) ==
      Wire(ServerRecords(hello, digest, keyShare, cert))
    ensures |Wire(ServerRecords(hello, random, keyShare, cert))| >= DIGEST_POS + DIGEST_LEN
  {
    hide Be24, Be16, ServerRest, Wire, WithRandom;
    var rest := ServerRest(hello, keyShare);
    var len := 6 + |random| + |rest|;
    var pre := Header(HANDSHAKE, len) + ([0x02] + Be24(2 + |random| + |rest|) + [0x03, 0x03]);
    var after := (Header(CHANGE_CIPHER_SPEC, 1) + [0x01]) + (Header(APPLICATION_DATA, |cert|) + cert);
    forall r: seq<byte> | |r| == DIGEST_LEN
      ensures Wire(ServerRecords(hello, r, keyShare, cert)) == pre + (r + (rest + after))
    {
      AnswerIs(hello, r, keyShare, cert, pre, rest, after);
    }
    Replaced(pre, random, digest, rest + after);
  }

  lemma AnswerIs(hello: Parsed, r: seq<byte>, keyShare: seq<byte>, cert: seq<byte>, pre: seq<byte>, rest: seq<byte>,
                 after: seq<byte>)
    requires |r| == DIGEST_LEN && rest == ServerRest(hello, keyShare)
    requires pre == Header(HANDSHAKE, 6 + |r| + |rest|) + ([0x02] + Be24(2 + |r| + |rest|) + [0x03, 0x03])
    requires after == (Header(CHANGE_CIPHER_SPEC, 1) + [0x01]) + (Header(APPLICATION_DATA, |cert|) + cert)
    ensures Wire(ServerRecords(hello, r, keyShare, cert)) == pre + (r + (rest + after))
  {
    hide Be24, ServerRest, Wire, Header;
    var h := ServerHandshake(hello, r, keyShare);
    var header, hello3 := Header(HANDSHAKE, |h|), [0x02] + Be24(2 + |r| + |rest|) + [0x03, 0x03];
    ThreeRecords(HANDSHAKE, h, CHANGE_CIPHER_SPEC, [0x01], APPLICATION_DATA, cert);
    var a, b := Header(CHANGE_CIPHER_SPEC, 1) + [0x01], Header(APPLICATION_DATA, |cert|) + cert;
    assert [] + (header + h) == header + h;
    Assoc(header + h, a, b);
    Assoc(header, hello3, r + rest);
    Assoc(pre, r + rest, after);
    Assoc(r, rest, after);
  }

  /** A client that drains this answer is left with exactly what follows it. */
  lemma AnswerIsDrained(suite: Suite, secret: seq<byte>, hello: Parsed, keyShare: seq<byte>, cert: seq<byte>,
                        rest: seq<byte>)
    requires |hello.sessionId| < 256 && |hello.cipherSuite| == 2 && |keyShare| == 32 && |cert| <= READ_BUF
    ensures var digest := ServerDigest(suite, secret, hello, keyShare, cert);
      var answer := Wire(ServerRecords(hello, digest, keyShare, cert));
      Drained(answer + rest, MAX_HANDSHAKE_RECORDS) == Some(rest)
  {
    hide Be24, Header, Wire, Drained;
    var digest := ServerDigest(suite, secret, hello, keyShare, cert);
    var recs := ServerRecords(hello, digest, keyShare, cert);
    var front := recs[..2];
    assert recs == front + [recs[2]];
    WireAppend(front, [recs[2]]);
    OneRecord(recs[2]);
    assert |recs[0].payload| <= READ_BUF;
    forall r | r in front ensures (r.kind == HANDSHAKE || r.kind == CHANGE_CIPHER_SPEC) && |r.payload| <= READ_BUF {
      assert r == recs[0] || r == recs[1];
    }
    DrainsRecords(front, cert, rest, MAX_HANDSHAKE_RECORDS);
    Assoc(Wire(front), Header(APPLICATION_DATA, |cert|) + cert, rest);
  }

  // Accepting a client -------------------------------------------------------------------

  /** The first secret the hello authenticates under. */
  function FirstAuthentic(suite: Suite, utf8: seq<byte> -> bool, record: seq<byte>, secrets: seq<seq<byte>>):
    (r: Option<(Parsed, seq<byte>)>)
    ensures r.Some? ==> r.value.1 in secrets && ParseHello(suite, utf8, record, r.value.1) == Some(r.value.0)
    ensures r.None? ==> forall s | s in secrets :: ParseHello(suite, utf8, record, s).None?
  {
    if secrets == [] then None
    else
      var parsed := ParseHello(suite, utf8, record, secrets[0]);
      if parsed.Some? then Some((parsed.value, secrets[0])) else FirstAuthentic(suite, utf8, record, secrets[1..])
  }

  /** The hello a stream opens with, with its bytes put back together, and what follows it. */
  function Opening(stream: seq<byte>): (r: Option<(seq<byte>, seq<byte>)>) {
    var first := FirstRecord(stream, READ_BUF);
    if first.None? || first.value.0.kind != HANDSHAKE || first.value.0.version != [0x03, 0x01] then None
    else
      var raw := first.value.0;
      Some(([raw.kind] + raw.version + Be16(|raw.payload|) + raw.payload, first.value.1))
  }

  /** The opening record is a hello for `domain`, authentic under one of the secrets. */
  predicate Welcome(suite: Suite, utf8: seq<byte> -> bool, secrets: seq<seq<byte>>, domain: seq<byte>,
                    stream: seq<byte>) {
    var opening := Opening(stream);
    && opening.Some?
    && var found := FirstAuthentic(suite, utf8, opening.value.0, secrets);
      found.Some? && found.value.0.hostname == Some(domain)
  }

  method FindSecret(suite: Suite, utf8: seq<byte> -> bool, record: seq<byte>, secrets: seq<seq<byte>>)
    returns (r: Option<(Parsed, seq<byte>)>)
    ensures r == FirstAuthentic(suite, utf8, record, secrets)
  {
    hide ParseHello;
    assert secrets[0..] == secrets;
    for i := 0 to |secrets|
      invariant FirstAuthentic(suite, utf8, record, secrets) == FirstAuthentic(suite, utf8, record, secrets[i..])
    {
      var parsed := ParseFaketlsClientHello(suite, utf8, record, secrets[i]);
      assert secrets[i..][1..] == secrets[i + 1..];
      if parsed.Some? { return Some((parsed.value, secrets[i])); }
    }
    return None;
  }

  /**
   * Accept a FakeTLS client: check its hello, answer it, and collect the init from the records
   * behind it. A stream that is not welcome gets no byte of an answer.
   */
  method AcceptInboundFaketls(suite: Suite, utf8: seq<byte> -> bool, reader: Net.TcpReader, writer: Net.TcpWriter,
                              secrets: seq<seq<byte>>, domain: seq<byte>, keyShare: seq<byte>, cert: seq<byte>)
    returns (r: Option<(seq<byte>, seq<byte>)>, ghost answered: bool)
    requires !writer.failed
    modifies reader, writer
    ensures answered <==> Welcome(suite, utf8, secrets, domain, old(reader.data)) && !writer.failed
    ensures !Welcome(suite, utf8, secrets, domain, old(reader.data)) ==>
      writer.sent == old(writer.sent) && !writer.failed
    ensures answered ==>
      var (hello, secret) := FirstAuthentic(suite, utf8, Opening(old(reader.data)).value.0, secrets).value;
      var digest := ServerDigest(suite, secret, hello, keyShare, cert);
      writer.sent == old(writer.sent) + Wire(ServerRecords(hello, digest, keyShare, cert))
    ensures writer.failed ==> writer.limit.Some?
    ensures r.Some? <==> answered && |Payload(Opening(old(reader.data)).value.1, READ_BUF)| >= HANDSHAKE_LEN
    ensures r.Some? ==>
      && |r.value.0| == HANDSHAKE_LEN
      && r.value.0 + ClientStream.Incoming(true, r.value.1, reader.data) ==
        Payload(Opening(old(reader.data)).value.1, READ_BUF)
  {
    hide FirstRecord, FirstAuthentic, ParseHello, Payload, ClientStream.Incoming, Wire, ServerRecords, ServerDigest;
    r, answered := None, false;
    var raw := ReadTlsRecord(reader, READ_BUF);
    if raw.None? { return; }
    if raw.value.kind != HANDSHAKE || raw.value.version != [0x03, 0x01] { return; }
    var record := [raw.value.kind] + raw.value.version + Be16(|raw.value.payload|) + raw.value.payload;
    var found := FindSecret(suite, utf8, record, secrets);
    if found.None? { return; }
    var (hello, secret) := found.value;
    if hello.hostname != Some(domain) { return; }
    var answer := BuildFaketlsServerHello(suite, secret, hello, keyShare, cert);
    var ok := writer.WriteAll(answer);
    if !ok { return; }
    answered := true;
    r := ClientStream.ReadFakeTlsInit(reader);
  }

  /**
   * The two ends meet: a hello signed with a configured secret for the served domain is welcome,
   * and it is followed by the client's records alone.
   */
  lemma SignedHelloIsWelcome(suite: Suite, utf8: seq<byte> -> bool, domain: seq<byte>, sessionId: seq<byte>,
                             secret: seq<byte>, time: seq<byte>, before: seq<seq<byte>>, after: seq<seq<byte>>,
                             data: seq<byte>)
    requires |sessionId| == 32 && |time| == 4 && utf8(domain) && |domain| + 175 <= READ_BUF
    requires var unsigned := Record(Built(domain, sessionId, Zeros()));
      var signed := WithRandom(unsigned, Stamp(suite.hmac(secret, Zeroed(unsigned)), time));
      forall s | s in before :: ParseHello(suite, utf8, signed, s).None?
    ensures var unsigned := Record(Built(domain, sessionId, Zeros()));
      var signed := WithRandom(unsigned, Stamp(suite.hmac(secret, Zeroed(unsigned)), time));
      && Opening(signed + data) == Some((signed, data))
      && Welcome(suite, utf8, before + [secret] + after, domain, signed + data)
  {
    hide Record, Built, ParseHello, Zeroed, WithRandom, Stamp, Opening, FirstAuthentic;
    var unsigned := Record(Built(domain, sessionId, Zeros()));
    var random := Stamp(suite.hmac(secret, Zeroed(unsigned)), time);
    var signed := WithRandom(unsigned, random);
    HelloRoundTrip(suite, utf8, domain, sessionId, secret, time);
    OpensStream(domain, sessionId, random, data);
    OwnIsFirst(suite, utf8, signed, secret, before, after);
  }

  lemma OpensStream(domain: seq<byte>, sessionId: seq<byte>, random: seq<byte>, data: seq<byte>)
    requires |sessionId| == 32 && |random| == DIGEST_LEN && |domain| + 175 <= READ_BUF
    ensures var signed := WithRandom(Record(Built(domain, sessionId, Zeros())), random);
      Opening(signed + data) == Some((signed, data))
  {
    hide Body, WithRandom, Be24, Be16, FirstRecord;
    var h := Built(domain, sessionId, random);
    RandomOf(Built(domain, sessionId, Zeros()), random);
    BuiltLength(domain, sessionId, random);
    var payload := [0x01] + (Be24(|Body(h)|) + Body(h));
    var signed := [0x16] + [0x03, 0x01] + Be16(|payload|) + payload;
    assert [0x16] + [0x03, 0x01] == [0x16, 0x03, 0x01];
    Assoc([0x16, 0x03, 0x01], Be16(|payload|), payload);
    assert Record(h) == signed;
    FirstOfRecord(0x16, [0x03, 0x01], payload, data, READ_BUF);
  }

  lemma {:induction false} OwnIsFirst(suite: Suite, utf8: seq<byte> -> bool, record: seq<byte>, secret: seq<byte>,
                                      before: seq<seq<byte>>, after: seq<seq<byte>>)
    requires ParseHello(suite, utf8, record, secret).Some?
    requires forall s | s in before :: ParseHello(suite, utf8, record, s).None?
    ensures FirstAuthentic(suite, utf8, record, before + [secret] + after) ==
      Some((ParseHello(suite, utf8, record, secret).value, secret))
  {
    hide ParseHello;
    if before != [] {
      assert before[0] in before && forall s | s in before[1..] :: s in before;
      OwnIsFirst(suite, utf8, record, secret, before[1..], after);
      assert (before + [secret] + after)[1..] == before[1..] + [secret] + after;
    }
  }
}

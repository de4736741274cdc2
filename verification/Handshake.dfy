/** The obfuscation handshake: parsing it, generating it, and the ciphers both ends derive. */
module Handshake {
  import opened Bytes
  import opened Ciphers

  const PROTO_TAG_POS: nat := 56
  const DC_IDX_POS: nat := 60

  type i16 = x: int | -0x8000 <= x < 0x8000

  function Tag(proto: ProtoTag): (t: seq<byte>)
    ensures |t| == 4
  {
    match proto
    case Abridged => [0xef, 0xef, 0xef, 0xef]
    case Intermediate => [0xee, 0xee, 0xee, 0xee]
    case PaddedIntermediate => [0xdd, 0xdd, 0xdd, 0xdd]
  }

  function FromTag(b: seq<byte>): (p: Option<ProtoTag>)
    ensures p.Some? ==> Tag(p.value) == b
  {
    if b == Tag(Abridged) then Some(Abridged)
    else if b == Tag(Intermediate) then Some(Intermediate)
    else if b == Tag(PaddedIntermediate) then Some(PaddedIntermediate)
    else None
  }

  lemma TagRoundTrip(proto: ProtoTag)
    ensures FromTag(Tag(proto)) == Some(proto)
  {
    assert Tag(Abridged)[0] == 0xef && Tag(Intermediate)[0] == 0xee && Tag(PaddedIntermediate)[0] == 0xdd;
  }

  /** Two's complement, least significant byte first. */
  function ToLe16(x: i16): (b: seq<byte>)
    ensures |b| == 2 && FromLe16(b[0], b[1]) == x
  {
    var u: nat := if x < 0 then x + 0x1_0000 else x;
    [u % 0x100, u / 0x100]
  }

  function FromLe16(lo: nat, hi: nat): (x: i16)
    requires lo < 0x100 && hi < 0x100
  {
    var u := lo + 0x100 * hi;
    if u < 0x8000 then u else u - 0x1_0000
  }

  // Ciphers of one connection ------------------------------------------------

  /** The client's stream to the proxy: SHA-256 of prekey and secret, and the raw IV. */
  function ClientKs(suite: Suite, prekeyAndIv: seq<byte>, secret: seq<byte>): KeyStream
    requires |prekeyAndIv| == PREKEY_LEN + IV_LEN
  {
    suite.aesCtr(suite.sha256(prekeyAndIv[..PREKEY_LEN] + secret), prekeyAndIv[PREKEY_LEN..])
  }

  /** The stream back to the client runs on the reversed prekey and IV. */
  function ProxyKs(suite: Suite, prekeyAndIv: seq<byte>, secret: seq<byte>): KeyStream
    requires |prekeyAndIv| == PREKEY_LEN + IV_LEN
  {
    ClientKs(suite, Reversed(prekeyAndIv), secret)
  }

  /** The stream to Telegram: the key and IV embedded raw in the relay init. */
  function RelayKs(suite: Suite, relayInit: seq<byte>): KeyStream
    requires |relayInit| == HANDSHAKE_LEN
  {
    suite.aesCtr(relayInit[8..40], relayInit[40..56])
  }

  function TelegramKs(suite: Suite, relayInit: seq<byte>): KeyStream
    requires |relayInit| == HANDSHAKE_LEN
  {
    var reversed := Reversed(relayInit[8..56]);
    suite.aesCtr(reversed[..PREKEY_LEN], reversed[PREKEY_LEN..])
  }

  class ConnectionCiphers {
    const cltDec: CtrCipher
    const cltEnc: CtrCipher
    const tgEnc: CtrCipher
    const tgDec: CtrCipher

    /** All four ciphers, each fast-forwarded past what was already sent on its stream. */
    constructor (suite: Suite, prekeyAndIv: seq<byte>, secret: seq<byte>, relayInit: seq<byte>)
      requires |prekeyAndIv| == PREKEY_LEN + IV_LEN && |relayInit| == HANDSHAKE_LEN
      ensures fresh(cltDec) && fresh(cltEnc) && fresh(tgEnc) && fresh(tgDec)
      ensures cltDec != cltEnc && cltDec != tgEnc && cltDec != tgDec
      ensures cltEnc != tgEnc && cltEnc != tgDec && tgEnc != tgDec
      ensures cltDec.ks == ClientKs(suite, prekeyAndIv, secret) && cltDec.pos == HANDSHAKE_LEN
      ensures cltEnc.ks == ProxyKs(suite, prekeyAndIv, secret) && cltEnc.pos == 0
      ensures tgEnc.ks == RelayKs(suite, relayInit) && tgEnc.pos == HANDSHAKE_LEN
      ensures tgDec.ks == TelegramKs(suite, relayInit) && tgDec.pos == 0
    {
      var cltDecKey := suite.sha256(prekeyAndIv[..PREKEY_LEN] + secret);
      var reversed := Reversed(prekeyAndIv);
      var cltEncKey := suite.sha256(reversed[..PREKEY_LEN] + secret);
      var dec1 := new CtrCipher(suite, cltDecKey, prekeyAndIv[PREKEY_LEN..]);
      var enc1 := new CtrCipher(suite, cltEncKey, reversed[PREKEY_LEN..]);
      var dummy := dec1.ApplyKeystream(seq(HANDSHAKE_LEN, _ => 0));

      var relayRev := Reversed(relayInit[SKIP_LEN..SKIP_LEN + PREKEY_LEN + IV_LEN]);
      var enc2 := new CtrCipher(suite, relayInit[SKIP_LEN..SKIP_LEN + PREKEY_LEN],
                                relayInit[SKIP_LEN + PREKEY_LEN..SKIP_LEN + PREKEY_LEN + IV_LEN]);
      var dec2 := new CtrCipher(suite, relayRev[..PREKEY_LEN], relayRev[PREKEY_LEN..]);
      dummy := enc2.ApplyKeystream(dummy);
      cltDec, cltEnc, tgEnc, tgDec := dec1, enc1, enc2, dec2;
    }
  }

  // Parsing ------------------------------------------------------------------

  datatype HandshakeInfo = HandshakeInfo(dcId: nat, isMedia: bool, proto: ProtoTag, prekeyAndIv: seq<byte>)

  function ParseHandshake(suite: Suite, handshake: seq<byte>, secret: seq<byte>): (r: Option<HandshakeInfo>)
    requires |handshake| == HANDSHAKE_LEN
    ensures r.Some? ==> |r.value.prekeyAndIv| == PREKEY_LEN + IV_LEN && r.value.dcId <= 0x8000
  {
    var key := suite.sha256(handshake[8..40] + secret);
    var buf := Crypt(suite.aesCtr(key, handshake[40..56]), 0, handshake);
    match FromTag(buf[PROTO_TAG_POS..PROTO_TAG_POS + 4])
    case None => None
    case Some(proto) =>
      var dcIdx: int := FromLe16(buf[DC_IDX_POS], buf[DC_IDX_POS + 1]);
      Some(HandshakeInfo(if dcIdx < 0 then -dcIdx else dcIdx, dcIdx < 0, proto, handshake[8..56]))
  }

  /** The signed index the handler rebuilds; none where a checked negation overflows. */
  function RebuiltIndex(info: HandshakeInfo, checked: bool): (r: Option<i16>)
    requires info.dcId <= 0x8000
  {
    var id: i16 := if info.dcId < 0x8000 then info.dcId else info.dcId - 0x1_0000;
    if !info.isMedia then Some(id)
    else if id > -0x8000 then Some(-id)
    else if checked then None else Some(id)
  }

  // Generating ---------------------------------------------------------------

  /** First bytes Telegram would take for another protocol. */
  predicate Reserved(rnd: seq<byte>)
    requires |rnd| == HANDSHAKE_LEN
  {
    || rnd[0] == 0xef
    || rnd[..4] in [[0x48, 0x45, 0x41, 0x44], [0x50, 0x4f, 0x53, 0x54], [0x47, 0x45, 0x54, 0x20],
                    [0xee, 0xee, 0xee, 0xee], [0xdd, 0xdd, 0xdd, 0xdd], [0x16, 0x03, 0x01, 0x02]]
    || rnd[4..8] == [0, 0, 0, 0]
  }

  /** `packet` decodes under `ks` to this protocol tag and signed DC index. */
  ghost predicate Carries(ks: KeyStream, packet: seq<byte>, proto: ProtoTag, dcIdx: i16)
    requires |packet| == HANDSHAKE_LEN
  {
    var plain := Crypt(ks, 0, packet);
    plain[PROTO_TAG_POS..PROTO_TAG_POS + 4] == Tag(proto) && plain[DC_IDX_POS..DC_IDX_POS + 2] == ToLe16(dcIdx)
  }

  /** A packet made from the accepted draw `rnd`, which survives in front of the tag. */
  ghost predicate MadeFrom(packet: seq<byte>, rnd: seq<byte>) {
    && |packet| == |rnd| == HANDSHAKE_LEN
    && packet[..PROTO_TAG_POS] == rnd[..PROTO_TAG_POS]
    && !Reserved(rnd) && !Reserved(packet)
  }

  /** The first draw that is not reserved, if any. */
  function Accepted(draws: seq<seq<byte>>): (r: Option<seq<byte>>)
    requires forall d | d in draws :: |d| == HANDSHAKE_LEN
    ensures r.Some? ==> r.value in draws && !Reserved(r.value)
    ensures r.None? ==> forall d | d in draws :: Reserved(d)
  {
    if draws == [] then None
    else if Reserved(draws[0]) then Accepted(draws[1..])
    else Some(draws[0])
  }

  /** The rejection loop of both generators, over the draws the generator makes. */
  method AcceptDraw(draws: seq<seq<byte>>) returns (r: Option<seq<byte>>)
    requires forall d | d in draws :: |d| == HANDSHAKE_LEN
    ensures r == Accepted(draws)
  {
    var attempt := 0;
    assert draws[0..] == draws;
    while attempt < |draws|
      invariant attempt <= |draws|
      invariant Accepted(draws) == Accepted(draws[attempt..])
    {
      var rnd := draws[attempt];
      if !Reserved(rnd) { return Some(rnd); }
      assert draws[attempt..][1..] == draws[attempt + 1..];
      attempt := attempt + 1;
    }
    return None;
  }

  /**
   * The relay init for Telegram. It decodes under its own embedded key to the tag and index,
   * and everything in front of the tag is the accepted draw.
   */
  method GenerateRelayInit(suite: Suite, proto: ProtoTag, dcIdx: i16, draws: seq<seq<byte>>, pad: seq<byte>)
    returns (r: Option<seq<byte>>)
    requires |pad| == 2 && forall d | d in draws :: |d| == HANDSHAKE_LEN
    ensures r.Some? <==> Accepted(draws).Some?
    ensures r.Some? ==> MadeFrom(r.value, Accepted(draws).value)
    ensures r.Some? ==> Carries(RelayKs(suite, r.value), r.value, proto, dcIdx)
  {
    hide Xor, Tag, ToLe16, Reserved, Accepted;
    var draw := AcceptDraw(draws);
    if draw.None? { return None; }
    var rnd := draw.value;
    var tailPlain := Tag(proto) + ToLe16(dcIdx) + pad;
    var cipher := new CtrCipher(suite, rnd[8..40], rnd[40..56]);
    var encrypted := cipher.ApplyKeystream(rnd);
    var result := EmbedTail(cipher.ks, rnd, encrypted, tailPlain);
    SamePrefix(result, rnd);
    Embedded(cipher.ks, result, tailPlain[..6], proto, dcIdx);
    return Some(result);
  }

  /** Overwrite the last eight bytes with `tail` under the keystream the encryption reveals. */
  method EmbedTail(ghost ks: KeyStream, rnd: seq<byte>, encrypted: seq<byte>, tail: seq<byte>)
    returns (packet: seq<byte>)
    requires |rnd| == HANDSHAKE_LEN && |tail| == 8 && encrypted == Crypt(ks, 0, rnd)
    ensures |packet| == HANDSHAKE_LEN
    ensures forall j | 0 <= j < PROTO_TAG_POS :: packet[j] == rnd[j]
    ensures forall j | 0 <= j < 8 :: packet[PROTO_TAG_POS + j] == Xor(tail[j], ks(PROTO_TAG_POS + j))
  {
    hide Xor;
    var result := new byte[HANDSHAKE_LEN](i requires 0 <= i < |rnd| => rnd[i]);
    for i := 0 to 8
      invariant forall j | 0 <= j < PROTO_TAG_POS :: result[j] == rnd[j]
      invariant forall j | 0 <= j < i :: result[PROTO_TAG_POS + j] == Xor(tail[j], ks(PROTO_TAG_POS + j))
    {
      XorTwice(ks(PROTO_TAG_POS + i), rnd[PROTO_TAG_POS + i]);
      XorTwice(rnd[PROTO_TAG_POS + i], ks(PROTO_TAG_POS + i));
      result[PROTO_TAG_POS + i] := Xor(tail[i], Xor(encrypted[PROTO_TAG_POS + i], rnd[PROTO_TAG_POS + i]));
    }
    packet := result[..];
  }

  lemma Embedded(ks: KeyStream, packet: seq<byte>, tail: seq<byte>, proto: ProtoTag, dcIdx: i16)
    requires |packet| == HANDSHAKE_LEN && |tail| == 6
    requires tail[..4] == Tag(proto) && tail[4..6] == ToLe16(dcIdx)
    requires forall j | 0 <= j < 6 :: packet[PROTO_TAG_POS + j] == Xor(tail[j], ks(PROTO_TAG_POS + j))
    ensures Carries(ks, packet, proto, dcIdx)
  {
    hide Xor, Tag, ToLe16;
    var plain := Crypt(ks, 0, packet);
    forall j | 0 <= j < 6 ensures plain[PROTO_TAG_POS + j] == tail[j] {
      XorTwice(tail[j], ks(PROTO_TAG_POS + j));
    }
    assert plain[PROTO_TAG_POS..PROTO_TAG_POS + 4] == tail[..4];
    assert plain[DC_IDX_POS..DC_IDX_POS + 2] == tail[4..6];
  }

  lemma SamePrefix(packet: seq<byte>, rnd: seq<byte>)
    requires |packet| == |rnd| == HANDSHAKE_LEN
    requires forall j | 0 <= j < PROTO_TAG_POS :: packet[j] == rnd[j]
    ensures packet[..PROTO_TAG_POS] == rnd[..PROTO_TAG_POS]
    ensures packet[8..40] == rnd[8..40] && packet[40..56] == rnd[40..56] && packet[8..56] == rnd[8..56]
    ensures Reserved(packet) == Reserved(rnd)
  {
    assert packet[..4] == rnd[..4] && packet[4..8] == rnd[4..8];
  }

  /**
   * The handshake sent to an upstream proxy, with the two ciphers of the session. The upstream
   * parses it back to the same protocol and index and derives the mirror image of both ciphers.
   */
  method GenerateClientHandshake(suite: Suite, secret: seq<byte>, dcIdx: i16, proto: ProtoTag, draws: seq<seq<byte>>)
    returns (r: Option<(seq<byte>, CtrCipher, CtrCipher)>)
    requires forall d | d in draws :: |d| == HANDSHAKE_LEN
    ensures r.Some? <==> Accepted(draws).Some?
    ensures r.Some? ==>
      var (handshake, enc, dec) := r.value;
      && MadeFrom(handshake, Accepted(draws).value)
      && Carries(ClientKs(suite, handshake[8..56], secret), handshake, proto, dcIdx)
      && ParseHandshake(suite, handshake, secret) ==
         Some(HandshakeInfo(if dcIdx < 0 then -(dcIdx as int) else dcIdx as int, dcIdx < 0, proto, handshake[8..56]))
      && fresh(enc) && fresh(dec) && enc != dec
      && enc.ks == ClientKs(suite, handshake[8..56], secret) && enc.pos == HANDSHAKE_LEN
      && dec.ks == ProxyKs(suite, handshake[8..56], secret) && dec.pos == 0
  {
    hide Xor, Tag, ToLe16, Reserved, Accepted, ParseHandshake;
    var draw := AcceptDraw(draws);
    if draw.None? { return None; }
    var raw := draw.value;
    var cipher := new CtrCipher(suite, suite.sha256(raw[8..40] + secret), raw[40..56]);
    var keystream := cipher.ApplyKeystream(seq(HANDSHAKE_LEN, _ => 0));
    var handshake := EmbedHeader(raw, keystream, Tag(proto) + ToLe16(dcIdx));
    SamePrefix(handshake, raw);
    KeystreamOfZeros(cipher.ks, keystream);
    Embedded(cipher.ks, handshake, Tag(proto) + ToLe16(dcIdx), proto, dcIdx);
    assert handshake[8..56][..PREKEY_LEN] == handshake[8..40] && handshake[8..56][PREKEY_LEN..] == handshake[40..56];
    ParsesBack(suite, handshake, secret, proto, dcIdx);

    var enc, dec := SessionCiphers(suite, handshake, secret);
    return Some((handshake, enc, dec));
  }

  /** The ciphers of an upstream session, the outgoing one fast-forwarded past the handshake. */
  method SessionCiphers(suite: Suite, handshake: seq<byte>, secret: seq<byte>) returns (enc: CtrCipher, dec: CtrCipher)
    requires |handshake| == HANDSHAKE_LEN
    ensures fresh(enc) && fresh(dec) && enc != dec
    ensures enc.ks == ClientKs(suite, handshake[8..56], secret) && enc.pos == HANDSHAKE_LEN
    ensures dec.ks == ProxyKs(suite, handshake[8..56], secret) && dec.pos == 0
  {
    hide Xor;
    assert handshake[8..56][..PREKEY_LEN] == handshake[8..40] && handshake[8..56][PREKEY_LEN..] == handshake[40..56];
    enc := new CtrCipher(suite, suite.sha256(handshake[8..40] + secret), handshake[40..56]);
    var dummy := enc.ApplyKeystream(seq(HANDSHAKE_LEN, _ => 0));
    var reversed := Reversed(handshake[8..56]);
    dec := new CtrCipher(suite, suite.sha256(reversed[..PREKEY_LEN] + secret), reversed[PREKEY_LEN..]);
  }

  /** Overwrite the tag and index bytes, keeping the last two bytes random. */
  method EmbedHeader(raw: seq<byte>, keystream: seq<byte>, header: seq<byte>) returns (handshake: seq<byte>)
    requires |raw| == |keystream| == HANDSHAKE_LEN && |header| == 6
    ensures |handshake| == HANDSHAKE_LEN
    ensures forall j | 0 <= j < HANDSHAKE_LEN ::
      handshake[j] == if PROTO_TAG_POS <= j < PROTO_TAG_POS + 6 then Xor(header[j - PROTO_TAG_POS], keystream[j])
                      else raw[j]
  {
    hide Xor;
    var result := new byte[HANDSHAKE_LEN](i requires 0 <= i < |raw| => raw[i]);
    for i := 0 to 6
      invariant forall j | 0 <= j < HANDSHAKE_LEN ::
        result[j] == if PROTO_TAG_POS <= j < PROTO_TAG_POS + i then Xor(header[j - PROTO_TAG_POS], keystream[j])
                     else raw[j]
    {
      result[PROTO_TAG_POS + i] := Xor(header[i], keystream[PROTO_TAG_POS + i]);
    }
    handshake := result[..];
  }

  lemma KeystreamOfZeros(ks: KeyStream, keystream: seq<byte>)
    requires keystream == Crypt(ks, 0, seq(HANDSHAKE_LEN, _ => 0))
    ensures forall i | 0 <= i < HANDSHAKE_LEN :: keystream[i] == ks(i)
  {
    forall i | 0 <= i < HANDSHAKE_LEN ensures keystream[i] == ks(i) {
      XorZero(ks(i));
    }
  }

  /** A packet that carries a tag and index under the client's key parses back to them. */
  lemma ParsesBack(suite: Suite, handshake: seq<byte>, secret: seq<byte>, proto: ProtoTag, dcIdx: i16)
    requires |handshake| == HANDSHAKE_LEN
    requires Carries(ClientKs(suite, handshake[8..56], secret), handshake, proto, dcIdx)
    ensures ParseHandshake(suite, handshake, secret) ==
      Some(HandshakeInfo(if dcIdx < 0 then -(dcIdx as int) else dcIdx as int, dcIdx < 0, proto, handshake[8..56]))
  {
    hide Xor, Tag;
    assert handshake[8..56][..PREKEY_LEN] == handshake[8..40] && handshake[8..56][PREKEY_LEN..] == handshake[40..56];
    var plain := Crypt(ClientKs(suite, handshake[8..56], secret), 0, handshake);
    TagRoundTrip(proto);
    assert plain[DC_IDX_POS..DC_IDX_POS + 2][0] == plain[DC_IDX_POS];
    assert plain[DC_IDX_POS..DC_IDX_POS + 2][1] == plain[DC_IDX_POS + 1];
  }

  /** What parses is what a packet carries: a tag, and an index whose magnitude and sign are kept. */
  lemma ParsesOnlyCarried(suite: Suite, handshake: seq<byte>, secret: seq<byte>)
    requires |handshake| == HANDSHAKE_LEN
    ensures ParseHandshake(suite, handshake, secret).Some? <==>
      exists proto, dcIdx :: Carries(ClientKs(suite, handshake[8..56], secret), handshake, proto, dcIdx)
    ensures ParseHandshake(suite, handshake, secret).Some? ==>
      var info := ParseHandshake(suite, handshake, secret).value;
      exists dcIdx: i16 ::
        && Carries(ClientKs(suite, handshake[8..56], secret), handshake, info.proto, dcIdx)
        && info.isMedia == (dcIdx < 0) && info.dcId == if dcIdx < 0 then -(dcIdx as int) else dcIdx as int
  {
    hide Xor, Crypt;
    var ks := ClientKs(suite, handshake[8..56], secret);
    assert handshake[8..56][..PREKEY_LEN] == handshake[8..40] && handshake[8..56][PREKEY_LEN..] == handshake[40..56];
    var plain := Crypt(ks, 0, handshake);
    if ParseHandshake(suite, handshake, secret).Some? {
      var proto := ParseHandshake(suite, handshake, secret).value.proto;
      var dcIdx := FromLe16(plain[DC_IDX_POS], plain[DC_IDX_POS + 1]);
      TagFound(plain[PROTO_TAG_POS..PROTO_TAG_POS + 4], proto);
      IndexFound(plain[DC_IDX_POS], plain[DC_IDX_POS + 1]);
      assert plain[DC_IDX_POS..DC_IDX_POS + 2] == [plain[DC_IDX_POS], plain[DC_IDX_POS + 1]];
      assert Carries(ks, handshake, proto, dcIdx);
    }
    if proto, dcIdx :| Carries(ks, handshake, proto, dcIdx) {
      ParsesBack(suite, handshake, secret, proto, dcIdx);
    }
  }

  lemma TagFound(b: seq<byte>, proto: ProtoTag)
    requires |b| == 4 && FromTag(b) == Some(proto)
    ensures b == Tag(proto)
  {}

  lemma IndexFound(lo: byte, hi: byte)
    ensures ToLe16(FromLe16(lo, hi)) == [lo, hi]
  {}

  /**
   * The handler rebuilds the signed index from the parsed id and media flag. It gets back the
   * index the client sent, for every index but one: -32768, where a checked build panics.
   */
  lemma RebuiltIndexExact(suite: Suite, handshake: seq<byte>, secret: seq<byte>, proto: ProtoTag, dcIdx: i16,
                          checked: bool)
    requires |handshake| == HANDSHAKE_LEN
    requires Carries(ClientKs(suite, handshake[8..56], secret), handshake, proto, dcIdx)
    ensures var info := ParseHandshake(suite, handshake, secret);
      info.Some? && (RebuiltIndex(info.value, checked) == Some(dcIdx) <==> !(checked && dcIdx == -0x8000))
  {
    ParsesBack(suite, handshake, secret, proto, dcIdx);
  }
}

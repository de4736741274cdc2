/**
 * The FakeTLS ClientHello (section 4.1.2 of RFC 8446): building, signing and parsing, with the
 * server name extension (section 3 of RFC 6066).
 */
module ClientHello {
  import opened Bytes
  import opened Ciphers

  const MIN_RECORD: nat := 47
  const DIGEST_POS: nat := 11
  const DIGEST_LEN: nat := 32
  const AUTH_LEN: nat := 28

  // Writing fields ---------------------------------------------------------------

  function Be24(n: nat): (b: seq<byte>)
    ensures |b| == 3
  {
    [(n / 0x1_0000) % 256, (n / 256) % 256, n % 256]
  }

  function FromBe24(a: nat, b: nat, c: nat): nat {
    a * 0x1_0000 + b * 256 + c
  }

  lemma Be24RoundTrip(n: nat)
    requires n < 0x100_0000
    ensures FromBe24(Be24(n)[0], Be24(n)[1], Be24(n)[2]) == n
  {
    var high, rest := n / 0x1_0000, n % 0x1_0000;
    var mid, low := rest / 256, rest % 256;
    assert high < 256 && mid < 256;
    assert n == 256 * (256 * high + mid) + low;
    QuotientOf(256 * high + mid, low);
    QuotientOf(high, mid);
  }

  datatype Ext = Ext(kind: nat, data: seq<byte>)

  datatype Hello = Hello(random: seq<byte>, sessionId: seq<byte>, suites: seq<byte>, compression: seq<byte>,
                         exts: seq<Ext>) {
    /** The fields fit their lengths. */
    predicate Ok() {
      && |random| == DIGEST_LEN && |sessionId| < 256 && 2 <= |suites| < 0x1_0000 && |compression| < 256
      && (forall e | e in exts :: e.kind < 0x1_0000 && |e.data| < 0x1_0000)
      && |Body(this)| + 4 < 0x1_0000
    }
  }

  function Exts(exts: seq<Ext>): (b: seq<byte>) {
    if exts == [] then []
    else Be16(exts[0].kind) + (Be16(|exts[0].data|) + (exts[0].data + Exts(exts[1..])))
  }

  function Body(h: Hello): (b: seq<byte>) {
    var exts := Exts(h.exts);
    [0x03, 0x03] + (h.random + ([|h.sessionId| % 256] + (h.sessionId
    + (Be16(|h.suites|) + (h.suites + ([|h.compression| % 256] + (h.compression + (Be16(|exts|) + exts))))))))
  }

  function Record(h: Hello): (r: seq<byte>) {
    var body := Body(h);
    [0x16, 0x03, 0x01] + (Be16(4 + |body|) + ([0x01] + (Be24(|body|) + body)))
  }

  /** `x` stands in `s` at `pos`. */
  predicate At(s: seq<byte>, pos: nat, x: seq<byte>) {
    pos + |x| <= |s| && s[pos..pos + |x|] == x
  }

  lemma AtSplit(s: seq<byte>, pos: nat, a: seq<byte>, b: seq<byte>)
    requires At(s, pos, a + b)
    ensures At(s, pos, a) && At(s, pos + |a|, b)
  {
    assert s[pos..pos + |a + b|][..|a|] == a && s[pos..pos + |a + b|][|a|..] == b;
  }

  lemma ByteAt(s: seq<byte>, pos: nat, x: byte)
    requires At(s, pos, [x])
    ensures s[pos] == x
  {
    assert s[pos..pos + 1][0] == x;
  }

  lemma Be16At(s: seq<byte>, pos: nat, n: nat)
    requires At(s, pos, Be16(n)) && n < 0x1_0000
    ensures FromBe16(s[pos], s[pos + 1]) == n
  {
    Be16RoundTrip(n);
    assert s[pos..pos + 2][0] == s[pos] && s[pos..pos + 2][1] == s[pos + 1];
  }

  // The hostname -------------------------------------------------------------------

  /** The first server name that can be read; a malformed list ends the search. */
  function Sni(utf8: seq<byte> -> bool, exts: seq<byte>): (host: Option<seq<byte>>)
    decreases |exts|
  {
    if |exts| < 4 then None
    else
      var kind, len, rest := FromBe16(exts[0], exts[1]), FromBe16(exts[2], exts[3]), exts[4..];
      if |rest| < len then None
      else if kind != 0 || len < 5 then Sni(utf8, rest[len..])
      else ServerName(utf8, rest[..len])
  }

  function ServerName(utf8: seq<byte> -> bool, ext: seq<byte>): Option<seq<byte>>
    requires |ext| >= 5
  {
    var listLen := FromBe16(ext[0], ext[1]);
    if |ext| < 2 + listLen || listLen < 3 || ext[2] != 0 then None
    else
      var hostLen := FromBe16(ext[3], ext[4]);
      if |ext| < 5 + hostLen || !utf8(ext[5..5 + hostLen]) then None else Some(ext[5..5 + hostLen])
  }

  method ParseSniExtension(utf8: seq<byte> -> bool, extensions: seq<byte>) returns (host: Option<seq<byte>>)
    ensures host == Sni(utf8, extensions)
  {
    var left := extensions;
    while |left| >= 4
      invariant Sni(utf8, left) == Sni(utf8, extensions)
      decreases |left|
    {
      var kind, len := FromBe16(left[0], left[1]), FromBe16(left[2], left[3]);
      left := left[4..];
      if |left| < len { return None; }
      var ext := left[..len];
      left := left[len..];
      if kind != 0 || |ext| < 5 { continue; }
      return ServerName(utf8, ext);
    }
    return None;
  }

  /** The server_name extension for one host. */
  function SniExt(host: seq<byte>): Ext {
    Ext(0, Be16(3 + |host|) + ([0] + (Be16(|host|) + host)))
  }

  /** Extensions the search passes over. */
  predicate PassedOver(e: Ext) {
    e.kind < 0x1_0000 && |e.data| < 0x1_0000 && (e.kind != 0 || |e.data| < 5)
  }

  /** The host is found at any position among extensions that carry no other name, whatever follows it. */
  lemma {:induction false} SniIsFound(utf8: seq<byte> -> bool, before: seq<Ext>, host: seq<byte>, after: seq<Ext>)
    requires forall e | e in before :: PassedOver(e)
    requires |host| + 5 < 0x1_0000 && utf8(host)
    ensures Sni(utf8, Exts(before + [SniExt(host)] + after)) == Some(host)
  {
    hide ServerName, Be16, FromBe16;
    var all := before + [SniExt(host)] + after;
    if before == [] {
      assert all == [SniExt(host)] + after;
      SniFirst(utf8, SniExt(host), all[1..]);
      NameIsRead(utf8, host);
    } else {
      assert before[0] in before && forall e | e in before[1..] :: e in before;
      SniFirst(utf8, before[0], all[1..]);
      assert all[1..] == before[1..] + [SniExt(host)] + after && all == [before[0]] + all[1..];
      SniIsFound(utf8, before[1..], host, after);
    }
  }

  /** What the search does with the first extension of a list. */
  lemma SniFirst(utf8: seq<byte> -> bool, e: Ext, rest: seq<Ext>)
    requires e.kind < 0x1_0000 && |e.data| < 0x1_0000
    ensures Sni(utf8, Exts([e] + rest)) ==
      if e.kind != 0 || |e.data| < 5 then Sni(utf8, Exts(rest)) else ServerName(utf8, e.data)
  {
    hide ServerName, Be16, FromBe16;
    var tail := Exts(rest);
    var s := Be16(e.kind) + (Be16(|e.data|) + (e.data + tail));
    assert ([e] + rest)[1..] == rest;
    assert Exts([e] + rest) == s;
    AtSplit(s, 0, Be16(e.kind), Be16(|e.data|) + (e.data + tail));
    AtSplit(s, 2, Be16(|e.data|), e.data + tail);
    Be16At(s, 0, e.kind);
    Be16At(s, 2, |e.data|);
    assert s[4..] == e.data + tail;
    assert (e.data + tail)[..|e.data|] == e.data && (e.data + tail)[|e.data|..] == tail;
  }

  lemma NameIsRead(utf8: seq<byte> -> bool, host: seq<byte>)
    requires |host| + 5 < 0x1_0000 && utf8(host)
    ensures ServerName(utf8, SniExt(host).data) == Some(host)
  {
    hide Be16, FromBe16;
    var ext := SniExt(host).data;
    AtSplit(ext, 0, Be16(3 + |host|), [0] + (Be16(|host|) + host));
    AtSplit(ext, 2, [0], Be16(|host|) + host);
    AtSplit(ext, 3, Be16(|host|), host);
    Be16At(ext, 0, 3 + |host|);
    ByteAt(ext, 2, 0);
    Be16At(ext, 3, |host|);
  }

  // Parsing ------------------------------------------------------------------------

  datatype Fields = Fields(sessionId: seq<byte>, cipherSuite: seq<byte>, exts: seq<byte>)

  function ParseBody(body: seq<byte>): (f: Option<Fields>) {
    if |body| < 35 then None
    else
      var end: nat := 35 + (body[34] as nat);
      if |body| < end + 2 then None
      else
        var suites := FromBe16(body[end], body[end + 1]);
        if suites < 2 || |body| < end + 2 + suites + 1 then None
        else
          var p := end + 2 + suites;
          var q := p + 1 + (body[p] as nat);
          if |body| < q + 2 then None
          else
            var len := FromBe16(body[q], body[q + 1]);
            if |body| < q + 2 + len then None
            else Some(Fields(body[35..end], [body[end + 2], body[end + 3]], body[q + 2..q + 2 + len]))
  }

  /** The record with another random. */
  function WithRandom(record: seq<byte>, random: seq<byte>): (z: seq<byte>)
    requires |random| == DIGEST_LEN
    ensures |z| == |record|
  {
    seq(|record|, i requires 0 <= i < |record| =>
      if DIGEST_POS <= i < DIGEST_POS + DIGEST_LEN then random[i - DIGEST_POS] else record[i])
  }

  function Zeros(): (z: seq<byte>)
    ensures |z| == DIGEST_LEN
  {
    seq(DIGEST_LEN, _ => 0)
  }

  /** The record with its random zeroed: what the digest is taken over. */
  function Zeroed(record: seq<byte>): (z: seq<byte>) {
    WithRandom(record, Zeros())
  }

  /** The first 28 bytes of the random are those of the digest. */
  predicate Authentic(suite: Suite, record: seq<byte>, secret: seq<byte>)
    requires |record| >= MIN_RECORD
  {
    suite.hmac(secret, Zeroed(record))[..AUTH_LEN] == record[DIGEST_POS..DIGEST_POS + AUTH_LEN]
  }

  /** The record and handshake headers agree with the length of the record. */
  predicate Framed(record: seq<byte>)
    requires |record| >= MIN_RECORD
  {
    && record[0] == 0x16 && |record| == 5 + FromBe16(record[3], record[4])
    && record[5] == 0x01 && |record| == 9 + FromBe24(record[6], record[7], record[8])
  }

  datatype Parsed = Parsed(random: seq<byte>, sessionId: seq<byte>, cipherSuite: seq<byte>, hostname: Option<seq<byte>>)

  function ParseHello(suite: Suite, utf8: seq<byte> -> bool, record: seq<byte>, secret: seq<byte>)
    : (r: Option<Parsed>)
  {
    if |record| < MIN_RECORD || !Framed(record) || !Authentic(suite, record, secret) then None
    else
      var f := ParseBody(record[9..]);
      if f.None? then None
      else Some(Parsed(record[DIGEST_POS..DIGEST_POS + DIGEST_LEN], f.value.sessionId, f.value.cipherSuite,
                       Sni(utf8, f.value.exts)))
  }

  lemma XorIsZero(a: byte, b: byte)
    ensures Xor(a, b) == 0 <==> a == b
  {
    hide Xor;
    XorTwice(a, b);
    XorZero(b);
    XorTwice(0, a);
    XorZero(a);
  }

  /** Parse and authenticate a ClientHello under one secret; any bytes at all are safe to hand in. */
  method ParseFaketlsClientHello(suite: Suite, utf8: seq<byte> -> bool, record: seq<byte>, secret: seq<byte>)
    returns (r: Option<Parsed>)
    ensures r == ParseHello(suite, utf8, record, secret)
  {
    hide Xor, Sni;
    if |record| < MIN_RECORD || !Framed(record) { return None; }
    var random := record[DIGEST_POS..DIGEST_POS + DIGEST_LEN];
    var computed := suite.hmac(secret, Zeroed(record));
    var xored := new byte[DIGEST_LEN];
    for i := 0 to DIGEST_LEN
      invariant forall j | 0 <= j < i :: xored[j] == Xor(computed[j], random[j])
    {
      xored[i] := Xor(computed[i], random[i]);
    }
    for i := 0 to AUTH_LEN
      invariant computed[..i] == random[..i]
      invariant forall j | 0 <= j < DIGEST_LEN :: xored[j] == Xor(computed[j], random[j])
    {
      XorIsZero(computed[i], random[i]);
      if xored[i] != 0 {
        assert computed[..AUTH_LEN][i] != random[..AUTH_LEN][i];
        assert random[..AUTH_LEN] == record[DIGEST_POS..DIGEST_POS + AUTH_LEN];
        return None;
      }
      assert computed[..i + 1] == computed[..i] + [computed[i]] && random[..i + 1] == random[..i] + [random[i]];
    }
    assert random[..AUTH_LEN] == record[DIGEST_POS..DIGEST_POS + AUTH_LEN];
    var f := ParseBody(record[9..]);
    if f.None? { return None; }
    var host := ParseSniExtension(utf8, f.value.exts);
    return Some(Parsed(random, f.value.sessionId, f.value.cipherSuite, host));
  }

  // Building and signing -------------------------------------------------------------

  const SUITES: seq<byte> := [
    0x13, 0x01, 0x13, 0x02, 0x13, 0x03, 0xc0, 0x2b, 0xc0, 0x2f, 0xc0, 0x2c, 0xc0, 0x30, 0xcc, 0xa9,
    0xcc, 0xa8, 0xc0, 0x13, 0xc0, 0x14, 0x00, 0x9c, 0x00, 0x9d, 0x00, 0x2f, 0x00, 0x35, 0x00, 0x0a]

  /** Extended master secret, renegotiation, groups, point formats, session ticket and signatures. */
  function OtherExts(): (exts: seq<Ext>)
    ensures forall e | e in exts :: PassedOver(e)
  {
    [Ext(0x0017, []), Ext(0xff01, [0x00]),
     Ext(0x000a, [0x00, 0x08, 0x00, 0x1d, 0x00, 0x17, 0x00, 0x18, 0x00, 0x19]),
     Ext(0x000b, [0x01, 0x00]), Ext(0x0023, []),
     Ext(0x000d, [0x00, 0x12, 0x04, 0x03, 0x08, 0x04, 0x04, 0x01, 0x05, 0x03, 0x08, 0x05, 0x05, 0x01,
                  0x08, 0x06, 0x06, 0x01, 0x02, 0x01])]
  }

  /** The hello this proxy sends upstream. */
  function Built(hostname: seq<byte>, sessionId: seq<byte>, random: seq<byte>): Hello {
    Hello(random, sessionId, SUITES, [0x00], [SniExt(hostname)] + OtherExts())
  }

  lemma ExtsFirst(e: Ext, rest: seq<Ext>)
    ensures Exts([e] + rest) == Be16(e.kind) + Be16(|e.data|) + e.data + Exts(rest)
  {
    assert ([e] + rest)[1..] == rest;
    Assoc(Be16(e.kind), Be16(|e.data|), e.data + Exts(rest));
    Assoc(Be16(e.kind) + Be16(|e.data|), e.data, Exts(rest));
  }

  lemma {:induction false} ExtsAppend(a: seq<Ext>, b: seq<Ext>)
    ensures Exts(a + b) == Exts(a) + Exts(b)
  {
    hide Be16;
    if a == [] {
      assert a + b == b;
    } else {
      assert a + b == [a[0]] + (a[1..] + b) && a == [a[0]] + a[1..];
      ExtsFirst(a[0], a[1..] + b);
      ExtsFirst(a[0], a[1..]);
      ExtsAppend(a[1..], b);
      Assoc(Be16(a[0].kind) + Be16(|a[0].data|) + a[0].data, Exts(a[1..]), Exts(b));
    }
  }

  /** Append the extensions one by one. */
  method WriteExts(exts: seq<Ext>) returns (bytes: seq<byte>)
    ensures bytes == Exts(exts)
  {
    hide Be16;
    bytes := [];
    assert exts[..0] == [];
    for i := 0 to |exts|
      invariant bytes == Exts(exts[..i])
    {
      ghost var before := bytes;
      bytes := bytes + Be16(exts[i].kind);
      bytes := bytes + Be16(|exts[i].data|);
      bytes := bytes + exts[i].data;
      assert exts[..i + 1] == exts[..i] + [exts[i]] && [exts[i]] + [] == [exts[i]];
      ExtsAppend(exts[..i], [exts[i]]);
      ExtsFirst(exts[i], []);
      Assoc(before, Be16(exts[i].kind), Be16(|exts[i].data|));
      Assoc(before, Be16(exts[i].kind) + Be16(|exts[i].data|), exts[i].data);
      assert Exts([]) == [];
      assert Exts([exts[i]]) == Be16(exts[i].kind) + Be16(|exts[i].data|) + exts[i].data;
    }
    assert exts[..|exts|] == exts;
  }

  /** `a + b` on sixteen bits; none where a checked build panics. */
  function Add16(checked: bool, a: nat, b: nat): (sum: Option<nat>) {
    if checked && a + b >= 0x1_0000 then None else Some((a + b) % 0x1_0000)
  }

  /** The entry, list and data lengths around a host name; none where computing them panics. */
  function SniLengths(checked: bool, hostLen: nat): (lens: Option<(nat, nat)>) {
    var list := Add16(checked, 3, hostLen % 0x1_0000);
    if list.None? then None
    else
      var data := Add16(checked, 2, list.value);
      if data.None? then None else Some((list.value, data.value))
  }

  /**
   * A checked build panics exactly on host names whose length, cut to sixteen bits, is within five of
   * the end; otherwise the lengths are the true ones, cut to sixteen bits.
   */
  lemma SniLengthsExact(checked: bool, hostLen: nat)
    ensures SniLengths(checked, hostLen).None? <==> checked && hostLen % 0x1_0000 >= 0xfffb
    ensures SniLengths(checked, hostLen).Some? ==>
      SniLengths(checked, hostLen).value == ((3 + hostLen) % 0x1_0000, (5 + hostLen) % 0x1_0000)
  {}

  lemma Be16Wraps(n: nat)
    ensures Be16(n % 0x1_0000) == Be16(n)
  {
    var q, r := n / 0x1_0000, n % 0x1_0000;
    var high, low := r / 256, r % 256;
    assert n == 256 * (256 * q + high) + low;
    QuotientOf(256 * q + high, low);
    QuotientOf(q, high);
  }

  lemma QuotientOf(q: nat, r: nat)
    requires r < 256
    ensures (256 * q + r) / 256 == q && (256 * q + r) % 256 == r
  {}

  /** The unsigned record, its random zeroed. */
  method BuildFaketlsClientHello(hostname: seq<byte>, sessionId: seq<byte>, checked: bool)
    returns (r: Option<seq<byte>>)
    requires |sessionId| == 32
    ensures r.None? <==> checked && |hostname| % 0x1_0000 >= 0xfffb
    ensures r.Some? ==> r.value == Record(Built(hostname, sessionId, Zeros()))
  {
    hide Be16, Be24, Exts, OtherExts, SniLengths;
    SniLengthsExact(checked, |hostname|);
    var lens := SniLengths(checked, |hostname|);
    if lens.None? { return None; }
    var (list, data) := lens.value;
    var exts := Be16(0);
    exts := exts + Be16(data);
    exts := exts + Be16(list);
    exts := exts + [0x00];
    exts := exts + Be16(|hostname| % 0x1_0000);
    exts := exts + hostname;
    var others := WriteExts(OtherExts());
    exts := exts + others;
    SniWritten(hostname, list, data, OtherExts());
    var record := BuildRecord(hostname, sessionId, exts);
    return Some(record);
  }

  /** The fields of the server name, appended one by one. */
  lemma SniWritten(host: seq<byte>, list: nat, data: nat, rest: seq<Ext>)
    requires list == (3 + |host|) % 0x1_0000 && data == (5 + |host|) % 0x1_0000
    ensures Be16(0) + Be16(data) + Be16(list) + [0x00] + Be16(|host| % 0x1_0000) + host + Exts(rest) ==
      Exts([SniExt(host)] + rest)
  {
    hide Be16, Exts;
    Be16Wraps(3 + |host|);
    Be16Wraps(5 + |host|);
    Be16Wraps(|host|);
    ExtsFirst(SniExt(host), rest);
    var a := Be16(0) + Be16(5 + |host|);
    assert |SniExt(host).data| == 5 + |host|;
    Assoc(a, Be16(3 + |host|), [0x00] + (Be16(|host|) + host));
    Assoc(a + Be16(3 + |host|), [0x00], Be16(|host|) + host);
    Assoc(a + Be16(3 + |host|) + [0x00], Be16(|host|), host);
  }

  /** The rest of the record around the extensions. */
  method BuildRecord(ghost hostname: seq<byte>, sessionId: seq<byte>, exts: seq<byte>) returns (record: seq<byte>)
    requires |sessionId| == 32 && exts == Exts([SniExt(hostname)] + OtherExts())
    ensures record == Record(Built(hostname, sessionId, Zeros()))
  {
    hide Be16, Be24, Exts, SniExt, OtherExts;
    var hello := [0x03, 0x03];
    hello := hello + Zeros();
    hello := hello + [0x20];
    hello := hello + sessionId;
    hello := hello + Be16(|SUITES|);
    hello := hello + SUITES;
    hello := hello + [0x01];
    hello := hello + [0x00];
    hello := hello + Be16(|exts|);
    hello := hello + exts;
    BodyAppended(Built(hostname, sessionId, Zeros()), [0x20], [0x01]);
    var handshake := [0x01];
    handshake := handshake + Be24(|hello|);
    handshake := handshake + hello;
    record := [0x16];
    record := record + [0x03, 0x01];
    record := record + Be16(|handshake|);
    record := record + handshake;
    assert [0x16] + [0x03, 0x01] == [0x16, 0x03, 0x01];
    Assoc([0x16, 0x03, 0x01], Be16(4 + |hello|), handshake);
    Assoc([0x01], Be24(|hello|), hello);
  }

  /** Appending the fields one by one gives the body. */
  lemma BodyAppended(h: Hello, idLen: seq<byte>, compLen: seq<byte>)
    requires idLen == [|h.sessionId| % 256] && compLen == [|h.compression| % 256]
    ensures Body(h) == [0x03, 0x03] + h.random + idLen + h.sessionId + Be16(|h.suites|) + h.suites
      + compLen + h.compression + Be16(|Exts(h.exts)|) + Exts(h.exts)
  {
    hide Be16, Exts;
    var exts := Exts(h.exts);
    var b0 := [0x03, 0x03] + h.random;
    var b1, b2 := b0 + idLen, b0 + idLen + h.sessionId;
    var t8 := Be16(|exts|) + exts;
    var t7 := h.compression + t8;
    var t6 := compLen + t7;
    var t5 := h.suites + t6;
    var t4 := Be16(|h.suites|) + t5;
    Assoc([0x03, 0x03], h.random, idLen + (h.sessionId + t4));
    Assoc(b0, idLen, h.sessionId + t4);
    Assoc(b1, h.sessionId, t4);
    Assoc(b2, Be16(|h.suites|), t5);
    Assoc(b2 + Be16(|h.suites|), h.suites, t6);
    Assoc(b2 + Be16(|h.suites|) + h.suites, compLen, t7);
    Assoc(b2 + Be16(|h.suites|) + h.suites + compLen, h.compression, t8);
    Assoc(b2 + Be16(|h.suites|) + h.suites + compLen + h.compression, Be16(|exts|), exts);
  }

  /** The random of a signed record: the digest, its last four bytes masked with the time. */
  function Stamp(digest: Digest, time: seq<byte>): (random: seq<byte>)
    requires |time| == 4
    ensures |random| == DIGEST_LEN
  {
    seq(DIGEST_LEN, i requires 0 <= i < DIGEST_LEN =>
      if i < AUTH_LEN then digest[i] else Xor(digest[i], time[i - AUTH_LEN]))
  }

  /** Sign a record in place; `time` is the timestamp, least significant byte first. */
  method SignFaketlsClientHello(suite: Suite, record: array<byte>, secret: seq<byte>, time: seq<byte>)
    requires record.Length >= DIGEST_POS + DIGEST_LEN && |time| == 4
    modifies record
    ensures record[..] == WithRandom(old(record[..]), Stamp(suite.hmac(secret, Zeroed(old(record[..]))), time))
  {
    hide Xor;
    for i := DIGEST_POS to DIGEST_POS + DIGEST_LEN
      invariant forall j | 0 <= j < record.Length ::
        record[j] == if DIGEST_POS <= j < i then 0 else old(record[j])
    {
      record[i] := 0;
    }
    assert record[..] == Zeroed(old(record[..]));
    var computed := suite.hmac(secret, record[..]);
    ghost var random := Stamp(computed, time);
    for i := 0 to AUTH_LEN
      invariant forall j | 0 <= j < record.Length ::
        if DIGEST_POS <= j < DIGEST_POS + i then record[j] == random[j - DIGEST_POS]
        else !(DIGEST_POS <= j < DIGEST_POS + DIGEST_LEN) ==> record[j] == old(record[j])
    {
      record[DIGEST_POS + i] := computed[i];
    }
    for i := 0 to 4
      invariant forall j | 0 <= j < record.Length ::
        if DIGEST_POS <= j < DIGEST_POS + AUTH_LEN + i then record[j] == random[j - DIGEST_POS]
        else !(DIGEST_POS <= j < DIGEST_POS + DIGEST_LEN) ==> record[j] == old(record[j])
    {
      record[DIGEST_POS + AUTH_LEN + i] := Xor(computed[AUTH_LEN + i], time[i]);
    }
  }

  // Round trip -------------------------------------------------------------------------

  /** Where the fields of a body stand. */
  lemma BodyFields(h: Hello)
    requires h.Ok()
    ensures var s := Body(h);
      var end := 35 + |h.sessionId|;
      var p := end + 2 + |h.suites|;
      var q := p + 1 + |h.compression|;
      && At(s, 34, [|h.sessionId|]) && At(s, 35, h.sessionId) && At(s, end, Be16(|h.suites|))
      && At(s, end + 2, h.suites)
      && At(s, p, [|h.compression|]) && At(s, q, Be16(|Exts(h.exts)|)) && At(s, q + 2, Exts(h.exts))
  {
    hide Be16, FromBe16, Exts, At;
    var s, exts := Body(h), Exts(h.exts);
    var idLen, compLen := [|h.sessionId| % 256], [|h.compression| % 256];
    var t8 := Be16(|exts|) + exts;
    var t4 := Be16(|h.suites|) + (h.suites + (compLen + (h.compression + t8)));
    var end := 35 + |h.sessionId|;
    var p := end + 2 + |h.suites|;
    var q := p + 1 + |h.compression|;
    AtStart(s);
    Split4(s, 0, [0x03, 0x03], h.random, idLen, h.sessionId, t4);
    Split4(s, end, Be16(|h.suites|), h.suites, compLen, h.compression, t8);
    AtSplit(s, q, Be16(|exts|), exts);
  }

  lemma Split4(s: seq<byte>, pos: nat, a: seq<byte>, b: seq<byte>, c: seq<byte>, d: seq<byte>, rest: seq<byte>)
    requires At(s, pos, a + (b + (c + (d + rest))))
    ensures At(s, pos, a) && At(s, pos + |a|, b) && At(s, pos + |a| + |b|, c)
    ensures At(s, pos + |a| + |b| + |c|, d) && At(s, pos + |a| + |b| + |c| + |d|, rest)
  {
    hide At;
    AtSplit(s, pos, a, b + (c + (d + rest)));
    AtSplit(s, pos + |a|, b, c + (d + rest));
    AtSplit(s, pos + |a| + |b|, c, d + rest);
    AtSplit(s, pos + |a| + |b| + |c|, d, rest);
  }

  lemma AtStart(s: seq<byte>)
    ensures At(s, 0, s)
  {}

  /** The fields of a well-formed body are read back. */
  lemma BodyParses(h: Hello)
    requires h.Ok()
    ensures ParseBody(Body(h)) == Some(Fields(h.sessionId, h.suites[..2], Exts(h.exts)))
  {
    hide Be16, FromBe16, Exts, Body;
    var s, exts := Body(h), Exts(h.exts);
    var end := 35 + |h.sessionId|;
    var p := end + 2 + |h.suites|;
    var q := p + 1 + |h.compression|;
    BodyFields(h);
    BodyLength(h);
    ByteAt(s, 34, |h.sessionId|);
    ByteAt(s, p, |h.compression|);
    Be16At(s, end, |h.suites|);
    Be16At(s, q, |exts|);
    TwoOf(s, end + 2, h.suites);
  }

  lemma TwoOf(s: seq<byte>, pos: nat, x: seq<byte>)
    requires At(s, pos, x) && |x| >= 2
    ensures x[..2] == [s[pos], s[pos + 1]]
  {
    assert x == s[pos..pos + |x|];
  }

  /** Where the random stands, and that nothing else in the record depends on it. */
  lemma RandomOf(h: Hello, random: seq<byte>)
    requires |h.random| == |random| == DIGEST_LEN
    ensures At(Record(h), DIGEST_POS, h.random)
    ensures WithRandom(Record(h), random) == Record(h.(random := random))
  {
    hide Be16, Be24, Exts;
    var h' := h.(random := random);
    var exts := Exts(h.exts);
    var rest := [|h.sessionId| % 256] + (h.sessionId
      + (Be16(|h.suites|) + (h.suites + ([|h.compression| % 256] + (h.compression + (Be16(|exts|) + exts))))));
    assert |Body(h)| == |Body(h')|;
    var pre := [0x16, 0x03, 0x01] + Be16(4 + |Body(h)|) + [0x01] + Be24(|Body(h)|) + [0x03, 0x03];
    Flat([0x16, 0x03, 0x01], Be16(4 + |Body(h)|), [0x01], Be24(|Body(h)|), [0x03, 0x03], h.random + rest);
    Flat([0x16, 0x03, 0x01], Be16(4 + |Body(h)|), [0x01], Be24(|Body(h)|), [0x03, 0x03], random + rest);
    assert Record(h) == pre + (h.random + rest) && Record(h') == pre + (random + rest);
    Replaced(pre, h.random, random, rest);
  }

  lemma Replaced(pre: seq<byte>, a: seq<byte>, b: seq<byte>, rest: seq<byte>)
    requires |pre| == DIGEST_POS && |a| == |b| == DIGEST_LEN
    ensures WithRandom(pre + (a + rest), b) == pre + (b + rest)
    ensures At(pre + (a + rest), DIGEST_POS, a)
  {}

  lemma Flat(a: seq<byte>, b: seq<byte>, c: seq<byte>, d: seq<byte>, e: seq<byte>, f: seq<byte>)
    ensures a + (b + (c + (d + (e + f)))) == a + b + c + d + e + f
  {
    Assoc(a, b, c + (d + (e + f)));
    Assoc(a + b, c, d + (e + f));
    Assoc(a + b + c, d, e + f);
    Assoc(a + b + c + d, e, f);
  }

  /** The headers agree with the length exactly while the handshake fits sixteen bits. */
  lemma FramedIfShort(h: Hello)
    requires |h.random| == DIGEST_LEN && 2 <= |h.suites|
    ensures |Record(h)| == 9 + |Body(h)| && Record(h)[9..] == Body(h)
    ensures |Record(h)| >= MIN_RECORD
    ensures Framed(Record(h)) <==> |Body(h)| + 4 < 0x1_0000
  {
    hide Exts, Body;
    BodyLength(h);
    var body := Body(h);
    var r := Record(h);
    if |body| < 0x100_0000 { Be24RoundTrip(|body|); }
    assert r[3] == Be16(4 + |body|)[0] && r[4] == Be16(4 + |body|)[1];
    assert r[6] == Be24(|body|)[0] && r[7] == Be24(|body|)[1] && r[8] == Be24(|body|)[2];
  }

  lemma BodyLength(h: Hello)
    ensures |Body(h)| == 10 + |h.random| + |h.sessionId| + |h.suites| + |h.compression| + |Exts(h.exts)| - 2
  {
    hide Exts;
  }

  /** A signed record parses under the same secret, to the fields it was made from. */
  lemma SignedParses(suite: Suite, utf8: seq<byte> -> bool, h: Hello, secret: seq<byte>, time: seq<byte>)
    requires h.Ok() && |time| == 4
    ensures var signed := WithRandom(Record(h), Stamp(suite.hmac(secret, Zeroed(Record(h))), time));
      && |signed| == 9 + |Body(h)|
      && ParseHello(suite, utf8, signed, secret) ==
         Some(Parsed(Stamp(suite.hmac(secret, Zeroed(Record(h))), time), h.sessionId, h.suites[..2],
                     Sni(utf8, Exts(h.exts))))
  {
    hide Exts, Body, Record, Sni, ParseBody, Xor, WithRandom, Framed;
    var random := Stamp(suite.hmac(secret, Zeroed(Record(h))), time);
    var h' := h.(random := random);
    RandomOf(h, random);
    RandomOf(h, Zeros());
    RandomOf(h', Zeros());
    SameBody(h, random);
    var signed := Record(h');
    FramedIfShort(h');
    BodyParses(h');
    assert signed[DIGEST_POS..DIGEST_POS + AUTH_LEN] == random[..AUTH_LEN] by {
      assert signed[DIGEST_POS..DIGEST_POS + DIGEST_LEN] == random;
      assert signed[DIGEST_POS..DIGEST_POS + DIGEST_LEN][..AUTH_LEN] == signed[DIGEST_POS..DIGEST_POS + AUTH_LEN];
    }
    assert random[..AUTH_LEN] == suite.hmac(secret, Zeroed(signed))[..AUTH_LEN];
  }

  lemma SameBody(h: Hello, random: seq<byte>)
    requires h.Ok() && |random| == DIGEST_LEN
    ensures |Body(h.(random := random))| == |Body(h)| && h.(random := random).Ok()
  {
    hide Body, Exts;
    BodyLength(h);
    BodyLength(h.(random := random));
  }

  /** The longest host name whose record still fits the two-byte lengths. */
  const MAX_HOST: nat := 65_360

  lemma BuiltLength(hostname: seq<byte>, sessionId: seq<byte>, random: seq<byte>)
    requires |sessionId| == 32 && |random| == DIGEST_LEN
    ensures |Body(Built(hostname, sessionId, random))| == 171 + |hostname|
  {
    hide Be16, Exts;
    var o := OtherExts();
    var h := Built(hostname, sessionId, random);
    BodyLength(h);
    ExtsFirst(SniExt(hostname), o);
    assert |Exts(h.exts)| == 9 + |hostname| + |Exts(o)|;
    ExtsLength(o[0], o[1..]); ExtsLength(o[1], o[2..]); ExtsLength(o[2], o[3..]);
    ExtsLength(o[3], o[4..]); ExtsLength(o[4], o[5..]); ExtsLength(o[5], o[6..]);
    assert [o[0]] + o[1..] == o && [o[1]] + o[2..] == o[1..] && [o[2]] + o[3..] == o[2..];
    assert [o[3]] + o[4..] == o[3..] && [o[4]] + o[5..] == o[4..] && [o[5]] + o[6..] == o[5..];
    assert o[6..] == [] && |Exts([])| == 0 by { NoExts(); }
  }

  lemma NoExts()
    ensures Exts([]) == []
  {}

  lemma ExtsLength(e: Ext, rest: seq<Ext>)
    ensures |Exts([e] + rest)| == 4 + |e.data| + |Exts(rest)|
  {
    ExtsFirst(e, rest);
  }

  /**
   * Build, sign, parse. For every host name, session id, key and timestamp the signed hello parses
   * back to that host, that session id and the first cipher suite, exactly when the host is short
   * enough for the record's two-byte length; a longer one is refused.
   */
  lemma HelloRoundTrip(suite: Suite, utf8: seq<byte> -> bool, hostname: seq<byte>, sessionId: seq<byte>,
                       secret: seq<byte>, time: seq<byte>)
    requires |sessionId| == 32 && |time| == 4 && utf8(hostname)
    ensures var unsigned := Record(Built(hostname, sessionId, Zeros()));
      var random := Stamp(suite.hmac(secret, Zeroed(unsigned)), time);
      var parsed := ParseHello(suite, utf8, WithRandom(unsigned, random), secret);
      if |hostname| <= MAX_HOST then parsed == Some(Parsed(random, sessionId, [0x13, 0x01], Some(hostname)))
      else parsed == None
  {
    hide Exts, Body, Record, Sni, ParseBody, Xor, WithRandom, Framed, OtherExts, SniExt;
    var h := Built(hostname, sessionId, Zeros());
    BuiltLength(hostname, sessionId, Zeros());
    var random := Stamp(suite.hmac(secret, Zeroed(Record(h))), time);
    if |hostname| <= MAX_HOST {
      BuiltOk(hostname, sessionId);
      SignedParses(suite, utf8, h, secret, time);
      assert SUITES[..2] == [0x13, 0x01];
      assert [] + [SniExt(hostname)] + OtherExts() == h.exts;
      SniIsFound(utf8, [], hostname, OtherExts());
    } else {
      RandomOf(h, random);
      var h' := h.(random := random);
      BuiltLength(hostname, sessionId, random);
      FramedIfShort(h');
    }
  }

  lemma BuiltOk(hostname: seq<byte>, sessionId: seq<byte>)
    requires |sessionId| == 32 && |hostname| <= MAX_HOST
    ensures Built(hostname, sessionId, Zeros()).Ok()
  {
    hide Be16, Body;
    BuiltLength(hostname, sessionId, Zeros());
    var exts := [SniExt(hostname)] + OtherExts();
    forall e | e in exts ensures e.kind < 0x1_0000 && |e.data| < 0x1_0000 {
      if e in OtherExts() { assert PassedOver(e); } else { assert e == SniExt(hostname); }
    }
  }
}

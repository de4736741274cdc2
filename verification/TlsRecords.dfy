/** The TLS record layer of the FakeTLS transport (section 5.1 of RFC 8446). */
module TlsRecords {
  import opened Bytes
  import Net

  const HANDSHAKE: byte := 0x16
  const CHANGE_CIPHER_SPEC: byte := 0x14
  const APPLICATION_DATA: byte := 0x17

  const MAX_PAYLOAD: nat := 16_384
  const READ_HEADROOM: nat := 256
  /** Room for one record and its expansion: what every FakeTLS read buffer holds. */
  const READ_BUF: nat := MAX_PAYLOAD + READ_HEADROOM

  datatype Rec = Rec(kind: byte, payload: seq<byte>)

  function Header(kind: byte, len: nat): (h: seq<byte>)
    ensures |h| == 5
  {
    [kind, 0x03, 0x03] + Be16(len)
  }

  function Wire(recs: seq<Rec>): seq<byte> {
    if recs == [] then []
    else Header(recs[0].kind, |recs[0].payload|) + recs[0].payload + Wire(recs[1..])
  }

  lemma {:induction false} WireAppend(a: seq<Rec>, b: seq<Rec>)
    ensures Wire(a + b) == Wire(a) + Wire(b)
  {
    hide Header;
    if a == [] {
      assert a + b == b;
    } else {
      WireAppend(a[1..], b);
      assert (a + b)[1..] == a[1..] + b;
      Assoc(Header(a[0].kind, |a[0].payload|) + a[0].payload, Wire(a[1..]), Wire(b));
    }
  }

  // Writing ------------------------------------------------------------------

  /** The Application Data records `data` is wrapped in. */
  function AppData(data: seq<byte>): (recs: seq<Rec>)
    decreases |data|
  {
    if data == [] then []
    else
      var n := if |data| < MAX_PAYLOAD then |data| else MAX_PAYLOAD;
      [Rec(APPLICATION_DATA, data[..n])] + AppData(data[n..])
  }

  /** Every emitted record is non-empty, within the record limit, and they carry the data in order. */
  lemma {:induction false} AppDataRecords(data: seq<byte>)
    ensures forall r | r in AppData(data) :: r.kind == APPLICATION_DATA && 1 <= |r.payload| <= MAX_PAYLOAD
    ensures AppBytes(AppData(data)) == data
    decreases |data|
  {
    if data != [] {
      var n := if |data| < MAX_PAYLOAD then |data| else MAX_PAYLOAD;
      AppDataRecords(data[n..]);
      assert AppData(data)[1..] == AppData(data[n..]);
      assert data == data[..n] + data[n..];
    }
  }

  function AppPart(r: Rec): seq<byte> {
    if r.kind == APPLICATION_DATA then r.payload else []
  }

  /** The payloads of the Application Data records, in order. */
  function AppBytes(recs: seq<Rec>): seq<byte> {
    if recs == [] then [] else AppPart(recs[0]) + AppBytes(recs[1..])
  }

  method WriteTlsAppData(writer: Net.TcpWriter, data: seq<byte>) returns (ok: bool)
    requires !writer.failed
    modifies writer
    ensures ok == !writer.failed && (writer.failed ==> writer.limit.Some?)
    ensures ok ==> writer.sent == old(writer.sent) + Wire(AppData(data))
    ensures old(writer.sent) <= writer.sent <= old(writer.sent) + Wire(AppData(data))
  {
    hide AppData, Wire;
    var offset := 0;
    ghost var start, done := writer.sent, [];
    assert data[0..] == data;
    while offset < |data|
      invariant offset <= |data|
      invariant done + Wire(AppData(data[offset..])) == Wire(AppData(data))
      invariant writer.sent == start + done && !writer.failed
    {
      var end := if offset + MAX_PAYLOAD < |data| then offset + MAX_PAYLOAD else |data|;
      var header, chunk := Header(APPLICATION_DATA, end - offset), data[offset..end];
      ghost var rest := Wire(AppData(data[end..]));
      FirstRecord(data, offset, end);
      assert (done + (header + chunk)) + rest == Wire(AppData(data));

      ok := writer.WriteAll(header);
      if ok {
        ok := writer.WriteAll(chunk);
      }
      PartOfRecord(start, done, header + chunk, rest, writer.sent);
      if !ok { return; }
      done := done + (header + chunk);
      assert writer.sent == start + done;
      offset := end;
    }
    NothingLeft(data, done);
    ok := true;
  }

  lemma FirstRecord(data: seq<byte>, offset: nat, end: nat)
    requires offset < |data|
    requires end == if offset + MAX_PAYLOAD < |data| then offset + MAX_PAYLOAD else |data|
    ensures Wire(AppData(data[offset..])) ==
      Header(APPLICATION_DATA, end - offset) + data[offset..end] + Wire(AppData(data[end..]))
  {
    var rest := data[offset..];
    assert rest[..end - offset] == data[offset..end] && rest[end - offset..] == data[end..];
    assert AppData(rest)[1..] == AppData(data[end..]);
  }

  lemma PartOfRecord(start: seq<byte>, done: seq<byte>, record: seq<byte>, rest: seq<byte>, sent: seq<byte>)
    requires start + done <= sent <= start + done + record
    ensures start <= sent <= start + (done + record + rest)
  {}

  lemma NothingLeft(data: seq<byte>, done: seq<byte>)
    ensures done + Wire(AppData(data[|data|..])) == done
  {
    assert AppData(data[|data|..]) == [];
  }

  // Reading ------------------------------------------------------------------

  /**
   * The payload one read returns and the stream it leaves. ChangeCipherSpec is skipped; an
   * empty payload is what the caller sees at the end of the stream, on a record larger than
   * the buffer and on any other record type.
   */
  function NextPayload(stream: seq<byte>, cap: nat): (r: (seq<byte>, seq<byte>))
    ensures |r.0| <= cap && |r.0| + |r.1| <= |stream|
    ensures r.0 != [] ==> |r.1| < |stream|
    decreases |stream|
  {
    if |stream| < 5 then ([], [])
    else
      var kind, len, rest := stream[0], FromBe16(stream[3], stream[4]), stream[5..];
      if len > cap then ([], rest)
      else if kind == APPLICATION_DATA then
        if |rest| < len then ([], []) else (rest[..len], rest[len..])
      else if kind == CHANGE_CIPHER_SPEC then
        if |rest| < len then ([], []) else NextPayload(rest[len..], cap)
      else ([], rest)
  }

  /** Everything repeated reads return before the first empty one. */
  function Payload(stream: seq<byte>, cap: nat): seq<byte>
    decreases |stream|
  {
    var (p, rest) := NextPayload(stream, cap);
    if p == [] then [] else p + Payload(rest, cap)
  }

  /** A record every read of a `cap`-byte buffer gets past. */
  predicate Fits(r: Rec, cap: nat) {
    && |r.payload| <= cap
    && (r.kind == CHANGE_CIPHER_SPEC || (r.kind == APPLICATION_DATA && r.payload != []))
  }

  lemma NextOfRecord(kind: byte, payload: seq<byte>, tail: seq<byte>, cap: nat)
    requires |payload| <= cap < 0x1_0000
    ensures var stream := Header(kind, |payload|) + payload + tail;
      NextPayload(stream, cap) ==
      if kind == APPLICATION_DATA then (payload, tail)
      else if kind == CHANGE_CIPHER_SPEC then NextPayload(tail, cap)
      else ([], payload + tail)
  {
    var stream := Header(kind, |payload|) + payload + tail;
    Be16RoundTrip(|payload|);
    assert stream[0] == kind && stream[3..5] == Be16(|payload|);
    assert stream[3] == stream[3..5][0] && stream[4] == stream[3..5][1];
    assert stream[5..] == payload + tail;
    assert (payload + tail)[..|payload|] == payload && (payload + tail)[|payload|..] == tail;
  }

  /**
   * The record layer loses nothing: whatever records precede `tail`, reading returns their
   * application payloads in order and goes on with `tail`.
   */
  lemma {:induction false} ReadWritten(recs: seq<Rec>, tail: seq<byte>, cap: nat)
    requires cap < 0x1_0000 && forall r | r in recs :: Fits(r, cap)
    ensures Payload(Wire(recs) + tail, cap) == AppBytes(recs) + Payload(tail, cap)
  {
    hide NextPayload, Payload, Header;
    if recs == [] {
      assert Wire(recs) + tail == tail;
    } else {
      var first, rest := recs[0], recs[1..];
      assert Fits(first, cap) && forall r | r in rest :: r in recs;
      ReadWritten(rest, tail, cap);
      var front, stream := Header(first.kind, |first.payload|) + first.payload, Wire(rest) + tail;
      Assoc(front, Wire(rest), tail);
      NextOfRecord(first.kind, first.payload, stream, cap);
      PayloadUnfolds(front + stream, cap);
      PayloadUnfolds(stream, cap);
      Assoc(AppPart(first), AppBytes(rest), Payload(tail, cap));
    }
  }

  lemma PayloadUnfolds(stream: seq<byte>, cap: nat)
    ensures var (p, rest) := NextPayload(stream, cap);
      Payload(stream, cap) == if p == [] then [] else p + Payload(rest, cap)
  {}

  /** The records any number of writes put on the wire. */
  function RecordsOf(writes: seq<seq<byte>>): (recs: seq<Rec>) {
    if writes == [] then [] else AppData(writes[0]) + RecordsOf(writes[1..])
  }

  lemma {:induction false} RecordsOfAppend(a: seq<seq<byte>>, b: seq<seq<byte>>)
    ensures RecordsOf(a + b) == RecordsOf(a) + RecordsOf(b)
  {
    hide AppData;
    if a == [] {
      assert a + b == b;
    } else {
      hide RecordsOf;
      RecordsOfAppend(a[1..], b);
      assert (a + b)[1..] == a[1..] + b && (a + b)[0] == a[0];
      RecordsOfFirst(a);
      RecordsOfFirst(a + b);
      assert (AppData(a[0]) + RecordsOf(a[1..])) + RecordsOf(b) == AppData(a[0]) + (RecordsOf(a[1..]) + RecordsOf(b));
    }
  }

  lemma RecordsOfFirst(writes: seq<seq<byte>>)
    requires writes != []
    ensures RecordsOf(writes) == AppData(writes[0]) + RecordsOf(writes[1..])
  {}

  function WithoutCcs(recs: seq<Rec>): (kept: seq<Rec>) {
    if recs == [] then []
    else (if recs[0].kind == CHANGE_CIPHER_SPEC then [] else [recs[0]]) + WithoutCcs(recs[1..])
  }

  /**
   * Any number of writes of any size read back as one byte stream, wherever ChangeCipherSpec
   * records that fit the buffer are inserted between their records.
   */
  lemma WritesReadBack(writes: seq<seq<byte>>, recs: seq<Rec>, cap: nat)
    requires MAX_PAYLOAD <= cap < 0x1_0000
    requires WithoutCcs(recs) == RecordsOf(writes)
    requires forall r | r in recs && r.kind == CHANGE_CIPHER_SPEC :: |r.payload| <= cap
    ensures Payload(Wire(recs), cap) == Concat(writes)
  {
    RecordsCarry(writes);
    SkippingCcs(recs, cap);
    ReadWritten(recs, [], cap);
    assert Wire(recs) + [] == Wire(recs);
    assert Payload([], cap) == [];
  }

  lemma {:induction false} RecordsCarry(writes: seq<seq<byte>>)
    ensures AppBytes(RecordsOf(writes)) == Concat(writes)
    ensures forall r | r in RecordsOf(writes) :: r.kind == APPLICATION_DATA && 1 <= |r.payload| <= MAX_PAYLOAD
  {
    if writes != [] {
      AppDataRecords(writes[0]);
      RecordsCarry(writes[1..]);
      AppBytesAppend(AppData(writes[0]), RecordsOf(writes[1..]));
    }
  }

  lemma {:induction false} AppBytesAppend(a: seq<Rec>, b: seq<Rec>)
    ensures AppBytes(a + b) == AppBytes(a) + AppBytes(b)
  {
    if a == [] {
      assert a + b == b;
    } else {
      hide AppPart;
      AppBytesAppend(a[1..], b);
      assert (a + b)[1..] == a[1..] + b;
      Assoc(AppPart(a[0]), AppBytes(a[1..]), AppBytes(b));
    }
  }

  lemma {:induction false} SkippingCcs(recs: seq<Rec>, cap: nat)
    requires MAX_PAYLOAD <= cap
    requires forall r | r in WithoutCcs(recs) :: r.kind == APPLICATION_DATA && 1 <= |r.payload| <= MAX_PAYLOAD
    requires forall r | r in recs && r.kind == CHANGE_CIPHER_SPEC :: |r.payload| <= cap
    ensures AppBytes(recs) == AppBytes(WithoutCcs(recs))
    ensures forall r | r in recs :: Fits(r, cap)
  {
    if recs != [] {
      var first, kept := recs[0], WithoutCcs(recs[1..]);
      assert forall r | r in kept :: r in WithoutCcs(recs);
      assert forall r | r in recs[1..] :: r in recs;
      SkippingCcs(recs[1..], cap);
      if first.kind == CHANGE_CIPHER_SPEC {
        assert WithoutCcs(recs) == kept;
      } else {
        assert first in WithoutCcs(recs);
        assert WithoutCcs(recs)[1..] == kept;
      }
    }
  }

  /** A stream cut off anywhere, even inside a record, still reads as a front of the data. */
  lemma {:induction false} CutStreamReadsFront(recs: seq<Rec>, wire: seq<byte>, cap: nat)
    requires cap < 0x1_0000 && forall r | r in recs :: Fits(r, cap)
    requires wire <= Wire(recs)
    ensures Payload(wire, cap) <= AppBytes(recs)
  {
    hide NextPayload, Payload, Header;
    if recs == [] {
      PayloadOfNothing(cap);
    } else {
      var first, rest := recs[0], recs[1..];
      assert Fits(first, cap) && forall r | r in rest :: r in recs;
      var front := Header(first.kind, |first.payload|) + first.payload;
      PayloadUnfolds(wire, cap);
      if |wire| < |front| {
        CutRecord(first, wire, cap);
      } else {
        var tail := wire[|front|..];
        assert wire == front + tail;
        CutStreamReadsFront(rest, tail, cap);
        NextOfRecord(first.kind, first.payload, tail, cap);
        PayloadUnfolds(tail, cap);
      }
    }
  }

  /** Cut off before its end, a stream of Application Data reads as less than the data. */
  lemma {:induction false} CutStreamReadsLess(recs: seq<Rec>, wire: seq<byte>, cap: nat)
    requires cap < 0x1_0000 && forall r | r in recs :: r.kind == APPLICATION_DATA && Fits(r, cap)
    requires wire < Wire(recs)
    ensures |Payload(wire, cap)| < |AppBytes(recs)|
  {
    hide NextPayload, Payload, Header;
    var first, rest := recs[0], recs[1..];
    assert Fits(first, cap) && first.kind == APPLICATION_DATA && forall r | r in rest :: r in recs;
    var front := Header(first.kind, |first.payload|) + first.payload;
    PayloadUnfolds(wire, cap);
    if |wire| < |front| {
      CutRecord(first, wire, cap);
    } else {
      var tail := wire[|front|..];
      assert wire == front + tail;
      CutStreamReadsLess(rest, tail, cap);
      NextOfRecord(first.kind, first.payload, tail, cap);
    }
  }

  lemma PayloadOfNothing(cap: nat)
    ensures Payload([], cap) == []
  {}

  lemma CutRecord(r: Rec, wire: seq<byte>, cap: nat)
    requires cap < 0x1_0000 && Fits(r, cap)
    requires wire <= Header(r.kind, |r.payload|) + r.payload && |wire| < 5 + |r.payload|
    ensures NextPayload(wire, cap).0 == []
  {
    if |wire| >= 5 {
      Be16RoundTrip(|r.payload|);
      assert wire[0] == r.kind && wire[3..5] == Be16(|r.payload|);
      assert wire[3] == wire[3..5][0] && wire[4] == wire[3..5][1];
    }
  }

  /** A zero-length Application Data record ends the session, whatever follows it. */
  lemma EmptyRecordEnds(recs: seq<Rec>, after: seq<byte>, cap: nat)
    requires cap < 0x1_0000 && forall r | r in recs :: Fits(r, cap)
    ensures Payload(Wire(recs) + (Header(APPLICATION_DATA, 0) + after), cap) == AppBytes(recs)
  {
    NextOfRecord(APPLICATION_DATA, [], after, cap);
    assert Header(APPLICATION_DATA, 0) + [] + after == Header(APPLICATION_DATA, 0) + after;
    ReadWritten(recs, Header(APPLICATION_DATA, 0) + after, cap);
  }

  /** One read: skip ChangeCipherSpec records, then copy a payload into `buf`. */
  method ReadTlsAppData(reader: Net.TcpReader, buf: array<byte>) returns (n: nat)
    modifies reader, buf
    ensures n <= buf.Length
    ensures (buf[..n], reader.data) == NextPayload(old(reader.data), buf.Length)
  {
    var header := new byte[5];
    while true
      invariant NextPayload(reader.data, buf.Length) == NextPayload(old(reader.data), buf.Length)
      decreases |reader.data|
    {
      ghost var stream := reader.data;
      var ok := reader.ReadExact(header, 5);
      if !ok { return 0; }
      assert header[..5] == stream[..5];
      assert forall i | 0 <= i < 5 :: header[i] == header[..5][i];
      var kind, len := header[0], FromBe16(header[3], header[4]);
      if len > buf.Length { return 0; }
      if kind == APPLICATION_DATA {
        ok := reader.ReadExact(buf, len);
        return if ok then len else 0;
      } else if kind == CHANGE_CIPHER_SPEC {
        var discard := new byte[len];
        ok := reader.ReadExact(discard, len);
        if !ok { return 0; }
      } else {
        return 0;
      }
    }
  }
}

/** The client side of a connection: plain or FakeTLS reads and writes, and the 64-byte init. */
module ClientStream {
  import opened Bytes
  import opened Ciphers
  import Net
  import opened TlsRecords

  /** What a client's reads return from here on: raw bytes, or pending bytes and record payloads. */
  function Incoming(faketls: bool, pending: seq<byte>, data: seq<byte>): seq<byte> {
    if faketls then pending + Payload(data, READ_BUF) else data
  }

  class ClientReader {
    const faketls: bool
    const reader: Net.TcpReader
    var pending: seq<byte>

    constructor (faketls: bool, reader: Net.TcpReader, pending: seq<byte>)
      ensures this.faketls == faketls && this.reader == reader && this.pending == pending
    {
      this.faketls, this.reader, this.pending := faketls, reader, pending;
    }

    function Remaining(): seq<byte>
      reads this, reader
    {
      Incoming(faketls, pending, reader.data)
    }

    /**
     * Read into `buf`. FakeTLS hands out what the handshake left over before the next record.
     * Zero is where the caller stops, and nothing it was owed is left.
     */
    method Read(buf: array<byte>) returns (n: nat)
      requires buf.Length == READ_BUF || (!faketls && buf.Length > 0)
      modifies this, reader, buf
      ensures n <= buf.Length
      ensures n > 0 ==> buf[..n] + Remaining() == old(Remaining())
      ensures n == 0 ==> old(Remaining()) == []
    {
      if !faketls {
        n := reader.Read(buf);
        assert old(reader.data)[..n] + old(reader.data)[n..] == old(reader.data);
        return;
      }
      if pending != [] {
        n := if buf.Length < |pending| then buf.Length else |pending|;
        forall i | 0 <= i < n { buf[i] := pending[i]; }
        assert buf[..n] == pending[..n];
        pending := pending[n..];
        Assoc(buf[..n], pending, Payload(reader.data, READ_BUF));
        assert buf[..n] + pending == old(pending);
        return;
      }
      ghost var before := Payload(reader.data, READ_BUF);
      PayloadUnfolds(reader.data, READ_BUF);
      n := ReadTlsAppData(reader, buf);
      assert pending == [] && [] + before == before;
      assert [] + Payload(reader.data, READ_BUF) == Payload(reader.data, READ_BUF);
    }
  }

  /** What a run of writes leaves on the wire. */
  function OnWire(faketls: bool, writes: seq<seq<byte>>): (wire: seq<byte>) {
    if faketls then Wire(RecordsOf(writes)) else Concat(writes)
  }

  /** What one write of `data` puts on the wire: its records, or its bytes. */
  function Framed(faketls: bool, data: seq<byte>): (wire: seq<byte>) {
    if faketls then Wire(AppData(data)) else data
  }

  lemma OnWireSnoc(faketls: bool, writes: seq<seq<byte>>, data: seq<byte>)
    ensures OnWire(faketls, []) == []
    ensures OnWire(faketls, writes + [data]) == OnWire(faketls, writes) + Framed(faketls, data)
  {
    hide Wire, AppData, Concat;
    ConcatSnoc(writes, data);
    RecordsOfAppend(writes, [data]);
    assert RecordsOf([data]) == AppData(data) + [] == AppData(data);
    WireAppend(RecordsOf(writes), AppData(data));
    assert Wire([]) == [] && Concat([]) == [] by { NothingOnWire(); }
  }

  lemma NothingOnWire()
    ensures Wire([]) == [] && Concat([]) == []
  {}

  /** The receiver of those writes, reading record by record or raw, gets their bytes. */
  lemma WritesArrive(faketls: bool, writes: seq<seq<byte>>)
    ensures Incoming(faketls, [], OnWire(faketls, writes)) == Concat(writes)
  {
    hide Wire, RecordsOf, Concat, Payload;
    if faketls {
      RecordsCarry(writes);
      NoCcs(RecordsOf(writes));
      WritesReadBack(writes, RecordsOf(writes), READ_BUF);
    }
  }

  /** A receiver whose stream is cut off gets a front of those bytes, and less than all of them. */
  lemma FrontArrives(faketls: bool, writes: seq<seq<byte>>, wire: seq<byte>)
    requires wire <= OnWire(faketls, writes)
    ensures Incoming(faketls, [], wire) <= Concat(writes)
    ensures Incoming(faketls, [], wire) == Concat(writes) ==> wire == OnWire(faketls, writes)
  {
    hide Wire, RecordsOf, Concat, Payload;
    if faketls {
      RecordsCarry(writes);
      CutStreamReadsFront(RecordsOf(writes), wire, READ_BUF);
      if wire != Wire(RecordsOf(writes)) { CutStreamReadsLess(RecordsOf(writes), wire, READ_BUF); }
    }
  }

  lemma {:induction false} NoCcs(recs: seq<Rec>)
    requires forall r | r in recs :: r.kind == APPLICATION_DATA
    ensures WithoutCcs(recs) == recs
  {
    if recs != [] {
      assert recs[0] in recs && forall r | r in recs[1..] :: r in recs;
      NoCcs(recs[1..]);
    }
  }

  class ClientWriter {
    const faketls: bool
    const writer: Net.TcpWriter

    constructor (faketls: bool, writer: Net.TcpWriter)
      ensures this.faketls == faketls && this.writer == writer
    {
      this.faketls, this.writer := faketls, writer;
    }

    method WriteAll(data: seq<byte>) returns (ok: bool)
      requires !writer.failed
      modifies writer
      ensures ok == !writer.failed && (writer.failed ==> writer.limit.Some?)
      ensures old(writer.sent) <= writer.sent <= old(writer.sent) + Framed(faketls, data)
      ensures ok ==> writer.sent == old(writer.sent) + Framed(faketls, data)
    {
      if faketls {
        ok := WriteTlsAppData(writer, data);
      } else {
        ok := writer.WriteAll(data);
      }
    }

    /** The same write by a task that may be aborted in it; what is `unsent` then never goes out. */
    method WriteAs(task: Net.Task, data: seq<byte>) returns (ok: bool, ghost unsent: seq<byte>)
      requires !writer.failed && !task.aborted
      modifies writer, task
      ensures ok == (!writer.failed && !task.aborted)
      ensures old(writer.sent) <= writer.sent && writer.sent + unsent == old(writer.sent) + Framed(faketls, data)
      ensures ok ==> unsent == [] && writer.sent == old(writer.sent) + Framed(faketls, data)
      ensures writer.failed ==> writer.limit.Some?
      ensures task.aborted ==> task.stop.Some?
    {
      hide Wire, AppData;
      var all := Framed(faketls, data);
      ok := task.Await();
      if ok {
        ok := WriteAll(data);
      } else {
        var part := task.stop.value.part;
        var some := writer.WriteAll(all[..if part < |all| then part else |all|]);
      }
      assert writer.sent <= old(writer.sent) + all;
      unsent := (old(writer.sent) + all)[|writer.sent|..];
    }
  }

  function SplitInitAndPending(data: seq<byte>): (r: Option<(seq<byte>, seq<byte>)>) {
    if |data| < HANDSHAKE_LEN then None
    else Some((data[..HANDSHAKE_LEN], data[HANDSHAKE_LEN..]))
  }

  /**
   * Collect the 64-byte init from Application Data records of any size. Bytes behind it in
   * the last record are handed back, so that nothing of the client's stream is lost.
   */
  method ReadFakeTlsInit(reader: Net.TcpReader) returns (r: Option<(seq<byte>, seq<byte>)>)
    modifies reader
    ensures r.Some? <==> |Payload(old(reader.data), READ_BUF)| >= HANDSHAKE_LEN
    ensures r.Some? ==>
      && |r.value.0| == HANDSHAKE_LEN
      && r.value.0 + Incoming(true, r.value.1, reader.data) == Payload(old(reader.data), READ_BUF)
  {
    hide *;
    var handshake := new byte[HANDSHAKE_LEN];
    var filled: nat := 0;
    var buf := new byte[READ_BUF];
    ghost var all := Payload(reader.data, READ_BUF);
    assert handshake[..filled] + all == all;
    while filled < handshake.Length
      invariant filled <= handshake.Length
      invariant handshake[..filled] + Payload(reader.data, READ_BUF) == all
      decreases |reader.data|
    {
      ghost var got := handshake[..filled];
      PayloadUnfolds(reader.data, READ_BUF);
      var n := ReadTlsAppData(reader, buf);
      if n == 0 { return None; }
      ghost var piece, rest := buf[..n], Payload(reader.data, READ_BUF);
      Assoc(got, piece, rest);
      var start := filled;
      var take := if n < handshake.Length - filled then n else handshake.Length - filled;
      CopyInto(handshake, filled, buf, take);
      filled := filled + take;
      if take != n {
        InitComplete(got, piece, take, rest);
        IncomingFakeTls(piece[take..], reader.data);
        assert handshake[..] == got + piece[..take] && buf[take..n] == piece[take..];
        assert handshake[..] + (piece[take..] + rest) == all;
        if start == 0 {
          assert got == [];
          return SplitInitAndPending(buf[..n]);
        }
        return Some((handshake[..], buf[take..n]));
      }
    }
    IncomingFakeTls([], reader.data);
    return Some((handshake[..], []));
  }

  lemma IncomingFakeTls(pending: seq<byte>, data: seq<byte>)
    ensures Incoming(true, pending, data) == pending + Payload(data, READ_BUF)
  {}

  /** A record that overshoots the init by `|piece| - take` bytes, on either return path. */
  lemma InitComplete(got: seq<byte>, piece: seq<byte>, take: nat, rest: seq<byte>)
    requires take <= |piece| && |got| + take == HANDSHAKE_LEN
    ensures (got + piece[..take]) + (piece[take..] + rest) == (got + piece) + rest
    ensures got == [] ==> SplitInitAndPending(piece) == Some((got + piece[..take], piece[take..]))
  {
    assert got + piece[..take] + piece[take..] == got + piece;
    assert [] + piece[..take] == piece[..take];
  }

  /** `dst[at..at + n].copy_from_slice(&src[..n])` */
  method CopyInto(dst: array<byte>, at: nat, src: array<byte>, n: nat)
    requires at + n <= dst.Length && n <= src.Length && dst != src
    modifies dst
    ensures dst[..at + n] == old(dst[..at]) + src[..n]
  {
    forall i | 0 <= i < n { dst[at + i] := src[i]; }
  }

}

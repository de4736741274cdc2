/** Sockets as byte queues: what a peer delivers before the stream ends, and what was written. */
module Net {
  import opened Bytes

  /** The size of one read: what the stream has ready, within the buffer and what is left. */
  function Taken(cuts: seq<nat>, room: nat, rest: nat): (n: nat)
    requires room > 0 && rest > 0
    ensures 1 <= n <= room && n <= rest
  {
    var most := if room < rest then room else rest;
    if cuts == [] || cuts[0] > most then most else if cuts[0] == 0 then 1 else cuts[0]
  }

  function Later(cuts: seq<nat>): seq<nat> {
    if cuts == [] then [] else cuts[1..]
  }

  /**
   * The read half of a socket. `data` is everything still to come before EOF or an error, `cuts` the
   * sizes it comes in; reads behind the last cut get as much as fits.
   */
  class TcpReader {
    var data: seq<byte>
    var cuts: seq<nat>

    constructor (data: seq<byte>, cuts: seq<nat>)
      ensures this.data == data && this.cuts == cuts
    {
      this.data, this.cuts := data, cuts;
    }

    /** One `read`: any nonempty amount that fits, as the cuts have it, and zero only at the end of the stream. */
    method Read(buf: array<byte>) returns (n: nat)
      requires buf.Length > 0
      modifies this, buf
      ensures n <= buf.Length && n <= |old(data)|
      ensures n == 0 <==> old(data) == []
      ensures buf[..n] == old(data)[..n] && data == old(data)[n..]
      ensures old(data) != [] ==> n == Taken(old(cuts), buf.Length, |old(data)|) && cuts == Later(old(cuts))
    {
      if data == [] { return 0; }
      n := Taken(cuts, buf.Length, |data|);
      forall i | 0 <= i < n { buf[i] := data[i]; }
      data, cuts := data[n..], Later(cuts);
    }

    /** `read_exact` into the first `n` bytes of `buf`; a stream that ends first is used up. */
    method ReadExact(buf: array<byte>, n: nat) returns (ok: bool)
      requires n <= buf.Length
      modifies this, buf
      ensures ok == (n <= |old(data)|)
      ensures ok ==> buf[..n] == old(data)[..n] && data == old(data)[n..]
      ensures !ok ==> data == []
    {
      if |data| < n {
        data := [];
        return false;
      }
      forall i | 0 <= i < n { buf[i] := data[i]; }
      data := data[n..];
      return true;
    }
  }

  /** How much of `len` more a sink takes that has taken `sent`; one without a limit takes all. */
  function Accepts(limit: Option<nat>, sent: nat, len: nat): (n: nat)
    ensures n <= len
  {
    if limit.None? || sent + len <= limit.value then len
    else if sent < limit.value then limit.value - sent
    else 0
  }

  /** The write half of a socket. The write that passes its limit fails, and leaves a part of the data behind. */
  class TcpWriter {
    const limit: Option<nat>
    var sent: seq<byte>
    /** Whether a write has failed; nothing goes out any more. */
    var failed: bool

    constructor (limit: Option<nat>)
      ensures sent == [] && !failed && this.limit == limit
    {
      this.limit, sent, failed := limit, [], false;
    }

    method WriteAll(data: seq<byte>) returns (ok: bool)
      modifies this
      ensures ok == !failed && (old(failed) ==> failed)
      ensures failed && !old(failed) ==> limit.Some?
      ensures ok ==> sent == old(sent) + data
      ensures old(sent) <= sent <= old(sent) + data
    {
      if failed {
        assert sent == sent + data[..0];
        return false;
      }
      var n := Accepts(limit, |sent|, |data|);
      failed := n < |data|;
      assert data[..|data|] == data;
      sent := sent + data[..n];
      ok := !failed;
    }
  }

  /** The sending half of a WebSocket: whole binary messages, up to its limit. */
  class WsSink {
    const limit: Option<nat>
    var frames: seq<seq<byte>>
    /** Whether a send has failed; no further one succeeds. */
    var failed: bool

    constructor (limit: Option<nat>)
      ensures frames == [] && !failed && this.limit == limit
    {
      this.limit, frames, failed := limit, [], false;
    }

    method Send(frame: seq<byte>) returns (ok: bool)
      modifies this
      ensures ok == !failed && (old(failed) ==> failed)
      ensures failed && !old(failed) ==> limit.Some?
      ensures frames == if ok then old(frames) + [frame] else old(frames)
    {
      if failed { return false; }
      failed := Accepts(limit, |frames|, 1) == 0;
      ok := !failed;
      if ok { frames := frames + [frame]; }
    }
  }

  /** Where a task is aborted: behind so many await points, and how far the write there gets. */
  datatype Stop = Stop(awaits: nat, part: nat)

  /** A spawned task, which runs to its own end or is aborted at one of its await points. */
  class Task {
    const stop: Option<Stop>
    var passed: nat
    var aborted: bool

    constructor (stop: Option<Stop>)
      ensures this.stop == stop && passed == 0 && !aborted
    {
      this.stop, passed, aborted := stop, 0, false;
    }

    /** The next await point is the one it is aborted at. */
    predicate Over()
      reads this
    {
      stop.Some? && stop.value.awaits <= passed
    }

    /** Reach an await point: go on behind it, or never. */
    method Await() returns (go: bool)
      requires !aborted
      modifies this
      ensures go == !aborted == !old(Over())
      ensures aborted ==> stop.Some?
      ensures passed == if go then old(passed) + 1 else old(passed)
    {
      aborted := Over();
      go := !aborted;
      if go { passed := passed + 1; }
    }
  }
}

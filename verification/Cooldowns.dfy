/**
 * The failure memory of the routing ladder: cooldown maps, the sticky fronting window, and what a
 * history of dials leaves in them.
 */
module Cooldowns {
  import opened Bytes
  import opened CfRecords
  import opened Pool

  /** The two connect timeouts of the direct path, and every cooldown. */
  datatype Timeouts = Timeouts(
    wsConnect: nat, wsFailProbe: nat, wsFail: nat, wsRedirect: nat, ipFail: nat, upstreamFail: nat, cfFail: nat,
    frontingFail: nat, frontingSticky: nat)

  /** Whether `key` has a deadline that `now` has not reached. */
  predicate Running<K(==)>(deadlines: map<K, nat>, key: K, now: nat) {
    key in deadlines && now < deadlines[key]
  }

  /** Deadlines of one tier by key; a tier that is past its deadline may be dialled again. */
  class CooldownMap<K(==)> {
    var entries: map<K, nat>

    constructor ()
      ensures entries == map[]
    {
      entries := map[];
    }

    method Set(key: K, now: nat, cooldown: nat)
      modifies this
      ensures entries == old(entries)[key := now + cooldown]
    {
      entries := entries[key := now + cooldown];
    }

    method Clear(key: K)
      modifies this
      ensures entries == old(entries) - {key}
    {
      entries := entries - {key};
    }

    predicate Active(key: K, now: nat)
      reads this
    {
      Running(entries, key, now)
    }
  }

  /** The rungs of the ladder; the raw TCP connection behind them is not one. */
  datatype Rung = WorkerRung | ProxyRung | UpstreamRung | DirectRung

  /** One direct dial as it is asked for; the network answers it. */
  datatype Request = Request(ip: string, host: string, sni: Option<string>, timeout: nat)
  type Network = Request -> Outcome

  /**
   * When a direct dial read the shared cooldowns: the sticky window or, for a retry, the cooldown of
   * fronting; the DC's cooldown for the verdict on a failure; and again for the timeout to use.
   */
  datatype Reads = Reads(gate: nat, verdict: nat, budget: nat)

  /** What happened to a connection on its way down the ladder. */
  datatype Event =
    | PoolAsked(rung: Rung, hit: Option<Hit>)
    | Cooling(rung: Rung, name: string, at: nat, until: nat)
    | Dial(rung: Rung, name: string, dst: string, ok: bool, at: nat)
    | RecordsWalked(zones: seq<string>, o: Oracle, winner: Option<string>)
    | Spare(rung: Rung, host: string, dst: string)
    | DirectDial(key: DcKey, ip: string, sni: Option<string>, retry: bool, seen: Reads, probing: bool, timeout: nat,
                 net: Network, outcomes: seq<Outcome>, at: nat)
    | FrontingSkipped(key: DcKey, at: nat, until: nat)
    | DirectGivenUp(key: DcKey, ip: string, redirected: bool, suspect: bool, wsAt: nat, ipAt: nat)

  predicate Won(outcomes: seq<Outcome>) {
    outcomes != [] && outcomes[|outcomes| - 1] == Connected
  }

  datatype Memory = Memory(
    ws: map<DcKey, nat>, ip: map<string, nat>, upstream: map<string, nat>, worker: map<string, nat>,
    fronting: map<DcKey, nat>, sticky: Option<nat>)

  const NOTHING := Memory(map[], map[], map[], map[], map[], None)

  function Remember(t: Timeouts, m: Memory, e: Event): Memory {
    match e
    case Dial(WorkerRung, name, _, ok, at) =>
      m.(worker := if ok then m.worker - {name} else m.worker[name := at + t.cfFail])
    case Dial(UpstreamRung, name, _, ok, at) =>
      m.(upstream := if ok then m.upstream - {name} else m.upstream[name := at + t.upstreamFail])
    case DirectDial(key, ip, sni, retry, _, _, _, _, outcomes, at) =>
      if sni.None? then
        if Won(outcomes) then m.(ws := m.ws - {key}, ip := m.ip - {ip}) else m
      else if Won(outcomes) then
        m.(fronting := m.fronting - {key}, sticky := Some(at + t.frontingSticky))
      else
        m.(fronting := m.fronting[key := at + t.frontingFail], sticky := if retry then m.sticky else None)
    case DirectGivenUp(key, ip, redirected, suspect, wsAt, ipAt) =>
      m.(ws := m.ws[key := wsAt + if redirected then t.wsRedirect else t.wsFail],
         ip := if suspect then m.ip[ip := ipAt + t.ipFail] else m.ip)
    case _ => m
  }

  /** The memory a history leaves, from a start with no cooldowns. */
  function Replay(t: Timeouts, log: seq<Event>): Memory {
    if log == [] then NOTHING
    else
      var last := |log| - 1;
      Remember(t, Replay(t, log[..last]), log[last])
  }

  lemma ReplaySnoc(t: Timeouts, log: seq<Event>, e: Event)
    ensures Replay(t, log + [e]) == Remember(t, Replay(t, log), e)
  {
    assert (log + [e])[..|log|] == log;
  }

  // Honest histories ---------------------------------------------------------

  /** A direct connect without fronting that succeeded: the one thing that clears an address. */
  predicate Clears(e: Event, ip: string) {
    e.DirectDial? && e.ip == ip && e.sni.None? && Won(e.outcomes)
  }

  predicate Suspects(e: Event, ip: string) {
    e.DirectGivenUp? && e.ip == ip && e.suspect
  }

  /** A dial of `ip` in which a TCP connect ran out the clock, and none succeeded. */
  predicate TimedOut(e: Event, ip: string) {
    e.DirectDial? && e.ip == ip && ConnectTimedOut in e.outcomes && !Won(e.outcomes)
  }

  /** Such a dial on the full timeout: its DC was not in cooldown when the timeout was chosen. */
  predicate Unreachable(t: Timeouts, log: seq<Event>, j: nat, ip: string)
    requires j < |log|
  {
    && TimedOut(log[j], ip) && log[j].timeout == t.wsConnect
    && !Running(Replay(t, log[..j]).ws, log[j].key, log[j].seen.budget)
  }

  /** The suspicion at `k` comes from the dial at `j`, with no success on the address in between. */
  predicate CausedBy(t: Timeouts, log: seq<Event>, k: nat, j: nat)
    requires j < k < |log| && log[k].DirectGivenUp?
  {
    Unreachable(t, log, j, log[k].ip) && forall m | j < m < k :: !Clears(log[m], log[k].ip)
  }

  /**
   * A direct dial did what the memory called for when it read it: the short timeout exactly inside
   * the DC's cooldown, fronted exactly inside the sticky window, retried only outside the cooldown
   * of fronting.
   */
  predicate DialIsTrue(t: Timeouts, fronting: Option<string>, m: Memory, e: Event)
    requires e.DirectDial?
  {
    && e.timeout == (if Running(m.ws, e.key, e.seen.budget) then t.wsFailProbe else t.wsConnect)
    && if e.retry then fronting.Some? && e.sni == fronting && !Running(m.fronting, e.key, e.seen.gate)
       else
         && e.sni == (if m.sticky.Some? && e.seen.gate < m.sticky.value then fronting else None)
         && e.probing == Running(m.ws, e.key, e.seen.verdict)
  }

  /** Skips and direct dials agree with the memory of their moment. */
  predicate Truth(t: Timeouts, fronting: Option<string>, m: Memory, e: Event) {
    match e
    case Cooling(WorkerRung, name, at, until) => at < until && name in m.worker && m.worker[name] == until
    case Cooling(UpstreamRung, name, at, until) => at < until && name in m.upstream && m.upstream[name] == until
    case FrontingSkipped(key, at, until) => at < until && key in m.fronting && m.fronting[key] == until
    case DirectDial(_, _, _, _, _, _, _, _, _, _) => DialIsTrue(t, fronting, m, e)
    case _ => true
  }

  predicate IsTrue(t: Timeouts, fronting: Option<string>, log: seq<Event>, k: nat)
    requires k < |log|
  {
    Truth(t, fronting, Replay(t, log[..k]), log[k])
  }

  // Dates: when an event first looked at the clock, and when it took effect.
  predicate Timed(e: Event) {
    e.Cooling? || e.Dial? || e.DirectDial? || e.FrontingSkipped? || e.DirectGivenUp?
  }

  function From(e: Event): nat
    requires Timed(e)
  {
    if e.DirectDial? then e.seen.gate else if e.DirectGivenUp? then e.wsAt else e.at
  }

  function To(e: Event): nat
    requires Timed(e)
  {
    if e.DirectGivenUp? then e.ipAt else e.at
  }

  predicate Forward(e: Event) {
    match e
    case DirectDial(_, _, _, _, seen, _, _, _, _, at) => seen.gate <= seen.verdict <= seen.budget <= at
    case DirectGivenUp(_, _, _, _, wsAt, ipAt) => wsAt <= ipAt
    case _ => true
  }

  /** All of a history lies before `now`. */
  ghost predicate Past(log: seq<Event>, now: nat) {
    forall k | 0 <= k < |log| && Timed(log[k]) :: To(log[k]) <= now
  }

  /** Events are dated in the order they happened. */
  ghost predicate Dated(log: seq<Event>) {
    && (forall k | 0 <= k < |log| :: Forward(log[k]))
    && (forall j, k | 0 <= j < k < |log| && Timed(log[j]) && Timed(log[k]) :: To(log[j]) <= From(log[k]))
  }

  /** A history of connections handled one after the other. */
  ghost predicate Honest(t: Timeouts, fronting: Option<string>, log: seq<Event>) {
    && (forall k | 0 <= k < |log| && log[k].DirectGivenUp? && log[k].suspect ::
          exists j | 0 <= j < k :: CausedBy(t, log, k, j))
    && (forall k | 0 <= k < |log| :: IsTrue(t, fronting, log, k))
    && Dated(log)
  }

  lemma UnreachableStill(t: Timeouts, log: seq<Event>, e: Event, j: nat, ip: string)
    requires j < |log|
    ensures Unreachable(t, log + [e], j, ip) == Unreachable(t, log, j, ip)
  {
    hide Replay, TimedOut, Running;
    assert (log + [e])[..j] == log[..j];
  }

  /** One more event keeps a history honest, if it is itself. */
  lemma HonestSnoc(t: Timeouts, fronting: Option<string>, log: seq<Event>, e: Event)
    requires Honest(t, fronting, log)
    requires e.DirectGivenUp? && e.suspect ==> exists j | 0 <= j < |log| :: CausedBy(t, log + [e], |log|, j)
    requires Forward(e) && (Timed(e) ==> Past(log, From(e)))
    requires Truth(t, fronting, Replay(t, log), e)
    ensures Honest(t, fronting, log + [e])
  {
    hide Replay, Won, Truth, Forward, From, To, Timed, Unreachable, Clears;
    var all := log + [e];
    forall k | 0 <= k < |log| && all[k].DirectGivenUp? && all[k].suspect
      ensures exists j | 0 <= j < k :: CausedBy(t, all, k, j)
    {
      var j :| 0 <= j < k && CausedBy(t, log, k, j);
      UnreachableStill(t, log, e, j, log[k].ip);
      assert forall m | j < m < k :: all[m] == log[m];
      assert CausedBy(t, all, k, j);
    }
    forall k | 0 <= k < |all| ensures IsTrue(t, fronting, all, k) {
      if k < |log| {
        assert all[..k] == log[..k];
        assert IsTrue(t, fronting, log, k);
      } else {
        assert all[..k] == log;
      }
    }
  }

  // What a cooldown means ----------------------------------------------------

  /** A suspicion of `ip` whose cooldown still runs, with no success on the address since. */
  predicate Standing(t: Timeouts, log: seq<Event>, k: nat, ip: string, now: nat)
    requires k < |log|
  {
    && Suspects(log[k], ip) && now < log[k].ipAt + t.ipFail
    && forall m | k < m < |log| :: !Clears(log[m], ip)
  }

  /**
   * An address is cooling exactly while a suspicion stands, and behind each is a dial on the full
   * timeout, of a DC not in cooldown, in which a TCP connect timed out, with no success on the
   * address since. Redirects, refusals, stalled upgrades and short probes alone never start it.
   */
  lemma IpCoolingIsEarned(t: Timeouts, fronting: Option<string>, log: seq<Event>, ip: string, now: nat)
    requires Honest(t, fronting, log)
    ensures var m := Replay(t, log).ip;
      (ip in m && now < m[ip]) <==> exists k | 0 <= k < |log| :: Standing(t, log, k, ip, now)
    ensures forall k | 0 <= k < |log| && Standing(t, log, k, ip, now) ::
      exists j | 0 <= j < k :: Unreachable(t, log, j, ip) && forall i | j < i < |log| :: !Clears(log[i], ip)
  {
    hide Won, Replay, IsTrue, Remember, Unreachable;
    CoolingIsStanding(t, log, ip, now);
    forall k | 0 <= k < |log| && Standing(t, log, k, ip, now)
      ensures exists j | 0 <= j < k :: Unreachable(t, log, j, ip) && forall i | j < i < |log| :: !Clears(log[i], ip)
    {
      var j :| 0 <= j < k && CausedBy(t, log, k, j);
      assert log[k].ip == ip;
    }
  }

  lemma {:induction false} CoolingIsStanding(t: Timeouts, log: seq<Event>, ip: string, now: nat)
    requires Dated(log)
    ensures var m := Replay(t, log).ip;
      (ip in m && now < m[ip]) <==> exists k | 0 <= k < |log| :: Standing(t, log, k, ip, now)
  {
    hide Won, Remember, Replay, Standing;
    if log == [] {
      ReplayNothing(t);
    } else {
      var last := |log| - 1;
      var front, e := log[..last], log[last];
      assert log == front + [e];
      ReplaySnoc(t, front, e);
      RememberIp(t, Replay(t, front), e, ip);
      CoolingIsStanding(t, front, ip, now);
      forall k | 0 <= k < last
        ensures Standing(t, log, k, ip, now) <==> Standing(t, front, k, ip, now) && !Clears(e, ip)
      {
        StandingLonger(t, front, e, k, ip, now);
      }
      StandingLast(t, log, ip, now);
      if Suspects(e, ip) && !(now < e.ipAt + t.ipFail) {
        forall k | 0 <= k < last ensures !Standing(t, front, k, ip, now) {
          StandingIs(t, front, k, ip, now);
          assert front[k] == log[k] && Forward(log[last]);
          assert Suspects(front[k], ip) ==> To(log[k]) <= From(log[last]);
        }
      }
    }
  }

  lemma ReplayNothing(t: Timeouts)
    ensures Replay(t, []) == NOTHING
  {}

  lemma RememberIp(t: Timeouts, m: Memory, e: Event, ip: string)
    ensures var m' := Remember(t, m, e).ip;
      if Suspects(e, ip) then ip in m' && m'[ip] == e.ipAt + t.ipFail
      else if Clears(e, ip) then ip !in m'
      else (ip in m' <==> ip in m.ip) && (ip in m' ==> m'[ip] == m.ip[ip])
  {
    hide Won;
  }

  lemma StandingLonger(t: Timeouts, front: seq<Event>, e: Event, k: nat, ip: string, now: nat)
    requires k < |front|
    ensures Standing(t, front + [e], k, ip, now) <==> Standing(t, front, k, ip, now) && !Clears(e, ip)
  {
    hide Clears;
    var log := front + [e];
    if Standing(t, log, k, ip, now) {
      assert !Clears(log[|front|], ip);
      forall m | k < m < |front| ensures !Clears(front[m], ip) { assert !Clears(log[m], ip); }
    }
  }

  lemma StandingLast(t: Timeouts, log: seq<Event>, ip: string, now: nat)
    requires log != []
    ensures Standing(t, log, |log| - 1, ip, now) <==>
      Suspects(log[|log| - 1], ip) && now < log[|log| - 1].ipAt + t.ipFail
  {}

  lemma StandingIs(t: Timeouts, log: seq<Event>, k: nat, ip: string, now: nat)
    requires k < |log|
    ensures Standing(t, log, k, ip, now) ==> Suspects(log[k], ip) && now < log[k].ipAt + t.ipFail
  {}

  predicate DialOfName(e: Event, rung: Rung, name: string) {
    e.Dial? && e.rung == rung && e.name == name
  }

  /** The last dial of a name in the history: what its cooldown is about. */
  predicate LastDial(log: seq<Event>, k: nat, rung: Rung, name: string)
    requires k < |log|
  {
    DialOfName(log[k], rung, name) && forall m | k < m < |log| :: !DialOfName(log[m], rung, name)
  }

  function Deadlines(m: Memory, rung: Rung): map<string, nat>
    requires rung.WorkerRung? || rung.UpstreamRung?
  {
    if rung.WorkerRung? then m.worker else m.upstream
  }

  function Cooldown(t: Timeouts, rung: Rung): nat {
    if rung.WorkerRung? then t.cfFail else t.upstreamFail
  }

  /** A Worker or an upstream proxy has a deadline exactly when its last dial failed, set by that dial. */
  lemma {:induction false} DeadlineIsLastFailure(t: Timeouts, log: seq<Event>, rung: Rung, name: string, until: nat)
    requires rung.WorkerRung? || rung.UpstreamRung?
    ensures var d := Deadlines(Replay(t, log), rung);
      (name in d && d[name] == until) <==>
      exists k | 0 <= k < |log| :: LastDial(log, k, rung, name) && !log[k].ok && until == log[k].at + Cooldown(t, rung)
  {
    hide Won, Replay, Remember, DialOfName;
    if log == [] {
      ReplayNothing(t);
    } else {
      var last := |log| - 1;
      var front, e := log[..last], log[last];
      assert log == front + [e];
      ReplaySnoc(t, front, e);
      RememberDeadline(t, Replay(t, front), e, rung, name);
      DeadlineIsLastFailure(t, front, rung, name, until);
      DialKinds(log, rung, name);
      if DialOfName(e, rung, name) { assert LastDial(log, last, rung, name); }
      forall k | 0 <= k < last
        ensures LastDial(log, k, rung, name) <==> LastDial(front, k, rung, name) && !DialOfName(e, rung, name)
      {}
    }
  }

  lemma DialKinds(log: seq<Event>, rung: Rung, name: string)
    ensures forall k | 0 <= k < |log| && DialOfName(log[k], rung, name) :: log[k].Dial?
  {}

  lemma RememberDeadline(t: Timeouts, m: Memory, e: Event, rung: Rung, name: string)
    requires rung.WorkerRung? || rung.UpstreamRung?
    ensures var d, d' := Deadlines(m, rung), Deadlines(Remember(t, m, e), rung);
      if !DialOfName(e, rung, name) then (name in d' <==> name in d) && (name in d' ==> d'[name] == d[name])
      else if e.ok then name !in d'
      else name in d' && d'[name] == e.at + Cooldown(t, rung)
  {
    hide Won;
  }

  /** A fronted connect that succeeded. */
  predicate Fronted(e: Event) {
    e.DirectDial? && e.sni.Some? && Won(e.outcomes)
  }

  /** The sticky attempt failed: fronting is no longer taken to work. */
  predicate EndsSticky(e: Event) {
    e.DirectDial? && e.sni.Some? && !e.retry && !Won(e.outcomes)
  }

  /** The last event that decided about the sticky window. */
  predicate Decides(log: seq<Event>, k: nat)
    requires k < |log|
  {
    && (Fronted(log[k]) || EndsSticky(log[k]))
    && forall m | k < m < |log| :: !Fronted(log[m]) && !EndsSticky(log[m])
  }

  /** Connections stay fronted exactly while the last word on fronting was a success within the window. */
  lemma {:induction false} StickyIsEarned(t: Timeouts, log: seq<Event>, until: nat)
    ensures Replay(t, log).sticky == Some(until) <==>
      exists k | 0 <= k < |log| :: Decides(log, k) && Fronted(log[k]) && until == log[k].at + t.frontingSticky
  {
    hide Won;
    if log != [] {
      var last := |log| - 1;
      var front, e := log[..last], log[last];
      StickyIsEarned(t, front, until);
      var decides := Fronted(e) || EndsSticky(e);
      if decides { assert Decides(log, last); }
      forall k | 0 <= k < last ensures Decides(log, k) <==> Decides(front, k) && !decides {}
    }
  }

  predicate FrontedDial(e: Event, key: DcKey) {
    e.DirectDial? && e.sni.Some? && e.key == key
  }

  /** The last fronted dial for a DC: what the cooldown of fronting there is about. */
  predicate LastFronted(log: seq<Event>, k: nat, key: DcKey)
    requires k < |log|
  {
    FrontedDial(log[k], key) && forall m | k < m < |log| :: !FrontedDial(log[m], key)
  }

  lemma RememberFronting(t: Timeouts, m: Memory, e: Event, key: DcKey)
    ensures var d := Remember(t, m, e).fronting;
      if !FrontedDial(e, key) then (key in d <==> key in m.fronting) && (key in d ==> d[key] == m.fronting[key])
      else if Won(e.outcomes) then key !in d
      else key in d && d[key] == e.at + t.frontingFail
  {
    hide Won;
  }

  /** Fronting cools down for a DC exactly after its last fronted dial failed, from that dial on. */
  lemma {:induction false} FrontingDeadline(t: Timeouts, log: seq<Event>, key: DcKey, until: nat)
    ensures var d := Replay(t, log).fronting;
      (key in d && d[key] == until) <==>
      exists k | 0 <= k < |log| ::
        LastFronted(log, k, key) && !Won(log[k].outcomes) && until == log[k].at + t.frontingFail
  {
    hide Won, Replay, Remember, FrontedDial;
    if log == [] {
      ReplayNothing(t);
    } else {
      var last := |log| - 1;
      var front, e := log[..last], log[last];
      assert log == front + [e];
      ReplaySnoc(t, front, e);
      RememberFronting(t, Replay(t, front), e, key);
      FrontingDeadline(t, front, key, until);
      FrontedKinds(log, key);
      if FrontedDial(e, key) { assert LastFronted(log, last, key); }
      forall k | 0 <= k < last
        ensures LastFronted(log, k, key) <==> LastFronted(front, k, key) && !FrontedDial(e, key)
      {}
    }
  }

  lemma FrontedKinds(log: seq<Event>, key: DcKey)
    ensures forall k | 0 <= k < |log| && FrontedDial(log[k], key) :: log[k].DirectDial?
  {}

  /** The last fronted dial for the DC failed, and its cooldown runs at `now`. */
  predicate FrontingFailedRecently(t: Timeouts, log: seq<Event>, key: DcKey, now: nat) {
    exists k | 0 <= k < |log| :: LastFronted(log, k, key) && !Won(log[k].outcomes) && now < log[k].at + t.frontingFail
  }

  lemma FrontingCools(t: Timeouts, log: seq<Event>, key: DcKey, now: nat)
    ensures Running(Replay(t, log).fronting, key, now) <==> FrontingFailedRecently(t, log, key, now)
  {
    hide Replay, Won;
    var d := Replay(t, log).fronting;
    if Running(d, key, now) {
      FrontingDeadline(t, log, key, d[key]);
      var k :| 0 <= k < |log| && LastFronted(log, k, key) && !Won(log[k].outcomes)
        && d[key] == log[k].at + t.frontingFail;
    }
    forall k | 0 <= k < |log| && LastFronted(log, k, key) && !Won(log[k].outcomes)
      ensures key in d && d[key] == log[k].at + t.frontingFail
    {
      FrontingDeadline(t, log, key, log[k].at + t.frontingFail);
    }
  }

  /** The last word on fronting was a success, and its window is open at `now`. */
  predicate FrontingWorked(t: Timeouts, log: seq<Event>, now: nat) {
    exists k | 0 <= k < |log| :: Decides(log, k) && Fronted(log[k]) && now < log[k].at + t.frontingSticky
  }

  lemma StickyMeans(t: Timeouts, log: seq<Event>, now: nat)
    ensures (Replay(t, log).sticky.Some? && now < Replay(t, log).sticky.value) <==> FrontingWorked(t, log, now)
  {
    hide Replay, Decides;
    var s := Replay(t, log).sticky;
    if s.Some? { StickyIsEarned(t, log, s.value); }
    forall k | 0 <= k < |log| && Decides(log, k) && Fronted(log[k]) ensures s == Some(log[k].at + t.frontingSticky) {
      StickyIsEarned(t, log, log[k].at + t.frontingSticky);
    }
  }

  /** The direct path of a DC was given up, or worked without fronting. */
  predicate Judges(e: Event, key: DcKey) {
    || (e.DirectGivenUp? && e.key == key)
    || (e.DirectDial? && e.key == key && e.sni.None? && Won(e.outcomes))
  }

  /** The last word on the direct path of a DC: what its cooldown is about. */
  predicate LastJudged(log: seq<Event>, k: nat, key: DcKey)
    requires k < |log|
  {
    Judges(log[k], key) && forall m | k < m < |log| :: !Judges(log[m], key)
  }

  function BackOff(t: Timeouts, e: Event): nat
    requires e.DirectGivenUp?
  {
    e.wsAt + if e.redirected then t.wsRedirect else t.wsFail
  }

  lemma RememberWs(t: Timeouts, m: Memory, e: Event, key: DcKey)
    ensures var d := Remember(t, m, e).ws;
      if !Judges(e, key) then (key in d <==> key in m.ws) && (key in d ==> d[key] == m.ws[key])
      else if e.DirectGivenUp? then key in d && d[key] == BackOff(t, e)
      else key !in d
  {
    hide Won;
  }

  /** A DC has a deadline exactly when the last word on its direct path was giving it up, set by that. */
  lemma {:induction false} WsDeadline(t: Timeouts, log: seq<Event>, key: DcKey, until: nat)
    ensures var d := Replay(t, log).ws;
      (key in d && d[key] == until) <==>
      exists k | 0 <= k < |log| :: LastJudged(log, k, key) && log[k].DirectGivenUp? && until == BackOff(t, log[k])
  {
    hide Won, Replay, Remember, Judges, BackOff;
    if log == [] {
      ReplayNothing(t);
    } else {
      var last := |log| - 1;
      var front, e := log[..last], log[last];
      assert log == front + [e];
      ReplaySnoc(t, front, e);
      RememberWs(t, Replay(t, front), e, key);
      WsDeadline(t, front, key, until);
      if Judges(e, key) { assert LastJudged(log, last, key); }
      forall k | 0 <= k < last
        ensures LastJudged(log, k, key) <==> LastJudged(front, k, key) && !Judges(e, key)
      {}
    }
  }

  /** The last word on the DC's direct path was giving it up, and the time to back off runs at `now`. */
  predicate BackingOff(t: Timeouts, log: seq<Event>, key: DcKey, now: nat) {
    exists k | 0 <= k < |log| :: LastJudged(log, k, key) && log[k].DirectGivenUp? && now < BackOff(t, log[k])
  }

  lemma WsCools(t: Timeouts, log: seq<Event>, key: DcKey, now: nat)
    ensures Running(Replay(t, log).ws, key, now) <==> BackingOff(t, log, key, now)
  {
    hide Replay, Judges, BackOff;
    var d := Replay(t, log).ws;
    if Running(d, key, now) {
      WsDeadline(t, log, key, d[key]);
      var k :| 0 <= k < |log| && LastJudged(log, k, key) && log[k].DirectGivenUp? && d[key] == BackOff(t, log[k]);
    }
    forall k | 0 <= k < |log| && LastJudged(log, k, key) && log[k].DirectGivenUp?
      ensures key in d && d[key] == BackOff(t, log[k])
    {
      WsDeadline(t, log, key, BackOff(t, log[k]));
    }
  }

  // What dials do ----------------------------------------------------------------------

  /**
   * A first dial of an honest history is fronted exactly while fronting is configured and the last word
   * on it was a success within its window; and every direct dial is on the short timeout exactly while
   * the last word on its DC was giving it up, within the time to back off.
   */
  lemma DialsFrontedExactly(t: Timeouts, fronting: Option<string>, log: seq<Event>, k: nat)
    requires Honest(t, fronting, log) && k < |log| && log[k].DirectDial?
    ensures !log[k].retry ==>
      log[k].sni == if FrontingWorked(t, log[..k], log[k].seen.gate) then fronting else None
    ensures !log[k].retry ==> log[k].probing == BackingOff(t, log[..k], log[k].key, log[k].seen.verdict)
    ensures log[k].timeout ==
      if BackingOff(t, log[..k], log[k].key, log[k].seen.budget) then t.wsFailProbe else t.wsConnect
  {
    hide Replay, FrontingWorked, BackingOff;
    assert IsTrue(t, fronting, log, k);
    StickyMeans(t, log[..k], log[k].seen.gate);
    WsCools(t, log[..k], log[k].key, log[k].seen.verdict);
    WsCools(t, log[..k], log[k].key, log[k].seen.budget);
  }

  /** A fronted retry, and a skipped one, agree with how the DC's last fronted dial went. */
  lemma RetriesGated(t: Timeouts, fronting: Option<string>, log: seq<Event>, k: nat)
    requires Honest(t, fronting, log) && k < |log|
    ensures log[k].DirectDial? && log[k].retry ==>
      fronting.Some? && log[k].sni == fronting && !FrontingFailedRecently(t, log[..k], log[k].key, log[k].seen.gate)
    ensures log[k].FrontingSkipped? ==> FrontingFailedRecently(t, log[..k], log[k].key, log[k].at)
  {
    hide Replay, FrontingFailedRecently;
    assert IsTrue(t, fronting, log, k);
    if log[k].DirectDial? && log[k].retry { FrontingCools(t, log[..k], log[k].key, log[k].seen.gate); }
    if log[k].FrontingSkipped? { FrontingCools(t, log[..k], log[k].key, log[k].at); }
  }
}

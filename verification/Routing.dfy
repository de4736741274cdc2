/**
 * The router: one connection walking down the ladder, while its cooldowns are shared with every
 * other connection.
 */
module Routing {
  import opened Bytes
  import opened CfRecords
  import opened Cooldowns
  import opened Ladder
  import opened Pool
  import PoolMachine

  const USIZE: nat := 0x1_0000_0000_0000_0000

  /** How a direct attempt ended, as its caller sees it. */
  datatype WsAttempt = WsAttempt(ok: bool, allRedirects: bool, upgradeTimedOut: bool, connectTimedOut: bool)

  predicate Describes(attempt: WsAttempt, outcomes: seq<Outcome>) {
    && attempt.ok == Won(outcomes)
    && (attempt.ok ==> attempt == WsAttempt(true, false, false, false))
    && (!attempt.ok ==>
          && attempt.allRedirects == AllRedirects(outcomes)
          && attempt.upgradeTimedOut == (UpgradeTimedOut in outcomes)
          && attempt.connectTimedOut == (ConnectTimedOut in outcomes))
  }

  /** Try the domains of a DC in order, all with the same SNI and timeout, until one connects. */
  method ConnectWsForDc(domains: seq<string>, ip: string, sni: Option<string>, timeout: nat, net: Network)
    returns (attempt: WsAttempt)
    ensures Describes(attempt, Answered(domains, ip, sni, timeout, net))
  {
    hide Answered, AllRedirects;
    ghost var outcomes: seq<Outcome> := [];
    NothingAnswered(ip, sni, timeout, net);
    attempt := WsAttempt(false, true, false, false);
    assert domains[0..] == domains;
    for i := 0 to |domains|
      invariant |outcomes| == i && forall j | 0 <= j < i :: outcomes[j] != Connected
      invariant Answered(domains, ip, sni, timeout, net) == outcomes + Answered(domains[i..], ip, sni, timeout, net)
      invariant !attempt.ok
      invariant attempt.allRedirects == AllRedirects(outcomes)
      invariant attempt.upgradeTimedOut == (UpgradeTimedOut in outcomes)
      invariant attempt.connectTimedOut == (ConnectTimedOut in outcomes)
    {
      var outcome := net(Request(ip, domains[i], sni, timeout));
      ghost var before := outcomes;
      outcomes := outcomes + [outcome];
      assert domains[i..][1..] == domains[i + 1..];
      RedirectsSnoc(before, outcome);
      AnsweredFirst(domains[i..], ip, sni, timeout, net);
      assert forall o :: o in outcomes <==> o in before || o == outcome;
      match outcome {
        case Connected => return WsAttempt(true, false, false, false);
        case Redirect =>
        case Failed(_) => attempt := attempt.(allRedirects := false);
        case UpgradeTimedOut => attempt := attempt.(allRedirects := false, upgradeTimedOut := true);
        case ConnectTimedOut => attempt := attempt.(allRedirects := false, connectTimedOut := true);
      }
    }
    assert outcomes + [] == outcomes;
  }

  lemma AnsweredFirst(domains: seq<string>, ip: string, sni: Option<string>, timeout: nat, net: Network)
    requires domains != []
    ensures var outcome := net(Request(ip, domains[0], sni, timeout));
      Answered(domains, ip, sni, timeout, net) ==
      [outcome] + if outcome == Connected then [] else Answered(domains[1..], ip, sni, timeout, net)
  {}

  lemma NothingAnswered(ip: string, sni: Option<string>, timeout: nat, net: Network)
    ensures Answered([], ip, sni, timeout, net) == [] && AllRedirects([])
  {}

  lemma RedirectsSnoc(outcomes: seq<Outcome>, o: Outcome)
    ensures AllRedirects(outcomes + [o]) <==> AllRedirects(outcomes) && o == Redirect
  {
    assert AllRedirects(outcomes + [o]) ==> (outcomes + [o])[|outcomes|] == o == Redirect;
    if AllRedirects(outcomes + [o]) {
      forall i | 0 <= i < |outcomes| ensures outcomes[i] == Redirect { assert (outcomes + [o])[i] == Redirect; }
    }
  }

  class Router {
    const cfg: Config
    const t: Timeouts
    const wsFail: CooldownMap<DcKey>
    const ipFail: CooldownMap<string>
    const upstreamFail: CooldownMap<string>
    const workerFail: CooldownMap<string>
    const frontingFail: CooldownMap<DcKey>
    var frontingUntil: Option<nat>
    var now: nat
    var turn: nat
    /** Whether connections are handled one after the other. */
    const solo: bool
    /** What happened to the two pools so far: refills and the warmup run beside every connection. */
    var cfEvents: seq<PoolMachine.Event<CfKey, CfConn>>
    var dcEvents: seq<PoolMachine.Event<DcKey, DcKey>>
    const poolSize: nat
    const maxAge: nat
    const warmed: set<DcKey>
    /** Everything that happened to this router's connections. */
    ghost var log: seq<Event>

    constructor (cfg: Config, t: Timeouts, poolSize: nat, maxAge: nat, warmed: set<DcKey>, solo: bool)
      ensures this.cfg == cfg && this.t == t && this.solo == solo
      ensures this.poolSize == poolSize && this.maxAge == maxAge && this.warmed == warmed
      ensures Valid() && log == [] && fresh(Repr())
    {
      this.cfg, this.t, this.solo := cfg, t, solo;
      this.poolSize, this.maxAge, this.warmed, cfEvents, dcEvents := poolSize, maxAge, warmed, [], [];
      wsFail := new CooldownMap();
      ipFail := new CooldownMap();
      upstreamFail := new CooldownMap();
      workerFail := new CooldownMap();
      frontingFail := new CooldownMap();
      frontingUntil, now, turn, log := None, 0, 0, [];
    }

    ghost function Repr(): set<object> {
      {this, wsFail, ipFail, upstreamFail, workerFail, frontingFail}
    }

    ghost function View(): Memory
      reads Repr()
    {
      Memory(wsFail.entries, ipFail.entries, upstreamFail.entries, workerFail.entries, frontingFail.entries,
             frontingUntil)
    }

    ghost predicate Valid()
      reads Repr()
    {
      && wsFail != frontingFail && ipFail != upstreamFail && ipFail != workerFail && upstreamFail != workerFail
      && (solo ==> Accounted(t, cfg.fronting, View(), log, now))
    }

    /** The Cloudflare pool, and the direct one, behind everything that happened to them. */
    function CfIdle(): PoolMachine.State<CfKey, CfConn>
      reads this
    {
      PoolMachine.Run(CfPool(poolSize, maxAge, Allowed(cfg)), PoolMachine.Init({}), cfEvents)
    }

    function DcIdle(): PoolMachine.State<DcKey, DcKey>
      reads this
    {
      PoolMachine.Run(DirectPool(poolSize, maxAge), PoolMachine.Init(warmed), dcEvents)
    }

    /** Time passes, the pools go on, and other connections do as they please. */
    method Others()
      requires Valid()
      modifies Repr()
      ensures Valid() && now >= old(now) && log == old(log)
      ensures solo ==> View() == old(View())
    {
      var later: nat :| now <= later;
      if solo { Later(t, cfg.fronting, View(), log, now, later); }
      now := later;
      var cf: seq<PoolMachine.Event<CfKey, CfConn>> := *;
      var dc: seq<PoolMachine.Event<DcKey, DcKey>> := *;
      cfEvents, dcEvents := cfEvents + cf, dcEvents + dc;
      if !solo {
        wsFail.entries, ipFail.entries, upstreamFail.entries := *, *, *;
        workerFail.entries, frontingFail.entries, frontingUntil := *, *, *;
      }
    }

    /** Record an event that leaves the memory as it is. */
    ghost method Note(e: Event)
      requires Valid()
      requires Notable(View(), e, now)
      modifies this`log
      ensures Valid() && log == old(log) + [e]
    {
      if solo { Noted(t, cfg.fronting, View(), log, e, now); }
      log := log + [e];
    }

    // Shared steps -------------------------------------------------------------

    /** Look a name up in a rung's cooldowns, and record it if it has to be skipped. */
    method SkipCooling(rung: Rung, name: string) returns (cooling: bool, ghost events: seq<Event>)
      requires Valid() && (rung.WorkerRung? || rung.UpstreamRung?)
      modifies Repr()
      ensures Valid() && now >= old(now) && log == old(log) + events
      ensures solo ==> View() == old(View())
      ensures cooling == if rung.WorkerRung? then workerFail.Active(name, now) else upstreamFail.Active(name, now)
      ensures if cooling then |events| == 1 && events[0].Cooling? && Missed(rung, name, "", events[0]) else events == []
      ensures cooling ==> forall dst :: Missed(rung, name, dst, events[0])
    {
      Others();
      if rung.WorkerRung? {
        cooling := workerFail.Active(name, now);
      } else {
        cooling := upstreamFail.Active(name, now);
      }
      events := [];
      if cooling {
        ghost var until := if rung.WorkerRung? then workerFail.entries[name] else upstreamFail.entries[name];
        Note(Cooling(rung, name, now, until));
        events := [Cooling(rung, name, now, until)];
      }
    }

    /** Dial one name of a rung: a success clears its cooldown, a failure starts it. */
    method DialName(rung: Rung, name: string, dst: string) returns (ok: bool, ghost e: Event)
      requires Valid() && (rung.WorkerRung? || rung.UpstreamRung?)
      modifies Repr()
      ensures Valid() && now >= old(now) && log == old(log) + [e]
      ensures e == Dial(rung, name, dst, ok, now)
      ensures solo ==> View() == Remember(t, old(View()), e)
      ensures var d := Deadlines(View(), rung);
        if ok then name !in d else name in d && d[name] == now + Cooldown(t, rung)
    {
      hide Replay, Honest;
      Others();
      ok := *;
      e := Dial(rung, name, dst, ok, now);
      if solo { DialNoted(t, cfg.fronting, View(), log, e, now); }
      match (rung.WorkerRung?, ok) {
        case (true, true) => workerFail.Clear(name);
        case (true, false) => workerFail.Set(name, now, t.cfFail);
        case (false, true) => upstreamFail.Clear(name);
        case (false, false) => upstreamFail.Set(name, now, t.upstreamFail);
      }
      log := log + [e];
    }

    /** Ask the Cloudflare pool for a connection of a tier; a hit has its like opened again. */
    method AskCf(rung: Rung, key: DcKey) returns (hit: Option<Hit>)
      requires Valid() && (rung.WorkerRung? || rung.ProxyRung?)
      modifies Repr()
      ensures Valid() && now >= old(now) && log == old(log) + [PoolAsked(rung, hit)]
      ensures solo ==> View() == old(View())
      ensures hit.Some? ==> PooledBy(cfg, rung, key, hit.value)
      ensures cfEvents != [] && var get := cfEvents[|cfEvents| - 1];
        && get.Get? && get.key == CfKey(if rung.WorkerRung? then Worker else CfTier.Proxy, key.dc, key.media)
        && var conn := PoolMachine.Answered(CfPool(poolSize, maxAge, Allowed(cfg)), {}, cfEvents);
          hit == (if conn.Some? then Some(CfHit(conn.value)) else None) && get.refill == conn
    {
      hide PoolMachine.Run, PoolMachine.Step, PoolMachine.Take;
      Others();
      var k := CfKey(if rung.WorkerRung? then Worker else CfTier.Proxy, key.dc, key.media);
      var pool := CfIdle();
      var at: nat :| at <= pool.now;
      var alive: nat -> bool := *;
      var entry := PoolMachine.Take(pool.Bucket(k), at, maxAge, alive).0;
      CfHits(cfg, poolSize, maxAge, cfEvents, k, at, alive);
      cfEvents := cfEvents + [PoolMachine.Get(k, at, alive, if entry.Some? then Some(entry.value.conn) else None)];
      hit := if entry.Some? then Some(CfHit(entry.value.conn)) else None;
      Note(PoolAsked(rung, hit));
    }

    /** Ask the direct pool; the bucket is refilled unless the address is cooling. */
    method AskDc(key: DcKey, ip: string) returns (hit: Option<Hit>)
      requires Valid()
      modifies Repr()
      ensures Valid() && now >= old(now) && log == old(log) + [PoolAsked(DirectRung, hit)]
      ensures solo ==> View() == old(View())
      ensures hit.Some? ==> PooledBy(cfg, DirectRung, key, hit.value)
      ensures dcEvents != [] && var get := dcEvents[|dcEvents| - 1];
        && get.Get? && get.key == key && get.refill == (if ipFail.Active(ip, now) then None else Some(key))
        && var conn := PoolMachine.Answered(DirectPool(poolSize, maxAge), warmed, dcEvents);
          hit == if conn.Some? then Some(DcHit(conn.value)) else None
    {
      hide PoolMachine.Run, PoolMachine.Step, PoolMachine.Take;
      Others();
      var pool := DcIdle();
      var at: nat :| at <= pool.now;
      var alive: nat -> bool := *;
      var entry := PoolMachine.Take(pool.Bucket(key), at, maxAge, alive).0;
      PoolMachine.HitsAreFreshest(DirectPool(poolSize, maxAge), warmed, dcEvents, key, at, alive);
      var refill := if ipFail.Active(ip, now) then None else Some(key);
      dcEvents := dcEvents + [PoolMachine.Get(key, at, alive, refill)];
      hit := if entry.Some? then Some(DcHit(entry.value.conn)) else None;
      Note(PoolAsked(DirectRung, hit));
    }

    /** `--cf-balance`: start from the next domain every time. */
    method BalanceOrder(domains: seq<string>) returns (order: seq<string>)
      modifies this`turn
      ensures Rotation(order, domains, cfg.cfBalance)
    {
      order := domains;
      if cfg.cfBalance && |domains| > 1 {
        order := Rotated(domains, turn % |domains|);
        turn := (turn + 1) % USIZE;
      }
    }

    /** Have the pool open a spare for the next connection. */
    method OpenSpare(rung: Rung, key: DcKey, host: string, rotation: seq<string>, dst: string)
      returns (ghost e: Event)
      requires Valid() && rotation != [] && (rung.WorkerRung? || rung.ProxyRung?)
      modifies this`turn, this`log, this`cfEvents
      ensures Valid() && log == old(log) + [e] && SpareFor(cfg, rung, host, rotation, dst, e)
      ensures var target := SpareTarget(e, key);
        cfEvents == old(cfEvents) + [PoolMachine.Prefetch(target.Key(), CfConnectOne(target))]
    {
      var spare := host;
      if cfg.cfBalance {
        var order := BalanceOrder(rotation);
        RotationCovers(order, rotation, true);
        spare := order[0];
        assert spare in order;
      }
      var target := CfTarget(if rung.WorkerRung? then Worker else CfTier.Proxy, key.dc, key.media, dst, spare);
      cfEvents := cfEvents + [PoolMachine.Prefetch(target.Key(), CfConnectOne(target))];
      e := Spare(rung, spare, dst);
      Note(e);
    }

    // The rungs ------------------------------------------------------------------

    /** Try every configured Cloudflare Worker. The tunnel opens onto the built-in address, if there is one. */
    method CfWorker(key: DcKey, ip: string) returns (hit: bool, ghost v: Visit)
      requires Valid()
      modifies Repr()
      ensures Valid() && now >= old(now) && log == old(log) + v.events
      ensures v.hit == hit && v.rung.WorkerRung? && VisitOk(cfg, key, ip, v)
      ensures solo ==> ipFail.entries == old(ipFail.entries)
    {
      hide Accounted, ProxyVisit, UpstreamVisit, DirectVisit, WorkersTried, Rotation;
      if cfg.workers == [] { return false, Visit(WorkerRung, [], [], false); }
      var dst := UnwrapOr(FallbackIp(key.dc), ip);
      var pooled := AskCf(WorkerRung, key);
      if pooled.Some? { return true, Visit(WorkerRung, [], [PoolAsked(WorkerRung, pooled)], true); }
      var order := BalanceOrder(cfg.workers);
      ghost var tries;
      hit, tries := TryWorkers(key, order, dst);
      v := Visit(WorkerRung, order, [PoolAsked(WorkerRung, None)] + tries, hit);
      assert v.events[0] == PoolAsked(WorkerRung, None) && v.events[1..] == tries;
    }

    /** The Workers of one order, skipping those in cooldown, until one connects. */
    method TryWorkers(key: DcKey, order: seq<string>, dst: string) returns (hit: bool, ghost tries: seq<Event>)
      requires Valid() && cfg.workers != []
      modifies Repr()
      ensures Valid() && now >= old(now) && log == old(log) + tries
      ensures WorkersTried(cfg, dst, order, tries, hit)
      ensures solo ==> ipFail.entries == old(ipFail.entries)
    {
      hide Accounted, AllMissed, WorkersTried, SpareFor;
      hit, tries := false, [];
      NoneMissed(WorkerRung, order, dst);
      for i := 0 to |order|
        invariant Valid() && now >= old(now) && log == old(log) + tries
        invariant |tries| == i && AllMissed(WorkerRung, order, dst, tries)
        invariant solo ==> ipFail.entries == old(ipFail.entries)
      {
        var cooling, skipped := SkipCooling(WorkerRung, order[i]);
        if cooling {
          OneMoreMissed(WorkerRung, order, dst, tries, skipped[0]);
          tries := tries + [skipped[0]];
          continue;
        }
        var ok, e := DialName(WorkerRung, order[i], dst);
        if ok {
          var spare := OpenSpare(WorkerRung, key, order[i], cfg.workers, dst);
          WorkerReached(cfg, dst, order, tries, e, spare);
          return true, tries + [e] + [spare];
        }
        OneMoreMissed(WorkerRung, order, dst, tries, e);
        tries := tries + [e];
      }
      WorkersMissed(cfg, dst, order, tries);
    }

    /** Try the Cloudflare records of every zone; no cooldown is kept for them. */
    method CfProxy(key: DcKey, o: Oracle, ghost ip: string) returns (hit: bool, ghost v: Visit)
      requires Valid()
      modifies Repr()
      ensures Valid() && now >= old(now) && log == old(log) + v.events
      ensures v.hit == hit && v.rung.ProxyRung? && VisitOk(cfg, key, ip, v)
      ensures solo ==> ipFail.entries == old(ipFail.entries)
    {
      hide Walk, CfWsDomains, Accounted, VisitOk, Rotation, PooledBy, CfPool, PoolMachine.Answered;
      ProxyUnused(cfg, key, ip);
      if cfg.zones == [] { return false, Visit(ProxyRung, [], [], false); }
      var order := BalanceOrder(cfg.zones);
      var pooled := AskCf(ProxyRung, key);
      if pooled.Some? {
        ProxyPooled(cfg, key, ip, order, pooled);
        return true, Visit(ProxyRung, order, [PoolAsked(ProxyRung, pooled)], true);
      }
      var winner, allRedirects, attempts := ConnectCfWs(key.dc, order, key.media, o);
      ghost var walked := RecordsWalked(order, o, winner);
      Note(walked);
      hit := winner.Some?;
      ghost var spares := [];
      if winner.Some? {
        var spare := OpenSpare(ProxyRung, key, winner.value, cfg.zones, "");
        spares := [spare];
      }
      ProxyWalked(cfg, key, ip, order, o, winner, spares);
      v := Visit(ProxyRung, order, [PoolAsked(ProxyRung, None), walked] + spares, hit);
    }

    /** The rung of the upstream MTProto proxies: the first that takes a TCP connection wins. */
    method UpstreamProxies(ghost key: DcKey, ghost ip: string) returns (conn: Option<string>, ghost v: Visit)
      requires Valid()
      modifies Repr()
      ensures Valid() && now >= old(now) && log == old(log) + v.events
      ensures v.hit == conn.Some? && v.rung.UpstreamRung? && VisitOk(cfg, key, ip, v)
      ensures conn.Some? ==> Fits(Mtproto(conn.value), v)
      ensures solo ==> ipFail.entries == old(ipFail.entries)
    {
      hide WorkerVisit, ProxyVisit, DirectVisit, Accounted, ProxyKeys, AllMissed, Missed;
      ghost var tries;
      conn, tries := TryProxies();
      v := Visit(UpstreamRung, ProxyKeys(cfg.proxies), tries, conn.Some?);
    }

    /** The upstream proxies in order, skipping those in cooldown, until one connects. */
    method TryProxies() returns (conn: Option<string>, ghost tries: seq<Event>)
      requires Valid()
      modifies Repr()
      ensures Valid() && now >= old(now) && log == old(log) + tries
      ensures ProxiesTried(ProxyKeys(cfg.proxies), tries, conn.Some?)
      ensures conn.Some? ==> tries != [] && Reached(UpstreamRung, conn.value, "", tries[|tries| - 1])
      ensures solo ==> ipFail.entries == old(ipFail.entries)
    {
      hide Accounted, ProxyKey, AllMissed, ProxiesTried;
      ghost var order := ProxyKeys(cfg.proxies);
      conn, tries := None, [];
      NoneMissed(UpstreamRung, order, "");
      for i := 0 to |cfg.proxies|
        invariant Valid() && now >= old(now) && log == old(log) + tries
        invariant |tries| == i && AllMissed(UpstreamRung, order, "", tries)
        invariant solo ==> ipFail.entries == old(ipFail.entries)
      {
        var name := ProxyKey(cfg.proxies[i]);
        var cooling, skipped := SkipCooling(UpstreamRung, name);
        if cooling {
          OneMoreMissed(UpstreamRung, order, "", tries, skipped[0]);
          tries := tries + [skipped[0]];
          continue;
        }
        var ok, e := DialName(UpstreamRung, name, "");
        if ok {
          TriedTo(order, tries, e);
          return Some(name), tries + [e];
        }
        OneMoreMissed(UpstreamRung, order, "", tries, e);
        tries := tries + [e];
      }
      TriedAll(order, tries);
    }

    // The direct path ------------------------------------------------------------

    /**
     * One direct attempt, on the short timeout inside the DC's cooldown and on the full one outside;
     * the cooldown was read at `budget`.
     */
    method ConnectWs(key: DcKey, ip: string, sni: Option<string>, net: Network)
      returns (attempt: WsAttempt, ghost budget: nat, ghost timeout: nat)
      requires Valid()
      modifies Repr()
      ensures Valid() && old(now) <= budget <= now && log == old(log)
      ensures solo ==> View() == old(View())
      ensures solo ==> timeout == if Running(View().ws, key, budget) then t.wsFailProbe else t.wsConnect
      ensures Describes(attempt, Answered(WsDomains(key.dc, key.media), ip, sni, timeout, net))
    {
      hide Accounted;
      Others();
      var clock := if wsFail.Active(key, now) then t.wsFailProbe else t.wsConnect;
      budget, timeout := now, clock;
      attempt := ConnectWsForDc(WsDomains(key.dc, key.media), ip, sni, clock, net);
      Others();
    }

    /** Remember what a finished attempt says: the address works, or fronting does or does not. */
    method Settle(attempt: WsAttempt, key: DcKey, ip: string, sni: Option<string>, retry: bool, ghost e: Event)
      requires Valid() && DialOf(e, key, ip, sni, retry) && Describes(attempt, e.outcomes) && e.at == now
      requires solo ==> Forward(e) && Past(log, e.seen.gate) && DialIsTrue(t, cfg.fronting, View(), e)
      modifies Repr()
      ensures Valid() && now == old(now) && log == old(log) + [e]
      ensures View() == Remember(t, old(View()), e)
    {
      hide Replay, Honest, Won, AllRedirects, Answered, WsDomains, Past;
      if solo { DirectNoted(t, cfg.fronting, View(), log, e, now); }
      if sni.None? {
        if attempt.ok {
          wsFail.Clear(key);
          ipFail.Clear(ip);
        }
      } else if attempt.ok {
        frontingFail.Clear(key);
        frontingUntil := Some(now + t.frontingSticky);
      } else {
        if !retry { frontingUntil := None; }
        frontingFail.Set(key, now, t.frontingFail);
      }
      log := log + [e];
    }

    /** The first dial of a direct attempt: fronted while the sticky window lasts, and judged by the DC's cooldown. */
    method FirstDial(key: DcKey, ip: string, net: Network)
      returns (attempt: WsAttempt, sni: Option<string>, probing: bool, ghost first: Event)
      requires Valid()
      modifies Repr()
      ensures Valid() && now >= old(now) && log == old(log) + [first]
      ensures DialOf(first, key, ip, sni, false) && first.net == net && first.probing == probing
      ensures sni.Some? ==> sni == cfg.fronting
      ensures Describes(attempt, first.outcomes)
      ensures old(now) <= first.seen.gate && first.at == now
      ensures solo && !probing ==> FullBudget(t, old(log), first)
    {
      hide Replay, Honest, Won, AllRedirects, Answered, WsDomains, Describes, Past;
      Others();
      ghost var gate := now;
      GateIsPast(solo, t, cfg.fronting, View(), log, now);
      sni := if frontingUntil.Some? && now < frontingUntil.value then cfg.fronting else None;
      Others();
      probing := wsFail.Active(key, now);
      ghost var verdict := now;
      ghost var budget, timeout;
      attempt, budget, timeout := ConnectWs(key, ip, sni, net);
      first := DirectDial(key, ip, sni, false, Reads(gate, verdict, budget), probing, timeout, net,
                          Answered(WsDomains(key.dc, key.media), ip, sni, timeout, net), now);
      BudgetIsFull(solo, t, cfg.fronting, View(), log, first, now);
      Settle(attempt, key, ip, sni, false, first);
    }

    /** Retry a stalled upgrade once with a fronted SNI, unless fronting failed recently. */
    method ReactiveFronting(key: DcKey, ip: string, upgradeTimedOut: bool, net: Network, ghost first: Event)
      returns (ok: bool, ghost mid: seq<Event>)
      requires Valid() && first.DirectDial? && upgradeTimedOut == (UpgradeTimedOut in first.outcomes)
      modifies Repr()
      ensures Valid() && now >= old(now) && log == old(log) + mid
      ensures Reacted(cfg, key, ip, first, mid)
      ensures ok <==> mid != [] && mid[0].DirectDial? && Won(mid[0].outcomes)
      ensures mid != [] ==> old(now) <= DecidedAt(mid[0])
      ensures solo ==> ipFail.entries == old(ipFail.entries)
    {
      hide Replay, Honest, Won, AllRedirects, Answered, WsDomains, Past;
      ok, mid := false, [];
      if !upgradeTimedOut { return; }
      Others();
      ghost var gate := now;
      GateIsPast(solo, t, cfg.fronting, View(), log, now);
      if frontingFail.Active(key, now) {
        ghost var e := FrontingSkipped(key, now, frontingFail.entries[key]);
        Note(e);
        return false, [e];
      }
      if cfg.fronting.None? { return; }
      var attempt, budget, timeout := ConnectWs(key, ip, cfg.fronting, net);
      ghost var e := DirectDial(key, ip, cfg.fronting, true, Reads(gate, gate, budget), false, timeout, net,
                                Answered(WsDomains(key.dc, key.media), ip, cfg.fronting, timeout, net), now);
      Settle(attempt, key, ip, cfg.fronting, true, e);
      return attempt.ok, [e];
    }

    /** Back off from the DC, and from the address when a full-timeout TCP connect ran out the clock. */
    method CoolDown(key: DcKey, ip: string, attempt: WsAttempt, probing: bool, ghost before: seq<Event>,
                    ghost first: Event, ghost mid: seq<Event>)
      returns (ghost e: Event)
      requires Valid() && first.DirectDial? && first.ip == ip && first.probing == probing
      requires Describes(attempt, first.outcomes) && !attempt.ok
      requires log == before + [first] + mid
      requires |mid| <= 1 && forall m | m in mid :: !Clears(m, ip)
      requires solo && !probing ==> FullBudget(t, before, first)
      modifies Repr()
      ensures Valid() && now >= old(now) && log == old(log) + [e] && GivenUp(e, key, ip, first)
      ensures View() == Remember(t, old(View()), e) && e.wsAt == old(now) && e.ipAt == now
    {
      hide Honest, Replay, Clears, AllRedirects, Won, FullBudget;
      var suspect := attempt.connectTimedOut && !probing;
      var ipAt: nat :| now <= ipAt;
      e := DirectGivenUp(key, ip, attempt.allRedirects, suspect, now, ipAt);
      if solo { GiveUpNoted(t, cfg.fronting, View(), before, first, mid, e, now); }
      wsFail.Set(key, now, if attempt.allRedirects then t.wsRedirect else t.wsFail);
      now := ipAt;
      if suspect { ipFail.Set(ip, now, t.ipFail); }
      log := log + [e];
    }

    /** Open a fresh direct WebSocket to `ip`, with what fronting and the cooldowns make of a failure. */
    method DirectWs(key: DcKey, ip: string, net: Answers) returns (ok: bool, ghost events: seq<Event>)
      requires Valid()
      modifies Repr()
      ensures Valid() && now >= old(now) && log == old(log) + events
      ensures Dialled(cfg, key, ip, events, ok)
    {
      hide *;
      ghost var before := log;
      var attempt, sni, probing, first := FirstDial(key, ip, net.first);
      DialIs(first, key, ip, sni);
      DescribesOk(attempt, first.outcomes);
      if attempt.ok {
        FirstWon(cfg, key, ip, sni, first);
        return true, [first];
      }
      ghost var mid := [];
      if sni.None? {
        ok, mid := ReactiveFronting(key, ip, attempt.upgradeTimedOut, net.second, first);
        ReactedIs(cfg, key, ip, first, mid);
        if ok {
          SecondWon(cfg, key, ip, first, mid);
          assert before + [first] + mid == before + ([first] + mid);
          return true, [first] + mid;
        }
      }
      assert log == before + [first] + mid;
      var e := CoolDown(key, ip, attempt, probing, before, first, mid);
      AllLost(cfg, key, ip, sni, first, mid, e);
      assert before + [first] + mid + [e] == before + ([first] + mid + [e]);
      return false, [first] + mid + [e];
    }

    // The ladder -----------------------------------------------------------------

    /** The Workers, and behind them the Cloudflare proxy, each with its own framing. */
    method CfTiers(key: DcKey, ip: string, net: Answers) returns (r: Option<Routed>, ghost visits: seq<Visit>)
      requires Valid()
      modifies Repr()
      ensures Valid() && now >= old(now)
      ensures Descent(cfg, key, ip, [WorkerRung, ProxyRung], visits, r) && log == old(log) + Happened(visits)
      ensures solo ==> ipFail.entries == old(ipFail.entries)
    {
      hide VisitOk, Descent, Happened, Accounted;
      ghost var before := log;
      var hit, v := CfWorker(key, ip);
      r := if hit then Some(Ws(Tunnel)) else None;
      OneVisit(cfg, key, ip, v, r);
      HappenedOnce(v);
      visits := [v];
      assert [WorkerRung] + [ProxyRung] == [WorkerRung, ProxyRung];
      if hit {
        StopHere(cfg, key, ip, [WorkerRung], visits, [ProxyRung], r.value);
        return;
      }
      var hit2, v2 := CfProxy(key, net.records, ip);
      r := if hit2 then Some(Ws(Packets)) else None;
      OneVisit(cfg, key, ip, v2, r);
      DescendOn(cfg, key, ip, [WorkerRung], visits, [ProxyRung], [v2], r);
      HappenedOnce(v2);
      HappenedOn(before, visits, [v2]);
      visits := visits + [v2];
    }

    /** All rungs but the direct one; the Cloudflare ones only if they were not tried before. */
    method FallbackChain(key: DcKey, ip: string, skipCf: bool, net: Answers)
      returns (r: Option<Routed>, ghost visits: seq<Visit>)
      requires Valid()
      modifies Repr()
      ensures Valid() && now >= old(now)
      ensures Descent(cfg, key, ip, if skipCf then [UpstreamRung] else [WorkerRung, ProxyRung, UpstreamRung], visits, r)
      ensures log == old(log) + Happened(visits)
    {
      hide VisitOk, Descent, Happened, Accounted;
      ghost var before := log;
      visits := [];
      HappenedOn(before, [], []);
      assert [WorkerRung, ProxyRung] + [UpstreamRung] == [WorkerRung, ProxyRung, UpstreamRung];
      if !skipCf {
        r, visits := CfTiers(key, ip, net);
        if r.Some? {
          StopHere(cfg, key, ip, [WorkerRung, ProxyRung], visits, [UpstreamRung], r.value);
          return;
        }
      }
      var conn, v := UpstreamProxies(key, ip);
      r := if conn.Some? then Some(Mtproto(conn.value)) else None;
      OneVisit(cfg, key, ip, v, r);
      HappenedOnce(v);
      HappenedOn(before, visits, [v]);
      if !skipCf {
        DescendOn(cfg, key, ip, [WorkerRung, ProxyRung], visits, [UpstreamRung], [v], r);
        visits := visits + [v];
      } else {
        assert [] + [v] == [v];
        visits := [v];
      }
    }

    /** The pool first, then a fresh connect. */
    method Direct(key: DcKey, ip: string, net: Answers) returns (r: Option<Routed>, ghost visits: seq<Visit>)
      requires Valid()
      modifies Repr()
      ensures Valid() && now >= old(now)
      ensures Descent(cfg, key, ip, [DirectRung], visits, r) && log == old(log) + Happened(visits)
    {
      hide Dialled, Descent, Happened;
      var pooled := AskDc(key, ip);
      var hit := pooled.Some?;
      ghost var v;
      if hit {
        v := Visit(DirectRung, [], [PoolAsked(DirectRung, pooled)], true);
      } else {
        ghost var events;
        hit, events := DirectWs(key, ip, net);
        v := Visit(DirectRung, [], [PoolAsked(DirectRung, None)] + events, hit);
        assert v.events[0] == PoolAsked(DirectRung, None) && v.events[1..] == events;
      }
      r := if hit then Some(Ws(Packets)) else None;
      OneVisit(cfg, key, ip, v, r);
      HappenedOnce(v);
      visits := [v];
    }

    /** Raw TCP to the DC, preferring the built-in address over one that just failed. */
    function TcpLastResort(dc: nat, ip: string): Routed {
      Tcp(UnwrapOr(FallbackIp(dc), ip))
    }

    /**
     * Walk the ladder. The raw TCP connection comes only after a descent through every rung of the
     * order found nothing; no connection only where there is no address at all.
     */
    method SelectUpstream(key: DcKey, target: Option<string>, net: Answers)
      returns (r: Option<Routed>, ghost visits: seq<Visit>, ghost stepped: bool, ghost ip: string)
      requires Valid()
      modifies Repr()
      ensures Valid() && now >= old(now) && log == old(log) + Happened(visits)
      ensures r.None? <==> target.None? && FallbackIp(key.dc).None?
      ensures r.None? ==> visits == []
      ensures r.Some? ==>
        && ip == UnwrapOr(target, UnwrapOr(FallbackIp(key.dc), ""))
        && Descent(cfg, key, ip, Order(target.Some?, cfg.cfPriority, stepped), visits, if r.value.Tcp? then None else r)
        && (r.value.Tcp? ==> r.value.ip == UnwrapOr(FallbackIp(key.dc), ip))
      ensures stepped ==> target.Some? && HasFallback(cfg)
      ensures stepped && solo ==> ip in old(ipFail.entries) && old(now) < old(ipFail.entries)[ip]
      ensures solo && target.Some? && HasFallback(cfg) && ip in old(ipFail.entries) ==>
        now < old(ipFail.entries)[ip] && !stepped ==>
        forall v | v in visits :: !v.rung.DirectRung?
    {
      hide VisitOk, Descent, Happened, Accounted;
      HappenedOn(log, [], []);
      r, visits, stepped, ip := None, [], false, UnwrapOr(target, UnwrapOr(FallbackIp(key.dc), ""));
      if target.None? {
        var fallback := FallbackIp(key.dc);
        if fallback.None? { return; }
        r, visits := FallbackChain(key, fallback.value, false, net);
        if r.Some? {
          FitsNoTcp(cfg, key, ip, Order(false, cfg.cfPriority, false), visits, r.value);
        } else {
          r := Some(Tcp(fallback.value));
        }
        return;
      }
      r, visits, stepped := Targeted(key, target.value, net);
    }

    /** The ladder of a DC that has a configured address. */
    method Targeted(key: DcKey, ip: string, net: Answers)
      returns (r: Option<Routed>, ghost visits: seq<Visit>, ghost stepped: bool)
      requires Valid()
      modifies Repr()
      ensures Valid() && now >= old(now) && log == old(log) + Happened(visits)
      ensures r.Some?
      ensures Descent(cfg, key, ip, Order(true, cfg.cfPriority, stepped), visits, if r.value.Tcp? then None else r)
      ensures r.value.Tcp? ==> r.value.ip == UnwrapOr(FallbackIp(key.dc), ip)
      ensures stepped ==> HasFallback(cfg)
      ensures stepped && solo ==> ip in old(ipFail.entries) && old(now) < old(ipFail.entries)[ip]
      ensures solo && HasFallback(cfg) && ip in old(ipFail.entries) && now < old(ipFail.entries)[ip] && !stepped ==>
        forall v | v in visits :: !v.rung.DirectRung?
    {
      hide VisitOk, Descent, Happened, Accounted;
      ghost var before := log;
      HappenedOn(before, [], []);
      Concats();
      NoVisit(cfg, key, ip);
      r, visits, stepped := None, [], false;
      ghost var above: seq<Rung> := [];
      if cfg.cfPriority {
        r, visits := CfTiers(key, ip, net);
        above := [WorkerRung, ProxyRung];
        if r.Some? {
          FitsNoTcp(cfg, key, ip, above, visits, r.value);
          NotVisited(cfg, key, ip, above, visits, r, DirectRung);
          StopHere(cfg, key, ip, above, visits, [DirectRung, UpstreamRung], r.value);
          return;
        }
      }
      ghost var more;
      Others();
      var cooling := ipFail.Active(ip, now) && HasFallback(cfg);
      stepped := cooling;
      if cooling {
        r, more := FallbackChain(key, ip, cfg.cfPriority, net);
        ghost var below := if cfg.cfPriority then [UpstreamRung] else [WorkerRung, ProxyRung, UpstreamRung];
        DescendOn(cfg, key, ip, above, visits, below, more, r);
        HappenedOn(before, visits, more);
        above, visits := above + below, visits + more;
        if r.Some? {
          FitsNoTcp(cfg, key, ip, above, visits, r.value);
          StopHere(cfg, key, ip, above, visits, [DirectRung], r.value);
          return;
        }
      }
      r, more := Direct(key, ip, net);
      DescendOn(cfg, key, ip, above, visits, [DirectRung], more, r);
      HappenedOn(before, visits, more);
      above, visits := above + [DirectRung], visits + more;
      ghost var rest := if cooling then [] else if cfg.cfPriority then [UpstreamRung]
        else [WorkerRung, ProxyRung, UpstreamRung];
      if r.Some? {
        FitsNoTcp(cfg, key, ip, above, visits, r.value);
        StopHere(cfg, key, ip, above, visits, rest, r.value);
        return;
      }
      if !cooling {
        r, more := FallbackChain(key, ip, cfg.cfPriority, net);
        DescendOn(cfg, key, ip, above, visits, rest, more, r);
        HappenedOn(before, visits, more);
        above, visits := above + rest, visits + more;
        if r.Some? { FitsNoTcp(cfg, key, ip, above, visits, r.value); }
      }
      if r.None? { r := Some(TcpLastResort(key.dc, ip)); }
    }
  }

  /** What the network answers: the Cloudflare records, the first direct attempt and a fronted retry. */
  datatype Answers = Answers(records: Oracle, first: Network, second: Network)

  /** The memory is exactly what the history leaves, and the history is honest and past. */
  ghost predicate Accounted(t: Timeouts, fronting: Option<string>, m: Memory, log: seq<Event>, now: nat) {
    m == Replay(t, log) && Honest(t, fronting, log) && Past(log, now)
  }

  lemma Later(t: Timeouts, fronting: Option<string>, m: Memory, log: seq<Event>, now: nat, later: nat)
    requires Accounted(t, fronting, m, log, now) && now <= later
    ensures Accounted(t, fronting, m, log, later)
  {}

  lemma GateIsPast(solo: bool, t: Timeouts, fronting: Option<string>, m: Memory, log: seq<Event>, now: nat)
    requires solo ==> Accounted(t, fronting, m, log, now)
    ensures solo ==> Past(log, now)
  {}

  lemma PastSnoc(log: seq<Event>, e: Event, now: nat)
    requires Past(log, now) && (Timed(e) ==> To(e) <= now)
    ensures Past(log + [e], now)
  {}

  lemma PastLater(log: seq<Event>, now: nat, later: nat)
    requires Past(log, now) && now <= later
    ensures Past(log, later)
  {}

  lemma Noted(t: Timeouts, fronting: Option<string>, m: Memory, log: seq<Event>, e: Event, now: nat)
    requires Accounted(t, fronting, m, log, now)
    requires Notable(m, e, now)
    ensures Accounted(t, fronting, m, log + [e], now)
  {
    hide Won, Remember, Replay, Past, Honest;
    ReplaySnoc(t, log, e);
    NothingToRemember(t, m, e);
    PastSnoc(log, e, now);
    HonestSnoc(t, fronting, log, e);
  }

  /** An event that leaves the memory as it is; a skip has to agree with it, and with the clock. */
  predicate Notable(m: Memory, e: Event, now: nat) {
    match e
    case PoolAsked(_, _) => true
    case RecordsWalked(_, _, _) => true
    case Spare(_, _, _) => true
    case FrontingSkipped(key, at, until) => at == now < until && key in m.fronting && m.fronting[key] == until
    case Cooling(rung, name, at, until) =>
      && (rung.WorkerRung? || rung.UpstreamRung?)
      && at == now < until && name in Deadlines(m, rung) && Deadlines(m, rung)[name] == until
    case _ => false
  }

  lemma NothingToRemember(t: Timeouts, m: Memory, e: Event)
    requires exists now :: Notable(m, e, now)
    ensures Remember(t, m, e) == m
  {}

  lemma DialNoted(t: Timeouts, fronting: Option<string>, m: Memory, log: seq<Event>, e: Event, now: nat)
    requires Accounted(t, fronting, m, log, now)
    requires e.Dial? && e.at == now
    ensures Accounted(t, fronting, Remember(t, m, e), log + [e], now)
  {
    hide Won, Remember, Replay, Past, Honest;
    ReplaySnoc(t, log, e);
    PastSnoc(log, e, now);
    HonestSnoc(t, fronting, log, e);
  }

  lemma DirectNoted(t: Timeouts, fronting: Option<string>, m: Memory, log: seq<Event>, e: Event, now: nat)
    requires Accounted(t, fronting, m, log, now)
    requires e.DirectDial? && Forward(e) && e.at == now && Past(log, e.seen.gate) && DialIsTrue(t, fronting, m, e)
    ensures Accounted(t, fronting, Remember(t, m, e), log + [e], now)
  {
    hide Won, Remember, Replay, Past, Honest;
    ReplaySnoc(t, log, e);
    PastSnoc(log, e, now);
    HonestSnoc(t, fronting, log, e);
  }

  /** A dial judged outside the DC's cooldown, and therefore made on the full timeout. */
  predicate FullBudget(t: Timeouts, before: seq<Event>, first: Event)
    requires first.DirectDial?
  {
    first.timeout == t.wsConnect && !Running(Replay(t, before).ws, first.key, first.seen.budget)
  }

  lemma BudgetIsFull(solo: bool, t: Timeouts, fronting: Option<string>, m: Memory, log: seq<Event>, first: Event,
                     now: nat)
    requires solo ==> Accounted(t, fronting, m, log, now)
    requires solo ==>
      first.DirectDial? && Forward(first) && first.probing == Running(m.ws, first.key, first.seen.verdict)
    requires solo ==>
      first.timeout == if Running(m.ws, first.key, first.seen.budget) then t.wsFailProbe else t.wsConnect
    ensures solo && !first.probing ==> FullBudget(t, log, first)
  {
    hide Replay, Honest, Past;
  }

  lemma GiveUpNoted(t: Timeouts, fronting: Option<string>, m: Memory, before: seq<Event>, first: Event, mid: seq<Event>,
                    e: Event, now: nat)
    requires Accounted(t, fronting, m, before + [first] + mid, now)
    requires e.DirectGivenUp? && e.wsAt == now <= e.ipAt && first.DirectDial? && first.ip == e.ip
    requires e.suspect ==> FullBudget(t, before, first) && ConnectTimedOut in first.outcomes && !Won(first.outcomes)
    requires |mid| <= 1 && forall m | m in mid :: !Clears(m, e.ip)
    ensures Accounted(t, fronting, Remember(t, m, e), before + [first] + mid + [e], e.ipAt)
  {
    hide Won, Remember, Replay, Clears, Past, Honest, Running;
    var log := before + [first] + mid;
    var all := log + [e];
    ReplaySnoc(t, log, e);
    if e.suspect {
      assert all[|before|] == first && all[..|before|] == before;
      forall i | |before| < i < |log| ensures !Clears(all[i], e.ip) { assert all[i] == mid[i - |before| - 1]; }
      assert CausedBy(t, all, |log|, |before|);
    }
    PastLater(log, now, e.ipAt);
    PastSnoc(log, e, e.ipAt);
    HonestSnoc(t, fronting, log, e);
  }

  lemma ProxyUnused(cfg: Config, key: DcKey, ip: string)
    ensures cfg.zones == [] ==> VisitOk(cfg, key, ip, Visit(ProxyRung, [], [], false))
  {}

  /** What the Cloudflare pool hands out was opened by the tier's own connector, and for an allowed target. */
  lemma CfHits(cfg: Config, poolSize: nat, maxAge: nat, events: seq<PoolMachine.Event<CfKey, CfConn>>, k: CfKey,
               at: nat, alive: nat -> bool)
    ensures var idle := PoolMachine.Run(CfPool(poolSize, maxAge, Allowed(cfg)), PoolMachine.Init({}), events);
      var entry := PoolMachine.Take(idle.Bucket(k), at, maxAge, alive).0;
      entry.Some? ==>
        PooledBy(cfg, if k.tier.Worker? then WorkerRung else ProxyRung, DcKey(k.dc, k.media), CfHit(entry.value.conn))
  {
    hide PoolMachine.Run, PoolMachine.Take;
    var c := CfPool(poolSize, maxAge, Allowed(cfg));
    PoolMachine.HitsAreFreshest(c, {}, events, k, at, alive);
    var entry := PoolMachine.Take(PoolMachine.Run(c, PoolMachine.Init({}), events).Bucket(k), at, maxAge, alive).0;
    if entry.Some? { OpensFor(poolSize, maxAge, Allowed(cfg), k, entry.value.conn); }
  }

  lemma ProxyPooled(cfg: Config, key: DcKey, ip: string, order: seq<string>, pooled: Option<Hit>)
    requires cfg.zones != [] && pooled.Some? && PooledBy(cfg, ProxyRung, key, pooled.value)
    ensures VisitOk(cfg, key, ip, Visit(ProxyRung, order, [PoolAsked(ProxyRung, pooled)], true))
  {}

  lemma ProxyWalked(cfg: Config, key: DcKey, ip: string, order: seq<string>, o: Oracle, winner: Option<string>,
                    spares: seq<Event>)
    requires cfg.zones != [] && Rotation(order, cfg.zones, cfg.cfBalance) && WalkEnds(key, order, o, winner)
    requires if winner.Some? then |spares| == 1 && SpareFor(cfg, ProxyRung, winner.value, cfg.zones, "", spares[0])
      else spares == []
    ensures VisitOk(cfg, key, ip,
                    Visit(ProxyRung, order, [PoolAsked(ProxyRung, None), RecordsWalked(order, o, winner)] + spares,
                          winner.Some?))
  {
    hide Walk, Rotation;
  }

  lemma DescribesOk(attempt: WsAttempt, outcomes: seq<Outcome>)
    requires Describes(attempt, outcomes)
    ensures attempt.ok == Won(outcomes)
    ensures !attempt.ok ==> attempt.upgradeTimedOut == (UpgradeTimedOut in outcomes)
  {}

  lemma DialIs(e: Event, key: DcKey, ip: string, sni: Option<string>)
    requires DialOf(e, key, ip, sni, false)
    ensures e.DirectDial? && e.ip == ip
  {}

  lemma FirstWon(cfg: Config, key: DcKey, ip: string, sni: Option<string>, first: Event)
    requires DialOf(first, key, ip, sni, false) && Won(first.outcomes)
    requires sni.Some? ==> sni == cfg.fronting
    ensures Dialled(cfg, key, ip, [first], true)
  {
    hide Answered, WsDomains;
  }

  lemma ReactedIs(cfg: Config, key: DcKey, ip: string, first: Event, mid: seq<Event>)
    requires first.DirectDial? && Reacted(cfg, key, ip, first, mid)
    ensures |mid| <= 1 && forall m | m in mid :: !Clears(m, ip)
  {
    hide Answered, WsDomains;
  }

  lemma SecondWon(cfg: Config, key: DcKey, ip: string, first: Event, mid: seq<Event>)
    requires DialOf(first, key, ip, None, false) && !Won(first.outcomes) && Reacted(cfg, key, ip, first, mid)
    requires mid != [] && mid[0].DirectDial? && Won(mid[0].outcomes)
    ensures Dialled(cfg, key, ip, [first] + mid, true)
  {
    hide Answered, WsDomains;
    assert ([first] + mid)[1..] == mid;
  }

  lemma AllLost(cfg: Config, key: DcKey, ip: string, sni: Option<string>, first: Event, mid: seq<Event>, e: Event)
    requires DialOf(first, key, ip, sni, false) && !Won(first.outcomes)
    requires GivenUp(e, key, ip, first)
    requires if sni.Some? then sni == cfg.fronting && mid == []
      else Reacted(cfg, key, ip, first, mid) && !(mid != [] && mid[0].DirectDial? && Won(mid[0].outcomes))
    ensures Dialled(cfg, key, ip, [first] + mid + [e], false)
  {
    hide Answered, WsDomains;
    var events := [first] + mid + [e];
    assert events[1..|events| - 1] == mid;
  }

  lemma FitsNoTcp(cfg: Config, key: DcKey, ip: string, order: seq<Rung>, visits: seq<Visit>, r: Routed)
    requires Descent(cfg, key, ip, order, visits, Some(r))
    ensures !r.Tcp?
  {}

  lemma Concats()
    ensures forall order: seq<Rung> :: [] + order == order && order + [] == order
    ensures [WorkerRung, ProxyRung] + [DirectRung, UpstreamRung] == [WorkerRung, ProxyRung, DirectRung, UpstreamRung]
    ensures [WorkerRung, ProxyRung] + [UpstreamRung] == [WorkerRung, ProxyRung, UpstreamRung]
    ensures [WorkerRung, ProxyRung, UpstreamRung] + [DirectRung] == [WorkerRung, ProxyRung, UpstreamRung, DirectRung]
    ensures [WorkerRung, ProxyRung] + [DirectRung] == [WorkerRung, ProxyRung, DirectRung]
    ensures [WorkerRung, ProxyRung, DirectRung] + [UpstreamRung] == [WorkerRung, ProxyRung, DirectRung, UpstreamRung]
    ensures [DirectRung] + [WorkerRung, ProxyRung, UpstreamRung] == [DirectRung, WorkerRung, ProxyRung, UpstreamRung]
  {}

  lemma NotVisited(cfg: Config, key: DcKey, ip: string, order: seq<Rung>, visits: seq<Visit>, r: Option<Routed>,
                   rung: Rung)
    requires Descent(cfg, key, ip, order, visits, r) && rung !in order
    ensures forall v | v in visits :: v.rung != rung
  {
    hide VisitOk, Fits;
    forall v | v in visits ensures v.rung != rung {
      var i :| 0 <= i < |visits| && visits[i] == v;
      assert order[i] in order;
    }
  }

  // Every reachable state -----------------------------------------------------------

  /**
   * With connections handled one after the other, an address is cooling exactly while a suspicion
   * against it stands, and behind every such suspicion is a dial on the full timeout that timed out,
   * made while the DC was not in its own cooldown.
   */
  lemma AddressCooling(r: Router, ip: string)
    requires r.Valid() && r.solo
    ensures r.ipFail.Active(ip, r.now) <==> exists k | 0 <= k < |r.log| :: Standing(r.t, r.log, k, ip, r.now)
    ensures r.ipFail.Active(ip, r.now) ==>
      exists j | 0 <= j < |r.log| ::
        Unreachable(r.t, r.log, j, ip) && forall i | j < i < |r.log| :: !Clears(r.log[i], ip)
  {
    hide Replay, Honest, Standing, Unreachable, Clears;
    IpCoolingIsEarned(r.t, r.cfg.fronting, r.log, ip, r.now);
    if r.ipFail.Active(ip, r.now) {
      var k :| 0 <= k < |r.log| && Standing(r.t, r.log, k, ip, r.now);
    }
  }

  /** A Worker or upstream proxy is only ever skipped for a failed dial within its cooldown. */
  lemma SkippedForAFailure(r: Router, k: nat)
    requires r.Valid() && r.solo && k < |r.log|
    requires r.log[k].Cooling? && (r.log[k].rung.WorkerRung? || r.log[k].rung.UpstreamRung?)
    ensures exists j | 0 <= j < k ::
      && LastDial(r.log[..k], j, r.log[k].rung, r.log[k].name) && !r.log[j].ok
      && r.log[k].at < r.log[j].at + Cooldown(r.t, r.log[k].rung)
  {
    hide Replay;
    var e := r.log[k];
    assert IsTrue(r.t, r.cfg.fronting, r.log, k);
    DeadlineIsLastFailure(r.t, r.log[..k], e.rung, e.name, e.until);
    var j :| 0 <= j < k && LastDial(r.log[..k], j, e.rung, e.name) && !r.log[..k][j].ok
      && e.until == r.log[..k][j].at + Cooldown(r.t, e.rung);
    assert r.log[..k][j] == r.log[j];
  }

  /**
   * Every first direct dial is fronted exactly while fronting is configured and the last word on it
   * was a success whose window is open; the window the router keeps is that one.
   */
  lemma StickyWindow(r: Router, k: nat)
    requires r.Valid() && r.solo
    ensures (r.frontingUntil.Some? && r.now < r.frontingUntil.value) <==> FrontingWorked(r.t, r.log, r.now)
    ensures k < |r.log| && r.log[k].DirectDial? && !r.log[k].retry ==>
      r.log[k].sni == if FrontingWorked(r.t, r.log[..k], r.log[k].seen.gate) then r.cfg.fronting else None
  {
    hide Replay, Honest, FrontingWorked;
    StickyMeans(r.t, r.log, r.now);
    if k < |r.log| && r.log[k].DirectDial? && !r.log[k].retry {
      DialsFrontedExactly(r.t, r.cfg.fronting, r.log, k);
    }
  }

  /** The direct visit of a connection retries and suspects exactly as `RetriedExactly` says. */
  lemma ConnectionRetries(r: Router, key: DcKey, ip: string, i: nat, n: nat, hit: bool)
    requires r.Valid() && r.solo && i + n <= |r.log| && Dialled(r.cfg, key, ip, r.log[i..i + n], hit)
    requires r.log[i].DirectDial? && r.log[i].sni.None? && !Won(r.log[i].outcomes)
    ensures n >= 2 && i + 1 < |r.log|
    ensures var next := r.log[i + 1];
      (next.DirectDial? && next.retry) <==>
      && UpgradeTimedOut in r.log[i].outcomes && r.cfg.fronting.Some?
      && !FrontingFailedRecently(r.t, r.log[..i + 1], key, DecidedAt(next))
    ensures !hit ==>
      var last := r.log[i + n - 1];
      last.DirectGivenUp? && (last.suspect <==>
        ConnectTimedOut in r.log[i].outcomes && !BackingOff(r.t, r.log[..i], key, r.log[i].seen.verdict))
  {
    hide Replay, Honest, FrontingFailedRecently, Dialled, Won, BackingOff;
    RetriedExactly(r.t, r.cfg, key, ip, r.log, i, n, hit);
  }
}

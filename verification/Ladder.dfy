/** The routing ladder: which upstream a connection gets, and what it was refused on the way down. */
module Ladder {
  import opened Bytes
  import opened CfRecords
  import opened Cooldowns
  import opened Pool

  datatype Proxy = Proxy(host: string, port: nat)

  function ProxyKey(p: Proxy): string { p.host + ":" + Decimal(p.port) }

  function ProxyKeys(ps: seq<Proxy>): seq<string> {
    seq(|ps|, i requires 0 <= i < |ps| => ProxyKey(ps[i]))
  }

  datatype Config = Config(
    workers: seq<string>, zones: seq<string>, proxies: seq<Proxy>, cfPriority: bool, cfBalance: bool,
    fronting: Option<string>)

  /** A failed direct dial leaves something to try: a Worker, a zone or an upstream proxy. */
  predicate HasFallback(cfg: Config) {
    cfg.workers != [] || cfg.zones != [] || cfg.proxies != []
  }

  /** The two framings of an upload: a raw byte stream, or one MTProto packet a message. */
  datatype Framing = Packets | Tunnel

  datatype Routed = Ws(framing: Framing) | Mtproto(key: string) | Tcp(ip: string)

  /** The built-in address of a DC. */
  function FallbackIp(dc: nat): Option<string> {
    if dc == 1 then Some("149.154.175.50")
    else if dc == 2 then Some("149.154.167.51")
    else if dc == 3 then Some("149.154.175.100")
    else if dc == 4 then Some("149.154.167.91")
    else if dc == 5 then Some("149.154.171.5")
    else if dc == 203 then Some("91.105.192.100")
    else None
  }

  function UnwrapOr(o: Option<string>, d: string): string {
    if o.Some? then o.value else d
  }

  /** The WebSocket host number of a DC; 203 shares that of DC 2. */
  function WebsocketDc(dc: nat): nat { if dc == 203 then 2 else dc }

  function WsDomains(dc: nat, media: bool): (domains: seq<string>)
    ensures |domains| == 2
  {
    OrderedRecords(WebsocketDc(dc), "web.telegram.org", media)
  }

  /** The domains from index `idx` on, wrapping around. */
  function Rotated(domains: seq<string>, idx: nat): (order: seq<string>)
    requires domains != []
    ensures |order| == |domains|
  {
    seq(|domains|, i requires 0 <= i < |domains| => domains[(idx + i) % |domains|])
  }

  /** `order` is what balancing may turn `domains` into. */
  ghost predicate Rotation(order: seq<string>, domains: seq<string>, balance: bool) {
    || order == domains
    || (balance && domains != [] && exists idx | 0 <= idx < |domains| :: order == Rotated(domains, idx))
  }

  /** Balancing changes the order and nothing else: every domain is still in it. */
  lemma RotationCovers(order: seq<string>, domains: seq<string>, balance: bool)
    requires Rotation(order, domains, balance)
    ensures |order| == |domains| && forall d :: d in order <==> d in domains
  {
    if order != domains {
      var idx :| 0 <= idx < |domains| && order == Rotated(domains, idx);
      forall d | d in domains ensures d in order {
        var i :| 0 <= i < |domains| && domains[i] == d;
        var j := if i >= idx then i - idx else i + |domains| - idx;
        Wrap(idx, j, |domains|);
        assert order[j] == d;
      }
      forall d | d in order ensures d in domains {
        var j :| 0 <= j < |order| && order[j] == d;
        Wrap(idx, j, |domains|);
      }
    }
  }

  lemma Wrap(idx: nat, j: nat, n: nat)
    requires idx < n && j < n
    ensures (idx + j) % n == if idx + j < n then idx + j else idx + j - n
  {}

  // One rung ------------------------------------------------------------------

  /** One visit of a rung: the names in the order walked, what happened, and whether it gave a connection. */
  datatype Visit = Visit(rung: Rung, order: seq<string>, events: seq<Event>, hit: bool)

  /** Everything that happened on the visits, in order. */
  function Happened(visits: seq<Visit>): (events: seq<Event>) {
    if visits == [] then []
    else
      var last := |visits| - 1;
      Happened(visits[..last]) + visits[last].events
  }

  lemma {:induction false} HappenedAppend(a: seq<Visit>, b: seq<Visit>)
    ensures Happened(a + b) == Happened(a) + Happened(b)
  {
    if b == [] {
      assert a + b == a;
    } else {
      hide Happened;
      var last := |b| - 1;
      HappenedAppend(a, b[..last]);
      HappenedLast(b);
      HappenedLast(a + b);
      assert (a + b)[..|a| + last] == a + b[..last];
      assert (Happened(a) + Happened(b[..last])) + b[last].events ==
        Happened(a) + (Happened(b[..last]) + b[last].events);
    }
  }

  lemma HappenedLast(visits: seq<Visit>)
    requires visits != []
    ensures Happened(visits) == Happened(visits[..|visits| - 1]) + visits[|visits| - 1].events
  {}

  lemma HappenedOnce(v: Visit)
    ensures Happened([v]) == v.events
  {
    assert [v][..0] == [];
  }

  /** More visits behind those a log already holds. */
  lemma HappenedOn(log: seq<Event>, visits: seq<Visit>, more: seq<Visit>)
    ensures log + Happened(visits) + Happened(more) == log + Happened(visits + more)
    ensures log + Happened([]) == log
  {
    HappenedAppend(visits, more);
    assert (log + Happened(visits)) + Happened(more) == log + (Happened(visits) + Happened(more));
  }

  /** `name` was passed over: inside its cooldown, or dialled without success. */
  predicate Missed(rung: Rung, name: string, dst: string, e: Event) {
    match e
    case Cooling(r, n, at, until) => r == rung && n == name && at < until
    case Dial(r, n, d, ok, _) => r == rung && n == name && d == dst && !ok
    case _ => false
  }

  predicate AllMissed(rung: Rung, order: seq<string>, dst: string, events: seq<Event>) {
    && |events| <= |order|
    && forall i | 0 <= i < |events| :: Missed(rung, order[i], dst, events[i])
  }

  lemma NoneMissed(rung: Rung, order: seq<string>, dst: string)
    ensures AllMissed(rung, order, dst, [])
  {}

  lemma OneMoreMissed(rung: Rung, order: seq<string>, dst: string, tries: seq<Event>, e: Event)
    requires AllMissed(rung, order, dst, tries) && |tries| < |order| && Missed(rung, order[|tries|], dst, e)
    ensures AllMissed(rung, order, dst, tries + [e])
  {
    hide Missed;
  }

  predicate Reached(rung: Rung, name: string, dst: string, e: Event) {
    e.Dial? && e.rung == rung && e.name == name && e.dst == dst && e.ok
  }

  /** The spare opened behind a success: through the same host, unless balancing moves on. */
  predicate SpareFor(cfg: Config, rung: Rung, host: string, rotation: seq<string>, dst: string, e: Event) {
    e.Spare? && e.rung == rung && e.dst == dst && if cfg.cfBalance then e.host in rotation else e.host == host
  }

  /** The spares a router asks the pool for: tunnels go through configured Workers only. */
  function Allowed(cfg: Config): CfTarget -> bool {
    (target: CfTarget) => target.tier.Worker? ==> target.domain in cfg.workers
  }

  /** What the pool may hand out on a rung, by how it was opened. */
  predicate PooledBy(cfg: Config, rung: Rung, key: DcKey, hit: Hit) {
    match rung
    case WorkerRung =>
      && hit.CfHit? && hit.conn.ByWorker? && hit.conn.worker in cfg.workers
      && DcKey(hit.conn.dc, hit.conn.media) == key
    case ProxyRung => hit.CfHit? && hit.conn.ByRecord?
    case DirectRung => hit == DcHit(key)
    case UpstreamRung => false
  }

  predicate FromPool(cfg: Config, rung: Rung, key: DcKey, events: seq<Event>) {
    && |events| == 1 && events[0].PoolAsked? && events[0].rung == rung
    && events[0].hit.Some? && PooledBy(cfg, rung, key, events[0].hit.value)
  }

  /** What the pool is asked to open for a spare of this DC. */
  function SpareTarget(e: Event, key: DcKey): CfTarget
    requires e.Spare?
  {
    CfTarget(if e.rung.WorkerRung? then Worker else CfTier.Proxy, key.dc, key.media, e.dst, e.host)
  }

  ghost predicate WorkerVisit(cfg: Config, key: DcKey, dst: string, v: Visit) {
    v.rung.WorkerRung?
    && if cfg.workers == [] then v.events == [] && !v.hit
    else if FromPool(cfg, WorkerRung, key, v.events) then v.hit
    else
      && v.events != [] && v.events[0] == PoolAsked(WorkerRung, None)
      && Rotation(v.order, cfg.workers, cfg.cfBalance)
      && WorkersTried(cfg, dst, v.order, v.events[1..], v.hit)
  }

  predicate WorkersTried(cfg: Config, dst: string, order: seq<string>, tries: seq<Event>, hit: bool) {
    if !hit then |tries| == |order| && AllMissed(WorkerRung, order, dst, tries)
    else
      && 2 <= |tries| <= |order| + 1
      && var n := |tries| - 2;
        && AllMissed(WorkerRung, order, dst, tries[..n])
        && Reached(WorkerRung, order[n], dst, tries[n])
        && SpareFor(cfg, WorkerRung, order[n], cfg.workers, dst, tries[n + 1])
  }

  lemma WorkerReached(cfg: Config, dst: string, order: seq<string>, tries: seq<Event>, e: Event, spare: Event)
    requires AllMissed(WorkerRung, order, dst, tries) && |tries| < |order|
    requires Reached(WorkerRung, order[|tries|], dst, e)
    requires SpareFor(cfg, WorkerRung, order[|tries|], cfg.workers, dst, spare)
    ensures WorkersTried(cfg, dst, order, tries + [e] + [spare], true)
  {
    hide AllMissed;
    assert (tries + [e] + [spare])[..|tries|] == tries;
  }

  lemma WorkersMissed(cfg: Config, dst: string, order: seq<string>, tries: seq<Event>)
    requires AllMissed(WorkerRung, order, dst, tries) && |tries| == |order|
    ensures WorkersTried(cfg, dst, order, tries, false)
  {}

  ghost predicate ProxyVisit(cfg: Config, key: DcKey, v: Visit) {
    v.rung.ProxyRung?
    && if cfg.zones == [] then v.events == [] && !v.hit
    else if FromPool(cfg, ProxyRung, key, v.events) then v.hit
    else
      && |v.events| == (if v.hit then 3 else 2) && v.events[0] == PoolAsked(ProxyRung, None)
      && Rotation(v.order, cfg.zones, cfg.cfBalance)
      && v.events[1].RecordsWalked? && v.events[1].zones == v.order
      && WalkEnds(key, v.order, v.events[1].o, v.events[1].winner)
      && v.hit == v.events[1].winner.Some?
      && (v.hit ==> SpareFor(cfg, ProxyRung, v.events[1].winner.value, cfg.zones, "", v.events[2]))
  }

  predicate WalkEnds(key: DcKey, zones: seq<string>, o: Oracle, winner: Option<string>) {
    winner == Walk(Attempts(Queued(CfWsDomains(key.dc, zones, key.media)), {}, {}), o, 0).winner
  }

  predicate UpstreamVisit(cfg: Config, v: Visit) {
    v.rung.UpstreamRung? && v.order == ProxyKeys(cfg.proxies) && ProxiesTried(v.order, v.events, v.hit)
  }

  predicate ProxiesTried(order: seq<string>, tries: seq<Event>, hit: bool) {
    if !hit then |tries| == |order| && AllMissed(UpstreamRung, order, "", tries)
    else
      && 1 <= |tries| <= |order|
      && var n := |tries| - 1;
        AllMissed(UpstreamRung, order, "", tries[..n]) && Reached(UpstreamRung, order[n], "", tries[n])
  }

  /** A proxy reached behind others that were missed; or none, when all were. */
  lemma TriedTo(order: seq<string>, tries: seq<Event>, e: Event)
    requires AllMissed(UpstreamRung, order, "", tries) && |tries| < |order|
      && Reached(UpstreamRung, order[|tries|], "", e)
    ensures ProxiesTried(order, tries + [e], true)
  {
    hide AllMissed;
    assert (tries + [e])[..|tries|] == tries;
  }

  lemma TriedAll(order: seq<string>, tries: seq<Event>)
    requires AllMissed(UpstreamRung, order, "", tries) && |tries| == |order|
    ensures ProxiesTried(order, tries, false)
  {}

  ghost predicate DirectVisit(cfg: Config, key: DcKey, ip: string, v: Visit) {
    v.rung.DirectRung?
    && if FromPool(cfg, DirectRung, key, v.events) then v.hit
    else v.events != [] && v.events[0] == PoolAsked(DirectRung, None) && Dialled(cfg, key, ip, v.events[1..], v.hit)
  }

  /** What the domains of an address answer in turn, up to the first that connects. */
  function Answered(domains: seq<string>, ip: string, sni: Option<string>, timeout: nat, net: Network)
    : (outcomes: seq<Outcome>)
    ensures |outcomes| <= |domains|
  {
    if domains == [] then []
    else
      var outcome := net(Request(ip, domains[0], sni, timeout));
      [outcome] + if outcome == Connected then [] else Answered(domains[1..], ip, sni, timeout, net)
  }

  lemma {:induction false} AnsweredInTurn(domains: seq<string>, ip: string, sni: Option<string>, timeout: nat,
                                          net: Network)
    ensures var outcomes := Answered(domains, ip, sni, timeout, net);
      && (forall i | 0 <= i < |outcomes| :: outcomes[i] == net(Request(ip, domains[i], sni, timeout)))
      && (forall i | 0 <= i < |outcomes| - 1 :: outcomes[i] != Connected)
      && (domains != [] ==> outcomes != [])
      && (!Won(outcomes) ==> |outcomes| == |domains|)
  {
    if domains != [] { AnsweredInTurn(domains[1..], ip, sni, timeout, net); }
  }

  predicate AllRedirects(outcomes: seq<Outcome>) {
    forall i | 0 <= i < |outcomes| :: outcomes[i] == Redirect
  }

  /** A direct dial of all domains of the DC, with this SNI and on the timeout it records. */
  predicate DialOf(e: Event, key: DcKey, ip: string, sni: Option<string>, retry: bool) {
    && e.DirectDial? && e.key == key && e.ip == ip && e.sni == sni && e.retry == retry
    && e.outcomes == Answered(WsDomains(key.dc, key.media), ip, sni, e.timeout, e.net)
  }

  /** What a failed direct path is remembered as. */
  predicate GivenUp(e: Event, key: DcKey, ip: string, first: Event)
    requires first.DirectDial?
  {
    && e.DirectGivenUp? && e.key == key && e.ip == ip
    && e.redirected == AllRedirects(first.outcomes)
    && e.suspect == (ConnectTimedOut in first.outcomes && !first.probing)
  }

  /** Nothing, a skip or one fronted dial, behind an upgrade that stalled without fronting. */
  predicate Reacted(cfg: Config, key: DcKey, ip: string, first: Event, mid: seq<Event>)
    requires first.DirectDial?
  {
    if mid == [] then UpgradeTimedOut !in first.outcomes || cfg.fronting.None?
    else
      && |mid| == 1 && UpgradeTimedOut in first.outcomes
      && (|| (mid[0].FrontingSkipped? && mid[0].key == key)
          || (cfg.fronting.Some? && DialOf(mid[0], key, ip, cfg.fronting, true)))
  }

  predicate Dialled(cfg: Config, key: DcKey, ip: string, events: seq<Event>, hit: bool) {
    && events != []
    && if DialOf(events[0], key, ip, cfg.fronting, false) && cfg.fronting.Some? then
         if hit then |events| == 1 && Won(events[0].outcomes)
         else |events| == 2 && !Won(events[0].outcomes) && GivenUp(events[1], key, ip, events[0])
       else
         && DialOf(events[0], key, ip, None, false)
         && if hit && |events| == 1 then Won(events[0].outcomes)
            else
              && |events| >= 2 && !Won(events[0].outcomes)
              && var mid := if hit then events[1..] else events[1..|events| - 1];
                && Reacted(cfg, key, ip, events[0], mid)
                && (hit ==> mid[0].DirectDial? && Won(mid[0].outcomes))
                && (!hit ==>
                      && (mid != [] && mid[0].DirectDial? ==> !Won(mid[0].outcomes))
                      && GivenUp(events[|events| - 1], key, ip, events[0]))
  }

  /** What a visit is, for a connection to this DC whose direct or fallback address is `ip`. */
  ghost predicate VisitOk(cfg: Config, key: DcKey, ip: string, v: Visit) {
    match v.rung
    case WorkerRung => WorkerVisit(cfg, key, UnwrapOr(FallbackIp(key.dc), ip), v)
    case ProxyRung => ProxyVisit(cfg, key, v)
    case UpstreamRung => UpstreamVisit(cfg, v)
    case DirectRung => DirectVisit(cfg, key, ip, v)
  }

  // The whole descent -----------------------------------------------------------

  /** The order of the rungs. `stepped` says that a cooling address was stepped over. */
  function Order(direct: bool, cfPriority: bool, stepped: bool): seq<Rung> {
    if !direct then [WorkerRung, ProxyRung, UpstreamRung]
    else if stepped then [WorkerRung, ProxyRung, UpstreamRung, DirectRung]
    else if cfPriority then [WorkerRung, ProxyRung, DirectRung, UpstreamRung]
    else [DirectRung, WorkerRung, ProxyRung, UpstreamRung]
  }

  /** The connection a successful visit gives, framed for the kind of upstream it came from. */
  predicate Fits(routed: Routed, v: Visit) {
    match routed
    case Ws(framing) => !v.rung.UpstreamRung? && (framing.Tunnel? <==> v.rung.WorkerRung?)
    case Mtproto(key) => v.rung.UpstreamRung? && v.events != [] &&
      Reached(UpstreamRung, key, "", v.events[|v.events| - 1])
    case Tcp(_) => false
  }

  /** Walking down `order` until a visit succeeds; none when every rung was visited in vain. */
  ghost predicate Descent(cfg: Config, key: DcKey, ip: string, order: seq<Rung>, visits: seq<Visit>,
                          routed: Option<Routed>) {
    && |visits| <= |order|
    && (forall i | 0 <= i < |visits| :: visits[i].rung == order[i] && VisitOk(cfg, key, ip, visits[i]))
    && (forall i | 0 <= i < |visits| - 1 :: !visits[i].hit)
    && match routed
       case Some(r) => visits != [] && visits[|visits| - 1].hit && Fits(r, visits[|visits| - 1])
       case None => |visits| == |order| && (visits != [] ==> !visits[|visits| - 1].hit)
  }

  lemma OneVisit(cfg: Config, key: DcKey, ip: string, v: Visit, routed: Option<Routed>)
    requires VisitOk(cfg, key, ip, v) && v.hit == routed.Some? && (routed.Some? ==> Fits(routed.value, v))
    ensures Descent(cfg, key, ip, [v.rung], [v], routed)
  {}

  lemma NoVisit(cfg: Config, key: DcKey, ip: string)
    ensures Descent(cfg, key, ip, [], [], None)
  {}

  /** A descent that found nothing goes on with the rungs behind it. */
  lemma DescendOn(cfg: Config, key: DcKey, ip: string, above: seq<Rung>, passed: seq<Visit>,
                  below: seq<Rung>, visits: seq<Visit>, routed: Option<Routed>)
    requires Descent(cfg, key, ip, above, passed, None) && Descent(cfg, key, ip, below, visits, routed)
    ensures Descent(cfg, key, ip, above + below, passed + visits, routed)
  {
    hide VisitOk, Fits;
    var all := passed + visits;
    forall i | 0 <= i < |all| ensures all[i].rung == (above + below)[i] && VisitOk(cfg, key, ip, all[i]) {
      if i < |passed| { assert all[i] == passed[i]; } else { assert all[i] == visits[i - |passed|]; }
    }
    forall i | 0 <= i < |all| - 1 ensures !all[i].hit {
      if i < |passed| { assert all[i] == passed[i]; } else { assert all[i] == visits[i - |passed|]; }
    }
    if visits == [] { assert all == passed; } else { assert all[|all| - 1] == visits[|visits| - 1]; }
  }

  /** A descent that found something needs no more rungs. */
  lemma StopHere(cfg: Config, key: DcKey, ip: string, above: seq<Rung>, visits: seq<Visit>, below: seq<Rung>, r: Routed)
    requires Descent(cfg, key, ip, above, visits, Some(r))
    ensures Descent(cfg, key, ip, above + below, visits, Some(r))
  {
    hide VisitOk, Fits;
  }

  // What a descent means ----------------------------------------------------------

  /** No rung is visited twice, and the direct one only for a DC that has an address of its own. */
  lemma NoRungTwice(cfg: Config, key: DcKey, ip: string, direct: bool, stepped: bool, visits: seq<Visit>,
                    routed: Option<Routed>)
    requires Descent(cfg, key, ip, Order(direct, cfg.cfPriority, stepped), visits, routed)
    ensures forall i, j | 0 <= i < j < |visits| :: visits[i].rung != visits[j].rung
    ensures !direct ==> forall v | v in visits :: !v.rung.DirectRung?
  {
    hide VisitOk, Fits;
    var order := Order(direct, cfg.cfPriority, stepped);
    forall i, j | 0 <= i < j < |visits| ensures visits[i].rung != visits[j].rung {
      assert visits[i].rung == order[i] && visits[j].rung == order[j];
    }
    forall v | v in visits ensures !direct ==> !v.rung.DirectRung? {
      var i :| 0 <= i < |visits| && visits[i] == v;
      assert visits[i].rung == order[i];
    }
  }

  /**
   * A stream is tunnelled exactly when its connection was opened through a configured Worker: a pooled
   * one by its connector, or a freshly dialled one.
   */
  lemma TunnelFromWorker(cfg: Config, key: DcKey, ip: string, order: seq<Rung>, visits: seq<Visit>, framing: Framing)
    requires Descent(cfg, key, ip, order, visits, Some(Ws(framing)))
    ensures var v, dst := visits[|visits| - 1], UnwrapOr(FallbackIp(key.dc), ip);
      framing.Tunnel? <==>
      || (exists w | w in cfg.workers :: Tunnelled(v.events, key, w))
      || exists e, w | e in v.events && w in cfg.workers :: Reached(WorkerRung, w, dst, e)
  {
    hide FallbackIp, Won, Walk;
    var v, dst := visits[|visits| - 1], UnwrapOr(FallbackIp(key.dc), ip);
    assert v.hit && VisitOk(cfg, key, ip, v);
    if v.rung.WorkerRung? {
      if FromPool(cfg, WorkerRung, key, v.events) {
        assert Tunnelled(v.events, key, v.events[0].hit.value.conn.worker);
      } else {
        RotationCovers(v.order, cfg.workers, cfg.cfBalance);
        var n := |v.events| - 3;
        assert v.events[1..][n] == v.events[n + 1];
        assert v.order[n] in v.order;
        assert v.events[n + 1] in v.events && Reached(WorkerRung, v.order[n], dst, v.events[n + 1]);
      }
    } else {
      forall e | e in v.events ensures !(e.Dial? && e.rung.WorkerRung?) {
        NoWorkerElsewhere(cfg, key, ip, v, e);
      }
    }
  }

  /** A pooled connection of this DC that was opened through the Worker `w`. */
  predicate Tunnelled(events: seq<Event>, key: DcKey, w: string) {
    && |events| == 1 && events[0].PoolAsked? && events[0].hit.Some? && events[0].hit.value.CfHit?
    && var conn := events[0].hit.value.conn;
      conn.ByWorker? && conn.worker == w && DcKey(conn.dc, conn.media) == key
  }

  lemma NoWorkerElsewhere(cfg: Config, key: DcKey, ip: string, v: Visit, e: Event)
    requires v.hit && VisitOk(cfg, key, ip, v) && (v.rung.ProxyRung? || v.rung.DirectRung?) && e in v.events
    ensures !e.Dial?
  {
    hide FallbackIp, Won, Walk;
    var i :| 0 <= i < |v.events| && v.events[i] == e;
    if v.rung.DirectRung? && !FromPool(cfg, DirectRung, key, v.events) && i > 0 {
      assert v.events[1..][i - 1] == e;
      var events := v.events[1..];
      assert |events| <= 2;
      if |events| == 2 { assert events[1..][0] == events[1]; }
    }
  }

  /** A visit of the Cloudflare proxy rung whose connection was freshly dialled. */
  ghost predicate ProxyDialled(cfg: Config, key: DcKey, v: Visit) {
    v.hit && cfg.zones != [] && ProxyVisit(cfg, key, v) && !FromPool(cfg, ProxyRung, key, v.events)
  }

  /**
   * The spare behind a fresh Cloudflare proxy connection is meant to go where that one went, to a record
   * of the DC. With balancing it goes to the next bare zone name instead, so that it is a record for
   * every such connection if and only if balancing is off or every zone is itself named like a record.
   */
  lemma SparesReachRecords(cfg: Config, key: DcKey)
    requires cfg.zones != []
    ensures (forall v | ProxyDialled(cfg, key, v) :: OfDc(SpareTarget(v.events[2], key).domain, key.dc)) <==>
      !cfg.cfBalance || forall z | z in cfg.zones :: OfDc(z, key.dc)
    ensures forall v | ProxyDialled(cfg, key, v) ::
      var target := SpareTarget(v.events[2], key);
      && CfConnectOne(target) == ByRecord(target.domain)
      && if cfg.cfBalance then target.domain in cfg.zones else Some(target.domain) == v.events[1].winner
  {
    hide OfDc, Rotation, Walk, CfWsDomains;
    forall v | ProxyDialled(cfg, key, v) && !cfg.cfBalance
      ensures OfDc(SpareTarget(v.events[2], key).domain, key.dc)
    {
      RecordsOfDc(key.dc, v.order, key.media);
      var s := Attempts(Queued(CfWsDomains(key.dc, v.order, key.media)), {}, {});
      assert forall a | a in s.queue :: a.domain in CfWsDomains(key.dc, v.order, key.media);
      WinnerIsARecord(s, v.events[1].o, 0, key.dc);
    }
    if cfg.cfBalance {
      forall z | z in cfg.zones
        ensures exists v :: ProxyDialled(cfg, key, v) && v.events[2] == Spare(ProxyRung, z, "")
      {
        var v := SpareThrough(cfg, key, z);
      }
      if forall v | ProxyDialled(cfg, key, v) :: OfDc(SpareTarget(v.events[2], key).domain, key.dc) {
        forall z | z in cfg.zones ensures OfDc(z, key.dc) {
          var v :| ProxyDialled(cfg, key, v) && v.events[2] == Spare(ProxyRung, z, "");
        }
      }
    }
  }

  lemma SpareThrough(cfg: Config, key: DcKey, z: string) returns (v: Visit)
    requires cfg.cfBalance && z in cfg.zones
    ensures ProxyDialled(cfg, key, v) && v.events[2] == Spare(ProxyRung, z, "")
  {
    hide Walk, CfWsDomains;
    FirstWins(key.dc, cfg.zones, key.media);
    var o: Oracle := (_, _) => Connected;
    var winner := Walk(Attempts(Queued(CfWsDomains(key.dc, cfg.zones, key.media)), {}, {}), o, 0).winner;
    var events := [PoolAsked(ProxyRung, None), RecordsWalked(cfg.zones, o, winner), Spare(ProxyRung, z, "")];
    v := Visit(ProxyRung, cfg.zones, events, true);
  }

  /** `name` was passed over on some visit. */
  ghost predicate PassedOver(visits: seq<Visit>, rung: Rung, name: string, dst: string) {
    exists v, e | v in visits && e in v.events :: Missed(rung, name, dst, e)
  }

  /** The records of all zones were walked to the end. */
  ghost predicate RecordsExhausted(cfg: Config, key: DcKey, visits: seq<Visit>) {
    exists v, e | v in visits && e in v.events ::
      e.RecordsWalked? && Rotation(e.zones, cfg.zones, cfg.cfBalance) && WalkEnds(key, e.zones, e.o, None)
  }

  /** The pool had nothing for the address, and dialling it failed on every domain. */
  ghost predicate DirectExhausted(key: DcKey, ip: string, visits: seq<Visit>) {
    exists v, e | v in visits && e in v.events ::
      v.events[0] == PoolAsked(DirectRung, None) && e.DirectDial? && e.key == key && e.ip == ip
      && |e.outcomes| == 2 && Connected !in e.outcomes
  }

  /**
   * The last resort really is last: behind a descent that found nothing, every Worker and every
   * upstream proxy was dialled in vain or was cooling, the Cloudflare records were walked to the
   * end, and an address of the DC's own was dialled, even one that was stepped over.
   */
  lemma LastResortIsLast(cfg: Config, key: DcKey, ip: string, direct: bool, stepped: bool, visits: seq<Visit>)
    requires Descent(cfg, key, ip, Order(direct, cfg.cfPriority, stepped), visits, None)
    ensures forall w | w in cfg.workers :: PassedOver(visits, WorkerRung, w, UnwrapOr(FallbackIp(key.dc), ip))
    ensures forall p | p in cfg.proxies :: PassedOver(visits, UpstreamRung, ProxyKey(p), "")
    ensures cfg.zones != [] ==> RecordsExhausted(cfg, key, visits)
    ensures direct ==> DirectExhausted(key, ip, visits)
  {
    hide *;
    var order := Order(direct, cfg.cfPriority, stepped);
    OrderHas(direct, cfg.cfPriority, stepped);
    var w := VisitOf(cfg, key, ip, order, visits, WorkerRung);
    var p := VisitOf(cfg, key, ip, order, visits, ProxyRung);
    var u := VisitOf(cfg, key, ip, order, visits, UpstreamRung);
    forall name | name in cfg.workers ensures PassedOver(visits, WorkerRung, name, UnwrapOr(FallbackIp(key.dc), ip)) {
      WorkersPassed(cfg, key, ip, visits, w, name);
    }
    forall q | q in cfg.proxies ensures PassedOver(visits, UpstreamRung, ProxyKey(q), "") {
      ProxiesPassed(cfg, key, ip, visits, u, q);
    }
    if cfg.zones != [] { RecordsPassed(cfg, key, ip, visits, p); }
    if direct {
      var d := VisitOf(cfg, key, ip, order, visits, DirectRung);
      DirectPassed(cfg, key, ip, visits, d);
    }
  }

  lemma OrderHas(direct: bool, cfPriority: bool, stepped: bool)
    ensures var order := Order(direct, cfPriority, stepped);
      WorkerRung in order && ProxyRung in order && UpstreamRung in order && (direct ==> DirectRung in order)
  {}

  lemma VisitOf(cfg: Config, key: DcKey, ip: string, order: seq<Rung>, visits: seq<Visit>, rung: Rung)
    returns (v: Visit)
    requires Descent(cfg, key, ip, order, visits, None) && rung in order
    ensures v in visits && v.rung == rung && !v.hit && VisitOk(cfg, key, ip, v)
  {
    hide VisitOk;
    var i :| 0 <= i < |order| && order[i] == rung;
    v := visits[i];
  }

  lemma WorkersPassed(cfg: Config, key: DcKey, ip: string, visits: seq<Visit>, v: Visit, name: string)
    requires v in visits && v.rung.WorkerRung? && !v.hit && VisitOk(cfg, key, ip, v) && name in cfg.workers
    ensures PassedOver(visits, WorkerRung, name, UnwrapOr(FallbackIp(key.dc), ip))
  {
    hide FallbackIp, Rotation;
    RotationCovers(v.order, cfg.workers, cfg.cfBalance);
    var i :| 0 <= i < |v.order| && v.order[i] == name;
    assert v.events[1..][i] == v.events[i + 1];
    assert v.events[i + 1] in v.events;
  }

  lemma ProxiesPassed(cfg: Config, key: DcKey, ip: string, visits: seq<Visit>, v: Visit, p: Proxy)
    requires v in visits && v.rung.UpstreamRung? && !v.hit && VisitOk(cfg, key, ip, v) && p in cfg.proxies
    ensures PassedOver(visits, UpstreamRung, ProxyKey(p), "")
  {
    var i :| 0 <= i < |cfg.proxies| && cfg.proxies[i] == p;
    assert v.order[i] == ProxyKey(p);
    assert v.events[i] in v.events;
  }

  lemma RecordsPassed(cfg: Config, key: DcKey, ip: string, visits: seq<Visit>, v: Visit)
    requires v in visits && v.rung.ProxyRung? && !v.hit && VisitOk(cfg, key, ip, v) && cfg.zones != []
    ensures RecordsExhausted(cfg, key, visits)
  {
    hide WalkEnds, Rotation;
    assert v.events[1] in v.events;
  }

  lemma DirectPassed(cfg: Config, key: DcKey, ip: string, visits: seq<Visit>, v: Visit)
    requires v in visits && v.rung.DirectRung? && !v.hit && VisitOk(cfg, key, ip, v)
    ensures DirectExhausted(key, ip, visits)
  {
    hide Reacted, GivenUp, Answered;
    var e := v.events[1..][0];
    assert e == v.events[1] && e in v.events;
    AnsweredInTurn(WsDomains(key.dc, key.media), ip, e.sni, e.timeout, e.net);
    assert Connected !in e.outcomes;
  }

  /** The decision about a retry was taken at this time. */
  function DecidedAt(e: Event): nat {
    if e.DirectDial? then e.seen.gate else if e.FrontingSkipped? then e.at else 0
  }

  /**
   * What follows an unfronted direct dial that failed, somewhere in an honest history: a fronted
   * retry exactly when its upgrade stalled, fronting is configured and the DC's last fronted dial
   * did not fail within its cooldown; and the address is suspected in the end exactly when a TCP
   * connect timed out and the DC was not backing off when the verdict was read.
   */
  lemma RetriedExactly(t: Timeouts, cfg: Config, key: DcKey, ip: string, log: seq<Event>, i: nat, n: nat, hit: bool)
    requires Honest(t, cfg.fronting, log) && i + n <= |log| && Dialled(cfg, key, ip, log[i..i + n], hit)
    requires log[i].DirectDial? && log[i].sni.None? && !Won(log[i].outcomes)
    ensures n >= 2 && i + 1 < |log|
    ensures var next := log[i + 1];
      (next.DirectDial? && next.retry) <==>
      && UpgradeTimedOut in log[i].outcomes && cfg.fronting.Some?
      && !FrontingFailedRecently(t, log[..i + 1], key, DecidedAt(next))
    ensures !hit ==>
      var last := log[i + n - 1];
      last.DirectGivenUp? && (last.suspect <==>
        ConnectTimedOut in log[i].outcomes && !BackingOff(t, log[..i], key, log[i].seen.verdict))
  {
    hide Replay, FrontingFailedRecently, Answered, Won, BackingOff;
    WsCools(t, log[..i], key, log[i].seen.verdict);
    var events := log[i..i + n];
    assert events[0] == log[i] && events[|events| - 1] == log[i + n - 1];
    assert n >= 2;
    assert events[1] == log[i + 1] && events[1..][0] == events[1];
    assert |events| > 2 ==> events[1..|events| - 1][0] == events[1];
    RetriesGated(t, cfg.fronting, log, i + 1);
    assert IsTrue(t, cfg.fronting, log, i);
  }

  // Raw TCP ------------------------------------------------------------------------

  predicate RanOutOn(net: Network, ip: string, domains: seq<string>, sni: Option<string>, timeout: nat) {
    exists d | d in domains :: RanOut(net(Request(ip, d, sni, timeout)))
  }

  /** A dial that ran out the clock, in its TCP connect or in its upgrade. */
  predicate RanOutDial(e: Event) {
    e.DirectDial? && exists o | o in e.outcomes :: RanOut(o)
  }

  /** Some direct dial on the way down ran out the clock. */
  ghost predicate AfterTimeout(visits: seq<Visit>) {
    exists v, e :: v in visits && e in v.events && RanOutDial(e)
  }

  /**
   * Which answers put a timeout behind a raw TCP connection: a descent that visited the direct rung and
   * found nothing ran out the clock on a direct dial if and only if the network answers one of the DC's
   * domains that way on the first one.
   */
  lemma TimeoutBehindTcp(cfg: Config, key: DcKey, ip: string, order: seq<Rung>, visits: seq<Visit>)
    requires Descent(cfg, key, ip, order, visits, None) && DirectRung in order
    requires forall i, j | 0 <= i < j < |order| :: order[i] != order[j]
    ensures exists v, first | v in visits && first in v.events ::
      && first.DirectDial? && !first.retry && first.key == key && first.ip == ip
      && (AfterTimeout(visits) <==> RanOutOn(first.net, ip, WsDomains(key.dc, key.media), first.sni, first.timeout))
  {
    hide VisitOk, Answered, WsDomains, RanOutOn;
    var v := VisitOf(cfg, key, ip, order, visits, DirectRung);
    FirstFails(cfg, key, ip, v);
    var first := v.events[1];
    assert v in visits && first in v.events;
    if RanOutDial(first) {
      assert AfterTimeout(visits);
    }
    if AfterTimeout(visits) {
      var w, e :| w in visits && e in w.events && RanOutDial(e);
      OnlyThere(cfg, key, ip, order, visits, v, w, e);
      FirstRunsOut(cfg, key, ip, v, e);
    }
  }

  lemma FirstFails(cfg: Config, key: DcKey, ip: string, v: Visit)
    requires v.rung.DirectRung? && !v.hit && VisitOk(cfg, key, ip, v)
    ensures |v.events| > 1
    ensures var first := v.events[1];
      && first.DirectDial? && !first.retry && first.key == key && first.ip == ip
      && (RanOutDial(first) <==> RanOutOn(first.net, ip, WsDomains(key.dc, key.media), first.sni, first.timeout))
  {
    hide Answered, WsDomains, Reacted, GivenUp, Won;
    var first, domains := v.events[1..][0], WsDomains(key.dc, key.media);
    assert first == v.events[1];
    AnsweredInTurn(domains, ip, first.sni, first.timeout, first.net);
    assert |first.outcomes| == |domains|;
    if RanOutDial(first) {
      var i :| 0 <= i < |first.outcomes| && RanOut(first.outcomes[i]);
      assert domains[i] in domains;
    }
    if RanOutOn(first.net, ip, domains, first.sni, first.timeout) {
      var i :| 0 <= i < |domains| && RanOut(first.net(Request(ip, domains[i], first.sni, first.timeout)));
      assert first.outcomes[i] in first.outcomes;
    }
  }

  /** Direct dials happen on the visit of the direct rung, of which there is one. */
  lemma OnlyThere(cfg: Config, key: DcKey, ip: string, order: seq<Rung>, visits: seq<Visit>, v: Visit, w: Visit,
                  e: Event)
    requires Descent(cfg, key, ip, order, visits, None)
    requires forall i, j | 0 <= i < j < |order| :: order[i] != order[j]
    requires v in visits && v.rung.DirectRung? && w in visits && e in w.events && e.DirectDial?
    ensures w == v
  {
    hide VisitOk, Fits;
    var i, j :| 0 <= i < |visits| && visits[i] == v && 0 <= j < |visits| && visits[j] == w;
    NoDialElsewhere(cfg, key, ip, w, e);
    assert order[i] == v.rung && order[j] == w.rung;
  }

  lemma NoDialElsewhere(cfg: Config, key: DcKey, ip: string, v: Visit, e: Event)
    requires !v.hit && VisitOk(cfg, key, ip, v) && e in v.events && e.DirectDial?
    ensures v.rung.DirectRung?
  {
    hide FallbackIp, Won, Walk, Rotation, Dialled;
    var i :| 0 <= i < |v.events| && v.events[i] == e;
    if i > 0 { assert v.events[1..][i - 1] == e; }
  }

  /** A retry that ran out the clock is behind an upgrade that did. */
  lemma FirstRunsOut(cfg: Config, key: DcKey, ip: string, v: Visit, e: Event)
    requires v.rung.DirectRung? && !v.hit && VisitOk(cfg, key, ip, v) && e in v.events && RanOutDial(e)
    ensures |v.events| > 1 && RanOutDial(v.events[1])
  {
    hide Answered, WsDomains, Won, AllRedirects;
    var events := v.events[1..];
    assert events[0] == v.events[1];
    var i :| 0 <= i < |v.events| && v.events[i] == e;
    assert i > 0 && events[i - 1] == e;
    if i > 1 {
      assert |events| > 2 ==> events[1..|events| - 1][0] == events[1];
      assert UpgradeTimedOut in events[0].outcomes;
    }
  }

  /** What a visit of a rung looks like on which everything fails at once, as `net` has it for direct dials. */
  function Lost(t: Timeouts, cfg: Config, key: DcKey, ip: string, net: Network, rung: Rung): (v: Visit)
    ensures v.rung == rung && !v.hit
  {
    match rung
    case WorkerRung =>
      if cfg.workers == [] then Visit(rung, [], [], false)
      else
        var dst := UnwrapOr(FallbackIp(key.dc), ip);
        Visit(rung, cfg.workers, [PoolAsked(rung, None)] + AllFail(rung, cfg.workers, dst), false)
    case ProxyRung =>
      if cfg.zones == [] then Visit(rung, [], [], false)
      else Visit(rung, cfg.zones, [PoolAsked(rung, None), RecordsWalked(cfg.zones, Refused(), None)], false)
    case UpstreamRung =>
      Visit(rung, ProxyKeys(cfg.proxies), AllFail(rung, ProxyKeys(cfg.proxies), ""), false)
    case DirectRung =>
      var first := LostDial(t, key, ip, net, None, false);
      var mid := if UpgradeTimedOut in first.outcomes && cfg.fronting.Some?
                 then [LostDial(t, key, ip, net, cfg.fronting, true)] else [];
      Visit(rung, [], [PoolAsked(rung, None), first] + mid + [LostFor(key, ip, first)], false)
  }

  function AllFail(rung: Rung, names: seq<string>, dst: string): (events: seq<Event>)
    ensures |events| == |names|
  {
    seq(|names|, i requires 0 <= i < |names| => Dial(rung, names[i], dst, false, 0))
  }

  function Refused(): Oracle { (_, _) => Failed(false) }

  function LostDial(t: Timeouts, key: DcKey, ip: string, net: Network, sni: Option<string>, retry: bool): (e: Event)
    ensures e.DirectDial? && DialOf(e, key, ip, sni, retry) && e.net == net && !e.probing
  {
    var outcomes := Answered(WsDomains(key.dc, key.media), ip, sni, t.wsConnect, net);
    DirectDial(key, ip, sni, retry, Reads(0, 0, 0), false, t.wsConnect, net, outcomes, 0)
  }

  function LostFor(key: DcKey, ip: string, first: Event): Event
    requires first.DirectDial?
  {
    DirectGivenUp(key, ip, AllRedirects(first.outcomes), ConnectTimedOut in first.outcomes, 0, 0)
  }

  /** No domain of the DC connects, fronted or not. */
  predicate Unconnected(t: Timeouts, cfg: Config, key: DcKey, ip: string, net: Network) {
    forall d, sni | d in WsDomains(key.dc, key.media) && sni in {None, cfg.fronting} ::
      net(Request(ip, d, sni, t.wsConnect)) != Connected
  }

  lemma LostDialFails(t: Timeouts, cfg: Config, key: DcKey, ip: string, net: Network, sni: Option<string>, retry: bool)
    requires Unconnected(t, cfg, key, ip, net) && sni in {None, cfg.fronting}
    ensures !Won(LostDial(t, key, ip, net, sni, retry).outcomes)
  {
    hide WsDomains, Answered;
    var domains := WsDomains(key.dc, key.media);
    AnsweredInTurn(domains, ip, sni, t.wsConnect, net);
  }

  lemma LostOk(t: Timeouts, cfg: Config, key: DcKey, ip: string, net: Network, rung: Rung)
    requires Unconnected(t, cfg, key, ip, net)
    ensures VisitOk(cfg, key, ip, Lost(t, cfg, key, ip, net, rung))
  {
    hide Walk, WsDomains, FallbackIp, Answered, Unconnected, LostDial, Won;
    var v := Lost(t, cfg, key, ip, net, rung);
    match rung
    case WorkerRung =>
      if cfg.workers != [] { assert v.events[1..] == AllFail(rung, cfg.workers, UnwrapOr(FallbackIp(key.dc), ip)); }
    case ProxyRung =>
      NoWinner(Attempts(Queued(CfWsDomains(key.dc, cfg.zones, key.media)), {}, {}), Refused(), 0);
    case UpstreamRung =>
    case DirectRung =>
      LostDialFails(t, cfg, key, ip, net, None, false);
      LostDialFails(t, cfg, key, ip, net, cfg.fronting, true);
      var first := LostDial(t, key, ip, net, None, false);
      var mid := if UpgradeTimedOut in first.outcomes && cfg.fronting.Some?
                 then [LostDial(t, key, ip, net, cfg.fronting, true)] else [];
      var events := [first] + mid + [LostFor(key, ip, first)];
      assert v.events[1..] == events && events[1..|events| - 1] == mid;
      assert v.events[0] == PoolAsked(DirectRung, None) && |v.events| > 1;
  }

  /** An event at time zero that leaves direct dials as they were. */
  predicate Quiet(e: Event) {
    e.PoolAsked? || e.RecordsWalked? || (e.Dial? && e.at == 0)
  }

  predicate Clean(m: Memory) {
    m.ws == map[] && m.fronting == map[] && m.sticky.None?
  }

  lemma OneMoreQuiet(t: Timeouts, fronting: Option<string>, log: seq<Event>, e: Event)
    requires Honest(t, fronting, log) && Past(log, 0) && Quiet(e)
    ensures Honest(t, fronting, log + [e]) && Past(log + [e], 0)
    ensures Clean(Replay(t, log)) ==> Clean(Replay(t, log + [e]))
  {
    hide Replay, Honest;
    ReplaySnoc(t, log, e);
    HonestSnoc(t, fronting, log, e);
  }

  lemma {:induction false} QuietOn(t: Timeouts, fronting: Option<string>, log: seq<Event>, more: seq<Event>)
    requires Honest(t, fronting, log) && Past(log, 0) && forall e | e in more :: Quiet(e)
    ensures Honest(t, fronting, log + more) && Past(log + more, 0)
    ensures Clean(Replay(t, log)) ==> Clean(Replay(t, log + more))
  {
    hide Replay, Honest, Past, Clean, Quiet;
    if more == [] {
      assert log + more == log;
    } else {
      var last := |more| - 1;
      assert more[last] in more && forall e | e in more[..last] :: e in more;
      QuietOn(t, fronting, log, more[..last]);
      OneMoreQuiet(t, fronting, log + more[..last], more[last]);
      assert log + more[..last] + [more[last]] == log + more;
    }
  }

  /** A lost direct visit is honest where nothing is remembered of direct dials. */
  lemma DirectIsHonest(t: Timeouts, cfg: Config, key: DcKey, ip: string, net: Network, log: seq<Event>)
    requires Unconnected(t, cfg, key, ip, net)
    requires Honest(t, cfg.fronting, log) && Past(log, 0) && Clean(Replay(t, log))
    ensures var events := Lost(t, cfg, key, ip, net, DirectRung).events;
      Honest(t, cfg.fronting, log + events) && Past(log + events, 0)
  {
    hide Replay, Honest, Won, WsDomains, Answered, Unconnected, AllRedirects;
    var first := LostDial(t, key, ip, net, None, false);
    var mid := if UpgradeTimedOut in first.outcomes && cfg.fronting.Some?
               then [LostDial(t, key, ip, net, cfg.fronting, true)] else [];
    var lost, asked := LostFor(key, ip, first), PoolAsked(DirectRung, None);
    LostDialFails(t, cfg, key, ip, net, None, false);
    OneMoreQuiet(t, cfg.fronting, log, asked);
    var l1 := log + [asked];
    ReplaySnoc(t, l1, first);
    HonestSnoc(t, cfg.fronting, l1, first);
    var l2 := l1 + [first];
    var l3 := l2 + mid;
    if mid == [] {
      assert l3 == l2;
    } else {
      HonestSnoc(t, cfg.fronting, l2, mid[0]);
    }
    if lost.suspect {
      var all := l3 + [lost];
      assert all[..|l1|] == l1 && all[|l1|] == first;
      assert CausedBy(t, all, |l3|, |l1|);
    }
    HonestSnoc(t, cfg.fronting, l3, lost);
    assert l3 + [lost] == log + ([asked, first] + mid + [lost]);
  }

  /** The lost visits of an order, one after the other. */
  function AllLostIn(t: Timeouts, cfg: Config, key: DcKey, ip: string, net: Network, order: seq<Rung>)
    : (visits: seq<Visit>)
    ensures |visits| == |order|
  {
    seq(|order|, i requires 0 <= i < |order| => Lost(t, cfg, key, ip, net, order[i]))
  }

  lemma {:induction false} LostIsHonest(t: Timeouts, cfg: Config, key: DcKey, ip: string, net: Network,
                                        order: seq<Rung>)
    requires Unconnected(t, cfg, key, ip, net)
    requires forall i, j | 0 <= i < j < |order| :: order[i] != order[j]
    ensures var log := Happened(AllLostIn(t, cfg, key, ip, net, order));
      && Honest(t, cfg.fronting, log) && Past(log, 0)
      && (DirectRung !in order ==> Clean(Replay(t, log)))
  {
    hide Honest, Past, Replay, Clean, Lost, Unconnected;
    var visits := AllLostIn(t, cfg, key, ip, net, order);
    if order == [] {
      NothingHonest(t, cfg.fronting);
    } else {
      var last := |order| - 1;
      var front := order[..last];
      LostIsHonest(t, cfg, key, ip, net, front);
      assert visits[..last] == AllLostIn(t, cfg, key, ip, net, front);
      var log := Happened(visits[..last]);
      if order[last].DirectRung? {
        DirectIsHonest(t, cfg, key, ip, net, log);
        assert DirectRung in order;
      } else {
        LostQuietly(t, cfg, key, ip, net, order[last]);
        QuietOn(t, cfg.fronting, log, visits[last].events);
        assert DirectRung !in order ==> DirectRung !in front;
      }
    }
  }

  lemma NothingHonest(t: Timeouts, fronting: Option<string>)
    ensures Honest(t, fronting, []) && Past([], 0) && Clean(Replay(t, []))
  {}

  lemma LostQuietly(t: Timeouts, cfg: Config, key: DcKey, ip: string, net: Network, rung: Rung)
    requires !rung.DirectRung?
    ensures forall e | e in Lost(t, cfg, key, ip, net, rung).events :: Quiet(e)
  {
    hide FallbackIp;
  }

  /**
   * Raw TCP lies behind every failure of the direct dial, whatever is configured: for any network on
   * which no domain of the DC connects there is an honest history of one connection that ends there, all
   * of whose direct dials are on that network. It comes after a timeout if and only if the network
   * answers one of the domains that way; so an address whose domains all redirect leads there without.
   */
  lemma LastResortNeedsNoTimeout(t: Timeouts, cfg: Config, key: DcKey, ip: string, net: Network)
    requires Unconnected(t, cfg, key, ip, net)
    ensures exists visits: seq<Visit> ::
      && Descent(cfg, key, ip, Order(true, cfg.cfPriority, false), visits, None)
      && Honest(t, cfg.fronting, Happened(visits))
      && (forall v, e | v in visits && e in v.events && e.DirectDial? :: e.net == net)
      && (forall v, e | v in visits && e in v.events && e.RecordsWalked? :: forall i, d :: !RanOut(e.o(i, d)))
      && (AfterTimeout(visits) <==> RanOutOn(net, ip, WsDomains(key.dc, key.media), None, t.wsConnect))
  {
    hide Honest, VisitOk, Happened, Lost, Unconnected, WsDomains, RanOutOn, RanOutDial, Answered;
    var order := Order(true, cfg.cfPriority, false);
    var visits := AllLostIn(t, cfg, key, ip, net, order);
    forall i | 0 <= i < |order| ensures VisitOk(cfg, key, ip, visits[i]) {
      LostOk(t, cfg, key, ip, net, order[i]);
    }
    LostIsHonest(t, cfg, key, ip, net, order);
    assert Descent(cfg, key, ip, order, visits, None);
    forall v, e | v in visits && e in v.events
      ensures e.DirectDial? ==> e.net == net
      ensures e.RecordsWalked? ==> forall i, d :: !RanOut(e.o(i, d))
      ensures e.DirectDial? && !e.retry ==> e.sni.None? && e.timeout == t.wsConnect
    {
      var i :| 0 <= i < |visits| && visits[i] == v;
      LostEvents(t, cfg, key, ip, net, order[i], e);
    }
    TimeoutBehindTcp(cfg, key, ip, order, visits);
  }

  lemma LostEvents(t: Timeouts, cfg: Config, key: DcKey, ip: string, net: Network, rung: Rung, e: Event)
    requires e in Lost(t, cfg, key, ip, net, rung).events
    ensures e.DirectDial? ==> e.net == net
    ensures e.RecordsWalked? ==> forall i, d :: !RanOut(e.o(i, d))
    ensures e.DirectDial? && !e.retry ==> e.sni.None? && e.timeout == t.wsConnect
  {
    hide FallbackIp, Answered, WsDomains;
  }
}

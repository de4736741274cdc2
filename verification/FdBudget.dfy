/** The file-descriptor budget: the connection cap, and why a running proxy stays within it. */
module FdBudget {
  import opened Bytes
  import opened PoolMachine
  import opened Pool

  // The cap ------------------------------------------------------------------

  const UNLIMITED_MAX_CONNECTIONS: nat := 512
  const RUNTIME_RESERVED_FDS: nat := 32
  const FDS_PER_CONNECTION: nat := 2
  const FDS_PER_POOL_SLOT: nat := 2
  const MIN_MAX_CONNECTIONS: nat := 4

  /** Saturating `usize` arithmetic under the largest value `max`. */
  function SatAdd(a: nat, b: nat, max: nat): nat { if a + b > max then max else a + b }
  function SatMul(a: nat, b: nat, max: nat): nat { if a * b > max then max else a * b }
  function SatSub(a: nat, b: nat): nat { if a < b then 0 else a - b }

  function AutoMaxConnections(fdLimit: nat, poolSize: nat, dcBuckets: nat, max: nat): nat {
    if fdLimit == max then UNLIMITED_MAX_CONNECTIONS
    else
      var poolFds := SatMul(SatMul(poolSize, dcBuckets, max), FDS_PER_POOL_SLOT, max);
      var reserved := SatAdd(SatAdd(1, poolFds, max), RUNTIME_RESERVED_FDS, max);
      var share := SatSub(fdLimit, reserved) / FDS_PER_CONNECTION;
      if share < MIN_MAX_CONNECTIONS then MIN_MAX_CONNECTIONS else share
  }

  /**
   * The cap leaves room for everything else exactly when the limit exceeds the reserve by the eight
   * descriptors of the smallest cap; below that the floor of four connections overdraws it. One
   * connection more would not fit.
   */
  lemma CapWithinBudget(fdLimit: nat, poolSize: nat, dcBuckets: nat, max: nat)
    requires fdLimit < max
    ensures var reserve := 1 + RUNTIME_RESERVED_FDS + FDS_PER_POOL_SLOT * (poolSize * dcBuckets);
      reserve + FDS_PER_CONNECTION * AutoMaxConnections(fdLimit, poolSize, dcBuckets, max) <= fdLimit <==>
      reserve + FDS_PER_CONNECTION * MIN_MAX_CONNECTIONS <= fdLimit
    ensures var reserve := 1 + RUNTIME_RESERVED_FDS + FDS_PER_POOL_SLOT * (poolSize * dcBuckets);
      fdLimit < reserve + FDS_PER_CONNECTION * (AutoMaxConnections(fdLimit, poolSize, dcBuckets, max) + 1)
  {
    var slots := poolSize * dcBuckets;
    assert SatMul(poolSize, dcBuckets, max) == if slots > max then max else slots;
  }

  // Configured targets -------------------------------------------------------

  /** The map of DC to target IP that the repeated `--dc-ip` flags collect into; the last one wins. */
  function DcRedirects(flags: seq<(nat, string)>): map<nat, string> {
    if flags == [] then map[]
    else
      var last := |flags| - 1;
      DcRedirects(flags[..last])[flags[last].0 := flags[last].1]
  }

  /** The routing path's own lookup: the last flag for the DC. */
  function TargetIp(flags: seq<(nat, string)>, dc: nat): (ip: Option<string>)
    ensures ip == if dc in DcRedirects(flags) then Some(DcRedirects(flags)[dc]) else None
  {
    if flags == [] then None
    else
      var last := |flags| - 1;
      if flags[last].0 == dc then Some(flags[last].1) else TargetIp(flags[..last], dc)
  }

  /** Scan the flags from the back; the result agrees with the map the pool warms itself from. */
  method DcTargetIp(flags: seq<(nat, string)>, dc: nat) returns (ip: Option<string>)
    ensures ip == TargetIp(flags, dc)
    ensures ip == if dc in DcRedirects(flags) then Some(DcRedirects(flags)[dc]) else None
  {
    var i := |flags|;
    assert flags[..|flags|] == flags;
    while i > 0
      invariant 0 <= i <= |flags|
      invariant TargetIp(flags, dc) == TargetIp(flags[..i], dc)
    {
      i := i - 1;
      assert flags[..i + 1][..i] == flags[..i];
      if flags[i].0 == dc { return Some(flags[i].1); }
    }
    return None;
  }

  /** The pool buckets of the configured DCs. */
  function BucketKeys(dcs: set<nat>): set<DcKey> {
    (set dc | dc in dcs :: DcKey(dc, false)) + (set dc | dc in dcs :: DcKey(dc, true))
  }

  lemma {:induction false} BucketCount(dcs: set<nat>)
    ensures |BucketKeys(dcs)| == 2 * |dcs|
  {
    if dcs == {} {
      assert BucketKeys(dcs) == {};
    } else {
      var dc :| dc in dcs;
      BucketCount(dcs - {dc});
      assert BucketKeys(dcs) == BucketKeys(dcs - {dc}) + {DcKey(dc, false), DcKey(dc, true)};
      TwoMore(BucketKeys(dcs - {dc}), DcKey(dc, false), DcKey(dc, true));
    }
  }

  lemma TwoMore(keys: set<DcKey>, a: DcKey, b: DcKey)
    requires a != b && a !in keys && b !in keys
    ensures |keys + {a, b}| == |keys| + 2
  {
    assert keys + {a, b} == keys + {a} + {b};
  }

  // The running proxy --------------------------------------------------------

  /** One accept slot: a permit, and the sockets its connection has open. */
  datatype Conn = Waiting | Serving(outbound: bool) | Closed

  datatype Process = Process(pool: State<DcKey, DcKey>, conns: seq<Conn>)

  /** The size and age limit of the pool, the `--dc-ip` flags and the connection cap. */
  datatype Setup = Setup(poolSize: nat, maxAge: nat, flags: seq<(nat, string)>, maxConnections: nat) {
    function Pool(): PoolMachine.Config<DcKey, DcKey> { DirectPool(poolSize, maxAge) }

    /** The DCs the pool is warmed for. */
    function Dcs(): set<nat> { DcRedirects(flags).Keys }
  }

  /**
   * `Background` is any pool event but a client's own get; a hit becomes the outbound socket of the
   * connection that asked. A connection only asks for the bucket of a DC whose lookup gives an address.
   */
  datatype ProcessEvent =
    | Permit
    | Accept(conn: nat)
    | PoolGet(conn: nat, key: DcKey, at: nat, alive: nat -> bool, refill: bool)
    | Dial(conn: nat)
    | Hangup(conn: nat)
    | Finish(conn: nat)
    | Background(event: Event<DcKey, DcKey>)

  function Held(conns: seq<Conn>): nat {
    if conns == [] then 0 else (if conns[0].Closed? then 0 else 1) + Held(conns[1..])
  }

  function Sockets(conns: seq<Conn>): nat {
    if conns == [] then 0
    else (if conns[0].Serving? then (if conns[0].outbound then 2 else 1) else 0) + Sockets(conns[1..])
  }

  function Start(setup: Setup): Process {
    Process(Init(BucketKeys(setup.Dcs())), [])
  }

  function ProcessStep(setup: Setup, p: Process, e: ProcessEvent): Process {
    match e
    case Permit => if Held(p.conns) < setup.maxConnections then p.(conns := p.conns + [Waiting]) else p
    case Background(event) =>
      if event.Get? || event.Prefetch? then p else p.(pool := Step(setup.Pool(), p.pool, event))
    case Accept(i) =>
      if i < |p.conns| && p.conns[i].Waiting? then p.(conns := p.conns[i := Serving(false)]) else p
    case PoolGet(i, key, at, alive, refill) =>
      if i < |p.conns| && p.conns[i] == Serving(false) && TargetIp(setup.flags, key.dc).Some? && at <= p.pool.now then
        var hit := Take(p.pool.Bucket(key), at, setup.maxAge, alive).0;
        Process(Step(setup.Pool(), p.pool, Get(key, at, alive, if refill then Some(key) else None)),
                p.conns[i := Serving(hit.Some?)])
      else p
    case Dial(i) =>
      if i < |p.conns| && p.conns[i] == Serving(false) then p.(conns := p.conns[i := Serving(true)]) else p
    case Hangup(i) =>
      if i < |p.conns| && p.conns[i] == Serving(true) then p.(conns := p.conns[i := Serving(false)]) else p
    case Finish(i) =>
      if i < |p.conns| then p.(conns := p.conns[i := Closed]) else p
  }

  function ProcessRun(setup: Setup, p: Process, events: seq<ProcessEvent>): Process
    decreases |events|
  {
    if events == [] then p else ProcessRun(setup, ProcessStep(setup, p, events[0]), events[1..])
  }

  /** Descriptors of the pool: everything the given buckets account for. */
  ghost function PoolFds(s: State<DcKey, DcKey>, keys: set<DcKey>): nat {
    if keys == {} then 0
    else
      var k :| k in keys;
      Idle(s, k) + InRefill(s, k) + InWarmup(s, k) + PoolFds(s, keys - {k})
  }

  /** The listener, the clients' sockets and the pool. */
  ghost function Fds(setup: Setup, p: Process): nat {
    1 + Sockets(p.conns) + PoolFds(p.pool, BucketKeys(setup.Dcs()))
  }

  /** Nothing is pooled, opened or asked for outside the configured buckets. */
  ghost predicate Confined(s: State<DcKey, DcKey>, keys: set<DcKey>) {
    && (forall k | k in s.idle :: k in keys)
    && (forall t | t in s.tasks :: t.key in keys)
    && s.warm.todo <= keys
    && (!s.warm.batch.Resting? ==> s.warm.batch.key in keys)
  }

  ghost predicate ProcessInv(setup: Setup, p: Process) {
    && Inv(setup.Pool(), p.pool)
    && Confined(p.pool, BucketKeys(setup.Dcs()))
    && Held(p.conns) <= setup.maxConnections
  }

  lemma {:induction false} ConnUpdate(conns: seq<Conn>, i: nat, c: Conn)
    requires i < |conns|
    ensures Held(conns[i := c]) + (if conns[i].Closed? then 0 else 1) == Held(conns) + (if c.Closed? then 0 else 1)
  {
    if i == 0 {
      assert conns[i := c][1..] == conns[1..];
    } else {
      ConnUpdate(conns[1..], i - 1, c);
      assert conns[i := c][1..] == conns[1..][i - 1 := c];
    }
  }

  lemma {:induction false} OneMoreConn(conns: seq<Conn>)
    ensures Held(conns + [Waiting]) == Held(conns) + 1
  {
    if conns == [] {
      assert conns + [Waiting] == [Waiting] && [Waiting][1..] == [];
    } else {
      OneMoreConn(conns[1..]);
      assert (conns + [Waiting])[1..] == conns[1..] + [Waiting];
    }
  }

  lemma {:induction false} TwoSocketsEach(conns: seq<Conn>)
    ensures Sockets(conns) <= FDS_PER_CONNECTION * Held(conns)
  {
    if conns != [] { TwoSocketsEach(conns[1..]); }
  }

  lemma ConfinedStep(c: PoolMachine.Config<DcKey, DcKey>, s: State<DcKey, DcKey>, e: Event<DcKey, DcKey>,
                     keys: set<DcKey>)
    requires Confined(s, keys)
    requires e.Get? || e.Prefetch? ==> e.key in keys
    ensures Confined(Step(c, s, e), keys)
  {
    hide RefillStep, Take, AddRefilled;
    if e.Register? || e.Check? || e.DialStart? || e.DialEnd? || e.BatchEnd? || e.Push? || e.Release? {
      if e.task < |s.tasks| { ConfinedRefill(c, s, e, keys); }
    } else {
      var s' := Step(c, s, e);
      forall t | t in s'.tasks ensures t.key in keys {
        var i :| 0 <= i < |s'.tasks| && s'.tasks[i] == t;
        if i < |s.tasks| { assert s.tasks[i] in s.tasks && s'.tasks[i].key == s.tasks[i].key; }
      }
    }
  }

  lemma ConfinedRefill(c: PoolMachine.Config<DcKey, DcKey>, s: State<DcKey, DcKey>, e: Event<DcKey, DcKey>,
                       keys: set<DcKey>)
    requires Confined(s, keys)
    requires e.Register? || e.Check? || e.DialStart? || e.DialEnd? || e.BatchEnd? || e.Push? || e.Release?
    requires e.task < |s.tasks|
    ensures Confined(RefillStep(c, s, e), keys)
  {
    hide AddRefilled;
    var s' := RefillStep(c, s, e);
    assert s.tasks[e.task] in s.tasks;
    assert |s'.tasks| == |s.tasks| && s'.warm == s.warm;
    assert forall i | 0 <= i < |s.tasks| :: s'.tasks[i].key == s.tasks[i].key && s.tasks[i] in s.tasks;
  }

  lemma ProcessStepKeeps(setup: Setup, p: Process, e: ProcessEvent)
    requires ProcessInv(setup, p)
    ensures ProcessInv(setup, ProcessStep(setup, p, e))
  {
    hide Step, Inv, Take;
    match e
    case Permit => OneMoreConn(p.conns);
    case Background(event) =>
      if !event.Get? && !event.Prefetch? {
        StepKeeps(setup.Pool(), p.pool, event);
        ConfinedStep(setup.Pool(), p.pool, event, BucketKeys(setup.Dcs()));
      }
    case PoolGet(i, key, at, alive, refill) =>
      if i < |p.conns| && p.conns[i] == Serving(false) && TargetIp(setup.flags, key.dc).Some? && at <= p.pool.now {
        assert key in BucketKeys(setup.Dcs()) by { assert key == DcKey(key.dc, key.media); }
        var get := Get(key, at, alive, if refill then Some(key) else None);
        StepKeeps(setup.Pool(), p.pool, get);
        ConfinedStep(setup.Pool(), p.pool, get, BucketKeys(setup.Dcs()));
        ConnUpdate(p.conns, i, Serving(true));
        ConnUpdate(p.conns, i, Serving(false));
      }
    case Accept(i) => if i < |p.conns| { ConnUpdate(p.conns, i, Serving(false)); }
    case Dial(i) => if i < |p.conns| { ConnUpdate(p.conns, i, Serving(true)); }
    case Hangup(i) => if i < |p.conns| { ConnUpdate(p.conns, i, Serving(false)); }
    case Finish(i) => if i < |p.conns| { ConnUpdate(p.conns, i, Closed); }
  }

  lemma {:induction false} ProcessRunKeeps(setup: Setup, p: Process, events: seq<ProcessEvent>)
    requires ProcessInv(setup, p)
    ensures ProcessInv(setup, ProcessRun(setup, p, events))
    decreases |events|
  {
    if events != [] {
      ProcessStepKeeps(setup, p, events[0]);
      ProcessRunKeeps(setup, ProcessStep(setup, p, events[0]), events[1..]);
    }
  }

  lemma {:induction false} PoolFdsBound(c: PoolMachine.Config<DcKey, DcKey>, s: State<DcKey, DcKey>, keys: set<DcKey>)
    requires Inv(c, s)
    ensures PoolFds(s, keys) <= 2 * c.size * |keys|
  {
    if keys != {} {
      var k :| k in keys && PoolFds(s, keys) == Idle(s, k) + InRefill(s, k) + InWarmup(s, k) + PoolFds(s, keys - {k});
      BoundOf(c, s, k);
      PoolFdsBound(c, s, keys - {k});
      assert 2 * c.size * |keys| == 2 * c.size * |keys - {k}| + 2 * c.size by {
        assert |keys| == |keys - {k}| + 1;
      }
    }
  }

  lemma BoundOf(c: PoolMachine.Config<DcKey, DcKey>, s: State<DcKey, DcKey>, k: DcKey)
    requires Inv(c, s)
    ensures Idle(s, k) + InRefill(s, k) + InWarmup(s, k) <= 2 * c.size
  {
    assert KeyOk(c, s, k);
    OpenWithinReserved(c, s.tasks, k);
  }

  /** A bucket outside the configured ones accounts for nothing. */
  lemma NothingOutside(s: State<DcKey, DcKey>, keys: set<DcKey>, k: DcKey)
    requires Confined(s, keys) && k !in keys
    ensures Idle(s, k) + InRefill(s, k) + InWarmup(s, k) == 0
  {
    NoTaskNoSum(s.tasks, k);
  }

  lemma {:induction false} NoTaskNoSum(tasks: seq<Task<DcKey, DcKey>>, k: DcKey)
    requires forall t | t in tasks :: t.key != k
    ensures Sum(Open, tasks, k) == 0
  {
    if tasks != [] {
      assert tasks[0] in tasks && forall t | t in tasks[1..] :: t in tasks;
      NoTaskNoSum(tasks[1..], k);
    }
  }

  lemma StartInv(setup: Setup)
    ensures ProcessInv(setup, Start(setup))
  {
    InitInv(setup.Pool(), BucketKeys(setup.Dcs()));
  }

  lemma Regroup(a: nat, b: nat)
    ensures 2 * a * b == 2 * (a * b)
  {}

  /** What a reachable state leaves of the limit, whatever the reserve. */
  lemma FdsBounded(setup: Setup, events: seq<ProcessEvent>)
    ensures var p := ProcessRun(setup, Start(setup), events);
      && ProcessInv(setup, p)
      && PoolFds(p.pool, BucketKeys(setup.Dcs())) <= FDS_PER_POOL_SLOT * (setup.poolSize * (2 * |setup.Dcs()|))
      && Sockets(p.conns) <= FDS_PER_CONNECTION * Held(p.conns) <= FDS_PER_CONNECTION * setup.maxConnections
  {
    hide ProcessRun, PoolFds, Sockets, Held, BucketKeys, Inv, DcRedirects;
    var p, keys := ProcessRun(setup, Start(setup), events), BucketKeys(setup.Dcs());
    StartInv(setup);
    ProcessRunKeeps(setup, Start(setup), events);
    PoolFdsBound(setup.Pool(), p.pool, keys);
    BucketCount(setup.Dcs());
    TwoSocketsEach(p.conns);
    Regroup(setup.poolSize, |keys|);
  }

  /**
   * The budget holds in every reachable state: with the automatic cap, and a finite limit that
   * leaves the eight descriptors of the smallest cap, listener, clients, direct pool and the
   * runtime's reserve never exceed the limit, however clients, refills and the warmup interleave.
   */
  lemma FdsWithinLimit(setup: Setup, fdLimit: nat, max: nat, events: seq<ProcessEvent>)
    requires fdLimit < max
    requires setup.maxConnections == AutoMaxConnections(fdLimit, setup.poolSize, 2 * |setup.Dcs()|, max)
    requires Leaves(setup, fdLimit)
    ensures var p := ProcessRun(setup, Start(setup), events);
      && RUNTIME_RESERVED_FDS + Fds(setup, p) <= fdLimit
      && RUNTIME_RESERVED_FDS + 1 + PoolFds(p.pool, BucketKeys(setup.Dcs()))
         + FDS_PER_CONNECTION * Held(p.conns) <= fdLimit
      && forall k | k !in BucketKeys(setup.Dcs()) :: Idle(p.pool, k) + InRefill(p.pool, k) + InWarmup(p.pool, k) == 0
  {
    hide ProcessRun, AutoMaxConnections, PoolFds, Sockets, Held, BucketKeys, Inv, Idle, InRefill, InWarmup, DcRedirects;
    var p, keys := ProcessRun(setup, Start(setup), events), BucketKeys(setup.Dcs());
    FdsBounded(setup, events);
    CapWithinBudget(fdLimit, setup.poolSize, 2 * |setup.Dcs()|, max);
    forall k | k !in keys ensures Idle(p.pool, k) + InRefill(p.pool, k) + InWarmup(p.pool, k) == 0 {
      NothingOutside(p.pool, keys, k);
    }
  }

  /** The reserve leaves the eight descriptors of the smallest cap. */
  predicate Leaves(setup: Setup, fdLimit: nat) {
    1 + RUNTIME_RESERVED_FDS + FDS_PER_POOL_SLOT * (setup.poolSize * (2 * |setup.Dcs()|))
      + FDS_PER_CONNECTION * MIN_MAX_CONNECTIONS <= fdLimit
  }

  // The budget is used up ----------------------------------------------------------

  /** `n` connections with both sockets open. */
  function Busy(n: nat): (conns: seq<Conn>)
    ensures |conns| == n
  {
    seq(n, _ => Serving(true))
  }

  lemma {:induction false} BusySockets(n: nat)
    ensures Held(Busy(n)) == n && Sockets(Busy(n)) == FDS_PER_CONNECTION * n
  {
    if n > 0 {
      BusySockets(n - 1);
      assert Busy(n)[1..] == Busy(n - 1);
    }
  }

  lemma {:induction false} ProcessAppend(setup: Setup, p: Process, a: seq<ProcessEvent>, b: seq<ProcessEvent>)
    ensures ProcessRun(setup, p, a + b) == ProcessRun(setup, ProcessRun(setup, p, a), b)
    decreases |a|
  {
    hide ProcessStep;
    if a == [] {
      assert a + b == b;
    } else {
      assert (a + b)[1..] == a[1..] + b;
      ProcessAppend(setup, ProcessStep(setup, p, a[0]), a[1..], b);
    }
  }

  lemma ProcessOne(setup: Setup, p: Process, e: ProcessEvent)
    ensures ProcessRun(setup, p, [e]) == ProcessStep(setup, p, e)
  {
    hide ProcessStep;
    assert [e][1..] == [];
  }

  lemma ProcessSnoc(setup: Setup, p: Process, events: seq<ProcessEvent>, e: ProcessEvent)
    ensures ProcessRun(setup, p, events + [e]) == ProcessStep(setup, ProcessRun(setup, p, events), e)
  {
    hide ProcessStep, ProcessRun;
    ProcessAppend(setup, p, events, [e]);
    ProcessOne(setup, ProcessRun(setup, p, events), e);
  }

  /** Pool events that are nobody's get happen in the background, one by one. */
  lemma {:induction false} InBackground(setup: Setup, p: Process, events: seq<Event<DcKey, DcKey>>)
    returns (es: seq<ProcessEvent>)
    requires forall e | e in events :: PoolMachine.Background(e)
    ensures ProcessRun(setup, p, es) == p.(pool := Run(setup.Pool(), p.pool, events))
    decreases |events|
  {
    hide Step;
    if events == [] { return []; }
    var e, rest := events[0], events[1..];
    assert e in events && forall f | f in rest :: f in events;
    var later := InBackground(setup, ProcessStep(setup, p, Background(e)), rest);
    es := [Background(e)] + later;
    assert es[1..] == later;
  }

  /** All buckets overfilled, by refills that the first connection's gets spawn. */
  lemma {:induction false} PoolFills(setup: Setup, p: Process) returns (es: seq<ProcessEvent>)
    requires p.conns == [Serving(false)] && setup.poolSize > 0
    requires p.pool.warm.batch.Resting? && p.pool.refilling == {}
    requires forall k | k in p.pool.warm.todo :: p.pool.Bucket(k) == [] && TargetIp(setup.flags, k.dc).Some?
    ensures var q := ProcessRun(setup, p, es);
      && q.conns == p.conns
      && (forall k | k in p.pool.warm.todo :: |q.pool.Bucket(k)| == 2 * setup.poolSize)
      && (forall k | k !in p.pool.warm.todo :: q.pool.Bucket(k) == p.pool.Bucket(k))
    decreases |p.pool.warm.todo|
  {
    hide Run, Step, ProcessRun, TargetIp;
    if p.pool.warm.todo == {} {
      NothingHappens(setup, p);
      return [];
    }
    var k :| k in p.pool.warm.todo;
    var get := PoolGet(0, k, p.pool.now, _ => false, true);
    var p1 := ProcessStep(setup, p, get);
    EmptyGet(setup.Pool(), p.pool, k, k);
    assert p1.pool == Step(setup.Pool(), p.pool, Get(k, p.pool.now, _ => false, Some(k))) && p1.conns == p.conns;
    var fill := FillsTwice(setup.Pool(), p1.pool, k, k, |p.pool.tasks|);
    var fills := InBackground(setup, p1, fill);
    var p2 := p1.(pool := Run(setup.Pool(), p1.pool, fill));
    ProcessOne(setup, p, get);
    ProcessAppend(setup, p, [get], fills);
    var rest := PoolFills(setup, p2);
    ProcessAppend(setup, p, [get] + fills, rest);
    es := [get] + fills + rest;
  }

  lemma NothingHappens(setup: Setup, p: Process)
    ensures ProcessRun(setup, p, []) == p
  {}

  /** Connections up to the cap, each with both sockets open. */
  lemma {:induction false} ConnectionsFill(setup: Setup, p: Process, n: nat) returns (es: seq<ProcessEvent>)
    requires p.conns == Busy(1) && 1 <= n <= setup.maxConnections
    ensures ProcessRun(setup, p, es) == p.(conns := Busy(n))
  {
    hide ProcessRun, Step;
    if n == 1 {
      NothingHappens(setup, p);
      return [];
    }
    es := ConnectionsFill(setup, p, n - 1);
    ProcessSnoc(setup, p, es, Permit);
    ProcessSnoc(setup, p, es + [Permit], Accept(n - 1));
    ProcessSnoc(setup, p, es + [Permit] + [Accept(n - 1)], Dial(n - 1));
    OneMoreBusy(setup, p.(conns := Busy(n - 1)), n);
    es := es + [Permit] + [Accept(n - 1)] + [Dial(n - 1)];
  }

  lemma OneMoreBusy(setup: Setup, p: Process, n: nat)
    requires 1 <= n <= setup.maxConnections && p.conns == Busy(n - 1)
    ensures ProcessStep(setup, ProcessStep(setup, ProcessStep(setup, p, Permit), Accept(n - 1)), Dial(n - 1)) ==
      p.(conns := Busy(n))
  {
    hide Step;
    BusySockets(n - 1);
    var p1 := ProcessStep(setup, p, Permit);
    assert p1.conns == Busy(n - 1) + [Waiting];
    var p2 := ProcessStep(setup, p1, Accept(n - 1));
    assert p2.conns == Busy(n - 1) + [Serving(false)];
    var p3 := ProcessStep(setup, p2, Dial(n - 1));
    assert p3.conns == Busy(n);
  }

  /** A reachable state that uses the whole budget: every bucket overfull, every permit busy. */
  lemma BudgetIsUsed(setup: Setup) returns (events: seq<ProcessEvent>)
    requires setup.maxConnections > 0
    ensures var p := ProcessRun(setup, Start(setup), events);
      && (forall k | k in BucketKeys(setup.Dcs()) :: |p.pool.Bucket(k)| == 2 * setup.poolSize)
      && p.conns == Busy(setup.maxConnections)
  {
    hide ProcessRun, Step, Run, DcRedirects, TargetIp;
    var s := Start(setup);
    var p1 := s.(conns := [Serving(false)]);
    ProcessOne(setup, s, Permit);
    ProcessSnoc(setup, s, [Permit], Accept(0));
    assert ProcessStep(setup, s, Permit).conns == [Waiting] by { NoConns(); }
    events := [Permit] + [Accept(0)];
    assert ProcessRun(setup, s, events) == p1;
    forall k | k in BucketKeys(setup.Dcs()) ensures TargetIp(setup.flags, k.dc).Some? {
      assert k.dc in setup.Dcs();
      KeyHasTarget(setup, k.dc);
    }
    var p2 := p1;
    if setup.poolSize > 0 {
      var fills := PoolFills(setup, p1);
      ProcessAppend(setup, s, events, fills);
      events := events + fills;
      p2 := ProcessRun(setup, s, events);
    }
    ProcessSnoc(setup, s, events, Dial(0));
    events := events + [Dial(0)];
    var p3 := ProcessRun(setup, s, events);
    assert p3.conns == Busy(1);
    var more := ConnectionsFill(setup, p3, setup.maxConnections);
    ProcessAppend(setup, s, events, more);
    events := events + more;
  }

  lemma NoConns()
    ensures Held([]) == 0
  {}

  lemma KeyHasTarget(setup: Setup, dc: nat)
    requires dc in setup.Dcs()
    ensures TargetIp(setup.flags, dc).Some?
  {}

  lemma {:induction false} PoolFdsExact(c: PoolMachine.Config<DcKey, DcKey>, s: State<DcKey, DcKey>, keys: set<DcKey>)
    requires Inv(c, s) && forall k | k in keys :: |s.Bucket(k)| == 2 * c.size
    ensures PoolFds(s, keys) == FDS_PER_POOL_SLOT * (c.size * |keys|)
  {
    hide Inv, InRefill, InWarmup;
    if keys != {} {
      var k :| k in keys && PoolFds(s, keys) == Idle(s, k) + InRefill(s, k) + InWarmup(s, k) + PoolFds(s, keys - {k});
      BoundOf(c, s, k);
      PoolFdsExact(c, s, keys - {k});
      assert |keys| == |keys - {k}| + 1;
      OneSlotMore(c.size, |keys - {k}|);
    }
  }

  lemma OneSlotMore(size: nat, n: nat)
    ensures size * (n + 1) == size * n + size
  {}

  /**
   * With the automatic cap and a finite limit the process stays within it in every reachable state if
   * and only if the reserve leaves the eight descriptors of the smallest cap: below that, a state is
   * reachable that overdraws.
   */
  lemma FdsFitExactly(setup: Setup, fdLimit: nat, max: nat)
    requires fdLimit < max
    requires setup.maxConnections == AutoMaxConnections(fdLimit, setup.poolSize, 2 * |setup.Dcs()|, max)
    ensures (forall events ::
             RUNTIME_RESERVED_FDS + Fds(setup, ProcessRun(setup, Start(setup), events)) <= fdLimit) <==>
      Leaves(setup, fdLimit)
  {
    hide ProcessRun, AutoMaxConnections, PoolFds, Sockets, Held, BucketKeys, Inv, DcRedirects;
    CapWithinBudget(fdLimit, setup.poolSize, 2 * |setup.Dcs()|, max);
    if Leaves(setup, fdLimit) {
      forall events ensures RUNTIME_RESERVED_FDS + Fds(setup, ProcessRun(setup, Start(setup), events)) <= fdLimit {
        FdsWithinLimit(setup, fdLimit, max, events);
      }
    } else {
      CapIsPositive(fdLimit, setup.poolSize, 2 * |setup.Dcs()|, max);
      var events := BudgetIsUsed(setup);
      var p := ProcessRun(setup, Start(setup), events);
      FdsBounded(setup, events);
      PoolFdsExact(setup.Pool(), p.pool, BucketKeys(setup.Dcs()));
      BucketCount(setup.Dcs());
      BusySockets(setup.maxConnections);
      assert RUNTIME_RESERVED_FDS + Fds(setup, p) > fdLimit;
    }
  }

  lemma CapIsPositive(fdLimit: nat, poolSize: nat, dcBuckets: nat, max: nat)
    ensures AutoMaxConnections(fdLimit, poolSize, dcBuckets, max) >= MIN_MAX_CONNECTIONS
  {}
}

/** The pool's shared state and its critical sections, each of which is one step of the machine. */
module Pool {
  import opened Bytes
  import opened PoolMachine

  datatype CfTier = Worker | Proxy

  /** Buckets are keyed by DC and media flag; the Cloudflare ones by tier as well. */
  datatype DcKey = DcKey(dc: nat, media: bool)
  datatype CfKey = CfKey(tier: CfTier, dc: nat, media: bool)

  /** Idle Cloudflare connections kept per key, whatever the pool size. */
  const CF_POOL_MAX: nat := 1

  function CfBudget(poolSize: nat): nat {
    if CF_POOL_MAX < poolSize then CF_POOL_MAX else poolSize
  }

  /** Idle connections and refill guards under their locks. */
  class Buckets<K(==,!new), V(==,!new)> {
    const size: nat
    const maxAge: nat
    const mine: (K, V) -> bool
    var idle: map<K, seq<Entry<V>>>
    var refilling: set<K>

    constructor (size: nat, maxAge: nat, mine: (K, V) -> bool)
      ensures this.size == size && this.maxAge == maxAge && this.mine == mine && idle == map[] && refilling == {}
    {
      this.size, this.maxAge, this.mine := size, maxAge, mine;
      idle, refilling := map[], {};
    }

    function Config(): Config<K, V> { PoolMachine.Config(size, maxAge, mine) }

    /** `s` is a machine state with these buckets and guards. */
    ghost predicate In(s: State<K, V>)
      reads this
    {
      s.idle == idle && s.refilling == refilling
    }

    /** The locked part of `get`: pop from the back until a connection is usable. */
    method TakeUsable(key: K, at: nat, alive: nat -> bool, ghost s: State<K, V>) returns (hit: Option<Entry<V>>)
      requires In(s) && at <= s.now
      modifies this`idle
      ensures hit == Take(s.Bucket(key), at, maxAge, alive).0
      ensures forall refill :: In(Step(Config(), s, Get(key, at, alive, refill)))
    {
      var bucket := if key in idle then idle[key] else [];
      ghost var before := bucket;
      while bucket != []
        invariant bucket <= before
        invariant Take(before, at, maxAge, alive) == Take(bucket, at, maxAge, alive)
      {
        var last := |bucket| - 1;
        var entry := bucket[last];
        bucket := bucket[..last];
        if Age(at, entry.created) > maxAge { continue; }
        if !alive(last) { continue; }
        idle := idle[key := bucket];
        return Some(entry);
      }
      idle := idle[key := bucket];
      return None;
    }

    /** Enter a refill for `key`, unless one is already in progress. */
    method BeginRefill(key: K, ghost s: State<K, V>, ghost t: nat) returns (registered: bool)
      requires In(s) && t < |s.tasks| && s.tasks[t].key == key && s.tasks[t].phase == Spawned
      modifies this`refilling
      ensures var s' := Step(Config(), s, Register(t));
        In(s') && s'.tasks[t].phase == if registered then Registered else Finished
    {
      registered := key !in refilling;
      refilling := refilling + {key};
    }

    /** How many connections a registered refill has to open; none when the bucket is full. */
    method Needed(key: K, ghost s: State<K, V>, ghost t: nat) returns (needed: Option<nat>)
      requires In(s) && t < |s.tasks| && s.tasks[t].key == key && s.tasks[t].phase == Registered
      ensures var s' := Step(Config(), s, Check(t));
        In(s') && s'.tasks[t].phase == if needed.None? then Releasing else Dialing(needed.value, [], false)
    {
      var current := if key in idle then |idle[key]| else 0;
      needed := if current >= size then None else Some(size - current);
    }

    /** Pool what a refill opened, re-checking the space; the surplus is dropped. */
    method AddRefilledConns(key: K, conns: seq<V>, now: nat, ghost s: State<K, V>, ghost t: nat)
      requires conns != []
      requires In(s) && s.now == now && t < |s.tasks| && s.tasks[t].key == key && s.tasks[t].phase == Pushing(conns)
      modifies this`idle
      ensures var s' := Step(Config(), s, Push(t));
        In(s') && s'.tasks[t].phase == Releasing
    {
      var bucket := if key in idle then idle[key] else [];
      ghost var before := bucket;
      var canAdd := if size < |bucket| then 0 else size - |bucket|;
      var i := 0;
      assert Pooled(conns[..0], now) == [];
      while i < |conns| && i < canAdd
        invariant i <= |conns| && i <= canAdd
        invariant bucket == before + Pooled(conns[..i], now)
      {
        bucket := bucket + [Entry(now, conns[i])];
        i := i + 1;
        assert Pooled(conns[..i], now) == Pooled(conns[..i - 1], now) + [Entry(now, conns[i - 1])];
      }
      assert conns[..|conns|] == conns;
      idle := idle[key := bucket];
    }

    /** The refill guard goes out of scope. */
    method EndRefill(key: K, ghost s: State<K, V>, ghost t: nat)
      requires In(s) && t < |s.tasks| && s.tasks[t].key == key && s.tasks[t].phase == Releasing
      modifies this`refilling
      ensures var s' := Step(Config(), s, Release(t));
        In(s') && s'.tasks[t].phase == Finished
    {
      refilling := refilling - {key};
    }

    /** Pool a warmup batch, without looking at the space left. */
    method AddWarm(key: K, conns: seq<V>, now: nat, ghost s: State<K, V>)
      requires In(s) && s.now == now && s.warm.batch.Filled? && s.warm.batch.key == key && s.warm.batch.conns == conns
      modifies this`idle
      ensures In(Step(Config(), s, WarmPush))
    {
      var bucket := if key in idle then idle[key] else [];
      ghost var before := bucket;
      assert Pooled(conns[..0], now) == [];
      for i := 0 to |conns|
        invariant bucket == before + Pooled(conns[..i], now)
      {
        bucket := bucket + [Entry(now, conns[i])];
        assert Pooled(conns[..i + 1], now) == Pooled(conns[..i], now) + [Entry(now, conns[i])];
      }
      assert conns[..|conns|] == conns;
      idle := idle[key := bucket];
    }
  }

  /** Open up to `count` connections of one kind, giving up at the first failure. */
  method ConnectBatch<V>(opens: V, count: nat, dial: nat -> bool) returns (conns: seq<V>)
    ensures |conns| <= count && forall i | 0 <= i < |conns| :: conns[i] == opens && dial(i)
    ensures |conns| < count ==> !dial(|conns|)
  {
    conns := [];
    for i := 0 to count
      invariant |conns| == i && forall j | 0 <= j < i :: conns[j] == opens && dial(j)
    {
      if !dial(i) { return; }
      conns := conns + [opens];
    }
  }

  // The direct tier --------------------------------------------------------------

  /** The pool of direct connections; one is known by the bucket whose DC it was dialled to. */
  function DirectPool(size: nat, maxAge: nat): PoolMachine.Config<DcKey, DcKey> {
    PoolMachine.Config(size, maxAge, (k: DcKey, v: DcKey) => k == v)
  }

  // The Cloudflare tiers ---------------------------------------------------------

  /** What a Cloudflare refill dials; the destination is for the Worker's tunnel only. */
  datatype CfTarget = CfTarget(tier: CfTier, dc: nat, media: bool, dst: string, domain: string) {
    function Key(): CfKey { CfKey(tier, dc, media) }
  }

  /** A Cloudflare connection by the connector that opened it: through a Worker, or to a proxied record. */
  datatype CfConn = ByWorker(worker: string, dst: string, dc: nat, media: bool) | ByRecord(domain: string)

  /** The connector of the target's tier. */
  function CfConnectOne(target: CfTarget): CfConn {
    match target.tier
    case Worker => ByWorker(target.domain, target.dst, target.dc, target.media)
    case Proxy => ByRecord(target.domain)
  }

  /** The target of bucket `k` that would be dialled through the host of `v`. */
  function Through(k: CfKey, v: CfConn): CfTarget {
    match v
    case ByWorker(worker, dst, _, _) => CfTarget(k.tier, k.dc, k.media, dst, worker)
    case ByRecord(domain) => CfTarget(k.tier, k.dc, k.media, "", domain)
  }

  /** The Cloudflare pool, whose refills are asked for `allowed` targets only. */
  function CfPool(poolSize: nat, maxAge: nat, allowed: CfTarget -> bool): PoolMachine.Config<CfKey, CfConn> {
    PoolMachine.Config(CfBudget(poolSize), maxAge,
                       (k: CfKey, v: CfConn) => CfConnectOne(Through(k, v)) == v && allowed(Through(k, v)))
  }

  /** What the pool opens for `k` is what the connector of its tier opens for an allowed target of `k`. */
  lemma OpensFor(poolSize: nat, maxAge: nat, allowed: CfTarget -> bool, k: CfKey, v: CfConn)
    requires CfPool(poolSize, maxAge, allowed).mine(k, v)
    ensures exists target: CfTarget :: allowed(target) && target.Key() == k && v == CfConnectOne(target)
    ensures v.ByWorker? <==> k.tier.Worker?
  {
    assert Through(k, v).Key() == k;
  }

  /** A refill asked for an allowed target is taken on, and opens what the target's connector does. */
  lemma TargetIsMine(poolSize: nat, maxAge: nat, allowed: CfTarget -> bool, target: CfTarget)
    requires target.tier.Proxy? ==> target.dst == ""
    ensures CfPool(poolSize, maxAge, allowed).mine(target.Key(), CfConnectOne(target)) <==> allowed(target)
  {
    assert Through(target.Key(), CfConnectOne(target)) == target;
  }

  /**
   * The Cloudflare pool, over every interleaving: one idle or opening connection per key at most, none
   * with pooling disabled, and every idle one opened by its own tier's connector for a target of its
   * bucket.
   */
  lemma CfPoolBound(poolSize: nat, maxAge: nat, allowed: CfTarget -> bool, events: seq<Event<CfKey, CfConn>>, k: CfKey)
    ensures var s := Run(CfPool(poolSize, maxAge, allowed), Init({}), events);
      && Idle(s, k) + InRefill(s, k) + InWarmup(s, k) <= CF_POOL_MAX
      && (poolSize == 0 ==> Idle(s, k) + InRefill(s, k) == 0)
      && forall e | e in s.Bucket(k) ::
           && (e.conn.ByWorker? <==> k.tier.Worker?)
           && exists target: CfTarget :: allowed(target) && target.Key() == k && e.conn == CfConnectOne(target)
  {
    var c := CfPool(poolSize, maxAge, allowed);
    PoolBound(c, {}, events, k);
    InitInv(c, {});
    RunKeeps(c, Init({}), events);
    var s := Run(c, Init({}), events);
    assert KeyOk(c, s, k);
    forall e | e in s.Bucket(k)
      ensures (e.conn.ByWorker? <==> k.tier.Worker?)
      ensures exists target: CfTarget :: allowed(target) && target.Key() == k && e.conn == CfConnectOne(target)
    {
      OpensFor(poolSize, maxAge, allowed, k, e.conn);
    }
  }

  /** A connection handed out by a pool: of the Cloudflare one, or of the direct one. */
  datatype Hit = CfHit(conn: CfConn) | DcHit(dialled: DcKey)
}

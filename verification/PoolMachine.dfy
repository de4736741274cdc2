/**
 * The connection pool as a machine of atomic steps: what happens under one lock, or between two
 * await points, is one event. Client gets, refill tasks and the startup warmup interleave freely.
 */
module PoolMachine {
  import opened Bytes

  /** An idle connection: when it was pooled, and what it is. */
  datatype Entry<V> = Entry(created: nat, conn: V)

  /** A refill task between two await points. `conns` are opened and not yet pooled. */
  datatype Phase<V> =
    | Spawned
    | Registered
    | Dialing(needed: nat, conns: seq<V>, open: bool)
    | Pushing(conns: seq<V>)
    | Releasing
    | Finished

  /** A refill of the bucket `key`; every connection it dials is `opens`. */
  datatype Task<K, V> = Task(key: K, opens: V, phase: Phase<V>)

  /** The one warmup task: the buckets still to visit and the batch it is dialling. */
  datatype Batch<K, V> =
    | Resting
    | Filling(key: K, opens: V, conns: seq<V>, open: bool)
    | Filled(key: K, opens: V, conns: seq<V>)
  datatype Warmup<K, V> = Warmup(todo: set<K>, batch: Batch<K, V>, pushed: set<K>)

  /** `mine(k, v)` says that dialling for the bucket `k` opens connections `v`. */
  datatype Config<-K, -V> = Config(size: nat, maxAge: nat, mine: (K, V) -> bool)

  datatype State<K, V> = State(
    now: nat,
    idle: map<K, seq<Entry<V>>>,
    refilling: set<K>,
    tasks: seq<Task<K, V>>,
    warm: Warmup<K, V>)
  {
    function Bucket(k: K): seq<Entry<V>> {
      if k in idle then idle[k] else []
    }
  }

  function Init<K, V>(todo: set<K>): State<K, V> {
    State(0, map[], {}, [], Warmup(todo, Resting, {}))
  }

  // Taking a connection ------------------------------------------------------

  function Age(now: nat, created: nat): nat {
    if now < created then 0 else now - created
  }

  /** Whether entry `i` may be handed out: young enough, and silent when polled. */
  predicate Usable<V>(e: Entry<V>, i: nat, now: nat, maxAge: nat, alive: nat -> bool) {
    Age(now, e.created) <= maxAge && alive(i)
  }

  /** Pop from the back until an entry is usable. */
  function Take<V>(bucket: seq<Entry<V>>, now: nat, maxAge: nat, alive: nat -> bool)
    : (r: (Option<Entry<V>>, seq<Entry<V>>))
  {
    if bucket == [] then (None, [])
    else
      var last := |bucket| - 1;
      if Usable(bucket[last], last, now, maxAge, alive) then (Some(bucket[last]), bucket[..last])
      else Take(bucket[..last], now, maxAge, alive)
  }

  predicate Sorted<V>(bucket: seq<Entry<V>>) {
    forall i, j | 0 <= i < j < |bucket| :: bucket[i].created <= bucket[j].created
  }

  /**
   * A hit is the newest usable entry: everything behind it in the bucket was dead, not merely old,
   * and everything in front stays. A miss means that every entry was dead or too old.
   */
  lemma {:induction false} TakeFreshest<V>(bucket: seq<Entry<V>>, now: nat, maxAge: nat, alive: nat -> bool)
    requires Sorted(bucket)
    ensures var (hit, rest) := Take(bucket, now, maxAge, alive);
      if hit.None? then
        rest == [] && forall i | 0 <= i < |bucket| :: !Usable(bucket[i], i, now, maxAge, alive)
      else
        var at := |rest|;
        && at < |bucket| && rest == bucket[..at] && hit.value == bucket[at]
        && Usable(bucket[at], at, now, maxAge, alive)
        && (forall i | at < i < |bucket| :: !alive(i) && bucket[i].created >= hit.value.created)
  {
    if bucket != [] {
      var last := |bucket| - 1;
      if !Usable(bucket[last], last, now, maxAge, alive) {
        TakeFreshest(bucket[..last], now, maxAge, alive);
        var (hit, rest) := Take(bucket[..last], now, maxAge, alive);
        if hit.Some? {
          assert rest == bucket[..|rest|];
          assert Age(now, bucket[last].created) <= Age(now, hit.value.created);
        }
      }
    }
  }

  // Steps --------------------------------------------------------------------

  datatype Event<K, V> =
    | Tick(later: nat)
    | Get(key: K, at: nat, alive: nat -> bool, refill: Option<V>)
    | Prefetch(key: K, opens: V)
    | Register(task: nat)
    | Check(task: nat)
    | DialStart(task: nat)
    | DialEnd(task: nat, ok: bool)
    | BatchEnd(task: nat)
    | Push(task: nat)
    | Release(task: nat)
    | WarmNext(key: K, opens: V)
    | WarmDialStart
    | WarmDialEnd(ok: bool)
    | WarmBatchEnd
    | WarmPush

  function Pooled<V>(conns: seq<V>, now: nat): (entries: seq<Entry<V>>)
    ensures |entries| == |conns|
  {
    seq(|conns|, i requires 0 <= i < |conns| => Entry(now, conns[i]))
  }

  /** What a refill may still add: the surplus over the pool size is dropped. */
  function Room(size: nat, len: nat): nat {
    if size < len then 0 else size - len
  }

  function AddRefilled<V>(bucket: seq<Entry<V>>, conns: seq<V>, size: nat, now: nat): (b: seq<Entry<V>>) {
    var room := Room(size, |bucket|);
    bucket + Pooled(if |conns| <= room then conns else conns[..room], now)
  }

  function Put<K, V>(s: State<K, V>, k: K, bucket: seq<Entry<V>>): State<K, V> {
    s.(idle := s.idle[k := bucket])
  }

  function Become<K, V>(s: State<K, V>, t: nat, phase: Phase<V>): State<K, V>
    requires t < |s.tasks|
  {
    s.(tasks := s.tasks[t := s.tasks[t].(phase := phase)])
  }

  function Spawn<K, V>(c: Config<K, V>, s: State<K, V>, k: K, opens: V): State<K, V> {
    if c.mine(k, opens) then s.(tasks := s.tasks + [Task(k, opens, Spawned)]) else s
  }

  /** One event; an event that is not enabled changes nothing. */
  function Step<K(==), V(==)>(c: Config<K, V>, s: State<K, V>, e: Event<K, V>): State<K, V> {
    match e
    case Tick(later) => s.(now := s.now + later)
    case Get(key, at, alive, refill) =>
      if at > s.now then s
      else
        var s' := Put(s, key, Take(s.Bucket(key), at, c.maxAge, alive).1);
        if refill.Some? then Spawn(c, s', key, refill.value) else s'
    case Prefetch(key, opens) => Spawn(c, s, key, opens)
    case WarmNext(key, opens) => WarmStep(c, s, e)
    case WarmDialStart => WarmStep(c, s, e)
    case WarmDialEnd(ok) => WarmStep(c, s, e)
    case WarmBatchEnd => WarmStep(c, s, e)
    case WarmPush => WarmStep(c, s, e)
    case _ => if e.task < |s.tasks| then RefillStep(c, s, e) else s
  }

  function RefillStep<K(==), V(==)>(c: Config<K, V>, s: State<K, V>, e: Event<K, V>): State<K, V>
    requires e.Register? || e.Check? || e.DialStart? || e.DialEnd? || e.BatchEnd? || e.Push? || e.Release?
    requires e.task < |s.tasks|
  {
    var t, k, phase := e.task, s.tasks[e.task].key, s.tasks[e.task].phase;
    match e
    case Register(_) =>
      if !phase.Spawned? then s
      else if k in s.refilling then Become(s, t, Finished)
      else Become(s.(refilling := s.refilling + {k}), t, Registered)
    case Check(_) =>
      if !phase.Registered? then s
      else if |s.Bucket(k)| >= c.size then Become(s, t, Releasing)
      else Become(s, t, Dialing(c.size - |s.Bucket(k)|, [], false))
    case DialStart(_) =>
      if phase.Dialing? && !phase.open && |phase.conns| < phase.needed then Become(s, t, phase.(open := true)) else s
    case DialEnd(_, ok) =>
      if !(phase.Dialing? && phase.open) then s
      else if ok then Become(s, t, Dialing(phase.needed, phase.conns + [s.tasks[t].opens], false))
      else Become(s, t, Pushing(phase.conns))
    case BatchEnd(_) =>
      if phase.Dialing? && !phase.open && |phase.conns| == phase.needed then Become(s, t, Pushing(phase.conns)) else s
    case Push(_) =>
      if !phase.Pushing? then s
      else if phase.conns == [] then Become(s, t, Releasing)
      else Become(Put(s, k, AddRefilled(s.Bucket(k), phase.conns, c.size, s.now)), t, Releasing)
    case Release(_) =>
      if phase.Releasing? then Become(s.(refilling := s.refilling - {k}), t, Finished) else s
  }

  function WarmStep<K(==), V(==)>(c: Config<K, V>, s: State<K, V>, e: Event<K, V>): State<K, V>
    requires e.WarmNext? || e.WarmDialStart? || e.WarmDialEnd? || e.WarmBatchEnd? || e.WarmPush?
  {
    var w, b := s.warm, s.warm.batch;
    match e
    case WarmNext(key, opens) =>
      if b.Resting? && key in w.todo && c.mine(key, opens) then
        s.(warm := Warmup(w.todo - {key}, Filling(key, opens, [], false), w.pushed))
      else s
    case WarmDialStart =>
      if b.Filling? && !b.open && |b.conns| < c.size then s.(warm := w.(batch := b.(open := true))) else s
    case WarmDialEnd(ok) =>
      if !(b.Filling? && b.open) then s
      else if ok then s.(warm := w.(batch := Filling(b.key, b.opens, b.conns + [b.opens], false)))
      else s.(warm := w.(batch := Filled(b.key, b.opens, b.conns)))
    case WarmBatchEnd =>
      if b.Filling? && !b.open && |b.conns| == c.size then
        s.(warm := w.(batch := Filled(b.key, b.opens, b.conns)))
      else s
    case WarmPush =>
      if b.Filled? then
        Put(s, b.key, s.Bucket(b.key) + Pooled(b.conns, s.now)).(warm := Warmup(w.todo, Resting, w.pushed + {b.key}))
      else s
  }

  function Run<K(==), V(==)>(c: Config<K, V>, s: State<K, V>, events: seq<Event<K, V>>): State<K, V>
    decreases |events|
  {
    if events == [] then s else Run(c, Step(c, s, events[0]), events[1..])
  }

  // Counting -----------------------------------------------------------------

  /** What to count of the tasks of a key: guards held, budget reserved, connections open. */
  datatype Measure = Guards | Reserved | Open

  function Weight<V>(m: Measure, p: Phase<V>): nat {
    match m
    case Guards => if p.Spawned? || p.Finished? then 0 else 1
    case Reserved => if p.Dialing? then p.needed else if p.Pushing? then |p.conns| else 0
    case Open =>
      if p.Dialing? then |p.conns| + (if p.open then 1 else 0) else if p.Pushing? then |p.conns| else 0
  }

  function Sum<K(==), V(==)>(m: Measure, tasks: seq<Task<K, V>>, k: K): nat {
    if tasks == [] then 0
    else (if tasks[0].key == k then Weight(m, tasks[0].phase) else 0) + Sum(m, tasks[1..], k)
  }

  lemma {:induction false} SumUpdate<K, V>(m: Measure, tasks: seq<Task<K, V>>, t: nat, phase: Phase<V>, k: K)
    requires t < |tasks|
    ensures var old_, new_ := tasks[t], tasks[t].(phase := phase);
      Sum(m, tasks[t := new_], k) + (if old_.key == k then Weight(m, old_.phase) else 0) ==
      Sum(m, tasks, k) + (if old_.key == k then Weight(m, phase) else 0)
  {
    var new_ := tasks[t].(phase := phase);
    if t == 0 {
      assert tasks[t := new_][1..] == tasks[1..];
    } else {
      SumUpdate(m, tasks[1..], t - 1, phase, k);
      assert tasks[t := new_][1..] == tasks[1..][t - 1 := new_];
    }
  }

  lemma {:induction false} SumAppend<K, V>(m: Measure, tasks: seq<Task<K, V>>, task: Task<K, V>, k: K)
    ensures Sum(m, tasks + [task], k) == Sum(m, tasks, k) + if task.key == k then Weight(m, task.phase) else 0
  {
    if tasks == [] {
      assert tasks + [task] == [task] && [task][1..] == [];
    } else {
      SumAppend(m, tasks[1..], task, k);
      assert (tasks + [task])[1..] == tasks[1..] + [task];
    }
  }

  lemma {:induction false} NoGuardNoBudget<K, V>(m: Measure, tasks: seq<Task<K, V>>, k: K)
    requires Sum(Guards, tasks, k) == 0
    ensures Sum(m, tasks, k) == 0
  {
    if tasks != [] { NoGuardNoBudget(m, tasks[1..], k); }
  }

  /** With one guard held for a key, its holder is the only task with budget for it. */
  lemma SoleHolder<K, V>(m: Measure, tasks: seq<Task<K, V>>, t: nat)
    requires t < |tasks| && Weight(Guards, tasks[t].phase) == 1 && Sum(Guards, tasks, tasks[t].key) == 1
    ensures Sum(m, tasks, tasks[t].key) == Weight(m, tasks[t].phase)
  {
    var k, without := tasks[t].key, tasks[t := tasks[t].(phase := Finished)];
    SumUpdate(Guards, tasks, t, Finished, k);
    NoGuardNoBudget(m, without, k);
    SumUpdate(m, tasks, t, Finished, k);
  }

  lemma {:induction false} OpenWithinReserved<K, V>(c: Config<K, V>, tasks: seq<Task<K, V>>, k: K)
    requires forall t | t in tasks :: TaskOk(c, t)
    ensures Sum(Open, tasks, k) <= Sum(Reserved, tasks, k)
  {
    if tasks != [] {
      assert TaskOk(c, tasks[0]) && forall t | t in tasks[1..] :: t in tasks;
      OpenWithinReserved(c, tasks[1..], k);
    }
  }

  // The invariant ------------------------------------------------------------

  predicate AllOf<V(==)>(conns: seq<V>, opens: V) {
    forall v | v in conns :: v == opens
  }

  predicate TaskOk<K, V(==)>(c: Config<K, V>, t: Task<K, V>) {
    && c.mine(t.key, t.opens)
    && Weight(Open, t.phase) <= Weight(Reserved, t.phase)
    && (t.phase.Dialing? || t.phase.Pushing? ==> AllOf(t.phase.conns, t.opens))
  }

  function WarmOpen<K(==), V(==)>(w: Warmup<K, V>, k: K): nat {
    if w.batch.Resting? || w.batch.key != k then 0
    else |w.batch.conns| + if w.batch.Filling? && w.batch.open then 1 else 0
  }

  predicate WarmOk<K(==), V(==)>(c: Config<K, V>, w: Warmup<K, V>) {
    && w.todo !! w.pushed
    && (!w.batch.Resting? ==>
          && w.batch.key !in w.todo && w.batch.key !in w.pushed
          && WarmOpen(w, w.batch.key) <= c.size
          && c.mine(w.batch.key, w.batch.opens) && AllOf(w.batch.conns, w.batch.opens))
  }

  /** The budget of a bucket: one pool size, and another once the warmup has pushed into it. */
  function Budget<K(==), V(==)>(c: Config<K, V>, w: Warmup<K, V>, k: K): nat {
    if k in w.pushed then 2 * c.size else c.size
  }

  predicate BucketOk<K(==), V(==)>(c: Config<K, V>, s: State<K, V>, k: K) {
    var b := s.Bucket(k);
    && Sorted(b)
    && forall e | e in b :: e.created <= s.now && c.mine(k, e.conn)
  }

  predicate KeyOk<K(==), V(==)>(c: Config<K, V>, s: State<K, V>, k: K) {
    && Sum(Guards, s.tasks, k) == (if k in s.refilling then 1 else 0)
    && |s.Bucket(k)| + Sum(Reserved, s.tasks, k) <= Budget(c, s.warm, k)
    && BucketOk(c, s, k)
  }

  ghost predicate Inv<K(!new), V(!new)>(c: Config<K, V>, s: State<K, V>) {
    && (forall k: K :: KeyOk(c, s, k))
    && (forall t | t in s.tasks :: TaskOk(c, t))
    && WarmOk(c, s.warm)
  }

  lemma InitInv<K(!new), V(!new)>(c: Config<K, V>, todo: set<K>)
    ensures Inv(c, Init(todo))
  {}

  /** A step that touches only bucket and task of key `k` keeps every other key's invariant. */
  ghost predicate OnlyKey<K(!new), V(!new)>(s: State<K, V>, s': State<K, V>, k: K) {
    && s.now <= s'.now
    && forall o: K | o != k ::
         && s'.Bucket(o) == s.Bucket(o) && (o in s'.refilling) == (o in s.refilling)
         && (o in s'.warm.pushed) == (o in s.warm.pushed)
         && (forall m :: Sum(m, s'.tasks, o) == Sum(m, s.tasks, o))
  }

  lemma OthersKept<K(!new), V(!new)>(c: Config<K, V>, s: State<K, V>, s': State<K, V>, k: K)
    requires Inv(c, s) && OnlyKey(s, s', k)
    requires KeyOk(c, s', k)
    ensures forall o: K :: KeyOk(c, s', o)
  {
    forall o: K ensures KeyOk(c, s', o) {
      if o != k {
        assert KeyOk(c, s, o);
        assert Sum(Guards, s'.tasks, o) == Sum(Guards, s.tasks, o);
        assert Sum(Reserved, s'.tasks, o) == Sum(Reserved, s.tasks, o);
      }
    }
  }

  /** New connections at the back keep a bucket sorted and of one kind. */
  lemma BucketGrows<K(!new), V(!new)>(c: Config<K, V>, s: State<K, V>, k: K, opens: V, conns: seq<V>)
    requires BucketOk(c, s, k) && c.mine(k, opens) && AllOf(conns, opens)
    ensures BucketOk(c, Put(s, k, s.Bucket(k) + Pooled(conns, s.now)), k)
  {
    var b: seq<Entry<V>> := s.Bucket(k);
    var grown: seq<Entry<V>> := b + Pooled(conns, s.now);
    forall i | 0 <= i < |grown| ensures grown[i].created <= s.now && c.mine(k, grown[i].conn) {
      if i < |b| { assert b[i] in b; } else { assert conns[i - |b|] in conns; }
    }
  }

  /** One task moves to `phase`, and bucket and guard of its key have become those of `base`. */
  lemma TaskMoves<K(!new), V(!new)>(c: Config<K, V>, s: State<K, V>, base: State<K, V>, t: nat, phase: Phase<V>)
    requires Inv(c, s) && t < |s.tasks|
    requires base == s.(idle := base.idle, refilling := base.refilling)
    requires forall o: K | o != s.tasks[t].key ::
      base.Bucket(o) == s.Bucket(o) && (o in base.refilling) == (o in s.refilling)
    requires BucketOk(c, base, s.tasks[t].key) && TaskOk(c, s.tasks[t].(phase := phase))
    requires var k, before := s.tasks[t].key, s.tasks[t].phase;
      && (if k in base.refilling then 1 else 0) + Weight(Guards, before) ==
         (if k in s.refilling then 1 else 0) + Weight(Guards, phase)
      && |base.Bucket(k)| + Sum(Reserved, s.tasks, k) + Weight(Reserved, phase) <=
         Budget(c, s.warm, k) + Weight(Reserved, before)
    ensures Inv(c, Become(base, t, phase))
  {
    hide Weight, Sorted;
    var k, s' := s.tasks[t].key, Become(base, t, phase);
    assert KeyOk(c, s, k);
    forall m, o: K ensures Sum(m, s'.tasks, o) + (if k == o then Weight(m, s.tasks[t].phase) else 0) ==
        Sum(m, s.tasks, o) + (if k == o then Weight(m, phase) else 0)
    {
      SumUpdate(m, s.tasks, t, phase, o);
    }
    assert s'.Bucket(k) == base.Bucket(k);
    assert KeyOk(c, s', k);
    OthersKept(c, s, s', k);
  }

  lemma PushKeeps<K(!new), V(!new)>(c: Config<K, V>, s: State<K, V>, t: nat)
    requires Inv(c, s) && t < |s.tasks| && s.tasks[t].phase.Pushing?
    ensures var k := s.tasks[t].key;
      Inv(c, Become(Put(s, k, AddRefilled(s.Bucket(k), s.tasks[t].phase.conns, c.size, s.now)), t, Releasing))
  {
    var k, conns := s.tasks[t].key, s.tasks[t].phase.conns;
    assert KeyOk(c, s, k) && TaskOk(c, s.tasks[t]);
    SumUpdate(Reserved, s.tasks, t, Finished, k);
    var room := Room(c.size, |s.Bucket(k)|);
    var added := if |conns| <= room then conns else conns[..room];
    assert forall x | x in added :: x in conns;
    BucketGrows(c, s, k, s.tasks[t].opens, added);
    TaskMoves(c, s, Put(s, k, AddRefilled(s.Bucket(k), conns, c.size, s.now)), t, Releasing);
  }

  lemma RefillKeeps<K(!new), V(!new)>(c: Config<K, V>, s: State<K, V>, e: Event<K, V>)
    requires Inv(c, s)
    requires e.Register? || e.Check? || e.DialStart? || e.DialEnd? || e.BatchEnd? || e.Push? || e.Release?
    requires e.task < |s.tasks|
    ensures Inv(c, RefillStep(c, s, e))
  {
    hide Sum, Sorted;
    var t, k, phase := e.task, s.tasks[e.task].key, s.tasks[e.task].phase;
    assert KeyOk(c, s, k) && TaskOk(c, s.tasks[t]);
    match e
    case Register(_) =>
      if phase.Spawned? {
        if k in s.refilling { TaskMoves(c, s, s, t, Finished); }
        else { TaskMoves(c, s, s.(refilling := s.refilling + {k}), t, Registered); }
      }
    case Check(_) =>
      if phase.Registered? {
        SumUpdate(Guards, s.tasks, t, Finished, k);
        SoleHolder(Reserved, s.tasks, t);
        if |s.Bucket(k)| >= c.size { TaskMoves(c, s, s, t, Releasing); }
        else { TaskMoves(c, s, s, t, Dialing(c.size - |s.Bucket(k)|, [], false)); }
      }
    case DialStart(_) =>
      if phase.Dialing? && !phase.open && |phase.conns| < phase.needed { TaskMoves(c, s, s, t, phase.(open := true)); }
    case DialEnd(_, ok) =>
      if phase.Dialing? && phase.open {
        if ok { TaskMoves(c, s, s, t, Dialing(phase.needed, phase.conns + [s.tasks[t].opens], false)); }
        else { TaskMoves(c, s, s, t, Pushing(phase.conns)); }
      }
    case BatchEnd(_) =>
      if phase.Dialing? && !phase.open && |phase.conns| == phase.needed { TaskMoves(c, s, s, t, Pushing(phase.conns)); }
    case Push(_) =>
      if phase.Pushing? {
        if phase.conns == [] { TaskMoves(c, s, s, t, Releasing); } else { PushKeeps(c, s, t); }
      }
    case Release(_) =>
      SumUpdate(Guards, s.tasks, t, Finished, k);
      if phase.Releasing? { TaskMoves(c, s, s.(refilling := s.refilling - {k}), t, Finished); }
  }

  lemma WarmKeeps<K(!new), V(!new)>(c: Config<K, V>, s: State<K, V>, e: Event<K, V>)
    requires Inv(c, s)
    requires e.WarmNext? || e.WarmDialStart? || e.WarmDialEnd? || e.WarmBatchEnd? || e.WarmPush?
    ensures Inv(c, WarmStep(c, s, e))
  {
    var s' := WarmStep(c, s, e);
    if e.WarmPush? && s.warm.batch.Filled? {
      var k := s.warm.batch.key;
      assert KeyOk(c, s, k);
      BucketGrows(c, s, k, s.warm.batch.opens, s.warm.batch.conns);
      assert KeyOk(c, s', k);
      OthersKept(c, s, s', k);
    } else {
      forall k: K ensures KeyOk(c, s', k) { assert KeyOk(c, s, k); }
    }
  }

  lemma SpawnKeeps<K(!new), V(!new)>(c: Config<K, V>, s: State<K, V>, k: K, opens: V)
    requires Inv(c, s)
    ensures Inv(c, Spawn(c, s, k, opens))
  {
    if c.mine(k, opens) {
      var task: Task<K, V> := Task(k, opens, Spawned);
      var s' := s.(tasks := s.tasks + [task]);
      forall o: K ensures KeyOk(c, s', o) {
        assert KeyOk(c, s, o);
        SumAppend(Guards, s.tasks, task, o);
        SumAppend(Reserved, s.tasks, task, o);
      }
      assert TaskOk(c, task);
    }
  }

  lemma TakeKeeps<K(!new), V(!new)>(c: Config<K, V>, s: State<K, V>, k: K, at: nat, alive: nat -> bool)
    requires Inv(c, s)
    ensures Inv(c, Put(s, k, Take(s.Bucket(k), at, c.maxAge, alive).1))
  {
    var s' := Put(s, k, Take(s.Bucket(k), at, c.maxAge, alive).1);
    assert KeyOk(c, s, k);
    TakeFreshest(s.Bucket(k), at, c.maxAge, alive);
    assert s'.Bucket(k) <= s.Bucket(k);
    assert KeyOk(c, s', k);
    OthersKept(c, s, s', k);
  }

  /** Every event keeps the invariant. */
  lemma StepKeeps<K(!new), V(!new)>(c: Config<K, V>, s: State<K, V>, e: Event<K, V>)
    requires Inv(c, s)
    ensures Inv(c, Step(c, s, e))
  {
    match e
    case Tick(later) =>
      forall k: K ensures KeyOk(c, Step(c, s, e), k) { assert KeyOk(c, s, k); }
    case Get(key, at, alive, refill) =>
      if at <= s.now {
        TakeKeeps(c, s, key, at, alive);
        if refill.Some? { SpawnKeeps(c, Put(s, key, Take(s.Bucket(key), at, c.maxAge, alive).1), key, refill.value); }
      }
    case Prefetch(key, opens) => SpawnKeeps(c, s, key, opens);
    case WarmNext(key, opens) => WarmKeeps(c, s, e);
    case WarmDialStart => WarmKeeps(c, s, e);
    case WarmDialEnd(ok) => WarmKeeps(c, s, e);
    case WarmBatchEnd => WarmKeeps(c, s, e);
    case WarmPush => WarmKeeps(c, s, e);
    case _ => if e.task < |s.tasks| { RefillKeeps(c, s, e); }
  }

  lemma {:induction false} RunKeeps<K(!new), V(!new)>(c: Config<K, V>, s: State<K, V>, events: seq<Event<K, V>>)
    requires Inv(c, s)
    ensures Inv(c, Run(c, s, events))
    decreases |events|
  {
    if events != [] {
      StepKeeps(c, s, events[0]);
      RunKeeps(c, Step(c, s, events[0]), events[1..]);
    }
  }

  /** What the get that came last is answered. */
  function Answered<K(==), V(==)>(c: Config<K, V>, todo: set<K>, events: seq<Event<K, V>>): Option<V>
    requires events != [] && events[|events| - 1].Get?
  {
    var before, get := events[..|events| - 1], events[|events| - 1];
    var entry := Take(Run(c, Init(todo), before).Bucket(get.key), get.at, c.maxAge, get.alive).0;
    if entry.Some? then Some(entry.value.conn) else None
  }

  // What every reachable state satisfies --------------------------------------

  /** Connections a bucket accounts for: idle, held by refills, held by the warmup. */
  function Idle<K(==), V(==)>(s: State<K, V>, k: K): nat { |s.Bucket(k)| }
  function InRefill<K(==), V(==)>(s: State<K, V>, k: K): nat { Sum(Open, s.tasks, k) }
  function InWarmup<K(==), V(==)>(s: State<K, V>, k: K): nat { WarmOpen(s.warm, k) }

  /**
   * The pool bound, over every interleaving: a bucket never accounts for more than twice the pool
   * size, and until the warmup has pushed into it idle and refilling stay within one pool size.
   * Buckets the warmup does not visit never exceed one pool size.
   */
  lemma PoolBound<K(!new), V(!new)>(c: Config<K, V>, todo: set<K>, events: seq<Event<K, V>>, k: K)
    ensures var s := Run(c, Init(todo), events);
      && Idle(s, k) + InRefill(s, k) + InWarmup(s, k) <= 2 * c.size
      && (k !in s.warm.pushed ==> Idle(s, k) + InRefill(s, k) <= c.size)
      && (k !in todo ==> Idle(s, k) + InRefill(s, k) + InWarmup(s, k) <= c.size)
  {
    var s := Run(c, Init(todo), events);
    InitInv(c, todo);
    RunKeeps(c, Init(todo), events);
    WarmupStaysIn(c, Init(todo), events, todo);
    assert KeyOk(c, s, k);
    OpenWithinReserved(c, s.tasks, k);
  }

  /** The warmup only ever touches the buckets it was started for. */
  lemma {:induction false} WarmupStaysIn<K(!new), V(!new)>(c: Config<K, V>, s: State<K, V>,
                                                           events: seq<Event<K, V>>, todo: set<K>)
    requires s.warm.todo <= todo && s.warm.pushed <= todo && (!s.warm.batch.Resting? ==> s.warm.batch.key in todo)
    ensures var w := Run(c, s, events).warm;
      w.pushed <= todo && (!w.batch.Resting? ==> w.batch.key in todo)
    decreases |events|
  {
    if events != [] { WarmupStaysIn(c, Step(c, s, events[0]), events[1..], todo); }
  }

  /** At most one task holds a bucket's refill guard, and only that task holds connections for it. */
  lemma OneRefillPerKey<K(!new), V(!new)>(c: Config<K, V>, todo: set<K>, events: seq<Event<K, V>>, t: nat, u: nat)
    requires var s := Run(c, Init(todo), events);
      && t < u < |s.tasks| && s.tasks[t].key == s.tasks[u].key
    ensures var s := Run(c, Init(todo), events);
      Weight(Guards, s.tasks[t].phase) == 0 || Weight(Guards, s.tasks[u].phase) == 0
  {
    var s := Run(c, Init(todo), events);
    InitInv(c, todo);
    RunKeeps(c, Init(todo), events);
    var k, without := s.tasks[t].key, s.tasks[t := s.tasks[t].(phase := Finished)];
    assert KeyOk(c, s, k);
    SumUpdate(Guards, s.tasks, t, Finished, k);
    SumUpdate(Guards, without, u, Finished, k);
  }

  /**
   * What a `get` hands out in any reachable state: the newest usable connection of the bucket, one
   * that dialling for this very bucket opens; a miss means that nothing in it was usable.
   */
  lemma HitsAreFreshest<K(!new), V(!new)>(c: Config<K, V>, todo: set<K>, events: seq<Event<K, V>>, k: K, at: nat,
                                          alive: nat -> bool)
    ensures var b := Run(c, Init(todo), events).Bucket(k);
      var (hit, rest) := Take(b, at, c.maxAge, alive);
      if hit.None? then forall i | 0 <= i < |b| :: !Usable(b[i], i, at, c.maxAge, alive)
      else
        && c.mine(k, hit.value.conn)
        && |rest| < |b| && hit.value == b[|rest|] && Usable(hit.value, |rest|, at, c.maxAge, alive)
        && forall i | 0 <= i < |b| && Usable(b[i], i, at, c.maxAge, alive) :: b[i].created <= hit.value.created
  {
    InitInv(c, todo);
    RunKeeps(c, Init(todo), events);
    assert KeyOk(c, Run(c, Init(todo), events), k);
    TakeFreshest(Run(c, Init(todo), events).Bucket(k), at, c.maxAge, alive);
  }

  // The bound is reached ---------------------------------------------------------

  function Copies<V>(n: nat, v: V): (s: seq<V>)
    ensures |s| == n
  {
    seq(n, _ => v)
  }

  /** An event that is neither a client's get nor a prefetch. */
  predicate Background<K, V>(e: Event<K, V>) { !e.Get? && !e.Prefetch? }

  lemma NoEvents<K, V>(c: Config<K, V>, s: State<K, V>)
    ensures Run(c, s, []) == s
  {}

  lemma RunOne<K, V>(c: Config<K, V>, s: State<K, V>, e: Event<K, V>, rest: seq<Event<K, V>>)
    ensures Run(c, s, [e] + rest) == Run(c, Step(c, s, e), rest)
  {
    assert ([e] + rest)[1..] == rest;
  }

  lemma {:induction false} RunAppend<K, V>(c: Config<K, V>, s: State<K, V>, a: seq<Event<K, V>>, b: seq<Event<K, V>>)
    ensures Run(c, s, a + b) == Run(c, Run(c, s, a), b)
    decreases |a|
  {
    hide Step;
    if a == [] {
      assert a + b == b;
    } else {
      assert (a + b)[1..] == a[1..] + b;
      RunAppend(c, Step(c, s, a[0]), a[1..], b);
    }
  }

  lemma RunSnoc<K, V>(c: Config<K, V>, s: State<K, V>, events: seq<Event<K, V>>, e: Event<K, V>)
    ensures Run(c, s, events + [e]) == Step(c, Run(c, s, events), e)
  {
    hide Step, Run;
    RunAppend(c, s, events, [e]);
    RunOne(c, Run(c, s, events), e, []);
    assert [e] + [] == [e];
    NoEvents(c, Step(c, Run(c, s, events), e));
  }

  /** The warmup of bucket `k` with `n` connections open. */
  function Warming<K(==), V(==)>(s: State<K, V>, k: K, v: V, n: nat): State<K, V> {
    s.(warm := Warmup(s.warm.todo - {k}, Filling(k, v, Copies(n, v), false), s.warm.pushed))
  }

  lemma {:induction false} WarmDials<K, V>(c: Config<K, V>, s: State<K, V>, k: K, v: V, n: nat)
    returns (events: seq<Event<K, V>>)
    requires n <= c.size
    ensures Run(c, Warming(s, k, v, 0), events) == Warming(s, k, v, n)
    ensures forall e | e in events :: Background(e)
  {
    hide Run;
    if n == 0 {
      NoEvents(c, Warming(s, k, v, 0));
      return [];
    }
    events := WarmDials(c, s, k, v, n - 1);
    RunSnoc(c, Warming(s, k, v, 0), events, WarmDialStart);
    RunSnoc(c, Warming(s, k, v, 0), events + [WarmDialStart], WarmDialEnd(true));
    assert Copies(n - 1, v) + [v] == Copies(n, v);
    events := events + [WarmDialStart] + [WarmDialEnd(true)];
  }

  /** Refill task `t` of bucket `k` with `n` of its connections open. */
  function Dialling<K, V>(c: Config<K, V>, s: State<K, V>, t: nat, k: K, v: V, n: nat): State<K, V>
    requires t < |s.tasks|
  {
    s.(tasks := s.tasks[t := Task(k, v, Dialing(c.size, Copies(n, v), false))])
  }

  lemma {:induction false} RefillDials<K, V>(c: Config<K, V>, s: State<K, V>, t: nat, k: K, v: V, n: nat)
    returns (events: seq<Event<K, V>>)
    requires n <= c.size && t < |s.tasks|
    ensures Run(c, Dialling(c, s, t, k, v, 0), events) == Dialling(c, s, t, k, v, n)
    ensures forall e | e in events :: Background(e)
  {
    hide Run;
    if n == 0 {
      NoEvents(c, Dialling(c, s, t, k, v, 0));
      return [];
    }
    events := RefillDials(c, s, t, k, v, n - 1);
    RunSnoc(c, Dialling(c, s, t, k, v, 0), events, DialStart(t));
    RunSnoc(c, Dialling(c, s, t, k, v, 0), events + [DialStart(t)], DialEnd(t, true));
    assert Copies(n - 1, v) + [v] == Copies(n, v);
    ReDialled(c, s, t, k, v, n);
    events := events + [DialStart(t)] + [DialEnd(t, true)];
  }

  lemma ReDialled<K, V>(c: Config<K, V>, s: State<K, V>, t: nat, k: K, v: V, n: nat)
    requires 0 < n <= c.size && t < |s.tasks|
    ensures Step(c, Step(c, Dialling(c, s, t, k, v, n - 1), DialStart(t)), DialEnd(t, true)) ==
      Dialling(c, s, t, k, v, n)
  {
    assert Copies(n - 1, v) + [v] == Copies(n, v);
    var s1 := Step(c, Dialling(c, s, t, k, v, n - 1), DialStart(t));
    assert s1.tasks == s.tasks[t := Task(k, v, Dialing(c.size, Copies(n - 1, v), true))];
  }

  /** The warmup of `k` fills up, and stays in front of its push. */
  lemma WarmFills<K, V>(c: Config<K, V>, s: State<K, V>, k: K, v: V) returns (events: seq<Event<K, V>>)
    requires s.warm.batch.Resting? && k in s.warm.todo && c.mine(k, v)
    ensures Run(c, s, events) == s.(warm := Warmup(s.warm.todo - {k}, Filled(k, v, Copies(c.size, v)), s.warm.pushed))
    ensures forall e | e in events :: Background(e)
  {
    hide Run;
    var dials := WarmDials(c, s, k, v, c.size);
    assert Copies(0, v) == [];
    assert Step(c, s, WarmNext(k, v)) == Warming(s, k, v, 0);
    RunOne(c, s, WarmNext(k, v), dials);
    RunSnoc(c, s, [WarmNext(k, v)] + dials, WarmBatchEnd);
    events := [WarmNext(k, v)] + dials + [WarmBatchEnd];
  }

  /** A refill of the empty bucket `k` fills it. */
  lemma RefillFills<K, V>(c: Config<K, V>, s: State<K, V>, k: K, v: V, t: nat) returns (events: seq<Event<K, V>>)
    requires t < |s.tasks| && s.tasks[t] == Task(k, v, Spawned) && k !in s.refilling && s.Bucket(k) == [] && c.size > 0
    ensures Run(c, s, events) ==
      Put(s, k, Pooled(Copies(c.size, v), s.now)).(tasks := s.tasks[t := Task(k, v, Finished)])
    ensures forall e | e in events :: Background(e)
  {
    hide Run, Step;
    var r := s.(refilling := s.refilling + {k});
    var dials := RefillDials(c, r, t, k, v, c.size);
    RefillOpens(c, s, k, v, t);
    RunOne(c, s, Register(t), [Check(t)] + dials);
    RunOne(c, Step(c, s, Register(t)), Check(t), dials);
    var front := [Register(t)] + ([Check(t)] + dials);
    RunSnoc(c, s, front, BatchEnd(t));
    RunSnoc(c, s, front + [BatchEnd(t)], Push(t));
    RunSnoc(c, s, front + [BatchEnd(t)] + [Push(t)], Release(t));
    RefillCloses(c, s, k, v, t);
    events := front + [BatchEnd(t)] + [Push(t)] + [Release(t)];
  }

  lemma RefillOpens<K, V>(c: Config<K, V>, s: State<K, V>, k: K, v: V, t: nat)
    requires t < |s.tasks| && s.tasks[t] == Task(k, v, Spawned) && k !in s.refilling && s.Bucket(k) == [] && c.size > 0
    ensures Step(c, Step(c, s, Register(t)), Check(t)) == Dialling(c, s.(refilling := s.refilling + {k}), t, k, v, 0)
  {
    assert Copies(0, v) == [];
    var s1 := Step(c, s, Register(t));
    assert s1.tasks == s.tasks[t := Task(k, v, Registered)];
  }

  lemma RefillCloses<K, V>(c: Config<K, V>, s: State<K, V>, k: K, v: V, t: nat)
    requires t < |s.tasks| && k !in s.refilling && s.Bucket(k) == [] && c.size > 0
    ensures var full := Dialling(c, s.(refilling := s.refilling + {k}), t, k, v, c.size);
      Step(c, Step(c, Step(c, full, BatchEnd(t)), Push(t)), Release(t)) ==
      Put(s, k, Pooled(Copies(c.size, v), s.now)).(tasks := s.tasks[t := Task(k, v, Finished)])
  {
    var conns := Copies(c.size, v);
    var r := s.(refilling := s.refilling + {k});
    var s1 := Step(c, Dialling(c, r, t, k, v, c.size), BatchEnd(t));
    assert s1.tasks == s.tasks[t := Task(k, v, Pushing(conns))];
    var s2 := Step(c, s1, Push(t));
    assert AddRefilled([], conns, c.size, s.now) == Pooled(conns, s.now);
    assert s2.tasks == s.tasks[t := Task(k, v, Releasing)];
    assert s.refilling + {k} - {k} == s.refilling;
  }

  /** What a bucket, and only it, looks like behind a refill and the warmup's push. */
  ghost predicate Overfull<K(!new), V(!new)>(c: Config<K, V>, s: State<K, V>, s': State<K, V>, k: K) {
    && |s'.Bucket(k)| == 2 * c.size && s'.now == s.now && s'.refilling == s.refilling
    && s'.warm.batch.Resting? && s'.warm.todo == s.warm.todo - {k}
    && forall o: K | o != k :: s'.Bucket(o) == s.Bucket(o)
  }

  /** The warmup dials for `k`, a refill fills the bucket meanwhile, and then the warmup pushes. */
  lemma FillsTwice<K(!new), V(!new)>(c: Config<K, V>, s: State<K, V>, k: K, v: V, t: nat)
    returns (events: seq<Event<K, V>>)
    requires s.warm.batch.Resting? && k in s.warm.todo && c.mine(k, v) && c.size > 0
    requires t < |s.tasks| && s.tasks[t] == Task(k, v, Spawned) && k !in s.refilling && s.Bucket(k) == []
    ensures Overfull(c, s, Run(c, s, events), k)
    ensures forall e | e in events :: Background(e)
  {
    hide Run;
    var warm := WarmFills(c, s, k, v);
    var w := Run(c, s, warm);
    var refill := RefillFills(c, w, k, v, t);
    RunAppend(c, s, warm, refill);
    RunSnoc(c, s, warm + refill, WarmPush);
    events := warm + refill + [WarmPush];
  }

  /** A get of an empty bucket finds nothing and spawns a refill. */
  lemma EmptyGet<K(!new), V(!new)>(c: Config<K, V>, s: State<K, V>, k: K, v: V)
    requires s.Bucket(k) == [] && c.mine(k, v)
    ensures var s' := Step(c, s, Get(k, s.now, _ => false, Some(v)));
      && s' == Put(s, k, []).(tasks := s.tasks + [Task(k, v, Spawned)])
      && forall o: K :: s'.Bucket(o) == s.Bucket(o)
  {}

  lemma {:induction false} AllFillTwice<K(!new), V(!new)>(c: Config<K, V>, s: State<K, V>, opens: K -> V)
    returns (events: seq<Event<K, V>>)
    requires s.warm.batch.Resting? && s.refilling == {} && c.size > 0
    requires forall k | k in s.warm.todo :: s.Bucket(k) == [] && c.mine(k, opens(k))
    ensures forall k | k in s.warm.todo :: |Run(c, s, events).Bucket(k)| == 2 * c.size
    ensures forall k: K | k !in s.warm.todo :: Run(c, s, events).Bucket(k) == s.Bucket(k)
    decreases |s.warm.todo|
  {
    hide Run, Step;
    if s.warm.todo == {} {
      NoEvents(c, s);
      return [];
    }
    var k :| k in s.warm.todo;
    var v := opens(k);
    var get := Get(k, s.now, _ => false, Some(v));
    var s1 := Step(c, s, get);
    EmptyGet(c, s, k, v);
    var fill := FillsTwice(c, s1, k, v, |s.tasks|);
    var s2 := Run(c, s1, fill);
    RunOne(c, s, get, fill);
    var rest := AllFillTwice(c, s2, opens);
    RunAppend(c, s, [get] + fill, rest);
    events := [get] + fill + rest;
  }

  /**
   * The bound is reached, for every pool size and by all buckets of the warmup at once: each is filled
   * by a refill while the warmup is still dialling for it.
   */
  lemma BoundIsReached<K(!new), V(!new)>(c: Config<K, V>, todo: set<K>, opens: K -> V)
    requires c.size > 0 && forall k | k in todo :: c.mine(k, opens(k))
    ensures exists events: seq<Event<K, V>> ::
      forall k | k in todo ::
        var s := Run(c, Init(todo), events);
        Idle(s, k) + InRefill(s, k) + InWarmup(s, k) == 2 * c.size
  {
    hide Run, Sum, InRefill, InWarmup;
    var events := AllFillTwice(c, Init(todo), opens);
    forall k | k in todo
      ensures var s := Run(c, Init(todo), events); Idle(s, k) + InRefill(s, k) + InWarmup(s, k) == 2 * c.size
    {
      PoolBound(c, todo, events, k);
    }
  }
}

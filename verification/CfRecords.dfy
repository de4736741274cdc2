/** The Cloudflare record walk: a worklist of host names that grows while it is consumed. */
module CfRecords {
  import opened Bytes

  // Record names -------------------------------------------------------------

  function Decimal(n: nat): string {
    if n < 10 then [DIGITS[n]] else Decimal(n / 10) + [DIGITS[n % 10]]
  }

  const DIGITS: string := "0123456789"

  function BaseRecord(dc: nat, zone: string): string { "kws" + Decimal(dc) + "." + zone }
  function DashRecord(dc: nat, zone: string): string { "kws" + Decimal(dc) + "-1." + zone }

  /** The two records of a zone, dash record first for a media DC and second otherwise. */
  function OrderedRecords(dc: nat, zone: string, media: bool): seq<string> {
    if media then [DashRecord(dc, zone), BaseRecord(dc, zone)] else [BaseRecord(dc, zone), DashRecord(dc, zone)]
  }

  function CfWsDomains(dc: nat, zones: seq<string>, media: bool): seq<string> {
    if zones == [] then [] else OrderedRecords(dc, zones[0], media) + CfWsDomains(dc, zones[1..], media)
  }

  /** Where the first `-1.` starts. */
  function FindDashOne(s: string): (at: Option<nat>)
    ensures at.Some? ==> at.value + 3 <= |s|
  {
    if |s| < 3 then None
    else if s[0] == '-' && s[1] == '1' && s[2] == '.' then Some(0)
    else
      var rest := FindDashOne(s[1..]);
      if rest.None? then None else Some(rest.value + 1)
  }

  /** The record with its first `-1.` replaced by a dot, if it has one. */
  function BaseCfRecord(domain: string): (base: Option<string>)
    ensures base.Some? ==> |base.value| + 2 == |domain|
  {
    var at := FindDashOne(domain);
    if at.None? then None else Some(domain[..at.value] + "." + domain[at.value + 3..])
  }

  predicate DashOneAt(s: string, i: nat) {
    i + 3 <= |s| && s[i] == '-' && s[i + 1] == '1' && s[i + 2] == '.'
  }

  lemma {:induction false} FindsFirst(s: string)
    ensures FindDashOne(s).None? ==> forall i: nat :: !DashOneAt(s, i)
    ensures FindDashOne(s).Some? ==>
      DashOneAt(s, FindDashOne(s).value) && forall i: nat | i < FindDashOne(s).value :: !DashOneAt(s, i)
  {
    if |s| >= 3 && !DashOneAt(s, 0) {
      FindsFirst(s[1..]);
      forall i: nat | DashOneAt(s, i) ensures i > 0 && DashOneAt(s[1..], i - 1) {}
    }
  }

  /** The base record replaces the first `-1.` by a dot, and there is one exactly for names that contain one. */
  lemma BaseReplacesFirst(domain: string)
    ensures BaseCfRecord(domain).Some? <==> exists i: nat :: DashOneAt(domain, i)
    ensures forall i: nat | DashOneAt(domain, i) && (forall j: nat | j < i :: !DashOneAt(domain, j)) ::
      BaseCfRecord(domain) == Some(domain[..i] + "." + domain[i + 3..])
  {
    hide FindDashOne;
    FindsFirst(domain);
  }

  // The worklist -------------------------------------------------------------

  /** `forced` marks a base record queued by the `-1` fallback. */
  datatype Attempt = Attempt(domain: string, forced: bool)

  datatype Attempts = Attempts(queue: seq<Attempt>, tried: set<string>, timedOut: set<string>)

  datatype Outcome = Connected | Redirect | Failed(dnsNotFound: bool) | UpgradeTimedOut | ConnectTimedOut

  type Oracle = (nat, string) -> Outcome

  function Queued(domains: seq<string>): (queue: seq<Attempt>)
    ensures |queue| == |domains|
    ensures forall i | 0 <= i < |domains| :: queue[i] == Attempt(domains[i], false)
  {
    seq(|domains|, i requires 0 <= i < |domains| => Attempt(domains[i], false))
  }

  /** Summed name lengths plus one: what every attempt uses up, though a retry puts some back. */
  function Measure(queue: seq<Attempt>): nat {
    if queue == [] then 0 else |queue[0].domain| + 1 + Measure(queue[1..])
  }

  /** What an iteration dials: the first queued record that is forced or has had no turn. */
  function Next(s: Attempts): (r: Option<(Attempt, Attempts)>)
    ensures r.Some? ==> Measure(r.value.1.queue) + |r.value.0.domain| + 1 <= Measure(s.queue)
    decreases |s.queue|
  {
    if s.queue == [] then None
    else
      var head, rest := s.queue[0], s.(queue := s.queue[1..]);
      if head.forced then Some((head, rest))
      else if head.domain !in s.tried then Some((head, rest.(tried := s.tried + {head.domain})))
      else Next(rest)
  }

  /** The base record worth a forced retry after `domain` was missing from DNS. */
  function Retry(s: Attempts, domain: string): (base: Option<string>)
    ensures base.Some? ==> |base.value| + 2 == |domain|
  {
    var base := BaseCfRecord(domain);
    if base.Some? && base.value !in s.timedOut then base else None
  }

  function React(s: Attempts, domain: string, outcome: Outcome): (r: Attempts)
    ensures Measure(r.queue) <= Measure(s.queue) + |domain|
  {
    match outcome
    case Failed(true) =>
      var base := Retry(s, domain);
      if base.None? then s
      else
        var queue := [Attempt(base.value, true)] + s.queue;
        assert queue[1..] == s.queue;
        s.(queue := queue)
    case UpgradeTimedOut => s.(timedOut := s.timedOut + {domain})
    case ConnectTimedOut => s.(timedOut := s.timedOut + {domain})
    case _ => s
  }

  /** Whether a failed attempt leaves the verdict "every record redirected" open. */
  predicate Neutral(s: Attempts, domain: string, outcome: Outcome) {
    outcome == Redirect || (outcome == Failed(true) && Retry(s, domain).Some?)
  }

  datatype Walked = Walked(attempts: seq<Attempt>, winner: Option<string>, allRedirects: bool)

  /** The whole walk; the oracle answers each dial by its number and name. */
  function Walk(s: Attempts, o: Oracle, i: nat): (r: Walked)
    decreases Measure(s.queue)
  {
    var next := Next(s);
    if next.None? then Walked([], None, true)
    else
      var (a, s') := next.value;
      var outcome := o(i, a.domain);
      if outcome == Connected then Walked([a], Some(a.domain), false)
      else
        var rest := Walk(React(s', a.domain, outcome), o, i + 1);
        Walked([a] + rest.attempts, rest.winner, Neutral(s', a.domain, outcome) && rest.allRedirects)
  }

  /** The worklist as the connect loop holds it. */
  class CfAttempts {
    var queue: seq<Attempt>
    var tried: set<string>
    var timedOut: set<string>

    function View(): Attempts
      reads this
    {
      Attempts(queue, tried, timedOut)
    }

    constructor (domains: seq<string>)
      ensures View() == Attempts(Queued(domains), {}, {})
    {
      queue, tried, timedOut := Queued(domains), {}, {};
    }

    method NextDomain() returns (domain: Option<string>, ghost attempt: Attempt)
      modifies this`queue, this`tried
      ensures domain.None? ==> Next(old(View())).None?
      ensures domain.Some? ==> domain.value == attempt.domain && Next(old(View())) == Some((attempt, View()))
    {
      attempt := Attempt("", false);
      while queue != []
        invariant Next(View()) == Next(old(View()))
        decreases |queue|
      {
        var head := queue[0];
        queue := queue[1..];
        attempt := head;
        if head.forced { return Some(head.domain), head; }
        if head.domain !in tried {
          tried := tried + {head.domain};
          return Some(head.domain), head;
        }
      }
      return None, attempt;
    }

    method NoteTimedOut(domain: string)
      modifies this`timedOut
      ensures View() == React(old(View()), domain, ConnectTimedOut) == React(old(View()), domain, UpgradeTimedOut)
    {
      timedOut := timedOut + {domain};
    }

    method RetryBaseOf(domain: string) returns (base: Option<string>)
      modifies this`queue
      ensures base == Retry(old(View()), domain)
      ensures View() == React(old(View()), domain, Failed(true))
    {
      base := BaseCfRecord(domain);
      if base.None? || base.value in timedOut { return None; }
      queue := [Attempt(base.value, true)] + queue;
    }
  }

  /** Try the records of all zones in order, until one connects. */
  method ConnectCfWs(dc: nat, zones: seq<string>, media: bool, o: Oracle)
    returns (winner: Option<string>, allRedirects: bool, ghost attempts: seq<Attempt>)
    ensures var w := Walk(Attempts(Queued(CfWsDomains(dc, zones, media)), {}, {}), o, 0);
      winner == w.winner && allRedirects == w.allRedirects
    ensures attempts == Walk(Attempts(Queued(CfWsDomains(dc, zones, media)), {}, {}), o, 0).attempts
  {
    hide Next, React, Neutral, Measure, CfWsDomains;
    allRedirects, attempts := true, [];
    var work := new CfAttempts(CfWsDomains(dc, zones, media));
    ghost var start := work.View();
    var i: nat := 0;
    while true
      invariant fresh(work)
      invariant var rest := Walk(work.View(), o, i);
        Walk(start, o, 0) == Walked(attempts + rest.attempts, rest.winner, allRedirects && rest.allRedirects)
      decreases Measure(work.View().queue)
    {
      ghost var before, all := work.View(), allRedirects;
      var domain, attempt := work.NextDomain();
      if domain.None? {
        assert attempts + [] == attempts;
        return None, allRedirects, attempts;
      }
      ghost var popped := work.View();
      ghost var outcome := o(i, domain.value);
      ghost var rest := Walk(React(popped, domain.value, outcome), o, i + 1);
      assert attempts + ([attempt] + rest.attempts) == (attempts + [attempt]) + rest.attempts;
      ReactShrinks(before, popped, attempt, outcome);
      NeutralIs(popped, domain.value, outcome);
      match o(i, domain.value) {
        case Connected =>
          return domain, false, attempts + [attempt];
        case Redirect =>
        case Failed(dnsNotFound) =>
          var base := None;
          if dnsNotFound { base := work.RetryBaseOf(domain.value); }
          if base.None? { allRedirects := false; }
        case UpgradeTimedOut =>
          work.NoteTimedOut(domain.value);
          allRedirects := false;
        case ConnectTimedOut =>
          work.NoteTimedOut(domain.value);
          allRedirects := false;
      }
      attempts := attempts + [attempt];
      i := i + 1;
    }
  }

  lemma ReactShrinks(before: Attempts, popped: Attempts, a: Attempt, outcome: Outcome)
    requires Next(before) == Some((a, popped))
    ensures Measure(React(popped, a.domain, outcome).queue) < Measure(before.queue)
  {}

  lemma NeutralIs(s: Attempts, domain: string, outcome: Outcome)
    ensures Neutral(s, domain, outcome) == (outcome == Redirect || (outcome == Failed(true) && Retry(s, domain).Some?))
    ensures outcome == Redirect || outcome == Failed(false) ==> React(s, domain, outcome) == s
    ensures outcome == Failed(true) && Retry(s, domain).None? ==> React(s, domain, outcome) == s
  {}

  // How many attempts a walk makes ---------------------------------------------

  /** How often a name can fall back: once for every `-1.` it contains or that a fallback uncovers. */
  function Fallbacks(domain: string): nat
    decreases |domain|
  {
    var base := BaseCfRecord(domain);
    if base.None? then 0 else 1 + Fallbacks(base.value)
  }

  /** Every queued record, and every record it can fall back to. */
  function Budget(queue: seq<Attempt>): nat {
    if queue == [] then 0 else 1 + Fallbacks(queue[0].domain) + Budget(queue[1..])
  }

  lemma {:induction false} NextWithinBudget(s: Attempts)
    requires Next(s).Some?
    ensures var (a, s') := Next(s).value;
      1 + Fallbacks(a.domain) + Budget(s'.queue) <= Budget(s.queue)
    decreases |s.queue|
  {
    hide Fallbacks;
    var head, rest := s.queue[0], s.(queue := s.queue[1..]);
    if !head.forced && head.domain in s.tried { NextWithinBudget(rest); }
  }

  /** The walk ends within this budget for every zone list and every way the dials can turn out. */
  lemma {:induction false} AttemptsWithinBudget(s: Attempts, o: Oracle, i: nat)
    ensures |Walk(s, o, i).attempts| <= Budget(s.queue)
    decreases Measure(s.queue)
  {
    hide BaseCfRecord;
    if Next(s).Some? {
      var (a, s') := Next(s).value;
      NextWithinBudget(s);
      var outcome := o(i, a.domain);
      var r := React(s', a.domain, outcome);
      if outcome != Connected {
        AttemptsWithinBudget(r, o, i + 1);
        if r.queue != s'.queue {
          assert r.queue[1..] == s'.queue;
        }
      }
    }
  }

  lemma {:induction false} DecimalDigits(n: nat)
    ensures '-' !in Decimal(n)
  {
    if n >= 10 { DecimalDigits(n / 10); }
  }

  lemma {:induction false} FindBehind(front: string, rest: string)
    requires '-' !in front
    ensures FindDashOne(front + rest) ==
      if FindDashOne(rest).None? then None else Some(|front| + FindDashOne(rest).value)
  {
    if front == [] {
      assert front + rest == rest;
    } else {
      FindBehind(front[1..], rest);
      assert (front + rest)[1..] == front[1..] + rest && (front + rest)[0] == front[0];
      if |front + rest| < 3 { NothingShort(rest); }
    }
  }

  lemma NothingShort(s: string)
    requires |s| < 3
    ensures FindDashOne(s).None?
  {}

  /** The `-1` record of a zone falls back to its base record, and that one only by the zone's own name. */
  lemma RecordBases(dc: nat, zone: string)
    ensures BaseCfRecord(DashRecord(dc, zone)) == Some(BaseRecord(dc, zone))
    ensures BaseCfRecord(BaseRecord(dc, zone)) ==
      if BaseCfRecord(zone).None? then None else Some(BaseRecord(dc, BaseCfRecord(zone).value))
  {
    DecimalDigits(dc);
    var front := "kws" + Decimal(dc);
    var dash: string := "-1." + zone;
    var record := DashRecord(dc, zone);
    assert record == front + dash;
    assert dash[0] == '-' && dash[1] == '1' && dash[2] == '.';
    FindBehind(front, dash);
    assert record[..|front|] == front && record[|front| + 3..] == zone;
    FindBehind(front + ".", zone);
    assert BaseRecord(dc, zone) == (front + ".") + zone;
    var at := FindDashOne(zone);
    if at.Some? {
      var n := |front| + 1 + at.value;
      assert BaseRecord(dc, zone)[..n] == (front + ".") + zone[..at.value];
      assert BaseRecord(dc, zone)[n + 3..] == zone[at.value + 3..];
      Regroup(front, zone[..at.value], zone[at.value + 3..]);
    }
  }

  lemma Regroup(a: string, b: string, c: string)
    ensures ((a + ".") + b) + "." + c == a + "." + (b + "." + c)
  {}

  lemma {:induction false} RecordFallbacks(dc: nat, zone: string)
    ensures Fallbacks(BaseRecord(dc, zone)) == Fallbacks(zone)
    ensures Fallbacks(DashRecord(dc, zone)) == 1 + Fallbacks(zone)
    decreases |zone|
  {
    hide BaseRecord, DashRecord, BaseCfRecord;
    RecordBases(dc, zone);
    var base := BaseCfRecord(zone);
    if base.Some? { RecordFallbacks(dc, base.value); }
  }

  /** Three attempts a zone, and two more for every `-1.` its own name falls back through. */
  function ZoneBudget(zones: seq<string>): nat {
    if zones == [] then 0 else 3 + 2 * Fallbacks(zones[0]) + ZoneBudget(zones[1..])
  }

  lemma {:induction false} BudgetOfZones(dc: nat, zones: seq<string>, media: bool)
    ensures Budget(Queued(CfWsDomains(dc, zones, media))) == ZoneBudget(zones)
  {
    hide BaseRecord, DashRecord, Fallbacks;
    var q := Queued(CfWsDomains(dc, zones, media));
    if zones == [] {
      assert q == [];
    } else {
      BudgetOfZones(dc, zones[1..], media);
      RecordFallbacks(dc, zones[0]);
      var records := OrderedRecords(dc, zones[0], media);
      assert q[1..][1..] == Queued(CfWsDomains(dc, zones[1..], media));
      assert q[0] == Attempt(records[0], false) && q[1..][0] == Attempt(records[1], false);
    }
  }

  lemma {:induction false} PlainZones(zones: seq<string>)
    requires forall z | z in zones :: FindDashOne(z).None?
    ensures ZoneBudget(zones) == 3 * |zones|
  {
    if zones != [] {
      assert zones[0] in zones && forall z | z in zones[1..] :: z in zones;
      PlainZones(zones[1..]);
    }
  }

  /**
   * How long the walk can take, whatever the zones are called and however the dials turn out: at
   * most three attempts a zone when no zone name contains `-1.`.
   */
  lemma WalkIsBounded(dc: nat, zones: seq<string>, media: bool, o: Oracle)
    ensures var attempts := Walk(Attempts(Queued(CfWsDomains(dc, zones, media)), {}, {}), o, 0).attempts;
      && |attempts| <= ZoneBudget(zones)
      && ((forall z | z in zones :: FindDashOne(z).None?) ==> |attempts| <= 3 * |zones|)
  {
    hide *;
    BudgetOfZones(dc, zones, media);
    AttemptsWithinBudget(Attempts(Queued(CfWsDomains(dc, zones, media)), {}, {}), o, 0);
    if forall z | z in zones :: FindDashOne(z).None? { PlainZones(zones); }
  }

  /** Every record that waits for its own turn is still untried, and there is only one of it. */
  predicate NoRepeats(queue: seq<Attempt>, tried: set<string>) {
    && (forall a | a in queue && !a.forced :: a.domain !in tried)
    && (forall j, k | 0 <= j < k < |queue| && !queue[j].forced && !queue[k].forced ::
        queue[j].domain != queue[k].domain)
  }

  lemma {:induction false} MissingUsesBudget(s: Attempts, o: Oracle, i: nat)
    requires NoRepeats(s.queue, s.tried) && s.timedOut == {}
    requires forall j, d :: o(j, d) == Failed(true)
    ensures |Walk(s, o, i).attempts| == Budget(s.queue)
    decreases Measure(s.queue)
  {
    hide *;
    if s.queue == [] {
      NothingQueued(s, o, i);
    } else {
      var a, tail := s.queue[0], s.queue[1..];
      HeadUntried(s);
      assert s.queue == [a] + tail;
      HeadDialled(s, a, tail, o, i);
      var s' := Attempts(tail, if a.forced then s.tried else s.tried + {a.domain}, {});
      var r := React(s', a.domain, Failed(true));
      MissingReacts(s', a);
      HeadPops(s, a, tail);
      ReactShrinks(s, s', a, Failed(true));
      MissingUsesBudget(r, o, i + 1);
    }
  }

  lemma NothingQueued(s: Attempts, o: Oracle, i: nat)
    requires s.queue == []
    ensures Walk(s, o, i) == Walked([], None, true) && Budget(s.queue) == 0
  {}

  lemma HeadUntried(s: Attempts)
    requires NoRepeats(s.queue, s.tried) && s.queue != []
    ensures var a := s.queue[0];
      && (a.forced || a.domain !in s.tried)
      && NoRepeats(s.queue[1..], if a.forced then s.tried else s.tried + {a.domain})
  {
    assert s.queue[0] in s.queue && forall b | b in s.queue[1..] :: b in s.queue;
  }

  lemma HeadPops(s: Attempts, a: Attempt, tail: seq<Attempt>)
    requires s.queue == [a] + tail && (a.forced || a.domain !in s.tried)
    ensures Next(s) == Some((a, Attempts(tail, if a.forced then s.tried else s.tried + {a.domain}, s.timedOut)))
    ensures Budget(s.queue) == 1 + Fallbacks(a.domain) + Budget(tail)
  {
    hide Fallbacks;
    assert s.queue[1..] == tail;
  }

  lemma MissingReacts(s: Attempts, a: Attempt)
    requires NoRepeats(s.queue, s.tried) && s.timedOut == {}
    ensures var r := React(s, a.domain, Failed(true));
      && Budget(r.queue) == Budget(s.queue) + Fallbacks(a.domain)
      && NoRepeats(r.queue, r.tried) && r.timedOut == {}
  {
    hide BaseCfRecord;
    var r := React(s, a.domain, Failed(true));
    if r.queue != s.queue {
      assert r.queue[1..] == s.queue;
      assert forall b | b in r.queue && !b.forced :: b in s.queue;
    }
  }

  predicate Different(names: seq<string>) {
    forall j, k | 0 <= j < k < |names| :: names[j] != names[k]
  }

  lemma TwoMore(x: string, y: string, names: seq<string>)
    requires Different(names) && x != y && x !in names && y !in names
    ensures Different([x, y] + names)
  {
    var all := [x, y] + names;
    forall j, k | 0 <= j < k < |all| ensures all[j] != all[k] {
      if k >= 2 { assert all[k] == names[k - 2] && all[k] in names; }
    }
  }

  lemma {:induction false} DistinctRecords(dc: nat, zones: seq<string>, media: bool)
    requires Different(zones)
    ensures forall d | d in CfWsDomains(dc, zones, media) ::
      exists z | z in zones :: d == BaseRecord(dc, z) || d == DashRecord(dc, z)
    ensures Different(CfWsDomains(dc, zones, media))
  {
    hide BaseRecord, DashRecord;
    if zones != [] {
      var zone, rest := zones[0], CfWsDomains(dc, zones[1..], media);
      DistinctRecords(dc, zones[1..], media);
      var records := OrderedRecords(dc, zone, media);
      RecordsDiffer(dc, zone, zone);
      forall d | d in rest
        ensures d !in records && exists z | z in zones :: d == BaseRecord(dc, z) || d == DashRecord(dc, z)
      {
        var z :| z in zones[1..] && (d == BaseRecord(dc, z) || d == DashRecord(dc, z));
        RecordsDiffer(dc, zone, z);
        RecordsDiffer(dc, z, zone);
        assert z in zones && z != zone;
      }
      assert zone in zones;
      assert records[0] in records && records[1] in records;
      TwoMore(records[0], records[1], rest);
      assert records == [records[0], records[1]];
    }
  }

  /** The bound is exact: distinct zones whose every record is missing from DNS use all of it. */
  lemma BoundIsReached(dc: nat, zones: seq<string>, media: bool, o: Oracle)
    requires Different(zones)
    requires forall j, d :: o(j, d) == Failed(true)
    ensures |Walk(Attempts(Queued(CfWsDomains(dc, zones, media)), {}, {}), o, 0).attempts| == ZoneBudget(zones)
  {
    hide CfWsDomains, Walk, Budget, ZoneBudget;
    BudgetOfZones(dc, zones, media);
    DistinctRecords(dc, zones, media);
    MissingUsesBudget(Attempts(Queued(CfWsDomains(dc, zones, media)), {}, {}), o, 0);
  }

  // Every record gets its own turn -----------------------------------------------

  /** The queued records, each at its first place and without those already tried. */
  function Distinct(queue: seq<Attempt>, tried: set<string>): seq<string> {
    if queue == [] then []
    else if queue[0].forced then Distinct(queue[1..], tried)
    else if queue[0].domain in tried then Distinct(queue[1..], tried)
    else [queue[0].domain] + Distinct(queue[1..], tried + {queue[0].domain})
  }

  /** The attempts that were a record's own turn, in order. */
  function OwnTurns(attempts: seq<Attempt>): seq<string> {
    if attempts == [] then []
    else (if attempts[0].forced then [] else [attempts[0].domain]) + OwnTurns(attempts[1..])
  }

  lemma {:induction false} NextTurn(s: Attempts)
    ensures match Next(s)
            case None => Distinct(s.queue, s.tried) == []
            case Some((a, s')) =>
              Distinct(s.queue, s.tried) ==
              (if a.forced then [] else [a.domain]) + Distinct(s'.queue, s'.tried)
    decreases |s.queue|
  {
    if s.queue != [] {
      var head, rest := s.queue[0], s.(queue := s.queue[1..]);
      if !head.forced && head.domain in s.tried { NextTurn(rest); }
    }
  }

  /**
   * Forced retries neither skip nor use up a turn: unless a dial succeeds first, every distinct
   * record is attempted on its own turn, in order and once; a success cuts that list off.
   */
  lemma {:induction false} EveryRecordItsTurn(s: Attempts, o: Oracle, i: nat)
    ensures var w := Walk(s, o, i);
      && OwnTurns(w.attempts) <= Distinct(s.queue, s.tried)
      && (w.winner.None? ==> OwnTurns(w.attempts) == Distinct(s.queue, s.tried))
    decreases Measure(s.queue)
  {
    hide Next, Retry;
    NextTurn(s);
    if Next(s).Some? {
      var (a, s') := Next(s).value;
      var outcome := o(i, a.domain);
      var own := if a.forced then [] else [a.domain];
      if outcome == Connected {
        assert OwnTurns([a]) == own + [];
      } else {
        var r := React(s', a.domain, outcome);
        if r.queue != s'.queue { assert r.queue[1..] == s'.queue; }
        var rest := Walk(r, o, i + 1);
        EveryRecordItsTurn(r, o, i + 1);
        assert ([a] + rest.attempts)[1..] == rest.attempts;
      }
    }
  }

  /** The first turns of the configured records are the records themselves, without repeats. */
  lemma {:induction false} DistinctCovers(queue: seq<Attempt>, tried: set<string>)
    requires forall a | a in queue :: !a.forced
    ensures forall d :: d in Distinct(queue, tried) <==> d !in tried && Attempt(d, false) in queue
    ensures forall j, k | 0 <= j < k < |Distinct(queue, tried)| ::
      Distinct(queue, tried)[j] != Distinct(queue, tried)[k]
  {
    if queue != [] {
      var head, rest := queue[0], queue[1..];
      assert forall a :: a in queue <==> a == head || a in rest;
      assert head == Attempt(head.domain, false);
      DistinctCovers(rest, if head.domain in tried then tried else tried + {head.domain});
    }
  }

  /** Unless a dial succeeds, every configured record is dialled on a turn of its own, exactly once. */
  lemma NoRecordSkipped(dc: nat, zones: seq<string>, media: bool, o: Oracle)
    ensures var w := Walk(Attempts(Queued(CfWsDomains(dc, zones, media)), {}, {}), o, 0);
      && Different(OwnTurns(w.attempts))
      && (forall d | d in OwnTurns(w.attempts) :: d in CfWsDomains(dc, zones, media))
      && (w.winner.None? ==> forall d | d in CfWsDomains(dc, zones, media) :: d in OwnTurns(w.attempts))
  {
    hide CfWsDomains, Walk, OwnTurns, Distinct;
    var domains := CfWsDomains(dc, zones, media);
    var s := Attempts(Queued(domains), {}, {});
    EveryRecordItsTurn(s, o, 0);
    DistinctCovers(s.queue, {});
    assert forall d: string :: Attempt(d, false) in s.queue <==> d in domains by {
      forall d: string | d in domains ensures Attempt(d, false) in s.queue {
        var j :| 0 <= j < |domains| && domains[j] == d;
        assert s.queue[j] == Attempt(d, false);
      }
    }
    assert forall d | d in OwnTurns(Walk(s, o, 0).attempts) :: d in Distinct(s.queue, {});
  }

  // Exactly which attempts are forced -------------------------------------------

  predicate RanOut(outcome: Outcome) { outcome == UpgradeTimedOut || outcome == ConnectTimedOut }

  /** A dial of `domain` among the first `k` attempts ran out the clock. */
  predicate RanOutBefore(attempts: seq<Attempt>, o: Oracle, i: nat, k: nat, domain: string)
    requires k <= |attempts|
  {
    exists j | 0 <= j < k :: attempts[j].domain == domain && RanOut(o(i + j, domain))
  }

  /** What a dial answered "no such name" is followed by, unless that record ran out the clock. */
  function Forced(attempts: seq<Attempt>, o: Oracle, i: nat, k: nat, timedOut: set<string>): (base: Option<string>)
    requires 0 < k < |attempts|
  {
    var before := attempts[k - 1].domain;
    var base := BaseCfRecord(before);
    if o(i + k - 1, before) == Failed(true) && base.Some?
       && base.value !in timedOut && !RanOutBefore(attempts, o, i, k, base.value)
    then base else None
  }

  lemma {:induction false} NextIsHeadIfForced(s: Attempts)
    requires forall j | 0 < j < |s.queue| :: !s.queue[j].forced
    requires Next(s).Some?
    ensures var (a, s') := Next(s).value;
      && (forall b | b in s'.queue :: !b.forced)
      && (a.forced <==> s.queue != [] && s.queue[0].forced)
      && (a.forced ==> a == s.queue[0])
      && s'.timedOut == s.timedOut
    decreases |s.queue|
  {
    var rest := s.(queue := s.queue[1..]);
    if !s.queue[0].forced && s.queue[0].domain in s.tried { NextIsHeadIfForced(rest); }
  }

  /**
   * Exactly the attempts right behind a `-1` record that is missing from DNS are forced, each to
   * the base record; a base record whose dial already ran out the clock is never forced.
   */
  lemma {:induction false} ForcedExactly(s: Attempts, o: Oracle, i: nat, k: nat)
    requires forall j | 0 < j < |s.queue| :: !s.queue[j].forced
    requires k < |Walk(s, o, i).attempts|
    ensures var attempts := Walk(s, o, i).attempts;
      if k == 0 then
        && (attempts[0].forced <==> s.queue != [] && s.queue[0].forced)
        && (attempts[0].forced ==> attempts[0] == s.queue[0])
      else
        var base := Forced(attempts, o, i, k, s.timedOut);
        (attempts[k].forced <==> base.Some?) && (base.Some? ==> attempts[k].domain == base.value)
    decreases Measure(s.queue)
  {
    hide *;
    SomeAttempt(s, o, i);
    WalkUnfolds(s, o, i);
    NextIsHeadIfForced(s);
    var (a, s') := Next(s).value;
    var outcome := o(i, a.domain);
    if k > 0 {
      var r := React(s', a.domain, outcome);
      ReactShrinks(s, s', a, outcome);
      ReactForces(s', a.domain, outcome);
      var rest, attempts := Walk(r, o, i + 1).attempts, Walk(s, o, i).attempts;
      assert attempts == [a] + rest;
      ForcedExactly(r, o, i + 1, k - 1);
      if k == 1 {
        ForcedFirst(attempts, o, i, s', a, s.timedOut);
      } else {
        ForcedLater(attempts, rest, o, i, k, s.timedOut, r.timedOut);
      }
    }
  }

  lemma WalkUnfolds(s: Attempts, o: Oracle, i: nat)
    requires Next(s).Some?
    ensures var (a, s') := Next(s).value;
      Walk(s, o, i).attempts ==
      [a] + if o(i, a.domain) == Connected then [] else Walk(React(s', a.domain, o(i, a.domain)), o, i + 1).attempts
  {
    hide Next, React;
  }

  lemma SomeAttempt(s: Attempts, o: Oracle, i: nat)
    requires Walk(s, o, i).attempts != []
    ensures Next(s).Some?
  {
    hide Next, React;
  }

  /** What a failed dial leaves at the front of the queue, and which record it remembers. */
  lemma ReactForces(s: Attempts, domain: string, outcome: Outcome)
    requires forall b | b in s.queue :: !b.forced
    ensures var r, base := React(s, domain, outcome), Retry(s, domain);
      && (forall j | 0 < j < |r.queue| :: !r.queue[j].forced)
      && r.timedOut == s.timedOut + (if RanOut(outcome) then {domain} else {})
      && (r.queue != [] && r.queue[0].forced <==> outcome == Failed(true) && base.Some?)
      && (outcome == Failed(true) && base.Some? ==> r.queue[0] == Attempt(base.value, true))
  {
    hide BaseCfRecord;
  }

  lemma ForcedFirst(attempts: seq<Attempt>, o: Oracle, i: nat, s: Attempts, a: Attempt, timedOut: set<string>)
    requires |attempts| > 1 && attempts[0] == a && s.timedOut == timedOut
    ensures Forced(attempts, o, i, 1, timedOut) == if o(i, a.domain) == Failed(true) then Retry(s, a.domain) else None
  {
    hide BaseCfRecord;
  }

  lemma ForcedLater(attempts: seq<Attempt>, rest: seq<Attempt>, o: Oracle, i: nat, k: nat,
                    timedOut: set<string>, later: set<string>)
    requires 1 < k < |attempts| && attempts == [attempts[0]] + rest
    requires later == timedOut + if RanOut(o(i, attempts[0].domain)) then {attempts[0].domain} else {}
    ensures Forced(attempts, o, i, k, timedOut) == Forced(rest, o, i + 1, k - 1, later)
  {
    hide BaseCfRecord, RanOutBefore, RanOut;
    assert attempts[k - 1] == rest[k - 2];
    var base := BaseCfRecord(attempts[k - 1].domain);
    if base.Some? { RanOutShift(attempts, attempts[0], rest, o, i, k, base.value); }
  }

  lemma RanOutShift(attempts: seq<Attempt>, a: Attempt, rest: seq<Attempt>, o: Oracle, i: nat, k: nat, d: string)
    requires attempts == [a] + rest && 0 < k <= |attempts|
    ensures RanOutBefore(attempts, o, i, k, d) <==>
      (d == a.domain && RanOut(o(i, a.domain))) || RanOutBefore(rest, o, i + 1, k - 1, d)
  {
    if RanOutBefore(attempts, o, i, k, d) {
      var j :| 0 <= j < k && attempts[j].domain == d && RanOut(o(i + j, d));
      if j > 0 { assert rest[j - 1].domain == d && RanOut(o(i + 1 + (j - 1), d)); }
    }
    if RanOutBefore(rest, o, i + 1, k - 1, d) {
      var j :| 0 <= j < k - 1 && rest[j].domain == d && RanOut(o(i + 1 + j, d));
      assert attempts[j + 1].domain == d && RanOut(o(i + (j + 1), d));
    }
    if d == a.domain && RanOut(o(i, a.domain)) {
      assert attempts[0].domain == d && RanOut(o(i + 0, d));
    }
  }

  // Media fairness ----------------------------------------------------------------

  /** Base records that fail without running out the clock, next to `-1` records missing from DNS. */
  ghost predicate DashMissing(dc: nat, zones: seq<string>, o: Oracle) {
    forall i, z | z in zones ::
      && o(i, DashRecord(dc, z)) == Failed(true)
      && (o(i, BaseRecord(dc, z)).Redirect? || o(i, BaseRecord(dc, z)).Failed?)
  }

  /** Both orderings attempt a zone's base record twice: once forced, once on its own turn. */
  function PerZone(dc: nat, zone: string, media: bool): seq<Attempt> {
    var base, dash := BaseRecord(dc, zone), DashRecord(dc, zone);
    if media then [Attempt(dash, false), Attempt(base, true), Attempt(base, false)]
    else [Attempt(base, false), Attempt(dash, false), Attempt(base, true)]
  }

  function AllZones(dc: nat, zones: seq<string>, media: bool): seq<Attempt> {
    if zones == [] then [] else PerZone(dc, zones[0], media) + AllZones(dc, zones[1..], media)
  }

  lemma RecordsDiffer(dc: nat, y: string, z: string)
    ensures BaseRecord(dc, y) != DashRecord(dc, z)
    ensures y != z ==> BaseRecord(dc, y) != BaseRecord(dc, z) && DashRecord(dc, y) != DashRecord(dc, z)
  {
    var n := 3 + |Decimal(dc)|;
    assert BaseRecord(dc, y)[n] == '.' && DashRecord(dc, z)[n] == '-';
    assert BaseRecord(dc, y)[n + 1..] == y && BaseRecord(dc, z)[n + 1..] == z;
    assert DashRecord(dc, y)[n + 3..] == y && DashRecord(dc, z)[n + 3..] == z;
  }

  /** An untried or forced record at the head is dialled, and a failure carries the walk on. */
  lemma HeadDialled(s: Attempts, a: Attempt, tail: seq<Attempt>, o: Oracle, i: nat)
    requires s.queue == [a] + tail && (a.forced || a.domain !in s.tried)
    requires o(i, a.domain) != Connected
    ensures var s' := Attempts(tail, if a.forced then s.tried else s.tried + {a.domain}, s.timedOut);
      && Walk(s, o, i).attempts == [a] + Walk(React(s', a.domain, o(i, a.domain)), o, i + 1).attempts
      && Walk(s, o, i).winner == Walk(React(s', a.domain, o(i, a.domain)), o, i + 1).winner
  {
    hide BaseCfRecord;
    assert s.queue[1..] == tail;
  }

  lemma BaseFails(dc: nat, zone: string, s: Attempts, outcome: Outcome)
    requires FindDashOne(zone).None? && (outcome.Redirect? || outcome.Failed?)
    ensures React(s, BaseRecord(dc, zone), outcome) == s
  {
    hide BaseRecord;
    RecordBases(dc, zone);
  }

  lemma DashFails(dc: nat, zone: string, s: Attempts)
    requires FindDashOne(zone).None? && s.timedOut == {}
    ensures React(s, DashRecord(dc, zone), Failed(true)) ==
      s.(queue := [Attempt(BaseRecord(dc, zone), true)] + s.queue)
  {
    hide BaseRecord, DashRecord;
    RecordBases(dc, zone);
  }

  lemma OneZone(dc: nat, zone: string, media: bool, o: Oracle, tail: seq<Attempt>, tried: set<string>, i: nat)
    requires FindDashOne(zone).None? && DashMissing(dc, [zone], o)
    requires BaseRecord(dc, zone) !in tried && DashRecord(dc, zone) !in tried
    ensures var records := OrderedRecords(dc, zone, media);
      var w := Walk(Attempts(Queued(records) + tail, tried, {}), o, i);
      var rest := Walk(Attempts(tail, tried + {records[0]} + {records[1]}, {}), o, i + 3);
      w.attempts == PerZone(dc, zone, media) + rest.attempts && w.winner == rest.winner
  {
    hide BaseRecord, DashRecord, Walk, React, FindDashOne;
    var base, dash := BaseRecord(dc, zone), DashRecord(dc, zone);
    RecordsDiffer(dc, zone, zone);
    assert zone in [zone];
    var records := OrderedRecords(dc, zone, media);
    var first, second, forced := Attempt(records[0], false), Attempt(records[1], false), Attempt(base, true);
    var s0 := Attempts(Queued(records) + tail, tried, {});
    assert s0.queue == [first] + ([second] + tail);
    HeadDialled(s0, first, [second] + tail, o, i);
    var s1 := Attempts([second] + tail, tried + {records[0]}, {});
    var done := Attempts(tail, tried + {records[0]} + {records[1]}, {});
    if media {
      DashFails(dc, zone, s1);
      var s2 := s1.(queue := [forced] + s1.queue);
      HeadDialled(s2, forced, s1.queue, o, i + 1);
      BaseFails(dc, zone, s1, o(i + 1, base));
      HeadDialled(s1, second, tail, o, i + 2);
      BaseFails(dc, zone, done, o(i + 2, base));
    } else {
      BaseFails(dc, zone, s1, o(i, base));
      HeadDialled(s1, second, tail, o, i + 1);
      DashFails(dc, zone, done);
      var s2 := done.(queue := [forced] + tail);
      HeadDialled(s2, forced, tail, o, i + 2);
      BaseFails(dc, zone, done, o(i + 2, base));
    }
  }

  lemma {:induction false} ZonesInTurn(dc: nat, zones: seq<string>, media: bool, o: Oracle, tried: set<string>, i: nat)
    requires forall z | z in zones :: FindDashOne(z).None?
    requires Different(zones)
    requires forall z | z in zones :: BaseRecord(dc, z) !in tried && DashRecord(dc, z) !in tried
    requires DashMissing(dc, zones, o)
    ensures var w := Walk(Attempts(Queued(CfWsDomains(dc, zones, media)), tried, {}), o, i);
      w.attempts == AllZones(dc, zones, media) && w.winner.None?
  {
    hide BaseRecord, DashRecord, Walk, PerZone, FindDashOne;
    var queue := Queued(CfWsDomains(dc, zones, media));
    if zones == [] {
      assert queue == [];
      NothingLeft(tried, o, i);
    } else {
      var zone, rest := zones[0], zones[1..];
      var records, tail := OrderedRecords(dc, zone, media), Queued(CfWsDomains(dc, rest, media));
      assert queue == Queued(records) + tail;
      assert zone in zones && forall z | z in [zone] :: z in zones;
      OneZone(dc, zone, media, o, tail, tried, i);
      forall z | z in rest ensures z in zones && z != zone && BaseRecord(dc, z) !in tried + {records[0]} + {records[1]}
        && DashRecord(dc, z) !in tried + {records[0]} + {records[1]}
      {
        RecordsDiffer(dc, z, zone);
        RecordsDiffer(dc, zone, z);
      }
      ZonesInTurn(dc, rest, media, o, tried + {records[0]} + {records[1]}, i + 3);
    }
  }

  lemma NothingLeft(tried: set<string>, o: Oracle, i: nat)
    ensures Walk(Attempts([], tried, {}), o, i) == Walked([], None, true)
  {}

  function Times(attempts: seq<Attempt>, domain: string): nat {
    if attempts == [] then 0 else (if attempts[0].domain == domain then 1 else 0) + Times(attempts[1..], domain)
  }

  lemma {:induction false} TimesAppend(a: seq<Attempt>, b: seq<Attempt>, domain: string)
    ensures Times(a + b, domain) == Times(a, domain) + Times(b, domain)
  {
    if a == [] {
      assert a + b == b;
    } else {
      TimesAppend(a[1..], b, domain);
      assert (a + b)[1..] == a[1..] + b;
    }
  }

  lemma TimesPerZone(dc: nat, y: string, z: string, media: bool)
    ensures Times(PerZone(dc, y, media), BaseRecord(dc, z)) == if y == z then 2 else 0
    ensures Times(PerZone(dc, y, media), DashRecord(dc, z)) == if y == z then 1 else 0
  {
    hide BaseRecord, DashRecord;
    RecordsDiffer(dc, y, z);
    RecordsDiffer(dc, z, y);
    var p := PerZone(dc, y, media);
    TimesOfThree(p[0], p[1], p[2], BaseRecord(dc, z));
    TimesOfThree(p[0], p[1], p[2], DashRecord(dc, z));
  }

  lemma TimesFirst(a: Attempt, rest: seq<Attempt>, domain: string)
    ensures Times([a] + rest, domain) == (if a.domain == domain then 1 else 0) + Times(rest, domain)
  {
    assert ([a] + rest)[1..] == rest;
  }

  lemma TimesOfThree(a: Attempt, b: Attempt, c: Attempt, domain: string)
    ensures Times([a, b, c], domain) ==
      (if a.domain == domain then 1 else 0) + (if b.domain == domain then 1 else 0)
      + (if c.domain == domain then 1 else 0)
  {
    TimesFirst(a, [b, c], domain);
    TimesFirst(b, [c], domain);
    TimesFirst(c, [], domain);
    assert [a, b, c] == [a] + [b, c] && [b, c] == [b] + [c] && [c] == [c] + [];
  }

  lemma {:induction false} TimesAllZones(dc: nat, zones: seq<string>, media: bool, z: string)
    requires Different(zones)
    ensures Times(AllZones(dc, zones, media), BaseRecord(dc, z)) == if z in zones then 2 else 0
    ensures Times(AllZones(dc, zones, media), DashRecord(dc, z)) == if z in zones then 1 else 0
  {
    hide BaseRecord, DashRecord, PerZone;
    if zones != [] {
      TimesAllZones(dc, zones[1..], media, z);
      TimesPerZone(dc, zones[0], z, media);
      TimesAppend(PerZone(dc, zones[0], media), AllZones(dc, zones[1..], media), BaseRecord(dc, z));
      TimesAppend(PerZone(dc, zones[0], media), AllZones(dc, zones[1..], media), DashRecord(dc, z));
      assert z in zones <==> z == zones[0] || z in zones[1..];
    }
  }

  /**
   * Media fairness: where the `-1` records are missing from DNS and the base records fail without
   * running out the clock, both orderings dial every base record exactly twice.
   */
  lemma MediaFairness(dc: nat, zones: seq<string>, media: bool, o: Oracle, z: string)
    requires forall z | z in zones :: FindDashOne(z).None?
    requires Different(zones)
    requires DashMissing(dc, zones, o) && z in zones
    ensures var w := Walk(Attempts(Queued(CfWsDomains(dc, zones, media)), {}, {}), o, 0);
      && w.winner.None?
      && Times(w.attempts, BaseRecord(dc, z)) == 2 && Times(w.attempts, DashRecord(dc, z)) == 1
  {
    hide *;
    ZonesInTurn(dc, zones, media, o, {}, 0);
    TimesAllZones(dc, zones, media, z);
  }

  // Which names are dialled ------------------------------------------------------

  /** A name that begins like the records of this DC. */
  predicate OfDc(name: string, dc: nat) { "kws" + Decimal(dc) <= name }

  lemma {:induction false} RecordsOfDc(dc: nat, zones: seq<string>, media: bool)
    ensures forall d | d in CfWsDomains(dc, zones, media) :: OfDc(d, dc)
  {
    hide Decimal;
    if zones != [] { RecordsOfDc(dc, zones[1..], media); }
  }

  lemma BaseOfDc(dc: nat, domain: string)
    requires OfDc(domain, dc)
    ensures BaseCfRecord(domain).Some? ==> OfDc(BaseCfRecord(domain).value, dc)
  {
    hide Decimal, FindDashOne;
    DecimalDigits(dc);
    FindsFirst(domain);
    var front := "kws" + Decimal(dc);
    assert forall i | 0 <= i < |front| :: front[i] != '-' && domain[i] == front[i];
  }

  /** Whatever a walk dials is a record of the DC, fallbacks of strange zone names included. */
  lemma {:induction false} WinnerIsARecord(s: Attempts, o: Oracle, i: nat, dc: nat)
    requires forall a | a in s.queue :: OfDc(a.domain, dc)
    ensures Walk(s, o, i).winner.Some? ==> OfDc(Walk(s, o, i).winner.value, dc)
    decreases Measure(s.queue)
  {
    hide OfDc, BaseCfRecord;
    if Next(s).Some? {
      var (a, s') := Next(s).value;
      NextOfQueue(s);
      if o(i, a.domain) != Connected {
        BaseOfDc(dc, a.domain);
        var r := React(s', a.domain, o(i, a.domain));
        assert forall b | b in r.queue :: b in s'.queue || Some(b.domain) == BaseCfRecord(a.domain);
        WinnerIsARecord(r, o, i + 1, dc);
      }
    }
  }

  lemma {:induction false} NextOfQueue(s: Attempts)
    requires Next(s).Some?
    ensures var (a, s') := Next(s).value; a in s.queue && forall b | b in s'.queue :: b in s.queue
    decreases |s.queue|
  {
    var head, rest := s.queue[0], s.(queue := s.queue[1..]);
    if !head.forced && head.domain in s.tried { NextOfQueue(rest); }
  }

  lemma {:induction false} NoWinner(s: Attempts, o: Oracle, i: nat)
    requires forall j, d :: o(j, d) != Connected
    ensures Walk(s, o, i).winner.None?
    decreases Measure(s.queue)
  {
    hide React;
    if Next(s).Some? {
      var (a, s') := Next(s).value;
      NoWinner(React(s', a.domain, o(i, a.domain)), o, i + 1);
    }
  }

  /** The first record wins where everything connects. */
  lemma FirstWins(dc: nat, zones: seq<string>, media: bool)
    requires zones != []
    ensures Walk(Attempts(Queued(CfWsDomains(dc, zones, media)), {}, {}), (_, _) => Connected, 0).winner.Some?
  {
    var s := Attempts(Queued(CfWsDomains(dc, zones, media)), {}, {});
    assert s.queue != [] && !s.queue[0].forced && s.queue[0].domain !in s.tried;
    assert Next(s).Some?;
  }
}

/** What the source cache answers, serves and gives up, stated on its entries, on the clock and on
the history alone. */
module SourceAnswers {
  import opened Basics
  import opened Orders
  import opened SourceCache
  import opened SingleFlight

  // ------------------------------------------------------------------ one pass

  function FreshHits(t: Tables, now: real): map<Key, Hit> {
    map k | k in t.entries && now < t.entries[k].expiresAt :: t.entries[k]
  }

  function FreshMisses(t: Tables, now: real): map<Key, Miss> {
    map k | k in t.failures && now < t.failures[k].expiresAt :: t.failures[k]
  }

  /** What a pass answers and leaves, exactly: a fresh result is served, a fresh failure repeated,
      a key in flight waited for; otherwise the caller leads, unless every place in flight is
      taken.  Everything fresh stays, and nothing else. */
  lemma PassAnswers(c: Config, t: Tables, now: real, k: Key)
    requires Valid(c, t)
    ensures var (t', v) := Pass(c, t, now, k);
            && v == (if k in t.entries && now < t.entries[k].expiresAt then Cached(t.entries[k])
                     else if k in t.failures && now < t.failures[k].expiresAt then Failed(t.failures[k])
                     else if k in t.inflight then Wait
                     else if |t.inflight| >= c.maxEntries then AtCapacity
                     else Lead)
            && t'.entries == FreshHits(t, now) && t'.failures == FreshMisses(t, now)
            && t'.inflight == if v.Lead? then t.inflight + {k} else t.inflight
  {
    hide Keep, Lists, SumBytes;
    assert Expire(t, now).entries == FreshHits(t, now) && Expire(t, now).failures == FreshMisses(t, now);
  }

  // ------------------------------------------------------------------ the end of a resolver

  /** What publishing leaves, exactly: a result that can fit is stored for one time to live, at
      the cost of the least recently used ones that were in its way; a result that cannot fit is
      not stored and costs nothing. */
  lemma SuccessLeaves(c: Config, t: Tables, k: Key, source: Source, now: real) returns (n: nat)
    requires ValidConfig(c) && Valid(c, t) && k in t.inflight
    ensures var u := FinishSuccess(c, t, k, source, now);
            && u.inflight == t.inflight - {k} && u.failures == t.failures && n <= |t.order|
            && (if source.cacheSizeBytes > c.maxBytes then n == 0 && u.entries == t.entries
                else u.entries == (t.entries - Elements(t.order[..n]))[k := Hit(source, now + c.ttl)]
                     && (forall m :: 0 <= m < n ==> Tight(c, t, source.cacheSizeBytes, m)))
  {
    hide Evict, Keep, SumBytes, Tight, Elements, Valid;
    n := 0;
    NotStored(c, t, k);
    if source.cacheSizeBytes <= c.maxBytes {
      n := EvictLeaves(c, t, source.cacheSizeBytes);
    }
  }

  lemma NotStored(c: Config, t: Tables, k: Key)
    requires Valid(c, t) && k in t.inflight
    ensures k !in t.entries && Lists(t.order, t.entries)
  {
  }

  lemma EvictLeaves(c: Config, t: Tables, size: nat) returns (n: nat)
    requires ValidConfig(c) && Valid(c, t) && size <= c.maxBytes
    ensures Lists(t.order, t.entries) && n <= |t.order|
    ensures var room := Evict(c, t, size);
            room.inflight == t.inflight && room.failures == t.failures && room.entries == t.entries - Elements(t.order[..n])
    ensures forall m :: 0 <= m < n ==> Tight(c, t, size, m)
  {
    hide Evict, SumBytes, Tight, Elements;
    n := EvictsShortest(c, t, size);
    EvictFits(c, t, size);
    SuffixOf(t.order, n, t.entries, Evict(c, t, size).entries);
  }

  lemma SuffixOf<V>(order: seq<Key>, n: nat, all: map<Key, V>, rest: map<Key, V>)
    requires Lists(order, all) && n <= |order| && Lists(order[n..], rest) && forall k :: k in rest ==> k in all && rest[k] == all[k]
    ensures rest == all - Elements(order[..n])
  {
    assert order == order[..n] + order[n..];
    assert forall k :: k in all ==> (k in rest <==> k !in order[..n]);
  }

  /** When nothing is in the way nothing is given up. */
  lemma RoomyStoreKeepsAll(c: Config, t: Tables, k: Key, source: Source, now: real)
    requires ValidConfig(c) && Valid(c, t) && k in t.inflight
    requires |t.entries| < c.maxEntries && SumBytes(t.order, t.entries) + source.cacheSizeBytes <= c.maxBytes
    ensures FinishSuccess(c, t, k, source, now).entries == t.entries[k := Hit(source, now + c.ttl)]
  {
    Counted(t.order, t.entries.Keys);
    assert t.order[0..] == t.order;
    assert !Tight(c, t, source.cacheSizeBytes, 0);
    var n := SuccessLeaves(c, t, k, source, now);
    assert t.order[..0] == [] && t.entries - {} == t.entries;
  }

  lemma {:induction false} Counted(order: seq<Key>, ks: set<Key>)
    requires Distinct(order) && forall k :: k in order <==> k in ks
    ensures |order| == |ks|
  {
    if order == [] {
      assert ks == {};
    } else {
      DistinctHead(order);
      assert forall k :: k in order <==> k == order[0] || k in order[1..];
      Counted(order[1..], ks - {order[0]});
      Without(ks, order[0]);
    }
  }

  /** What a source error leaves, exactly: it is remembered for the negative time to live, and
      the oldest failures over the limit are forgotten; with no such time, nothing changes. */
  lemma FailureLeaves(c: Config, t: Tables, k: Key, code: string, now: real)
    requires ValidConfig(c) && Valid(c, t) && k in t.inflight
    ensures var u := FinishFailure(c, t, k, code, now);
            && u.inflight == t.inflight - {k} && u.entries == t.entries
            && (if c.negativeTtl == 0.0 then u.failures == t.failures
                else if |t.failureOrder| < c.maxEntries then u.failures == t.failures[k := Miss(code, now + c.negativeTtl)]
                else u.failures == (t.failures - {t.failureOrder[0]})[k := Miss(code, now + c.negativeTtl)])
  {
    hide Keep, SumBytes, TrimFailures, PutFailure;
    if c.negativeTtl != 0.0 {
      var miss := Miss(code, now + c.negativeTtl);
      PutFailureKeeps(t, k, miss);
      PutAppends(t, k, miss);
      TrimOne(c, PutFailure(t, k, miss));
    }
  }

  lemma PutAppends(t: Tables, k: Key, miss: Miss)
    requires Lists(t.failureOrder, t.failures) && k !in t.failures
    ensures PutFailure(t, k, miss) == t.(failureOrder := t.failureOrder + [k], failures := t.failures[k := miss])
  {
    KeepAll(t.failureOrder, t.failures.Keys - {k});
  }

  lemma TrimOne(c: Config, t: Tables)
    requires Lists(t.failureOrder, t.failures) && |t.failureOrder| <= c.maxEntries + 1 && t.failureOrder != []
    ensures TrimFailures(c, t).inflight == t.inflight && TrimFailures(c, t).entries == t.entries
    ensures TrimFailures(c, t).failures
         == if |t.failureOrder| <= c.maxEntries then t.failures else t.failures - {t.failureOrder[0]}
  {
    hide Keep;
    PopFailureKeeps(t, t.failureOrder[0]);
  }

  // ------------------------------------------------------------------ over whole runs

  /** A published result pushed `k` out of the cache. */
  ghost predicate Evicts(c: Config, s: System, step: Step, k: Key) {
    step.Report? && k in s.tables.entries && k !in Next(c, s, step).tables.entries
  }

  /** A remembered failure pushed `k`'s out of the cache. */
  ghost predicate EvictsFailure(c: Config, s: System, step: Step, k: Key) {
    step.Report? && k in s.tables.failures && k !in Next(c, s, step).tables.failures
  }

  lemma LookAnswers(c: Config, s: System, i: nat)
    requires Inv(c, s) && Enabled(s, Look(i))
    ensures var s', k := Next(c, s, Look(i)), s.threads[i].key;
            && s'.tables.entries == FreshHits(s.tables, s.clock) && s'.tables.failures == FreshMisses(s.tables, s.clock)
            && s'.clock == s.clock && |s'.threads| == |s.threads|
            && s'.threads[i].phase ==
                 (if k in s.tables.entries && s.clock < s.tables.entries[k].expiresAt then Served(s.tables.entries[k], s.clock)
                  else if k in s.tables.failures && s.clock < s.tables.failures[k].expiresAt then Refused(s.tables.failures[k], s.clock)
                  else if k in s.tables.inflight then Waiting(false)
                  else if |s.tables.inflight| >= c.maxEntries then Full
                  else Resolving)
  {
    PassAnswers(c, s.tables, s.clock, s.threads[i].key);
    hide Pass, Valid, ThreadOk, Held;
  }

  lemma ReportLeaves(c: Config, s: System, i: nat, report: Report, k: Key)
    requires ValidConfig(c) && Inv(c, s) && Enabled(s, Step.Report(i, report)) && k != s.threads[i].key
    ensures var s' := Next(c, s, Step.Report(i, report));
            && s'.clock == s.clock
            && (k in s.tables.entries && k in s'.tables.entries ==> s'.tables.entries[k] == s.tables.entries[k])
            && (k in s.tables.failures && k in s'.tables.failures ==> s'.tables.failures[k] == s.tables.failures[k])
  {
    assert ThreadOk(c, s, i);
    if !report.Fatal? { FinishHas(c, s.tables, s.threads[i].key, report, s.clock); }
    hide Finish, Valid, ThreadOk, Held;
  }

  /** Only a report or its deadline ends a cached result or failure. */
  lemma StepLeaves(c: Config, s: System, step: Step, k: Key)
    requires ValidConfig(c) && Inv(c, s)
    ensures var s' := Next(c, s, step);
            && s'.clock >= s.clock
            && (k in s.tables.entries && s'.clock < s.tables.entries[k].expiresAt && !Evicts(c, s, step, k) ==>
                  k in s'.tables.entries && s'.tables.entries[k] == s.tables.entries[k])
            && (k in s.tables.failures && s'.clock < s.tables.failures[k].expiresAt && !EvictsFailure(c, s, step, k) ==>
                  k in s'.tables.failures && s'.tables.failures[k] == s.tables.failures[k])
  {
    if Enabled(s, step) {
      match step
      case Tick(seconds) =>
      case Spurious(i) =>
      case Look(i) =>
        LookAnswers(c, s, i);
        hide Next, Inv;
      case Report(i, report) =>
        assert ThreadOk(c, s, i);
        NotLed(c, s, i, k);
        if k != s.threads[i].key { ReportLeaves(c, s, i, report, k); }
        hide Next, Inv, ThreadOk;
    }
  }

  lemma NotLed(c: Config, s: System, i: nat, k: Key)
    requires Inv(c, s) && i < |s.threads| && s.threads[i].phase.Resolving?
    ensures k in s.tables.entries || k in s.tables.failures ==> s.threads[i].key != k
  {
    assert ThreadOk(c, s, i);
    hide ThreadOk, Held, Lists, SumBytes;
  }

  lemma {:induction false} StaysCached(c: Config, keys: seq<Key>, start: real, steps: seq<Step>, n: nat, k: Key, hit: Hit)
    requires ValidConfig(c) && n <= |steps|
    requires var s := Run(c, Initial(keys, start), steps[..n]); k in s.tables.entries && s.tables.entries[k] == hit
    requires Run(c, Initial(keys, start), steps).clock < hit.expiresAt
    requires forall m :: n <= m < |steps| ==> !Evicts(c, Run(c, Initial(keys, start), steps[..m]), steps[m], k)
    ensures var s := Run(c, Initial(keys, start), steps); k in s.tables.entries && s.tables.entries[k] == hit
    decreases |steps|
  {
    hide Initial, Next, Evicts;
    if n == |steps| {
      assert steps[..n] == steps;
    } else {
      var front, last := steps[..|steps| - 1], steps[|steps| - 1];
      assert front[..n] == steps[..n] && forall m :: n <= m < |front| ==> front[..m] == steps[..m];
      Reachable(c, keys, start, front);
      StepLeaves(c, Run(c, Initial(keys, start), front), last, k);
      StaysCached(c, keys, start, front, n, k, hit);
    }
  }

  lemma {:induction false} StaysRefused(c: Config, keys: seq<Key>, start: real, steps: seq<Step>, n: nat, k: Key, miss: Miss)
    requires ValidConfig(c) && n <= |steps|
    requires var s := Run(c, Initial(keys, start), steps[..n]); k in s.tables.failures && s.tables.failures[k] == miss
    requires Run(c, Initial(keys, start), steps).clock < miss.expiresAt
    requires forall m :: n <= m < |steps| ==> !EvictsFailure(c, Run(c, Initial(keys, start), steps[..m]), steps[m], k)
    ensures var s := Run(c, Initial(keys, start), steps); k in s.tables.failures && s.tables.failures[k] == miss
    decreases |steps|
  {
    hide Initial, Next, EvictsFailure;
    if n == |steps| {
      assert steps[..n] == steps;
    } else {
      var front, last := steps[..|steps| - 1], steps[|steps| - 1];
      assert front[..n] == steps[..n] && forall m :: n <= m < |front| ==> front[..m] == steps[..m];
      Reachable(c, keys, start, front);
      StepLeaves(c, Run(c, Initial(keys, start), front), last, k);
      StaysRefused(c, keys, start, front, n, k, miss);
    }
  }

  lemma Published(c: Config, s: System, i: nat, source: Source)
    requires ValidConfig(c) && Inv(c, s) && Enabled(s, Step.Report(i, Success(source))) && source.cacheSizeBytes <= c.maxBytes
    ensures var s', k := Next(c, s, Step.Report(i, Success(source))), s.threads[i].key;
            k in s'.tables.entries && s'.tables.entries[k] == Hit(source, s.clock + c.ttl)
  {
    assert ThreadOk(c, s, i);
    var n := SuccessLeaves(c, s.tables, s.threads[i].key, source, s.clock);
    hide FinishSuccess, Valid, ThreadOk, Held;
  }

  lemma Remembered(c: Config, s: System, i: nat, code: string)
    requires ValidConfig(c) && Inv(c, s) && Enabled(s, Step.Report(i, Failure(code))) && c.negativeTtl > 0.0
    ensures var s', k := Next(c, s, Step.Report(i, Failure(code))), s.threads[i].key;
            k in s'.tables.failures && s'.tables.failures[k] == Miss(code, s.clock + c.negativeTtl)
  {
    assert ThreadOk(c, s, i);
    FailureLeaves(c, s.tables, s.threads[i].key, code, s.clock);
    hide FinishFailure, Valid, ThreadOk, Held;
  }

  /** A result that a resolver returned at step `n` and that can fit is served, that very result,
      to every look at its key, as long as it is younger than its time to live and no other result
      pushed it out. */
  lemma SuccessIsServed(c: Config, keys: seq<Key>, start: real, steps: seq<Step>, n: nat, i: nat, source: Source, j: nat)
    requires ValidConfig(c) && n < |steps| && steps[n] == Step.Report(i, Success(source)) && source.cacheSizeBytes <= c.maxBytes
    requires Enabled(Run(c, Initial(keys, start), steps[..n]), steps[n])
    requires var s0, s := Run(c, Initial(keys, start), steps[..n]), Run(c, Initial(keys, start), steps);
             && s.clock < s0.clock + c.ttl
             && (forall m :: n < m < |steps| ==>
                   !Evicts(c, Run(c, Initial(keys, start), steps[..m]), steps[m], s0.threads[i].key))
             && Enabled(s, Look(j)) && s.threads[j].key == s0.threads[i].key
    ensures var s0, s := Run(c, Initial(keys, start), steps[..n]), Run(c, Initial(keys, start), steps);
            var s' := Next(c, s, Look(j));
            j < |s'.threads| && s'.threads[j].phase == Served(Hit(source, s0.clock + c.ttl), s.clock)
  {
    hide Initial, Next, Evicts, Inv;
    var s0, s := Run(c, Initial(keys, start), steps[..n]), Run(c, Initial(keys, start), steps);
    Reachable(c, keys, start, steps[..n]);
    Published(c, s0, i, source);
    assert steps[..n + 1][..n] == steps[..n] && steps[..n + 1][n] == steps[n];
    assert Run(c, Initial(keys, start), steps[..n + 1]) == Next(c, s0, steps[n]);
    StaysCached(c, keys, start, steps, n + 1, s0.threads[i].key, Hit(source, s0.clock + c.ttl));
    Reachable(c, keys, start, steps);
    LookAnswers(c, s, j);
  }

  /** A failure that a resolver reported at step `n` is repeated, without another resolver, to every
      look at its key within the negative time to live, unless newer failures pushed it out. */
  lemma FailureIsRepeated(c: Config, keys: seq<Key>, start: real, steps: seq<Step>, n: nat, i: nat, code: string, j: nat)
    requires ValidConfig(c) && n < |steps| && steps[n] == Step.Report(i, Failure(code)) && c.negativeTtl > 0.0
    requires Enabled(Run(c, Initial(keys, start), steps[..n]), steps[n])
    requires var s0, s := Run(c, Initial(keys, start), steps[..n]), Run(c, Initial(keys, start), steps);
             && s.clock < s0.clock + c.negativeTtl
             && (forall m :: n < m < |steps| ==>
                   !EvictsFailure(c, Run(c, Initial(keys, start), steps[..m]), steps[m], s0.threads[i].key))
             && Enabled(s, Look(j)) && s.threads[j].key == s0.threads[i].key
    ensures var s0, s := Run(c, Initial(keys, start), steps[..n]), Run(c, Initial(keys, start), steps);
            var s' := Next(c, s, Look(j));
            j < |s'.threads| && s'.threads[j].phase == Refused(Miss(code, s0.clock + c.negativeTtl), s.clock)
  {
    hide Initial, Next, EvictsFailure;
    var s0, s := Run(c, Initial(keys, start), steps[..n]), Run(c, Initial(keys, start), steps);
    Reachable(c, keys, start, steps[..n]);
    Remembered(c, s0, i, code);
    assert steps[..n + 1][..n] == steps[..n] && steps[..n + 1][n] == steps[n];
    assert Run(c, Initial(keys, start), steps[..n + 1]) == Next(c, s0, steps[n]);
    StaysRefused(c, keys, start, steps, n + 1, s0.threads[i].key, Miss(code, s0.clock + c.negativeTtl));
    Reachable(c, keys, start, steps);
    NoHit(c, s, s0.threads[i].key);
    LookAnswers(c, s, j);
    hide Inv;
  }

  lemma NoHit(c: Config, s: System, k: Key)
    requires Inv(c, s) && k in s.tables.failures
    ensures k !in s.tables.entries
  {
    hide ThreadOk, Held, Lists, SumBytes;
  }

  // ------------------------------------------------------------------ what a leader returns

  /** Step `n` of the run ends the resolver of thread `i` with `report`. */
  ghost predicate Ended(c: Config, keys: seq<Key>, start: real, steps: seq<Step>, n: nat, i: nat, report: Report) {
    n < |steps| && steps[n] == Step.Report(i, report) && Enabled(Run(c, Initial(keys, start), steps[..n]), steps[n])
  }

  ghost predicate EverEnded(c: Config, keys: seq<Key>, start: real, steps: seq<Step>, i: nat, report: Report) {
    exists n: nat :: Ended(c, keys, start, steps, n, i, report)
  }

  function Outcome(report: Report): Phase {
    match report
    case Success(source) => Answered(source)
    case Failure(_) => Raised
    case Other => Raised
    case Fatal => Died
  }

  predicate Final(phase: Phase) { phase.Answered? || phase.Raised? || phase.Died? }

  lemma PhaseStep(c: Config, s: System, step: Step, i: nat)
    requires Inv(c, s) && i < |s.threads|
    ensures var s' := Next(c, s, step);
            && |s'.threads| == |s.threads|
            && (if Enabled(s, step) && step.Report? && step.i == i then
                  s.threads[i].phase.Resolving? && s'.threads[i].phase == Outcome(step.report)
                else forall phase :: Final(phase) ==> (s'.threads[i].phase == phase <==> s.threads[i].phase == phase))
  {
    hide Pass, Valid, ThreadOk, Held, FinishSuccess, FinishFailure, FinishCrash;
    assert Lists(s.tables.order, s.tables.entries) && Lists(s.tables.failureOrder, s.tables.failures) by { ListsOfValid(c, s.tables); }
  }

  lemma ListsOfValid(c: Config, t: Tables)
    requires Valid(c, t)
    ensures Lists(t.order, t.entries) && Lists(t.failureOrder, t.failures)
  {
  }

  lemma EndedSnoc(c: Config, keys: seq<Key>, start: real, steps: seq<Step>, i: nat, report: Report)
    requires steps != []
    ensures var front, last := steps[..|steps| - 1], steps[|steps| - 1];
            EverEnded(c, keys, start, steps, i, report) <==>
              || EverEnded(c, keys, start, front, i, report)
              || (last == Step.Report(i, report) && Enabled(Run(c, Initial(keys, start), front), last))
  {
    hide Enabled, Initial, Run;
    var m := |steps| - 1;
    var front := steps[..m];
    forall n: nat | n < m ensures front[..n] == steps[..n] && front[n] == steps[n] {}
    if EverEnded(c, keys, start, steps, i, report) {
      var n: nat :| Ended(c, keys, start, steps, n, i, report);
      if n < m { assert Ended(c, keys, start, front, n, i, report); }
    }
    if EverEnded(c, keys, start, front, i, report) {
      var n: nat :| Ended(c, keys, start, front, n, i, report);
      assert Ended(c, keys, start, steps, n, i, report);
    }
    if steps[m] == Step.Report(i, report) && Enabled(Run(c, Initial(keys, start), front), steps[m]) {
      assert Ended(c, keys, start, steps, m, i, report);
    }
  }

  /** A phase tells how the resolver ended, if it did. */
  ghost predicate Tells(phase: Phase, ended: Report -> bool) {
    && (forall source :: phase == Answered(source) <==> ended(Success(source)))
    && (phase.Raised? <==> ended(Other) || exists code :: ended(Failure(code)))
    && (phase.Died? <==> ended(Fatal))
  }

  lemma NothingTold(phase: Phase, ended: Report -> bool, more: Report -> bool, report: Report)
    requires Tells(phase, ended) && !Final(phase) && forall r :: more(r) <==> ended(r) || r == report
    ensures Tells(Outcome(report), more)
  {
    forall r ensures !ended(r) {
      match r
      case Success(source) => assert phase != Answered(source);
      case _ =>
    }
    if report.Failure? { assert more(Failure(report.code)); }
  }

  lemma NothingYet(ended: Report -> bool)
    requires forall r :: !ended(r)
    ensures Tells(Entering, ended)
  {
  }

  lemma NeverEnded(c: Config, keys: seq<Key>, start: real, i: nat, report: Report)
    ensures !EverEnded(c, keys, start, [], i, report)
  {
  }

  lemma SameTold(phase: Phase, phase': Phase, ended: Report -> bool, more: Report -> bool)
    requires Tells(phase, ended) && (forall r :: more(r) <==> ended(r))
    requires forall final :: Final(final) ==> (phase' == final <==> phase == final)
    ensures Tells(phase', more)
  {
    assert Final(Raised) && Final(Died);
    forall source ensures phase' == Answered(source) <==> phase == Answered(source) { assert Final(Answered(source)); }
    forall code ensures more(Failure(code)) <==> ended(Failure(code)) {}
  }

  /** Over every run: a thread has returned a result of its own exactly if its resolver gave that
      result, has raised exactly if its resolver raised, and has died exactly if it was ended. */
  lemma {:induction false} OutcomeIff(c: Config, keys: seq<Key>, start: real, steps: seq<Step>, i: nat)
    requires ValidConfig(c) && i < |keys|
    ensures i < |Run(c, Initial(keys, start), steps).threads|
    ensures Tells(Run(c, Initial(keys, start), steps).threads[i].phase, report => EverEnded(c, keys, start, steps, i, report))
  {
    hide EverEnded, Tells, Inv, Next, Enabled;
    var all := report => EverEnded(c, keys, start, steps, i, report);
    if steps == [] {
      forall report ensures !all(report) { NeverEnded(c, keys, start, i, report); }
      NothingYet(all);
    } else {
      var front, last := steps[..|steps| - 1], steps[|steps| - 1];
      var s := Run(c, Initial(keys, start), front);
      var before := report => EverEnded(c, keys, start, front, i, report);
      OutcomeIff(c, keys, start, front, i);
      Reachable(c, keys, start, front);
      PhaseStep(c, s, last, i);
      forall report ensures all(report) <==> before(report) || (last == Step.Report(i, report) && Enabled(s, last)) {
        EndedSnoc(c, keys, start, steps, i, report);
      }
      if Enabled(s, last) && last.Report? && last.i == i {
        NothingTold(s.threads[i].phase, before, all, last.report);
      } else {
        SameTold(s.threads[i].phase, Next(c, s, last).threads[i].phase, before, all);
      }
    }
  }

  // ------------------------------------------------------------------ recency

  /** The key whose result the step published or served. */
  ghost function Touched(c: Config, s: System, step: Step): Option<Key> {
    if !Enabled(s, step) then None
    else
      match step
      case Look(i) => if i < |Next(c, s, step).threads| && Next(c, s, step).threads[i].phase.Served? then Some(s.threads[i].key) else None
      case Report(i, report) =>
        if report.Success? && report.source.cacheSizeBytes <= c.maxBytes then Some(s.threads[i].key) else None
      case _ => None
  }

  /** The key whose failure the step remembered or repeated. */
  ghost function TouchedFailure(c: Config, s: System, step: Step): Option<Key> {
    if !Enabled(s, step) then None
    else
      match step
      case Look(i) => if i < |Next(c, s, step).threads| && Next(c, s, step).threads[i].phase.Refused? then Some(s.threads[i].key) else None
      case Report(i, report) => if report.Failure? && c.negativeTtl > 0.0 then Some(s.threads[i].key) else None
      case _ => None
  }

  ghost function After(recency: seq<Key>, touched: Option<Key>): seq<Key> {
    match touched case None => recency case Some(k) => Renew(recency, k)
  }

  /** The keys ever published or served, the most recent last. */
  ghost function Recency(c: Config, s: System, steps: seq<Step>): seq<Key> {
    if steps == [] then []
    else
      var front := steps[..|steps| - 1];
      After(Recency(c, s, front), Touched(c, Run(c, s, front), steps[|steps| - 1]))
  }

  ghost function FailureRecency(c: Config, s: System, steps: seq<Step>): seq<Key> {
    if steps == [] then []
    else
      var front := steps[..|steps| - 1];
      After(FailureRecency(c, s, front), TouchedFailure(c, Run(c, s, front), steps[|steps| - 1]))
  }

  /** Both tables stand in the given orders. */
  ghost predicate Stands(t: Tables, recency: seq<Key>, failureRecency: seq<Key>) {
    t.order == Keep(recency, t.entries.Keys) && t.failureOrder == Keep(failureRecency, t.failures.Keys)
  }

  lemma ExpireStands(t: Tables, now: real, r: seq<Key>, f: seq<Key>)
    requires Stands(t, r, f)
    ensures Stands(Expire(t, now), r, f)
  {
    hide Keep;
    RecencyDrop(t.order, t.entries.Keys, t.entries.Keys - Stale(t, now), r);
    RecencyDrop(t.failureOrder, t.failures.Keys, t.failures.Keys - StaleFailures(t, now), f);
    assert (t.entries - Stale(t, now)).Keys == t.entries.Keys - Stale(t, now);
    assert (t.failures - StaleFailures(t, now)).Keys == t.failures.Keys - StaleFailures(t, now);
  }

  lemma AnswerStands(c: Config, t: Tables, k: Key, r: seq<Key>, f: seq<Key>)
    requires Stands(t, r, f)
    ensures var (t', v) := Answer(c, t, k);
            Stands(t', if v.Cached? then Renew(r, k) else r, if v.Failed? then Renew(f, k) else f)
  {
    hide Keep, Renew;
    RecencyTouch(t.order, t.entries.Keys, r, k);
    RecencyTouch(t.failureOrder, t.failures.Keys, f, k);
    assert k in t.entries ==> t.entries.Keys + {k} == t.entries.Keys;
    assert k in t.failures ==> t.failures.Keys + {k} == t.failures.Keys;
  }

  lemma {:induction false} EvictStands(c: Config, t: Tables, size: nat, r: seq<Key>, f: seq<Key>)
    requires Lists(t.order, t.entries) && Stands(t, r, f)
    ensures Stands(Evict(c, t, size), r, f)
    decreases |t.order|
  {
    if Crowded(c, t, size) {
      PopKeeps(t, t.order[0]);
      PopStands(t, t.order[0], r, f);
      hide Keep, Pop, SumBytes, Lists;
      EvictStands(c, Pop(t, t.order[0]), size, r, f);
    }
  }

  lemma PopStands(t: Tables, k: Key, r: seq<Key>, f: seq<Key>)
    requires Stands(t, r, f)
    ensures Stands(Pop(t, k), r, f) && Stands(PopFailure(t, k), r, f)
  {
    hide Keep;
    RecencyDrop(t.order, t.entries.Keys, t.entries.Keys - {k}, r);
    RecencyDrop(t.failureOrder, t.failures.Keys, t.failures.Keys - {k}, f);
    assert (t.entries - {k}).Keys == t.entries.Keys - {k} && (t.failures - {k}).Keys == t.failures.Keys - {k};
  }

  lemma SuccessStands(c: Config, t: Tables, k: Key, source: Source, now: real, r: seq<Key>, f: seq<Key>)
    requires ValidConfig(c) && Valid(c, t) && k in t.inflight && Stands(t, r, f)
    ensures Stands(FinishSuccess(c, t, k, source, now), if source.cacheSizeBytes <= c.maxBytes then Renew(r, k) else r, f)
  {
    if source.cacheSizeBytes <= c.maxBytes {
      EvictFits(c, t, source.cacheSizeBytes);
      EvictStands(c, t, source.cacheSizeBytes, r, f);
      hide Keep, Evict, Renew, SumBytes, Lists, Stands;
      AppendStands(Evict(c, t, source.cacheSizeBytes), k, Hit(source, now + c.ttl), r, f);
      SameStands(FinishSuccess(c, t, k, source, now), StoreSuccess(c, t, k, source, now), Renew(r, k), f);
    } else {
      SameStands(FinishSuccess(c, t, k, source, now), t, r, f);
    }
  }

  lemma SameStands(t: Tables, u: Tables, r: seq<Key>, f: seq<Key>)
    requires t.order == u.order && t.entries == u.entries && t.failureOrder == u.failureOrder && t.failures == u.failures
    ensures Stands(t, r, f) <==> Stands(u, r, f)
  {
  }

  lemma AppendStands(t: Tables, k: Key, hit: Hit, r: seq<Key>, f: seq<Key>)
    requires Stands(t, r, f) && Lists(t.order, t.entries) && k !in t.entries
    ensures Stands(t.(order := t.order + [k], entries := t.entries[k := hit]), Renew(r, k), f)
  {
    KeepAll(t.order, t.entries.Keys - {k});
    RecencyTouch(t.order, t.entries.Keys, r, k);
    hide Keep, Renew;
    assert t.entries[k := hit].Keys == t.entries.Keys + {k};
  }

  lemma PutStands(t: Tables, k: Key, miss: Miss, r: seq<Key>, f: seq<Key>)
    requires Stands(t, r, f)
    ensures Stands(PutFailure(t, k, miss), r, Renew(f, k))
  {
    RecencyTouch(t.failureOrder, t.failures.Keys, f, k);
    hide Keep, Renew;
    assert t.failures[k := miss].Keys == t.failures.Keys + {k};
  }

  lemma {:induction false} TrimStands(c: Config, t: Tables, r: seq<Key>, f: seq<Key>)
    requires Lists(t.failureOrder, t.failures) && Stands(t, r, f)
    ensures Stands(TrimFailures(c, t), r, f)
    decreases |t.failureOrder|
  {
    if |t.failureOrder| > c.maxEntries {
      PopFailureKeeps(t, t.failureOrder[0]);
      PopStands(t, t.failureOrder[0], r, f);
      hide Keep, PopFailure, Lists;
      TrimStands(c, PopFailure(t, t.failureOrder[0]), r, f);
    }
  }

  lemma FailureStands(c: Config, t: Tables, k: Key, code: string, now: real, r: seq<Key>, f: seq<Key>)
    requires ValidConfig(c) && Valid(c, t) && k in t.inflight && Stands(t, r, f)
    ensures Stands(FinishFailure(c, t, k, code, now), r, if c.negativeTtl > 0.0 then Renew(f, k) else f)
  {
    hide Keep, Renew, SumBytes, TrimFailures, PutFailure, Lists, Stands;
    if c.negativeTtl != 0.0 {
      var miss := Miss(code, now + c.negativeTtl);
      PutFailureKeeps(t, k, miss);
      PutStands(t, k, miss, r, f);
      var trimmed := TrimFailures(c, PutFailure(t, k, miss));
      TrimStands(c, PutFailure(t, k, miss), r, Renew(f, k));
      SameStands(FinishFailure(c, t, k, code, now), trimmed, r, Renew(f, k));
    } else {
      SameStands(FinishFailure(c, t, k, code, now), t, r, f);
    }
  }

  lemma StepStands(c: Config, s: System, step: Step, r: seq<Key>, f: seq<Key>)
    requires ValidConfig(c) && Inv(c, s) && Stands(s.tables, r, f)
    ensures Stands(Next(c, s, step).tables, After(r, Touched(c, s, step)), After(f, TouchedFailure(c, s, step)))
  {
    hide Keep, Renew, Stands;
    if Enabled(s, step) {
      match step
      case Tick(seconds) =>
      case Spurious(i) =>
      case Look(i) =>
        ExpireStands(s.tables, s.clock, r, f);
        AnswerStands(c, Expire(s.tables, s.clock), s.threads[i].key, r, f);
        hide Expire, Answer, Valid, ThreadOk, Held;
      case Report(i, report) =>
        assert ThreadOk(c, s, i);
        match report {
          case Success(source) => SuccessStands(c, s.tables, s.threads[i].key, source, s.clock, r, f);
          case Failure(code) => FailureStands(c, s.tables, s.threads[i].key, code, s.clock, r, f);
          case Other => CrashStands(s.tables, s.threads[i].key, r, f);
          case Fatal =>
        }
        hide FinishSuccess, FinishFailure, FinishCrash, Valid, ThreadOk, Held;
    }
  }

  lemma CrashStands(t: Tables, k: Key, r: seq<Key>, f: seq<Key>)
    requires Stands(t, r, f)
    ensures Stands(FinishCrash(t, k), r, f)
  {
  }

  /** In every reachable state both tables stand in the order in which the history last published or
      served each result, and last remembered or repeated each failure: what eviction and trimming
      drop first is what was used least recently. */
  lemma {:induction false} OrderIsRecency(c: Config, keys: seq<Key>, start: real, steps: seq<Step>)
    requires ValidConfig(c)
    ensures var s := Initial(keys, start);
            Stands(Run(c, s, steps).tables, Recency(c, s, steps), FailureRecency(c, s, steps))
  {
    var s := Initial(keys, start);
    if steps != [] {
      var front := steps[..|steps| - 1];
      OrderIsRecency(c, keys, start, front);
      Reachable(c, keys, start, front);
      hide Initial, Next, Stands, Touched, TouchedFailure, After;
      StepStands(c, Run(c, s, front), steps[|steps| - 1], Recency(c, s, front), FailureRecency(c, s, front));
    }
  }
}

/** Any number of threads resolving sources through one cache.

A step is what one thread does while it holds the lock, or the passing of time.  A resolver
runs outside the lock and may return, raise a source error, raise any other `Exception`, or end
its thread by an exception outside that class, which no handler of the cache sees.  `log`
records every answer a resolver gave, and is read by no step. */
module SingleFlight {
  import opened Orders
  import opened SourceCache

  datatype Phase =
    | Entering
    | Waiting(notified: bool)
    | Resolving
    | Served(hit: Hit, at: real)       // returned a cached result
    | Refused(miss: Miss, at: real)    // raised a cached failure
    | Full                             // raised the capacity error
    | Answered(source: Source)         // returned its own resolver's result
    | Raised
    | Died                             // its resolver was ended by a fatal exception

  datatype Thread = Thread(key: Key, phase: Phase)

  datatype Report = Success(source: Source) | Failure(code: string) | Other | Fatal

  datatype LogEntry = LogEntry(key: Key, report: Report, at: real)

  datatype System = System(clock: real, tables: Tables, threads: seq<Thread>, log: set<LogEntry>)

  datatype Step =
    | Tick(seconds: real)
    | Look(i: nat)                     // enter, or wake up, and run one pass of the loop
    | Spurious(i: nat)                 // wake without having been notified
    | Report(i: nat, report: Report)   // the resolver of thread i ends

  function Initial(keys: seq<Key>, start: real): System {
    System(start, EMPTY, seq(|keys|, i requires 0 <= i < |keys| => Thread(keys[i], Entering)), {})
  }

  predicate Enabled(s: System, step: Step) {
    match step
    case Tick(seconds) => 0.0 <= seconds
    case Look(i) => i < |s.threads| && (s.threads[i].phase.Entering? || s.threads[i].phase == Waiting(true))
    case Spurious(i) => i < |s.threads| && s.threads[i].phase.Waiting?
    case Report(i, _) => i < |s.threads| && s.threads[i].phase.Resolving?
  }

  function AfterLook(s: System, i: nat, t: Tables, v: Verdict): System
    requires i < |s.threads|
  {
    var phase := match v
      case Cached(hit) => Served(hit, s.clock)
      case Failed(miss) => Refused(miss, s.clock)
      case AtCapacity => Full
      case Lead => Resolving
      case Wait => Waiting(false);
    s.(tables := t, threads := s.threads[i := s.threads[i].(phase := phase)])
  }

  /** Every waiter is notified; the others stay where they are. */
  function NotifyAll(threads: seq<Thread>): (r: seq<Thread>)
    ensures |r| == |threads|
    ensures forall i :: 0 <= i < |threads| ==>
              r[i] == if threads[i].phase.Waiting? then threads[i].(phase := Waiting(true)) else threads[i]
  {
    seq(|threads|, i requires 0 <= i < |threads| =>
      if threads[i].phase.Waiting? then threads[i].(phase := Waiting(true)) else threads[i])
  }

  function Finish(c: Config, t: Tables, k: Key, report: Report, now: real): Tables
    requires Lists(t.order, t.entries) && Lists(t.failureOrder, t.failures)
  {
    match report
    case Success(source) => FinishSuccess(c, t, k, source, now)
    case Failure(code) => FinishFailure(c, t, k, code, now)
    case Other => FinishCrash(t, k)
    case Fatal => t
  }

  /** A handled end publishes, notifies and is logged; a fatal one does none of this. */
  function AfterReport(s: System, i: nat, report: Report, t: Tables): System
    requires i < |s.threads|
  {
    if report.Fatal? then s.(threads := s.threads[i := s.threads[i].(phase := Died)])
    else AfterHandled(s, i, report, t)
  }

  function AfterHandled(s: System, i: nat, report: Report, t: Tables): System
    requires i < |s.threads|
  {
    var phase := if report.Success? then Answered(report.source) else Raised;
    s.(tables := t,
       threads := NotifyAll(s.threads[i := s.threads[i].(phase := phase)]),
       log := s.log + {LogEntry(s.threads[i].key, report, s.clock)})
  }

  /** One step; a step that is not enabled changes nothing. */
  ghost function Next(c: Config, s: System, step: Step): System {
    if !Enabled(s, step) || !Lists(s.tables.order, s.tables.entries) || !Lists(s.tables.failureOrder, s.tables.failures) then s
    else
      match step
      case Tick(seconds) => s.(clock := s.clock + seconds)
      case Look(i) =>
        var (t, v) := Pass(c, s.tables, s.clock, s.threads[i].key);
        AfterLook(s, i, t, v)
      case Spurious(i) => s.(threads := s.threads[i := s.threads[i].(phase := Waiting(true))])
      case Report(i, report) =>
        AfterReport(s, i, report, Finish(c, s.tables, s.threads[i].key, report, s.clock))
  }

  ghost function Run(c: Config, s: System, steps: seq<Step>): System {
    if steps == [] then s else Next(c, Run(c, s, steps[..|steps| - 1]), steps[|steps| - 1])
  }

  // ------------------------------------------------------------------ the invariant

  /** A cached result is what a resolver returned for that key one time to live before its deadline. */
  ghost predicate Logged(c: Config, s: System, k: Key, hit: Hit) {
    LogEntry(k, Success(hit.source), hit.expiresAt - c.ttl) in s.log
  }

  ghost predicate LoggedFailure(c: Config, s: System, k: Key, miss: Miss) {
    LogEntry(k, Failure(miss.code), miss.expiresAt - c.negativeTtl) in s.log
  }

  ghost predicate ThreadOk(c: Config, s: System, i: nat)
    requires i < |s.threads|
  {
    var k := s.threads[i].key;
    match s.threads[i].phase
    case Waiting(notified) => notified || k in s.tables.inflight
    case Resolving => k in s.tables.inflight
    case Died => k in s.tables.inflight
    case Served(hit, at) => Logged(c, s, k, hit) && hit.expiresAt - c.ttl <= at < hit.expiresAt
    case Refused(miss, at) => LoggedFailure(c, s, k, miss) && miss.expiresAt - c.negativeTtl <= at < miss.expiresAt
    case _ => true
  }

  /** Thread `i` is running the resolver for `k`. */
  ghost predicate Leads(s: System, i: nat, k: Key)
    requires i < |s.threads|
  {
    s.threads[i].phase.Resolving? && s.threads[i].key == k
  }

  ghost predicate Led(s: System, k: Key) {
    exists i :: 0 <= i < |s.threads| && Leads(s, i, k)
  }

  /** A resolver for `k` was ended by a fatal exception. */
  ghost predicate Abandoned(s: System, k: Key) {
    exists i :: 0 <= i < |s.threads| && s.threads[i].phase.Died? && s.threads[i].key == k
  }

  predicate Holding(thread: Thread) { thread.phase.Resolving? || thread.phase.Died? }

  /** Thread `i` put `k` in flight and has not taken it out. */
  ghost predicate Holds(s: System, i: nat, k: Key)
    requires i < |s.threads|
  {
    Holding(s.threads[i]) && s.threads[i].key == k
  }

  ghost predicate Held(s: System, k: Key) {
    exists i :: 0 <= i < |s.threads| && Holds(s, i, k)
  }

  ghost predicate Inv(c: Config, s: System) {
    && Valid(c, s.tables)
    && (forall i :: 0 <= i < |s.threads| ==> ThreadOk(c, s, i))
    && (forall k :: k in s.tables.inflight ==> Held(s, k))
    && (forall i, j :: 0 <= i < j < |s.threads| ==> !(Holding(s.threads[i]) && Holds(s, j, s.threads[i].key)))
    && (forall k :: k in s.tables.entries ==> Logged(c, s, k, s.tables.entries[k]))
    && (forall k :: k in s.tables.failures ==> LoggedFailure(c, s, k, s.tables.failures[k]))
    && (forall e :: e in s.log ==> e.at <= s.clock)
  }

  // ------------------------------------------------------------------ effects of the table steps

  ghost predicate LookEffect(t: Tables, now: real, k: Key, t': Tables, v: Verdict) {
    && (forall q :: q in t'.entries ==> q in t.entries && t'.entries[q] == t.entries[q])
    && (forall q :: q in t'.failures ==> q in t.failures && t'.failures[q] == t.failures[q])
    && t'.inflight == (if v.Lead? then t.inflight + {k} else t.inflight)
    && (v.Cached? ==> k in t.entries && v.hit == t.entries[k] && now < v.hit.expiresAt)
    && (v.Failed? ==> k in t.failures && v.miss == t.failures[k] && now < v.miss.expiresAt)
    && (v.Wait? ==> k in t.inflight)
    && (v.Lead? ==> k !in t.inflight)
  }

  lemma LookHas(c: Config, t: Tables, now: real, k: Key)
    ensures var (t', v) := Pass(c, t, now, k); LookEffect(t, now, k, t', v)
  {
    hide Keep;
  }

  ghost predicate FinishEffect(c: Config, t: Tables, k: Key, report: Report, now: real, t': Tables) {
    && Valid(c, t')
    && t'.inflight == t.inflight - {k}
    && (forall q :: q in t'.entries ==>
          (q in t.entries && t'.entries[q] == t.entries[q])
          || (q == k && report.Success? && t'.entries[q] == Hit(report.source, now + c.ttl)))
    && (forall q :: q in t'.failures ==>
          (q in t.failures && t'.failures[q] == t.failures[q])
          || (q == k && report.Failure? && t'.failures[q] == Miss(report.code, now + c.negativeTtl)))
  }

  lemma FinishHas(c: Config, t: Tables, k: Key, report: Report, now: real)
    requires ValidConfig(c) && Valid(c, t) && k in t.inflight && !report.Fatal?
    ensures FinishEffect(c, t, k, report, now, Finish(c, t, k, report, now))
  {
    match report
    case Success(source) =>
      FinishSuccessKeeps(c, t, k, source, now);
      StoreKeeps(c, t, k, source, now);
      hide StoreSuccess, Valid;
    case Failure(code) =>
      FinishFailureKeeps(c, t, k, code, now);
      FinishFailureRest(c, t, k, code, now);
      hide FinishFailure, Valid;
    case Other =>
      Without(t.inflight, k);
  }

  lemma FinishFailureRest(c: Config, t: Tables, k: Key, code: string, now: real)
    requires Lists(t.failureOrder, t.failures)
    ensures var u := FinishFailure(c, t, k, code, now); u.inflight == t.inflight - {k} && u.entries == t.entries
  {
    hide Keep;
    if c.negativeTtl != 0.0 {
      var miss := Miss(code, now + c.negativeTtl);
      PutFailureKeeps(t, k, miss);
      TrimFits(c, PutFailure(t, k, miss));
    }
  }

  // ------------------------------------------------------------------ one step

  lemma InitialOk(c: Config, keys: seq<Key>, start: real)
    requires ValidConfig(c)
    ensures Inv(c, Initial(keys, start))
  {
  }

  lemma HeldStays(s: System, s': System, k: Key)
    requires Held(s, k) && |s'.threads| == |s.threads|
    requires forall j :: 0 <= j < |s.threads| && Holds(s, j, k) ==> Holds(s', j, k)
    ensures Held(s', k)
  {
    var j :| 0 <= j < |s.threads| && Holds(s, j, k);
    assert Holds(s', j, k);
  }

  lemma LookKeeps(c: Config, s: System, i: nat, t: Tables, v: Verdict)
    requires ValidConfig(c) && Inv(c, s) && i < |s.threads| && !Holding(s.threads[i])
    requires Valid(c, t) && LookEffect(s.tables, s.clock, s.threads[i].key, t, v)
    ensures Inv(c, AfterLook(s, i, t, v))
  {
    hide Valid;
    var s' := AfterLook(s, i, t, v);
    var k := s.threads[i].key;
    forall j | 0 <= j < |s'.threads| ensures ThreadOk(c, s', j) {
      assert ThreadOk(c, s, j);
      if j == i && v.Cached? { assert Logged(c, s, k, v.hit); }
      if j == i && v.Failed? { assert LoggedFailure(c, s, k, v.miss); }
    }
    forall q | q in s'.tables.inflight ensures Held(s', q) {
      if q in s.tables.inflight { HeldStays(s, s', q); } else { assert Holds(s', i, k); }
    }
    forall a, b | 0 <= a < b < |s'.threads|
      ensures !(Holding(s'.threads[a]) && Holds(s', b, s'.threads[a].key))
    {
      assert ThreadOk(c, s, a) && ThreadOk(c, s, b);
      assert !(Holding(s.threads[a]) && Holds(s, b, s.threads[a].key));
    }
    forall q | q in s'.tables.entries ensures Logged(c, s', q, s'.tables.entries[q]) {
      assert Logged(c, s, q, s.tables.entries[q]);
    }
    forall q | q in s'.tables.failures ensures LoggedFailure(c, s', q, s'.tables.failures[q]) {
      assert LoggedFailure(c, s, q, s.tables.failures[q]);
    }
  }

  lemma ReportKeeps(c: Config, s: System, i: nat, report: Report, t: Tables)
    requires ValidConfig(c) && Inv(c, s) && i < |s.threads| && s.threads[i].phase.Resolving?
    requires FinishEffect(c, s.tables, s.threads[i].key, report, s.clock, t) && !report.Fatal?
    ensures Inv(c, AfterHandled(s, i, report, t))
  {
    hide Valid;
    var s' := AfterHandled(s, i, report, t);
    var k := s.threads[i].key;
    forall j | 0 <= j < |s'.threads| ensures ThreadOk(c, s', j) {
      assert ThreadOk(c, s, j);
      if j != i && Holding(s.threads[j]) {
        assert if i < j then !(Holding(s.threads[i]) && Holds(s, j, k))
               else !(Holding(s.threads[j]) && Holds(s, i, s.threads[j].key));
      }
    }
    forall q | q in s'.tables.inflight ensures Held(s', q) { HeldStays(s, s', q); }
    forall a, b | 0 <= a < b < |s'.threads|
      ensures !(Holding(s'.threads[a]) && Holds(s', b, s'.threads[a].key))
    {
      assert !(Holding(s.threads[a]) && Holds(s, b, s.threads[a].key));
    }
    forall q | q in s'.tables.entries ensures Logged(c, s', q, s'.tables.entries[q]) {
      if q in s.tables.entries { assert Logged(c, s, q, s.tables.entries[q]); }
    }
    forall q | q in s'.tables.failures ensures LoggedFailure(c, s', q, s'.tables.failures[q]) {
      if q in s.tables.failures { assert LoggedFailure(c, s, q, s.tables.failures[q]); }
    }
  }

  lemma DeathKeeps(c: Config, s: System, i: nat)
    requires Inv(c, s) && i < |s.threads| && s.threads[i].phase.Resolving?
    ensures Inv(c, s.(threads := s.threads[i := s.threads[i].(phase := Died)]))
  {
    hide Valid;
    var s' := s.(threads := s.threads[i := s.threads[i].(phase := Died)]);
    forall j | 0 <= j < |s'.threads| ensures ThreadOk(c, s', j) { assert ThreadOk(c, s, j) && ThreadOk(c, s, i); }
    forall q | q in s'.tables.inflight ensures Held(s', q) { HeldStays(s, s', q); }
    forall a, b | 0 <= a < b < |s'.threads|
      ensures !(Holding(s'.threads[a]) && Holds(s', b, s'.threads[a].key))
    {
      assert !(Holding(s.threads[a]) && Holds(s, b, s.threads[a].key));
    }
    forall q | q in s'.tables.entries ensures Logged(c, s', q, s'.tables.entries[q]) {
      assert Logged(c, s, q, s.tables.entries[q]);
    }
    forall q | q in s'.tables.failures ensures LoggedFailure(c, s', q, s'.tables.failures[q]) {
      assert LoggedFailure(c, s, q, s.tables.failures[q]);
    }
  }

  lemma WakeKeeps(c: Config, s: System, i: nat)
    requires Inv(c, s) && i < |s.threads| && s.threads[i].phase.Waiting?
    ensures Inv(c, s.(threads := s.threads[i := s.threads[i].(phase := Waiting(true))]))
  {
    hide Valid;
    var s' := s.(threads := s.threads[i := s.threads[i].(phase := Waiting(true))]);
    forall j | 0 <= j < |s'.threads| ensures ThreadOk(c, s', j) { assert ThreadOk(c, s, j); }
    forall q | q in s'.tables.inflight ensures Held(s', q) { HeldStays(s, s', q); }
    forall a, b | 0 <= a < b < |s'.threads|
      ensures !(Holding(s'.threads[a]) && Holds(s', b, s'.threads[a].key))
    {
      assert !(Holding(s.threads[a]) && Holds(s, b, s.threads[a].key));
    }
    forall q | q in s'.tables.entries ensures Logged(c, s', q, s'.tables.entries[q]) {
      assert Logged(c, s, q, s.tables.entries[q]);
    }
    forall q | q in s'.tables.failures ensures LoggedFailure(c, s', q, s'.tables.failures[q]) {
      assert LoggedFailure(c, s, q, s.tables.failures[q]);
    }
  }

  lemma TickKeeps(c: Config, s: System, seconds: real)
    requires Inv(c, s) && seconds >= 0.0
    ensures Inv(c, s.(clock := s.clock + seconds))
  {
    hide Valid;
    var s' := s.(clock := s.clock + seconds);
    forall j | 0 <= j < |s'.threads| ensures ThreadOk(c, s', j) { assert ThreadOk(c, s, j); }
    forall q | q in s'.tables.inflight ensures Held(s', q) { HeldStays(s, s', q); }
    forall a, b | 0 <= a < b < |s'.threads|
      ensures !(Holding(s'.threads[a]) && Holds(s', b, s'.threads[a].key))
    {
      assert !(Holding(s.threads[a]) && Holds(s, b, s.threads[a].key));
    }
    forall q | q in s'.tables.entries ensures Logged(c, s', q, s'.tables.entries[q]) {
      assert Logged(c, s, q, s.tables.entries[q]);
    }
    forall q | q in s'.tables.failures ensures LoggedFailure(c, s', q, s'.tables.failures[q]) {
      assert LoggedFailure(c, s, q, s.tables.failures[q]);
    }
  }

  lemma StepKeeps(c: Config, s: System, step: Step)
    requires ValidConfig(c) && Inv(c, s)
    ensures Inv(c, Next(c, s, step))
  {
    if Enabled(s, step) {
      match step
      case Tick(seconds) => TickKeeps(c, s, seconds);
      case Look(i) =>
        var (t, v) := Pass(c, s.tables, s.clock, s.threads[i].key);
        PassKeeps(c, s.tables, s.clock, s.threads[i].key);
        LookHas(c, s.tables, s.clock, s.threads[i].key);
        hide Pass, Valid, LookEffect;
        LookKeeps(c, s, i, t, v);
      case Spurious(i) => WakeKeeps(c, s, i);
      case Report(i, report) =>
        assert ThreadOk(c, s, i);
        if report.Fatal? {
          DeathKeeps(c, s, i);
        } else {
          FinishHas(c, s.tables, s.threads[i].key, report, s.clock);
          hide Finish, FinishEffect;
          ReportKeeps(c, s, i, report, Finish(c, s.tables, s.threads[i].key, report, s.clock));
        }
    }
  }

  lemma {:induction false} Reachable(c: Config, keys: seq<Key>, start: real, steps: seq<Step>)
    requires ValidConfig(c)
    ensures Inv(c, Run(c, Initial(keys, start), steps))
  {
    if steps == [] {
      InitialOk(c, keys, start);
    } else {
      Reachable(c, keys, start, steps[..|steps| - 1]);
      StepKeeps(c, Run(c, Initial(keys, start), steps[..|steps| - 1]), steps[|steps| - 1]);
    }
  }

  // ------------------------------------------------------------------ what every run promises

  /** At most one resolver runs per key, and never more than the entry limit in all keys. */
  lemma SingleFlightPerKey(c: Config, keys: seq<Key>, start: real, steps: seq<Step>, i: nat, j: nat)
    requires ValidConfig(c)
    requires var s := Run(c, Initial(keys, start), steps);
             i < j < |s.threads| && s.threads[i].phase.Resolving? && s.threads[j].phase.Resolving?
    ensures var s := Run(c, Initial(keys, start), steps); s.threads[i].key != s.threads[j].key
  {
    Reachable(c, keys, start, steps);
    var s := Run(c, Initial(keys, start), steps);
    assert !(Holding(s.threads[i]) && Holds(s, j, s.threads[i].key));
  }

  /** Successes, failures and keys in flight are pairwise disjoint and within their bounds. */
  lemma TablesDisjoint(c: Config, keys: seq<Key>, start: real, steps: seq<Step>)
    requires ValidConfig(c)
    ensures var t := Run(c, Initial(keys, start), steps).tables;
            && t.entries.Keys !! t.failures.Keys && t.entries.Keys !! t.inflight && t.failures.Keys !! t.inflight
            && |t.order| <= c.maxEntries && |t.failureOrder| <= c.maxEntries && |t.inflight| <= c.maxEntries
            && SumBytes(t.order, t.entries) <= c.maxBytes
  {
    Reachable(c, keys, start, steps);
  }

  /** A key in flight has a live resolver exactly when no resolver for it died. */
  lemma LedIff(c: Config, keys: seq<Key>, start: real, steps: seq<Step>, k: Key)
    requires ValidConfig(c)
    requires k in Run(c, Initial(keys, start), steps).tables.inflight
    ensures var s := Run(c, Initial(keys, start), steps); Led(s, k) <==> !Abandoned(s, k)
  {
    hide Run, Initial, Valid, Next;
    Reachable(c, keys, start, steps);
    LedUnlessAbandoned(c, Run(c, Initial(keys, start), steps), k);
  }

  lemma LedUnlessAbandoned(c: Config, s: System, k: Key)
    requires Inv(c, s) && k in s.tables.inflight
    ensures Led(s, k) <==> !Abandoned(s, k)
  {
    hide Valid, ThreadOk;
    assert Held(s, k);
    var h :| 0 <= h < |s.threads| && Holds(s, h, k);
    assert s.threads[h].phase.Resolving? ==> Leads(s, h, k);
    forall i | 0 <= i < |s.threads| && Holds(s, i, k) ensures i == h { OnlyHolder(c, s, k, i, h); }
    forall i | 0 <= i < |s.threads| && (Leads(s, i, k) || (s.threads[i].phase.Died? && s.threads[i].key == k)) ensures i == h {
      assert Holds(s, i, k);
    }
  }

  lemma OnlyHolder(c: Config, s: System, k: Key, i: nat, j: nat)
    requires Inv(c, s) && i < |s.threads| && j < |s.threads| && Holds(s, i, k) && Holds(s, j, k)
    ensures i == j
  {
    hide Valid, ThreadOk, Holding;
  }

  /** Thread `j` runs the resolver that thread `i` waits for, and every handled end of it
      notifies `i`. */
  ghost predicate WillWake(c: Config, s: System, i: nat, j: nat)
    requires i < |s.threads| && j < |s.threads|
  {
    && Leads(s, j, s.threads[i].key)
    && forall report: Report :: !report.Fatal? ==>
         |Next(c, s, Step.Report(j, report)).threads| == |s.threads|
         && Next(c, s, Step.Report(j, report)).threads[i].phase == Waiting(true)
  }

  /** No lost wakeup: the key of every waiter that was not notified is in flight, and some
      running resolver will wake it, exactly unless a resolver for that key died. */
  lemma NoLostWakeup(c: Config, keys: seq<Key>, start: real, steps: seq<Step>, i: nat)
    requires ValidConfig(c)
    requires var s := Run(c, Initial(keys, start), steps); i < |s.threads| && s.threads[i].phase == Waiting(false)
    ensures var s := Run(c, Initial(keys, start), steps);
            var k := s.threads[i].key;
            && k in s.tables.inflight
            && ((exists j :: 0 <= j < |s.threads| && WillWake(c, s, i, j)) <==> !Abandoned(s, k))
  {
    hide Run, Initial, Valid, Next;
    Reachable(c, keys, start, steps);
    WokenUnlessAbandoned(c, Run(c, Initial(keys, start), steps), i);
  }

  lemma WokenUnlessAbandoned(c: Config, s: System, i: nat)
    requires ValidConfig(c) && Inv(c, s) && i < |s.threads| && s.threads[i].phase == Waiting(false)
    ensures s.threads[i].key in s.tables.inflight
    ensures (exists j :: 0 <= j < |s.threads| && WillWake(c, s, i, j)) <==> !Abandoned(s, s.threads[i].key)
  {
    hide Finish;
    var k := s.threads[i].key;
    assert ThreadOk(c, s, i);
    LedUnlessAbandoned(c, s, k);
    if !Abandoned(s, k) {
      var j :| 0 <= j < |s.threads| && Leads(s, j, k);
      assert WillWake(c, s, i, j);
    }
    if j :| 0 <= j < |s.threads| && WillWake(c, s, i, j) { assert Leads(s, j, k); }
  }

  // ------------------------------------------------------------------ what a fatal exit leaves

  ghost predicate Stuck(s: System, i: nat) {
    i < |s.threads| && s.threads[i].phase.Waiting? && Abandoned(s, s.threads[i].key)
  }

  /** A waiter whose resolver died finds the key in flight at every look, so it waits again. */
  lemma LookWaits(c: Config, t: Tables, now: real, k: Key)
    requires Valid(c, t) && k in t.inflight
    ensures Pass(c, t, now, k).1 == Wait
  {
    hide Keep, SumBytes, Lists;
  }

  lemma StuckStays(c: Config, s: System, step: Step, i: nat)
    requires ValidConfig(c) && Inv(c, s) && Stuck(s, i)
    ensures Stuck(Next(c, s, step), i)
  {
    var k := s.threads[i].key;
    var d :| 0 <= d < |s.threads| && s.threads[d].phase.Died? && s.threads[d].key == k;
    assert ThreadOk(c, s, d);
    LookWaits(c, s.tables, s.clock, k);
    hide Pass, Finish, Valid;
    var s' := Next(c, s, step);
    assert |s'.threads| == |s.threads| && s'.threads[d].phase.Died? && s'.threads[d].key == k;
  }

  /** Nothing ever helps it: over every continuation it is still waiting, and its key still
      takes a place in flight. */
  lemma {:induction false} StuckForever(c: Config, keys: seq<Key>, start: real, steps: seq<Step>, n: nat, i: nat)
    requires ValidConfig(c) && n <= |steps| && Stuck(Run(c, Initial(keys, start), steps[..n]), i)
    ensures var s := Run(c, Initial(keys, start), steps); Stuck(s, i) && s.threads[i].key in s.tables.inflight
    decreases |steps|
  {
    hide Initial, Next, Valid, Stuck;
    if n == |steps| {
      assert steps[..n] == steps;
    } else {
      var front := steps[..|steps| - 1];
      assert front[..n] == steps[..n];
      StuckForever(c, keys, start, front, n, i);
      Reachable(c, keys, start, front);
      StuckStays(c, Run(c, Initial(keys, start), front), steps[|steps| - 1], i);
    }
    Reachable(c, keys, start, steps);
    StuckInFlight(c, Run(c, Initial(keys, start), steps), i);
  }

  lemma StuckInFlight(c: Config, s: System, i: nat)
    requires Inv(c, s) && Stuck(s, i)
    ensures s.threads[i].key in s.tables.inflight
  {
    hide Valid;
    var d :| 0 <= d < |s.threads| && s.threads[d].phase.Died? && s.threads[d].key == s.threads[i].key;
    assert ThreadOk(c, s, d);
  }

  /** It happens: of two threads asking for one key, the first leads and dies, the second waits. */
  lemma WaiterGetsStuck(c: Config, k: Key, start: real)
    requires ValidConfig(c)
    ensures Stuck(Run(c, Initial([k, k], start), [Look(0), Look(1), Step.Report(0, Fatal)]), 1)
  {
    hide Run, Initial, Next, Valid, Inv, Pass;
    var s0 := Initial([k, k], start);
    Unrolled(c, s0, [], Look(0));
    Unrolled(c, s0, [Look(0)], Look(1));
    Unrolled(c, s0, [Look(0), Look(1)], Step.Report(0, Fatal));
    NothingRun(c, s0);
    FirstLeads(c, k, start);
    Reachable(c, [k, k], start, [Look(0)]);
    SecondWaits(c, Next(c, s0, Look(0)), k);
    Reachable(c, [k, k], start, [Look(0), Look(1)]);
    FirstDies(c, Next(c, Next(c, s0, Look(0)), Look(1)), k);
  }

  lemma Unrolled(c: Config, s: System, steps: seq<Step>, step: Step)
    ensures Run(c, s, steps + [step]) == Next(c, Run(c, s, steps), step)
  {
    hide Next;
    assert (steps + [step])[..|steps|] == steps;
  }

  lemma NothingRun(c: Config, s: System)
    ensures Run(c, s, []) == s
    ensures [] + [Look(0)] == [Look(0)] && [Look(0)] + [Look(1)] == [Look(0), Look(1)]
    ensures [Look(0), Look(1)] + [Step.Report(0, Fatal)] == [Look(0), Look(1), Step.Report(0, Fatal)]
  {
  }

  lemma SecondWaits(c: Config, s: System, k: Key)
    requires Inv(c, s) && s.threads == [Thread(k, Resolving), Thread(k, Entering)] && k in s.tables.inflight
    ensures Next(c, s, Look(1)).threads == [Thread(k, Resolving), Thread(k, Waiting(false))]
  {
    LookWaits(c, s.tables, s.clock, k);
    hide Pass;
  }

  lemma FirstDies(c: Config, s: System, k: Key)
    requires Inv(c, s) && s.threads == [Thread(k, Resolving), Thread(k, Waiting(false))]
    ensures Stuck(Next(c, s, Step.Report(0, Fatal)), 1)
  {
    hide Finish;
    var s' := Next(c, s, Step.Report(0, Fatal));
    assert s'.threads == [Thread(k, Died), Thread(k, Waiting(false))];
    assert s'.threads[0].phase.Died? && s'.threads[0].key == k;
  }

  lemma FirstLeads(c: Config, k: Key, start: real)
    requires ValidConfig(c)
    ensures var s := Next(c, Initial([k, k], start), Look(0));
            s.threads == [Thread(k, Resolving), Thread(k, Entering)] && k in s.tables.inflight
  {
    assert Pass(c, EMPTY, start, k).1 == Lead;
  }

  /** A cached answer is a resolver's result for that key, given less than the time to live
      before it was served; a cached failure likewise, within the negative time to live. */
  lemma ServedIsFresh(c: Config, keys: seq<Key>, start: real, steps: seq<Step>, i: nat)
    requires ValidConfig(c)
    requires i < |Run(c, Initial(keys, start), steps).threads|
    ensures var s := Run(c, Initial(keys, start), steps);
            var thread := s.threads[i];
            && (thread.phase.Served? ==>
                  exists at :: LogEntry(thread.key, Success(thread.phase.hit.source), at) in s.log
                               && at <= thread.phase.at < at + c.ttl)
            && (thread.phase.Refused? ==>
                  exists at :: LogEntry(thread.key, Failure(thread.phase.miss.code), at) in s.log
                               && at <= thread.phase.at < at + c.negativeTtl)
  {
    hide Initial, Run, Valid, Next;
    Reachable(c, keys, start, steps);
    FreshAnswer(c, Run(c, Initial(keys, start), steps), i);
  }

  lemma FreshAnswer(c: Config, s: System, i: nat)
    requires i < |s.threads| && ThreadOk(c, s, i)
    ensures var thread := s.threads[i];
            && (thread.phase.Served? ==>
                  exists at :: LogEntry(thread.key, Success(thread.phase.hit.source), at) in s.log
                               && at <= thread.phase.at < at + c.ttl)
            && (thread.phase.Refused? ==>
                  exists at :: LogEntry(thread.key, Failure(thread.phase.miss.code), at) in s.log
                               && at <= thread.phase.at < at + c.negativeTtl)
  {
    var thread := s.threads[i];
    if thread.phase.Served? {
      var at := thread.phase.hit.expiresAt - c.ttl;
      assert LogEntry(thread.key, Success(thread.phase.hit.source), at) in s.log;
    }
    if thread.phase.Refused? {
      var at := thread.phase.miss.expiresAt - c.negativeTtl;
      assert LogEntry(thread.key, Failure(thread.phase.miss.code), at) in s.log;
    }
  }
}

/** Whole runs of the rate limiter: acquires at non-decreasing times and releases of permits. */
module LimiterRuns {
  import opened Limiter
  import opened Wrappers

  /** An admission charged to a bucket: when, and the window it was counted in. */
  datatype Entry = Entry(time: int, window: int)

  datatype System = System(
    states: States, lastCleanup: Option<int>,
    permits: map<nat, Subject>,         // acquired and not yet released
    issued: nat, clock: int,
    decisions: seq<bool>, log: map<Bucket, seq<Entry>>)

  datatype Op = Acquire(subject: Subject, now: int) | Release(permit: nat)

  function Initial(clock: int): System {
    System(map[], None, map[], 0, clock, [], map[])
  }

  function LogOf(s: System, bucket: Bucket): seq<Entry> {
    if bucket in s.log then s.log[bucket] else []
  }

  /** Books the decision of one acquire. */
  function Booked(s: System, states: States, admitted: bool, subject: Subject, now: int): System {
    var t := s.(states := states, clock := now, decisions := s.decisions + [admitted]);
    if !admitted then t
    else
      t.(permits := s.permits[s.issued := subject], issued := s.issued + 1,
         log := s.log + map bucket | bucket in Buckets(subject) ::
                  LogOf(s, bucket) + [Entry(now, WindowOf(states, bucket))])
  }

  function WindowOf(states: States, bucket: Bucket): int {
    var start := StateOf(states, bucket).windowStart;
    if start.Some? then start.value else 0
  }

  function CleanedAt(s: System, now: int): System {
    s.(states := CleanedWhenDue(s.states, s.lastCleanup, now), clock := now,
       lastCleanup := if CleanupDue(s.lastCleanup, now) then Some(now) else s.lastCleanup)
  }

  function ReleaseAt(s: System, permit: nat): System {
    if permit !in s.permits then s  // released before
    else s.(states := ReleasedAll(s.states, Buckets(s.permits[permit])), permits := s.permits - {permit})
  }

  function Next(options: Options, s: System, op: Op): System {
    match op
    case Release(permit) => ReleaseAt(s, permit)
    case Acquire(subject, now) =>
      var cleaned := CleanedAt(s, now);
      var (states, admitted) := Decide(options, cleaned.states, Buckets(subject), now);
      Booked(cleaned, states, admitted, subject, now)
  }

  /** The same limiter without cleanup and without a bound on subjects. */
  function NextUnbounded(options: Options, s: System, op: Op): System {
    match op
    case Release(permit) => ReleaseAt(s, permit)
    case Acquire(subject, now) =>
      var (states, admitted) := Judge(options, s.states, Buckets(subject), now);
      Booked(s, states, admitted, subject, now)
  }

  function After(options: Options, s: System, ops: seq<Op>): System
    decreases |ops|
  {
    if ops == [] then s else After(options, Next(options, s, ops[0]), ops[1..])
  }

  function AfterUnbounded(options: Options, s: System, ops: seq<Op>): System
    decreases |ops|
  {
    if ops == [] then s else AfterUnbounded(options, NextUnbounded(options, s, ops[0]), ops[1..])
  }

  /** Time does not go back. */
  predicate Timely(clock: int, ops: seq<Op>)
    decreases |ops|
  {
    ops == [] ||
    if ops[0].Acquire? then clock <= ops[0].now && Timely(ops[0].now, ops[1..]) else Timely(clock, ops[1..])
  }

  /** No acquire of the run meets the bound on subjects. */
  predicate NeverCapped(options: Options, s: System, ops: seq<Op>)
    decreases |ops|
  {
    ops == [] ||
    (NeverCapped(options, Next(options, s, ops[0]), ops[1..]) &&
     (ops[0].Acquire? ==> !Capped(options, CleanedAt(s, ops[0].now).states, Buckets(ops[0].subject))))
  }

  // ---------------------------------------------------------------- counting

  function InWindow(entries: seq<Entry>, window: int): nat {
    if entries == [] then 0
    else InWindow(entries[..|entries| - 1], window) + if entries[|entries| - 1].window == window then 1 else 0
  }

  predicate Inside(entry: Entry, from: int) {
    from <= entry.time < from + MINUTE
  }

  /** Admissions in the half-open minute that starts at `from`. */
  function InMinute(entries: seq<Entry>, from: int): nat {
    if entries == [] then 0
    else InMinute(entries[..|entries| - 1], from) + if Inside(entries[|entries| - 1], from) then 1 else 0
  }

  ghost predicate Spaced(entries: seq<Entry>) {
    && (forall i | 0 <= i < |entries| :: entries[i].window <= entries[i].time < entries[i].window + MINUTE)
    && (forall i, j | 0 <= i < j < |entries| ::
          entries[i].window == entries[j].window || entries[i].window + MINUTE <= entries[j].window)
  }

  ghost predicate WithinLimit(entries: seq<Entry>, limit: nat) {
    forall window :: InWindow(entries, window) <= limit
  }

  lemma {:induction false} CoveredByTwo(entries: seq<Entry>, from: int, a: int, b: int)
    requires a != b
    requires forall i | 0 <= i < |entries| && Inside(entries[i], from) ::
             entries[i].window == a || entries[i].window == b
    ensures InMinute(entries, from) <= InWindow(entries, a) + InWindow(entries, b)
  {
    if entries != [] {
      CoveredByTwo(entries[..|entries| - 1], from, a, b);
    }
  }

  /** Fixed windows at least a minute apart admit at most twice the limit in any minute. */
  lemma MinuteBound(entries: seq<Entry>, limit: nat, from: int)
    requires Spaced(entries) && WithinLimit(entries, limit)
    ensures InMinute(entries, from) <= 2 * limit
  {
    var a, b := 0, 1;
    if i :| 0 <= i < |entries| && Inside(entries[i], from) {
      a := entries[i].window;
      b := a + 1;
      if j :| 0 <= j < |entries| && Inside(entries[j], from) && entries[j].window != a {
        b := entries[j].window;
      }
    }
    CoveredByTwo(entries, from, a, b);
  }

  lemma {:induction false} NoneInWindow(entries: seq<Entry>, window: int)
    requires forall i | 0 <= i < |entries| :: entries[i].window != window
    ensures InWindow(entries, window) == 0
  {
    if entries != [] { NoneInWindow(entries[..|entries| - 1], window); }
  }

  // ---------------------------------------------------------------- the invariant, bucket by bucket

  function Holders(permits: map<nat, Subject>, bucket: Bucket): set<nat> {
    set permit | permit in permits && bucket in Buckets(permits[permit])
  }

  ghost predicate ActiveFits(options: Options, s: System, bucket: Bucket) {
    StateOf(s.states, bucket).active == |Holders(s.permits, bucket)| <= LimitOf(options, bucket).concurrent
  }

  ghost predicate LogFits(options: Options, s: System, bucket: Bucket) {
    EntriesFit(LimitOf(options, bucket).requestsPerMinute, bucket in s.states, StateOf(s.states, bucket), s.clock,
               LogOf(s, bucket))
  }

  /** The entries of a bucket, and how its present state, if any, continues them. */
  ghost predicate EntriesFit(limit: nat, known: bool, state: LimitState, clock: int, entries: seq<Entry>) {
    && Spaced(entries) && WithinLimit(entries, limit)
    && (if known then
          && state.windowStart.Some? && state.windowStart.value <= clock
          && state.requests == InWindow(entries, state.windowStart.value)
          && EndedBefore(entries, state.windowStart.value)
        else
          state == UNUSED && forall i | 0 <= i < |entries| :: entries[i].window + MINUTE <= clock)
  }

  ghost predicate EndedBefore(entries: seq<Entry>, window: int) {
    forall i | 0 <= i < |entries| :: entries[i].window == window || entries[i].window + MINUTE <= window
  }

  ghost predicate BucketInv(options: Options, s: System, bucket: Bucket) {
    ActiveFits(options, s, bucket) && LogFits(options, s, bucket)
  }

  ghost predicate Inv(options: Options, s: System) {
    && (forall bucket {:trigger BucketInv(options, s, bucket)} :: BucketInv(options, s, bucket))
    && (forall permit | permit in s.permits :: permit < s.issued)
    && |s.states| <= options.maxSubjects
  }

  lemma InitialInv(options: Options, clock: int)
    ensures Inv(options, Initial(clock))
  {
    forall bucket ensures BucketInv(options, Initial(clock), bucket) {
      assert Holders(map[], bucket) == {};
    }
  }

  lemma CleanKeepsBucket(options: Options, s: System, now: int, bucket: Bucket)
    requires BucketInv(options, s, bucket) && s.clock <= now
    ensures BucketInv(options, CleanedAt(s, now), bucket)
  {
  }

  /** A state refreshed now still fits the entries. */
  lemma RefreshFits(limit: nat, known: bool, state: LimitState, now: int, entries: seq<Entry>)
    requires EntriesFit(limit, known, state, now, entries)
    ensures EntriesFit(limit, true, Refreshed(state, now), now, entries)
  {
    if state.windowStart.None? || Expired(state, now) {
      NoneInWindow(entries, now);
    }
  }

  lemma InWindowSnoc(entries: seq<Entry>, entry: Entry, window: int)
    ensures InWindow(entries + [entry], window) == InWindow(entries, window) + if entry.window == window then 1 else 0
  {
    assert (entries + [entry])[..|entries|] == entries;
  }

  lemma SpacedSnoc(entries: seq<Entry>, time: int, window: int)
    requires Spaced(entries) && EndedBefore(entries, window) && window <= time < window + MINUTE
    ensures Spaced(entries + [Entry(time, window)]) && EndedBefore(entries + [Entry(time, window)], window)
  {
  }

  /** Charging a bucket that is not full adds one entry in its present window. */
  lemma ChargeFits(limit: nat, known: bool, state: LimitState, now: int, entries: seq<Entry>)
    requires EntriesFit(limit, known, state, now, entries) && Refreshed(state, now).requests < limit
    ensures var charged := Charged(state, now);
            EntriesFit(limit, true, charged, now, entries + [Entry(now, charged.windowStart.value)])
  {
    RefreshFits(limit, known, state, now, entries);
    var window := Refreshed(state, now).windowStart.value;
    SpacedSnoc(entries, now, window);
    forall w ensures InWindow(entries + [Entry(now, window)], w) <= limit {
      InWindowSnoc(entries, Entry(now, window), w);
    }
    InWindowSnoc(entries, Entry(now, window), window);
  }

  lemma HoldersGrow(permits: map<nat, Subject>, permit: nat, subject: Subject, bucket: Bucket)
    requires permit !in permits
    ensures |Holders(permits[permit := subject], bucket)| ==
            |Holders(permits, bucket)| + if bucket in Buckets(subject) then 1 else 0
  {
    assert Holders(permits[permit := subject], bucket) ==
           Holders(permits, bucket) + if bucket in Buckets(subject) then {permit} else {};
  }

  lemma HoldersShrink(permits: map<nat, Subject>, permit: nat, bucket: Bucket)
    requires permit in permits
    ensures |Holders(permits - {permit}, bucket)| ==
            |Holders(permits, bucket)| - if bucket in Buckets(permits[permit]) then 1 else 0
  {
    assert Holders(permits - {permit}, bucket) == Holders(permits, bucket) - {permit};
  }

  /** What an admission does to one bucket. */
  lemma AdmitEffect(s: System, subject: Subject, now: int, bucket: Bucket)
    ensures var t := Booked(s, ChargedAll(s.states, Buckets(subject), now), true, subject, now);
            if bucket in Buckets(subject) then
              && bucket in t.states && t.states[bucket] == Charged(StateOf(s.states, bucket), now)
              && LogOf(t, bucket) == LogOf(s, bucket) +
                   [Entry(now, Charged(StateOf(s.states, bucket), now).windowStart.value)]
            else
              (bucket in t.states <==> bucket in s.states) && StateOf(t.states, bucket) == StateOf(s.states, bucket)
              && LogOf(t, bucket) == LogOf(s, bucket)
  {
  }

  lemma AdmitKeepsBucket(options: Options, s: System, subject: Subject, now: int, bucket: Bucket)
    requires BucketInv(options, s, bucket) && s.clock == now && s.issued !in s.permits
    requires bucket in Buckets(subject) ==> !IsFull(options, s.states, bucket, now)
    ensures BucketInv(options, Booked(s, ChargedAll(s.states, Buckets(subject), now), true, subject, now), bucket)
  {
    HoldersGrow(s.permits, s.issued, subject, bucket);
    AdmitEffect(s, subject, now, bucket);
    if bucket in Buckets(subject) {
      ChargeFits(LimitOf(options, bucket).requestsPerMinute, bucket in s.states, StateOf(s.states, bucket), now,
                 LogOf(s, bucket));
    }
  }

  lemma RejectKeepsBucket(options: Options, s: System, full: Bucket, subject: Subject, now: int, bucket: Bucket)
    requires BucketInv(options, s, bucket) && s.clock == now
    ensures BucketInv(options,
                      Booked(s, s.states[full := Refreshed(StateOf(s.states, full), now)], false, subject, now), bucket)
  {
    RefreshFits(LimitOf(options, bucket).requestsPerMinute, bucket in s.states, StateOf(s.states, bucket), now,
                LogOf(s, bucket));
  }

  lemma ReleaseKeepsBucket(options: Options, s: System, permit: nat, bucket: Bucket)
    requires BucketInv(options, s, bucket) && permit in s.permits
    ensures BucketInv(options, ReleaseAt(s, permit), bucket)
    ensures bucket in Buckets(s.permits[permit]) ==> bucket in s.states && s.states[bucket].active > 0
  {
    HoldersShrink(s.permits, permit, bucket);
    if bucket in Buckets(s.permits[permit]) {
      assert permit in Holders(s.permits, bucket);
    }
  }

  /** A bucket that is not in the map is never full, so a rejection adds no subject. */
  lemma FullIsKnown(options: Options, states: States, bucket: Bucket, now: int)
    requires Positive(options) && IsFull(options, states, bucket, now)
    ensures bucket in states
  {
    assert LimitOf(options, bucket) in {options.global, options.key, options.source, options.action};
  }

  lemma ChargedSize(states: States, buckets: seq<Bucket>, now: int)
    ensures |ChargedAll(states, buckets, now)| == |states| + |NewSubjects(states, buckets)|
  {
    var charged := ChargedAll(states, buckets, now);
    assert charged.Keys == states.Keys + NewSubjects(states, buckets);
    assert states.Keys !! NewSubjects(states, buckets);
    assert |charged| == |charged.Keys| && |states| == |states.Keys|;
  }

  lemma CleanedSize(states: States, now: int)
    ensures |Cleaned(states, now)| <= |states|
  {
    assert Cleaned(states, now).Keys <= states.Keys;
    SubsetSize(Cleaned(states, now).Keys, states.Keys);
    assert |Cleaned(states, now)| == |Cleaned(states, now).Keys| && |states| == |states.Keys|;
  }

  lemma SubsetSize<T>(a: set<T>, b: set<T>)
    requires a <= b
    ensures |a| <= |b|
  {
    assert b == a + (b - a);
  }

  lemma CleanKeepsInv(options: Options, s: System, now: int)
    requires Inv(options, s) && s.clock <= now
    ensures Inv(options, CleanedAt(s, now))
  {
    CleanedSize(s.states, now);
    forall bucket ensures BucketInv(options, CleanedAt(s, now), bucket) {
      assert BucketInv(options, s, bucket);
      CleanKeepsBucket(options, s, now, bucket);
    }
  }

  lemma RejectKeepsInv(options: Options, s: System, full: Bucket, subject: Subject, now: int)
    requires Inv(options, s) && s.clock == now && full in s.states
    ensures Inv(options, Booked(s, s.states[full := Refreshed(StateOf(s.states, full), now)], false, subject, now))
  {
    var t := Booked(s, s.states[full := Refreshed(StateOf(s.states, full), now)], false, subject, now);
    assert t.states.Keys == s.states.Keys;
    assert |t.states| == |t.states.Keys| && |s.states| == |s.states.Keys|;
    forall bucket ensures BucketInv(options, t, bucket) {
      assert BucketInv(options, s, bucket);
      RejectKeepsBucket(options, s, full, subject, now, bucket);
    }
  }

  lemma AdmitKeepsInv(options: Options, s: System, subject: Subject, now: int)
    requires Inv(options, s) && s.clock == now && !Capped(options, s.states, Buckets(subject))
    requires forall bucket | bucket in Buckets(subject) :: !IsFull(options, s.states, bucket, now)
    ensures Inv(options, Booked(s, ChargedAll(s.states, Buckets(subject), now), true, subject, now))
  {
    var t := Booked(s, ChargedAll(s.states, Buckets(subject), now), true, subject, now);
    ChargedSize(s.states, Buckets(subject), now);
    forall bucket ensures BucketInv(options, t, bucket) {
      assert BucketInv(options, s, bucket);
      AdmitKeepsBucket(options, s, subject, now, bucket);
    }
  }

  lemma AcquireKeepsInv(options: Options, s: System, subject: Subject, now: int)
    requires Positive(options) && Inv(options, s) && s.clock <= now
    ensures Inv(options, Next(options, s, Acquire(subject, now)))
  {
    var cleaned := CleanedAt(s, now);
    CleanKeepsInv(options, s, now);
    if Capped(options, cleaned.states, Buckets(subject)) {
      var t := Booked(cleaned, cleaned.states, false, subject, now);
      forall bucket ensures BucketInv(options, t, bucket) {
        assert BucketInv(options, cleaned, bucket);
      }
    } else {
      var full := FirstFull(options, cleaned.states, Buckets(subject), now);
      if full < |Buckets(subject)| {
        FullIsKnown(options, cleaned.states, Buckets(subject)[full], now);
        RejectKeepsInv(options, cleaned, Buckets(subject)[full], subject, now);
      } else {
        AdmitKeepsInv(options, cleaned, subject, now);
      }
    }
  }

  lemma ReleaseKeepsInv(options: Options, s: System, permit: nat)
    requires Inv(options, s)
    ensures Inv(options, Next(options, s, Release(permit)))
  {
    if permit in s.permits {
      var t := ReleaseAt(s, permit);
      forall bucket ensures BucketInv(options, t, bucket) {
        assert BucketInv(options, s, bucket);
        ReleaseKeepsBucket(options, s, permit, bucket);
      }
      forall bucket | bucket in Buckets(s.permits[permit]) ensures bucket in s.states {
        assert BucketInv(options, s, bucket);
        ReleaseKeepsBucket(options, s, permit, bucket);
      }
      assert t.states.Keys == s.states.Keys;
      assert |t.states| == |t.states.Keys| && |s.states| == |s.states.Keys|;
    }
  }

  lemma {:induction false} RunKeepsInv(options: Options, s: System, ops: seq<Op>)
    requires Positive(options) && Inv(options, s) && Timely(s.clock, ops)
    ensures Inv(options, After(options, s, ops))
    decreases |ops|
  {
    if ops != [] {
      match ops[0]
      case Acquire(subject, now) =>
        AcquireKeepsInv(options, s, subject, now);
        RunKeepsInv(options, Next(options, s, ops[0]), ops[1..]);
      case Release(permit) =>
        ReleaseKeepsInv(options, s, permit);
        RunKeepsInv(options, Next(options, s, ops[0]), ops[1..]);
    }
  }

  // ---------------------------------------------------------------- what holds in every run

  /** Per bucket: `active` counts the unreleased permits that name it and stays within the
      concurrency limit; the map stays within the bound on subjects. */
  lemma ActiveCountsPermits(options: Options, clock: int, ops: seq<Op>, bucket: Bucket)
    requires Positive(options) && Timely(clock, ops)
    ensures var s := After(options, Initial(clock), ops);
            && StateOf(s.states, bucket).active == |Holders(s.permits, bucket)| <= LimitOf(options, bucket).concurrent
            && |s.states| <= options.maxSubjects
  {
    InitialInv(options, clock);
    RunKeepsInv(options, Initial(clock), ops);
    assert BucketInv(options, After(options, Initial(clock), ops), bucket);
  }

  /** Any half-open minute admits at most twice the per-minute limit on a bucket. */
  lemma RateBounded(options: Options, clock: int, ops: seq<Op>, bucket: Bucket, from: int)
    requires Positive(options) && Timely(clock, ops)
    ensures InMinute(LogOf(After(options, Initial(clock), ops), bucket), from) <=
            2 * LimitOf(options, bucket).requestsPerMinute
  {
    InitialInv(options, clock);
    RunKeepsInv(options, Initial(clock), ops);
    var s := After(options, Initial(clock), ops);
    assert BucketInv(options, s, bucket);
    MinuteBound(LogOf(s, bucket), LimitOf(options, bucket).requestsPerMinute, from);
  }

  /** A rejected acquire adds no subject, and a release never does. */
  lemma RejectionAddsNoSubject(options: Options, s: System, op: Op)
    requires Positive(options) && Inv(options, s)
    requires op.Acquire? ==> Next(options, s, op).issued == s.issued
    ensures Next(options, s, op).states.Keys <= s.states.Keys
  {
    match op
    case Acquire(subject, now) =>
      var cleaned := CleanedAt(s, now);
      var full := FirstFull(options, cleaned.states, Buckets(subject), now);
      if full < |Buckets(subject)| { FullIsKnown(options, cleaned.states, Buckets(subject)[full], now); }
    case Release(permit) =>
      if permit in s.permits {
        forall bucket | bucket in Buckets(s.permits[permit]) ensures bucket in s.states {
          assert BucketInv(options, s, bucket);
          ReleaseKeepsBucket(options, s, permit, bucket);
        }
      }
  }

  // ---------------------------------------------------------------- cleanup is invisible

  /** A deleted state could only have been refreshed. */
  predicate Similar(s: States, r: States, bucket: Bucket, clock: int) {
    StateOf(s, bucket) == StateOf(r, bucket) ||
    (bucket !in s && StateOf(r, bucket).active == 0 && Expired(StateOf(r, bucket), clock))
  }

  ghost predicate SameDecisions(s: System, r: System) {
    s.permits == r.permits && s.issued == r.issued && s.decisions == r.decisions && s.clock == r.clock &&
    AllSimilar(s.states, r.states, s.clock)
  }

  ghost predicate AllSimilar(s: States, r: States, clock: int) {
    forall bucket {:trigger Similar(s, r, bucket, clock)} :: Similar(s, r, bucket, clock)
  }

  lemma SimilarRefresh(s: States, r: States, bucket: Bucket, clock: int, now: int)
    requires Similar(s, r, bucket, clock) && clock <= now
    ensures Refreshed(StateOf(s, bucket), now) == Refreshed(StateOf(r, bucket), now)
    ensures Similar(Cleaned(s, now), r, bucket, now) && Similar(s, r, bucket, now)
  {
  }

  lemma {:induction false} SimilarFirstFull(options: Options, s: States, r: States, buckets: seq<Bucket>, clock: int,
                                            now: int)
    requires forall bucket | bucket in buckets :: Similar(s, r, bucket, clock)
    requires clock <= now
    ensures FirstFull(options, s, buckets, now) == FirstFull(options, r, buckets, now)
    decreases |buckets|
  {
    if buckets != [] {
      SimilarRefresh(s, r, buckets[0], clock, now);
      SimilarFirstFull(options, s, r, buckets[1..], clock, now);
    }
  }

  lemma JudgeSame(options: Options, s: States, r: States, buckets: seq<Bucket>, now: int, bucket: Bucket)
    requires Similar(s, r, bucket, now) && forall other | other in buckets :: Similar(s, r, other, now)
    ensures Judge(options, s, buckets, now).1 == Judge(options, r, buckets, now).1
    ensures Similar(Judge(options, s, buckets, now).0, Judge(options, r, buckets, now).0, bucket, now)
  {
    SimilarFirstFull(options, s, r, buckets, now, now);
    var full := FirstFull(options, s, buckets, now);
    if full < |buckets| {
      SimilarRefresh(s, r, buckets[full], now, now);
    } else {
      ChargedSimilar(s, r, buckets, now, bucket);
    }
  }

  lemma ChargedSimilar(s: States, r: States, buckets: seq<Bucket>, now: int, bucket: Bucket)
    requires Similar(s, r, bucket, now)
    ensures Similar(ChargedAll(s, buckets, now), ChargedAll(r, buckets, now), bucket, now)
  {
    SimilarRefresh(s, r, bucket, now, now);
  }

  lemma AllJudgedSame(options: Options, s: States, r: States, buckets: seq<Bucket>, now: int)
    requires AllSimilar(s, r, now)
    ensures Judge(options, s, buckets, now).1 == Judge(options, r, buckets, now).1
    ensures AllSimilar(Judge(options, s, buckets, now).0, Judge(options, r, buckets, now).0, now)
  {
    assert forall bucket :: Similar(s, r, bucket, now);
    forall bucket ensures Similar(Judge(options, s, buckets, now).0, Judge(options, r, buckets, now).0, bucket, now) {
      JudgeSame(options, s, r, buckets, now, bucket);
    }
    JudgeSame(options, s, r, buckets, now, Global);
  }

  lemma AllCleanedSimilar(s: System, r: States, now: int)
    requires AllSimilar(s.states, r, s.clock) && s.clock <= now
    ensures AllSimilar(CleanedAt(s, now).states, r, now)
  {
    forall bucket ensures Similar(CleanedAt(s, now).states, r, bucket, now) {
      assert Similar(s.states, r, bucket, s.clock);
      SimilarRefresh(s.states, r, bucket, s.clock, now);
    }
  }

  lemma AcquireSame(options: Options, s: System, r: System, subject: Subject, now: int)
    requires SameDecisions(s, r) && s.clock <= now
    requires !Capped(options, CleanedAt(s, now).states, Buckets(subject))
    ensures SameDecisions(Next(options, s, Acquire(subject, now)), NextUnbounded(options, r, Acquire(subject, now)))
  {
    AllCleanedSimilar(s, r.states, now);
    AllJudgedSame(options, CleanedAt(s, now).states, r.states, Buckets(subject), now);
    var left := Judge(options, CleanedAt(s, now).states, Buckets(subject), now);
    var right := Judge(options, r.states, Buckets(subject), now);
    BookedSame(CleanedAt(s, now), r, left.0, right.0, left.1, subject, now);
  }

  lemma BookedSame(s: System, r: System, left: States, right: States, admitted: bool, subject: Subject, now: int)
    requires s.permits == r.permits && s.issued == r.issued && s.decisions == r.decisions &&
             AllSimilar(left, right, now)
    ensures SameDecisions(Booked(s, left, admitted, subject, now), Booked(r, right, admitted, subject, now))
  {
  }

  lemma ReleaseSame(options: Options, s: System, r: System, permit: nat)
    requires SameDecisions(s, r) && Inv(options, s)
    ensures SameDecisions(ReleaseAt(s, permit), ReleaseAt(r, permit))
  {
    if permit in s.permits {
      forall bucket ensures Similar(ReleaseAt(s, permit).states, ReleaseAt(r, permit).states, bucket, s.clock) {
        assert Similar(s.states, r.states, bucket, s.clock) && BucketInv(options, s, bucket);
        ReleaseKeepsBucket(options, s, permit, bucket);
      }
    }
  }

  /** Until the bound on subjects is met, every decision is the one that a limiter makes which never
      deletes a state. */
  lemma {:induction false} CleanupInvisible(options: Options, s: System, r: System, ops: seq<Op>)
    requires Positive(options) && Inv(options, s) && SameDecisions(s, r)
    requires Timely(s.clock, ops) && NeverCapped(options, s, ops)
    ensures SameDecisions(After(options, s, ops), AfterUnbounded(options, r, ops))
    decreases |ops|
  {
    if ops != [] {
      match ops[0]
      case Acquire(subject, now) =>
        AcquireKeepsInv(options, s, subject, now);
        AcquireSame(options, s, r, subject, now);
        CleanupInvisible(options, Next(options, s, ops[0]), NextUnbounded(options, r, ops[0]), ops[1..]);
      case Release(permit) =>
        ReleaseKeepsInv(options, s, permit);
        ReleaseSame(options, s, r, permit);
        CleanupInvisible(options, Next(options, s, ops[0]), NextUnbounded(options, r, ops[0]), ops[1..]);
    }
  }

  /** From the start, until the bound on subjects is met, a limiter decides like one that never deletes
      a state, and the same permits are held. */
  lemma CleanupNeverShows(options: Options, clock: int, ops: seq<Op>)
    requires Positive(options) && Timely(clock, ops) && NeverCapped(options, Initial(clock), ops)
    ensures var s, r := After(options, Initial(clock), ops), AfterUnbounded(options, Initial(clock), ops);
            s.decisions == r.decisions && s.permits == r.permits
  {
    InitialInv(options, clock);
    forall bucket ensures Similar(map[], map[], bucket, clock) {}
    CleanupInvisible(options, Initial(clock), Initial(clock), ops);
  }

  /** However late, a release gives back one unit in each bucket of its own permit and nothing else; a
      repeated one changes nothing. */
  lemma ReleaseIsOwn(options: Options, clock: int, ops: seq<Op>, permit: nat, bucket: Bucket)
    requires Positive(options) && Timely(clock, ops)
    ensures var s := After(options, Initial(clock), ops);
            var t := Next(options, s, Release(permit));
            var before := StateOf(s.states, bucket);
            && (if permit in s.permits && bucket in Buckets(s.permits[permit])
                then before.active > 0 && StateOf(t.states, bucket) == before.(active := before.active - 1)
                else StateOf(t.states, bucket) == before)
            && Next(options, t, Release(permit)) == t
  {
    InitialInv(options, clock);
    RunKeepsInv(options, Initial(clock), ops);
    var s := After(options, Initial(clock), ops);
    assert BucketInv(options, s, bucket);
    ReleasedOnce(options, s, permit, bucket);
  }

  lemma ReleasedOnce(options: Options, s: System, permit: nat, bucket: Bucket)
    requires BucketInv(options, s, bucket)
    ensures var t := ReleaseAt(s, permit);
            var before := StateOf(s.states, bucket);
            && (if permit in s.permits && bucket in Buckets(s.permits[permit])
                then before.active > 0 && StateOf(t.states, bucket) == before.(active := before.active - 1)
                else StateOf(t.states, bucket) == before)
            && ReleaseAt(t, permit) == t
  {
    if permit in s.permits {
      ReleaseKeepsBucket(options, s, permit, bucket);
    }
  }
}

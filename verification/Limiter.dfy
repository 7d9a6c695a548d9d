/** The rate limiter of external triggers: coupled buckets with fixed one-minute windows,
    concurrency permits and periodic cleanup.  Times are integers in nanoseconds. */
module Limiter {

  import opened Wrappers

  const MINUTE := 60_000_000_000

  /** The bucket names "global", "key\0..", "source\0.." and "action\0..". */
  datatype Bucket = Global | Key(id: string) | Source(address: string) | Action(kind: string)

  datatype LimitState = LimitState(windowStart: Option<int>, requests: nat, active: nat)

  datatype Limit = Limit(requestsPerMinute: nat, concurrent: nat)

  /** The options after their defaults were applied: every number is positive. */
  datatype Options = Options(global: Limit, key: Limit, source: Limit, action: Limit, maxSubjects: nat)

  /** `Acquire` names all four buckets, `AcquireSource` only the global and the source one. */
  datatype Subject = Full(keyID: string, source: string, action: string) | SourceOnly(source: string)

  predicate Positive(options: Options) {
    options.maxSubjects > 0 &&
    forall limit | limit in {options.global, options.key, options.source, options.action} ::
      limit.requestsPerMinute > 0 && limit.concurrent > 0
  }

  function LimitOf(options: Options, bucket: Bucket): Limit {
    match bucket
    case Global => options.global
    case Key(_) => options.key
    case Source(_) => options.source
    case Action(_) => options.action
  }

  function Buckets(subject: Subject): seq<Bucket> {
    match subject
    case Full(keyID, source, action) => [Global, Key(keyID), Source(source), Action(action)]
    case SourceOnly(source) => [Global, Source(source)]
  }

  type States = map<Bucket, LimitState>

  const UNUSED := LimitState(None, 0, 0)

  function StateOf(states: States, bucket: Bucket): LimitState {
    if bucket in states then states[bucket] else UNUSED
  }

  predicate Expired(state: LimitState, now: int) {
    state.windowStart.Some? && now - state.windowStart.value >= MINUTE
  }

  /** A state at a later time: a window that is over, or none, is replaced by one that starts now. */
  function Refreshed(state: LimitState, now: int): LimitState {
    if state.windowStart.None? || Expired(state, now) then state.(windowStart := Some(now), requests := 0) else state
  }

  predicate IsFull(options: Options, states: States, bucket: Bucket, now: int) {
    var state := Refreshed(StateOf(states, bucket), now);
    state.requests >= LimitOf(options, bucket).requestsPerMinute || state.active >= LimitOf(options, bucket).concurrent
  }

  function Charged(state: LimitState, now: int): LimitState {
    var current := Refreshed(state, now);
    current.(requests := current.requests + 1, active := current.active + 1)
  }

  function Released(state: LimitState): LimitState {
    if state.active > 0 then state.(active := state.active - 1) else state
  }

  /** What cleanup keeps. */
  function Cleaned(states: States, now: int): States {
    map bucket | bucket in states &&
      !(bucket != Global && states[bucket].active == 0 && Expired(states[bucket], now)) :: states[bucket]
  }

  predicate CleanupDue(lastCleanup: Option<int>, now: int) {
    lastCleanup.None? || now - lastCleanup.value >= MINUTE
  }

  function CleanedWhenDue(states: States, lastCleanup: Option<int>, now: int): States {
    if CleanupDue(lastCleanup, now) then Cleaned(states, now) else states
  }

  function NewSubjects(states: States, buckets: seq<Bucket>): set<Bucket> {
    set bucket | bucket in buckets && bucket !in states
  }

  predicate Capped(options: Options, states: States, buckets: seq<Bucket>) {
    |states| + |NewSubjects(states, buckets)| > options.maxSubjects
  }

  /** The first full bucket, or |buckets|. */
  function FirstFull(options: Options, states: States, buckets: seq<Bucket>, now: int): (index: nat)
    ensures index <= |buckets|
    ensures forall i | 0 <= i < index :: !IsFull(options, states, buckets[i], now)
    ensures index < |buckets| ==> IsFull(options, states, buckets[index], now)
  {
    if buckets == [] || IsFull(options, states, buckets[0], now) then 0
    else 1 + FirstFull(options, states, buckets[1..], now)
  }

  function ChangedAll(states: States, buckets: set<Bucket>, change: LimitState -> LimitState): States {
    states + map bucket | bucket in buckets :: change(StateOf(states, bucket))
  }

  function ChargedAll(states: States, buckets: seq<Bucket>, now: int): States {
    ChangedAll(states, (set bucket | bucket in buckets), state => Charged(state, now))
  }

  function ReleasedAll(states: States, buckets: seq<Bucket>): States {
    ChangedAll(states, (set bucket | bucket in buckets), Released)
  }

  predicate Distinct(buckets: seq<Bucket>) {
    forall i, j | 0 <= i < j < |buckets| :: buckets[i] != buckets[j]
  }

  lemma ChangeStep(states: States, done: set<Bucket>, bucket: Bucket, change: LimitState -> LimitState)
    requires bucket !in done
    ensures var before := ChangedAll(states, done, change);
            ChangedAll(states, done + {bucket}, change) == before[bucket := change(StateOf(before, bucket))]
  {
  }

  lemma FirstFullIs(options: Options, states: States, buckets: seq<Bucket>, now: int, i: nat)
    requires i <= |buckets| && forall k | 0 <= k < i :: !IsFull(options, states, buckets[k], now)
    requires i < |buckets| ==> IsFull(options, states, buckets[i], now)
    ensures FirstFull(options, states, buckets, now) == i
  {
  }

  lemma NewSubjectsStep(states: States, buckets: seq<Bucket>, i: nat)
    requires Distinct(buckets) && i < |buckets|
    ensures |NewSubjects(states, buckets[..i + 1])| ==
            |NewSubjects(states, buckets[..i])| + if buckets[i] in states then 0 else 1
  {
    assert buckets[..i + 1] == buckets[..i] + [buckets[i]];
    assert buckets[i] !in buckets[..i];
    assert NewSubjects(states, buckets[..i + 1]) ==
           NewSubjects(states, buckets[..i]) + if buckets[i] in states then {} else {buckets[i]};
  }

  /** The decision on already cleaned states, and the states it leaves. */
  function Decide(options: Options, states: States, buckets: seq<Bucket>, now: int): (States, bool) {
    if Capped(options, states, buckets) then (states, false) else Judge(options, states, buckets, now)
  }

  function Judge(options: Options, states: States, buckets: seq<Bucket>, now: int): (States, bool) {
    var full := FirstFull(options, states, buckets, now);
    if full < |buckets| then (states[buckets[full] := Refreshed(StateOf(states, buckets[full]), now)], false)
    else (ChargedAll(states, buckets, now), true)
  }

  // ---------------------------------------------------------------- the limiter

  class Limiter {
    const options: Options
    var states: States
    var lastCleanup: Option<int>

    constructor (options: Options)
      ensures this.options == options && states == map[] && lastCleanup == None
    {
      this.options := options;
      states, lastCleanup := map[], None;
    }

    /** `acquire`. */
    method Acquire(buckets: seq<Bucket>, now: int) returns (admitted: bool)
      requires Distinct(buckets)
      modifies this
      ensures (states, admitted) == Decide(options, CleanedWhenDue(old(states), old(lastCleanup), now), buckets, now)
      ensures lastCleanup == if CleanupDue(old(lastCleanup), now) then Some(now) else old(lastCleanup)
    {
      Cleanup(now);
      var newSubjects := CountNew(buckets);
      if |states| + newSubjects > options.maxSubjects { return false; }
      admitted := CheckAndCharge(buckets, now);
    }

    method CheckAndCharge(buckets: seq<Bucket>, now: int) returns (admitted: bool)
      requires Distinct(buckets)
      modifies this`states
      ensures (states, admitted) == Judge(options, old(states), buckets, now)
    {
      var i := 0;
      while i < |buckets|
        invariant 0 <= i <= |buckets| && forall k | 0 <= k < i :: !IsFull(options, states, buckets[k], now)
      {
        if IsFull(options, states, buckets[i], now) {
          FirstFullIs(options, states, buckets, now, i);
          states := states[buckets[i] := Refreshed(StateOf(states, buckets[i]), now)];
          return false;
        }
        i := i + 1;
      }
      FirstFullIs(options, states, buckets, now, i);
      Charge(buckets, now);
      return true;
    }

    method CountNew(buckets: seq<Bucket>) returns (count: nat)
      requires Distinct(buckets)
      ensures count == |NewSubjects(states, buckets)|
    {
      count := 0;
      for i := 0 to |buckets|
        invariant count == |NewSubjects(states, buckets[..i])|
      {
        NewSubjectsStep(states, buckets, i);
        if buckets[i] !in states { count := count + 1; }
      }
      assert buckets[..|buckets|] == buckets;
    }

    method Charge(buckets: seq<Bucket>, now: int)
      requires Distinct(buckets)
      modifies this`states
      ensures states == ChargedAll(old(states), buckets, now)
    {
      ghost var before, charge, done := states, state => Charged(state, now), {};
      for i := 0 to |buckets|
        invariant states == ChangedAll(before, done, charge)
        invariant forall bucket :: bucket in done <==> bucket in buckets[..i]
      {
        ChangeStep(before, done, buckets[i], charge);
        states := states[buckets[i] := Charged(StateOf(states, buckets[i]), now)];
        done := done + {buckets[i]};
      }
      assert done == set bucket | bucket in buckets;
    }

    /** The release closure of one permit, run at most once. */
    method Release(buckets: seq<Bucket>)
      requires Distinct(buckets)
      modifies this`states
      ensures states == ReleasedAll(old(states), buckets)
    {
      ghost var before, done := states, {};
      for i := 0 to |buckets|
        invariant states == ChangedAll(before, done, Released)
        invariant forall bucket :: bucket in done <==> bucket in buckets[..i]
      {
        ChangeStep(before, done, buckets[i], Released);
        states := states[buckets[i] := Released(StateOf(states, buckets[i]))];
        done := done + {buckets[i]};
      }
      assert done == set bucket | bucket in buckets;
    }

    method Cleanup(now: int)
      modifies this
      ensures states == CleanedWhenDue(old(states), old(lastCleanup), now)
      ensures lastCleanup == if CleanupDue(old(lastCleanup), now) then Some(now) else old(lastCleanup)
    {
      if lastCleanup.Some? && now - lastCleanup.value < MINUTE { return; }
      states := Cleaned(states, now);
      lastCleanup := Some(now);
    }
  }
}

/**
The sign-in throttle (apps/auth/src/login-throttle.ts) as `submitLogin` uses it
(apps/auth/src/interactions.ts). An attempt reads the clock once, for its check and for its record;
between the two it waits for the password to be verified, and others may come.
*/
module LoginThrottle {
  import opened Prelude
  import opened Spans

  const MAX_FAILURES := 5
  const WINDOW_MS := 15 * 60_000

  datatype Bucket = Bucket(count: int, resetAt: int)

  predicate Allows(b: Option<Bucket>, now: int) {
    b.None? || now >= b.value.resetAt || b.value.count < MAX_FAILURES
  }

  function Recorded(b: Option<Bucket>, now: int): Bucket {
    if b.None? || now >= b.value.resetAt then Bucket(1, now + WINDOW_MS)
    else Bucket(b.value.count + 1, b.value.resetAt)
  }

  class Throttle {
    var buckets: map<string, Bucket>

    constructor ()
      ensures buckets == map[]
    {
      buckets := map[];
    }

    ghost function Of(ip: string): Option<Bucket>
      reads this
    {
      if ip in buckets then Some(buckets[ip]) else None
    }

    method Check(ip: string, now: int) returns (ok: bool)
      ensures ok == Allows(Of(ip), now)
    {
      if ip !in buckets || now >= buckets[ip].resetAt { return true; }
      return buckets[ip].count < MAX_FAILURES;
    }

    method Record(ip: string, now: int)
      modifies this
      ensures Of(ip) == Some(Recorded(old(Of(ip)), now))
      ensures forall other :: other != ip ==> Of(other) == old(Of(other))
    {
      if ip !in buckets || now >= buckets[ip].resetAt {
        buckets := buckets[ip := Bucket(1, now + WINDOW_MS)];
        return;
      }
      buckets := buckets[ip := buckets[ip].(count := buckets[ip].count + 1)];
    }
  }

  // ---- Attempts from one address, in any interleaving ----

  type Id = nat

  /** `flights` holds the readings of attempts checked and not yet over; `failures` those recorded, in record order. */
  datatype State = State(now: int, bucket: Option<Bucket>, flights: map<Id, int>, failures: seq<int>)

  datatype Action =
    | Tick(ms: nat)
    | Check(id: Id)   // reads the clock and asks the throttle
    | Pass(id: Id)    // the password was right, or the check of it failed to run
    | Fail(id: Id)    // the password was wrong: recorded at the time of the check

  function Init(): State {
    State(0, None, map[], [])
  }

  /** At most `k` attempts are between their check and their end. */
  predicate Enabled(k: nat, s: State, a: Action) {
    match a
    case Tick(_) => true
    case Check(id) => id !in s.flights && (Allows(s.bucket, s.now) ==> |s.flights| < k)
    case Pass(id) => id in s.flights
    case Fail(id) => id in s.flights
  }

  function Do(k: nat, s: State, a: Action): State
    requires Enabled(k, s, a)
  {
    match a
    case Tick(ms) => s.(now := s.now + ms)
    case Check(id) => if Allows(s.bucket, s.now) then s.(flights := s.flights[id := s.now]) else s
    case Pass(id) => s.(flights := s.flights - {id})
    case Fail(id) =>
      s.(bucket := Some(Recorded(s.bucket, s.flights[id])),
         flights := s.flights - {id}, failures := s.failures + [s.flights[id]])
  }

  ghost predicate Legal(k: nat, init: State, run: seq<Action>)
    decreases |run|, 0
  {
    run == [] ||
    (Legal(k, init, run[..|run| - 1]) && Enabled(k, After(k, init, run[..|run| - 1]), run[|run| - 1]))
  }

  ghost function After(k: nat, init: State, run: seq<Action>): State
    requires Legal(k, init, run)
    decreases |run|, 1
  {
    if run == [] then init else Do(k, After(k, init, run[..|run| - 1]), run[|run| - 1])
  }

  ghost predicate Reachable(k: nat, s: State) {
    exists run :: Legal(k, Init(), run) && After(k, Init(), run) == s
  }

  // ---- How many failures fit in a window ----

  /** The failures recorded in the half-open window from `from`. */
  function InWindow(s: State, from: int): nat {
    |Span(s.failures, from, from + WINDOW_MS)|
  }

  /** What one bucket can hold: the fifth failure, and those checked before it was recorded. */
  function Most(k: nat): int {
    MAX_FAILURES + k - 1
  }

  /** Two buckets' worth, less the failure that starts the first. */
  function Bound(k: nat): int {
    2 * Most(k) - 1
  }

  function Flying(flights: map<Id, int>, from: int, to: int): set<Id> {
    set id | id in flights && from <= flights[id] < to
  }

  function Before(flights: map<Id, int>, to: int): set<Id> {
    set id | id in flights && flights[id] < to
  }

  predicate Base(k: nat, s: State) {
    && |s.flights| <= k
    && (forall id :: id in s.flights ==> s.flights[id] <= s.now)
    && (s.bucket.Some? ==>
          var b := s.bucket.value;
          && b.count >= 1 && b.resetAt - WINDOW_MS <= s.now
          && (b.count < MAX_FAILURES || b.count + |Before(s.flights, b.resetAt)| <= Most(k)))
  }

  /** The failures of a window that is not over, against the bucket. */
  predicate Early(k: nat, s: State, a: int) {
    var c := InWindow(s, a);
    match s.bucket
    case None => c == 0
    case Some(b) =>
      if b.resetAt - WINDOW_MS < a then c <= b.count - 1 && (b.resetAt <= a ==> c == 0)
      else c <= Most(k) - 1 + b.count
  }

  /** Failures of the window, recorded or still to come. */
  function Load(s: State, a: int): int {
    InWindow(s, a) + |Flying(s.flights, a, a + WINDOW_MS)|
  }

  predicate Inv(k: nat, s: State, a: int) {
    Base(k, s) && (s.now < a + WINDOW_MS ==> Early(k, s, a)) && Load(s, a) <= Bound(k)
  }

  lemma {:induction false} SpanAppend(log: seq<int>, t: int, from: int, to: int)
    ensures |Span(log + [t], from, to)| == |Span(log, from, to)| + if from <= t < to then 1 else 0
  {
    var more := if from <= t < to then {|log|} else {};
    assert Span(log + [t], from, to) == Span(log, from, to) + more;
  }

  lemma {:induction false} SizeOfFlights(flights: map<Id, int>, from: int, to: int)
    ensures |Flying(flights, from, to)| <= |flights| && |Before(flights, to)| <= |flights|
  {
    SubsetSize(Flying(flights, from, to), flights.Keys);
    SubsetSize(Before(flights, to), flights.Keys);
  }

  lemma {:induction false} Landing(flights: map<Id, int>, id: Id, from: int, to: int)
    requires id in flights
    ensures |flights - {id}| == |flights| - 1
    ensures |Flying(flights - {id}, from, to)| == |Flying(flights, from, to)| - if from <= flights[id] < to then 1 else 0
    ensures |Before(flights - {id}, to)| == |Before(flights, to)| - if flights[id] < to then 1 else 0
  {
    assert (flights - {id}).Keys == flights.Keys - {id};
    assert |(flights - {id}).Keys| == |flights - {id}|;
    assert Flying(flights - {id}, from, to) == Flying(flights, from, to) - {id};
    assert Before(flights - {id}, to) == Before(flights, to) - {id};
  }

  lemma {:induction false} TakingOff(flights: map<Id, int>, id: Id, now: int, from: int, to: int)
    requires id !in flights
    ensures |flights[id := now]| == |flights| + 1
    ensures !(from <= now < to) ==> Flying(flights[id := now], from, to) == Flying(flights, from, to)
    ensures now >= to ==> Before(flights[id := now], to) == Before(flights, to)
  {
    assert flights[id := now].Keys == flights.Keys + {id};
    assert |flights[id := now].Keys| == |flights[id := now]|;
  }

  /** While the window lasts, what is recorded and what is in flight stay within the bound. */
  lemma {:induction false} EarlyLoad(k: nat, s: State, a: int)
    requires Base(k, s) && Early(k, s, a) && s.now < a + WINDOW_MS
    ensures Load(s, a) <= Bound(k)
  {
    SizeOfFlights(s.flights, a, a + WINDOW_MS);
    if s.bucket.Some? {
      var r := s.bucket.value.resetAt;
      SizeOfFlights(s.flights, a, r);
      if r - WINDOW_MS >= a {
        SubsetSize(Flying(s.flights, a, a + WINDOW_MS), Before(s.flights, r));
      }
    }
  }

  lemma {:induction false} BaseFail(k: nat, s: State, id: Id)
    requires Base(k, s) && id in s.flights
    ensures Base(k, Do(k, s, Fail(id)))
  {
    if s.bucket.Some? {
      Landing(s.flights, id, 0, s.bucket.value.resetAt);
      SizeOfFlights(s.flights, 0, s.bucket.value.resetAt);
    } else {
      Landing(s.flights, id, 0, 0);
    }
  }

  lemma {:induction false} EarlyFail(k: nat, s: State, id: Id, a: int)
    requires Base(k, s) && Early(k, s, a) && s.now < a + WINDOW_MS && id in s.flights
    ensures Early(k, Do(k, s, Fail(id)), a)
  {
    SpanAppend(s.failures, s.flights[id], a, a + WINDOW_MS);
    if s.bucket.Some? {
      SizeOfFlights(s.flights, a, s.bucket.value.resetAt);
    }
  }

  lemma {:induction false} InvFail(k: nat, s: State, id: Id, a: int)
    requires Inv(k, s, a) && id in s.flights
    ensures Inv(k, Do(k, s, Fail(id)), a)
  {
    BaseFail(k, s, id);
    if s.now < a + WINDOW_MS {
      EarlyFail(k, s, id, a);
    }
    SpanAppend(s.failures, s.flights[id], a, a + WINDOW_MS);
    Landing(s.flights, id, a, a + WINDOW_MS);
  }

  lemma {:induction false} InvCheck(k: nat, s: State, id: Id, a: int)
    requires Inv(k, s, a) && Enabled(k, s, Check(id))
    ensures Inv(k, Do(k, s, Check(id)), a)
  {
    var s' := Do(k, s, Check(id));
    TakingOff(s.flights, id, s.now, a, a + WINDOW_MS);
    if s.bucket.Some? {
      TakingOff(s.flights, id, s.now, a, s.bucket.value.resetAt);
    }
    if s.now < a + WINDOW_MS {
      EarlyLoad(k, s', a);
    }
  }

  lemma {:induction false} InvPass(k: nat, s: State, id: Id, a: int)
    requires Inv(k, s, a) && id in s.flights
    ensures Inv(k, Do(k, s, Pass(id)), a)
  {
    Landing(s.flights, id, a, a + WINDOW_MS);
    if s.bucket.Some? {
      Landing(s.flights, id, a, s.bucket.value.resetAt);
    }
  }

  lemma {:induction false} InvStep(k: nat, s: State, action: Action, a: int)
    requires Inv(k, s, a) && Enabled(k, s, action)
    ensures Inv(k, Do(k, s, action), a)
  {
    match action
    case Tick(_) =>
    case Check(id) => InvCheck(k, s, id, a);
    case Pass(id) => InvPass(k, s, id, a);
    case Fail(id) => InvFail(k, s, id, a);
  }

  lemma {:induction false} InvRun(k: nat, run: seq<Action>, a: int)
    requires Legal(k, Init(), run)
    ensures Inv(k, After(k, Init(), run), a)
    decreases |run|
  {
    if run == [] {
      assert Flying(map[], a, a + WINDOW_MS) == {};
    } else {
      InvRun(k, run[..|run| - 1], a);
      InvStep(k, After(k, Init(), run[..|run| - 1]), run[|run| - 1], a);
    }
  }

  /** However up to `k` attempts at a time overlap, a half-open 15 minutes holds at most `Bound(k)` failures. */
  lemma {:induction false} FailuresBound(k: nat, s: State, from: int)
    requires Reachable(k, s)
    ensures InWindow(s, from) <= Bound(k)
  {
    var run :| Legal(k, Init(), run) && After(k, Init(), run) == s;
    InvRun(k, run, from);
  }

  // ---- The bound is reached ----

  lemma {:induction false} Advance(k: nat, s: State, a: Action) returns (s': State)
    requires Reachable(k, s) && Enabled(k, s, a)
    ensures s' == Do(k, s, a) && Reachable(k, s')
  {
    s' := Do(k, s, a);
    var run :| Legal(k, Init(), run) && After(k, Init(), run) == s;
    assert (run + [a])[..|run|] == run;
    assert Legal(k, Init(), run + [a]) && After(k, Init(), run + [a]) == s';
  }

  function Times(at: int, n: nat): (r: seq<int>)
    ensures |r| == n && forall i :: 0 <= i < n ==> r[i] == at
  {
    seq(n, i => at)
  }

  function Filled(b: Option<Bucket>, at: int, n: nat): Option<Bucket> {
    if n == 0 then b
    else if b.None? || at >= b.value.resetAt then Some(Bucket(n, at + WINDOW_MS))
    else Some(Bucket(b.value.count + n, b.value.resetAt))
  }

  /** `n` attempts checked at one instant. */
  function Together(n: nat, at: int): (r: map<Id, int>)
    ensures |r| == n && (forall id: Id :: id in r <==> id < n) && forall id :: id in r ==> r[id] == at
  {
    if n == 0 then map[] else Together(n - 1, at)[n - 1 := at]
  }

  /** `n` more failures at this instant. */
  function Failed(s: State, n: nat): State {
    s.(bucket := Filled(s.bucket, s.now, n), failures := s.failures + Times(s.now, n))
  }

  /** `n` attempts are checked before any of them ends. */
  lemma {:induction false} CheckAll(k: nat, s: State, n: nat) returns (s': State)
    requires Reachable(k, s) && s.flights == map[] && n <= k && Allows(s.bucket, s.now)
    ensures Reachable(k, s') && s' == s.(flights := Together(n, s.now))
  {
    s' := s;
    var i: nat := 0;
    while i < n
      invariant i <= n && Reachable(k, s') && s' == s.(flights := Together(i, s.now))
    {
      s' := Advance(k, s', Check(i));
      i := i + 1;
    }
  }

  /** `i` of `n` checked together have failed since. */
  function Landed(s: State, n: nat, i: nat): State
    requires i <= n
  {
    Failed(s, i).(flights := Together(n - i, s.now))
  }

  lemma {:induction false} OneMore(s: State, n: nat)
    ensures Some(Recorded(Filled(s.bucket, s.now, n), s.now)) == Filled(s.bucket, s.now, n + 1)
    ensures s.failures + Times(s.now, n) + [s.now] == s.failures + Times(s.now, n + 1)
  {
    assert Times(s.now, n + 1) == Times(s.now, n) + [s.now];
  }

  lemma {:induction false} BurstStep(k: nat, s: State, n: nat, i: nat)
    requires i < n
    ensures Enabled(k, Landed(s, n, i), Fail(n - i - 1))
    ensures Do(k, Landed(s, n, i), Fail(n - i - 1)) == Landed(s, n, i + 1)
  {
    assert Together(n - i - 1, s.now) == Together(n - i, s.now) - {n - i - 1};
    assert Together(n - i, s.now)[n - i - 1] == s.now;
    OneMore(s, i);
  }

  /** The attempts turn out wrong: however full the bucket has become, each is recorded. */
  lemma {:induction false} EndSome(k: nat, s: State, n: nat, i: nat)
    requires i <= n && Reachable(k, Landed(s, n, 0))
    ensures Reachable(k, Landed(s, n, i))
  {
    var j: nat := 0;
    while j < i
      invariant j <= i && Reachable(k, Landed(s, n, j))
    {
      BurstStep(k, s, n, j);
      var _ := Advance(k, Landed(s, n, j), Fail(n - j - 1));
      j := j + 1;
    }
  }

  lemma {:induction false} Burst(k: nat, s: State, n: nat)
    requires Reachable(k, s) && s.flights == map[] && n <= k && Allows(s.bucket, s.now)
    ensures Reachable(k, Failed(s, n))
  {
    var t := CheckAll(k, s, n);
    assert t == Landed(s, n, 0) by {
      assert s.failures + Times(s.now, 0) == s.failures;
    }
    EndSome(k, s, n, n);
    assert Failed(s, n) == Landed(s, n, n);
  }

  lemma {:induction false} MoreAndMore(s: State, m: nat, n: nat)
    ensures Failed(Failed(s, m), n) == Failed(s, m + n)
  {
    assert Times(s.now, m + n) == Times(s.now, m) + Times(s.now, n);
    assert s.failures + Times(s.now, m) + Times(s.now, n) == s.failures + Times(s.now, m + n);
  }

  /** Another attempt is let through after `n` more failures now. */
  predicate RoomAfter(s: State, n: nat) {
    if s.bucket.None? || s.now >= s.bucket.value.resetAt then n < MAX_FAILURES
    else s.bucket.value.count + n < MAX_FAILURES
  }

  lemma {:induction false} AnotherBurst(k: nat, s: State, m: nat, n: nat)
    requires Reachable(k, Failed(s, m)) && s.flights == map[] && RoomAfter(s, m) && n <= k
    ensures Reachable(k, Failed(s, m + n))
  {
    MoreAndMore(s, m, n);
    Burst(k, Failed(s, m), n);
  }

  /** One wrong attempt after another, up to the fourth of the bucket. */
  lemma {:induction false} OneByOne(k: nat, s: State, n: nat)
    requires k >= 1 && Reachable(k, s) && s.flights == map[] && RoomAfter(s, n)
    ensures Reachable(k, Failed(s, n))
  {
    assert Failed(s, 0) == s by {
      assert s.failures + Times(s.now, 0) == s.failures;
    }
    var i: nat := 0;
    while i < n
      invariant i <= n && Reachable(k, Failed(s, i))
    {
      AnotherBurst(k, s, i, 1);
      i := i + 1;
    }
  }

  /** And then `k` at once. */
  lemma {:induction false} FillUp(k: nat, s: State, n: nat)
    requires k >= 1 && Reachable(k, s) && s.flights == map[] && RoomAfter(s, n)
    ensures Reachable(k, Failed(s, n + k))
  {
    OneByOne(k, s, n);
    AnotherBurst(k, s, n, k);
  }

  lemma {:induction false} CountAll(h: seq<int>, m: nat, n: nat)
    requires h == Times(0, 1) + Times(WINDOW_MS - 1, m) + Times(WINDOW_MS, n)
    ensures |Span(h, WINDOW_MS - 1, WINDOW_MS - 1 + WINDOW_MS)| == m + n
  {
    assert forall i :: 0 <= i < |h| ==>
      h[i] == if i == 0 then 0 else if i < 1 + m then WINDOW_MS - 1 else WINDOW_MS;
    assert Span(h, WINDOW_MS - 1, WINDOW_MS - 1 + WINDOW_MS) == Indices(1, m + n);
  }

  /** A bucket started a window before its other failures come. */
  lemma {:induction false} LateInTheFirst(k: nat) returns (s: State)
    requires k >= 1
    ensures Reachable(k, s) && s.now == WINDOW_MS - 1 && s.flights == map[]
    ensures s.bucket.Some? && s.bucket.value.resetAt == WINDOW_MS
    ensures s.failures == Times(0, 1) + Times(WINDOW_MS - 1, 3 + k)
  {
    assert Legal(k, Init(), []) && After(k, Init(), []) == Init();
    Burst(k, Init(), 1);
    assert Failed(Init(), 1) == State(0, Some(Bucket(1, WINDOW_MS)), map[], Times(0, 1));
    var t := Advance(k, Failed(Init(), 1), Tick(WINDOW_MS - 1));
    FillUp(k, t, 3);
    s := Failed(t, 3 + k);
  }

  /** The next bucket is filled as soon as the first resets. */
  lemma {:induction false} BoundIsReached(k: nat) returns (s: State)
    requires k >= 1
    ensures Reachable(k, s) && InWindow(s, WINDOW_MS - 1) == Bound(k)
  {
    var t := LateInTheFirst(k);
    t := Advance(k, t, Tick(1));
    FillUp(k, t, 4);
    s := Failed(t, 4 + k);
    CountAll(s.failures, 3 + k, 4 + k);
  }

  lemma {:induction false} NoFailures(run: seq<Action>)
    requires Legal(0, Init(), run)
    ensures After(0, Init(), run).failures == [] && After(0, Init(), run).flights == map[]
    decreases |run|
  {
    if run != [] {
      NoFailures(run[..|run| - 1]);
    }
  }

  /** Without attempts there are no failures. */
  lemma {:induction false} NoneInFlight(s: State, from: int)
    requires Reachable(0, s)
    ensures s.failures == [] && InWindow(s, from) == 0
  {
    var run :| Legal(0, Init(), run) && After(0, Init(), run) == s;
    NoFailures(run);
  }

  /**
  No half-open 15 minutes hold more than `n` recorded failures, whatever the interleaving, exactly
  when no attempt can be made at all or `n` is at least the bound for `k` attempts in flight.
  */
  lemma {:induction false} FailuresExactly(k: nat, n: int)
    requires n >= 0
    ensures (forall s, from :: Reachable(k, s) ==> InWindow(s, from) <= n) <==>
      k == 0 || n >= Bound(k)
  {
    if k == 0 {
      forall s, from | Reachable(k, s) ensures InWindow(s, from) <= n {
        NoneInFlight(s, from);
      }
    } else if n >= Bound(k) {
      forall s, from | Reachable(k, s) ensures InWindow(s, from) <= n {
        FailuresBound(k, s, from);
      }
    } else {
      var s := BoundIsReached(k);
      assert InWindow(s, WINDOW_MS - 1) > n;
    }
  }

  /** Nine, twice the limit less one, is kept exactly when attempts do not overlap. */
  lemma {:induction false} NineExactly(k: nat)
    ensures (forall s, from :: Reachable(k, s) ==> InWindow(s, from) <= 2 * MAX_FAILURES - 1) <==>
      k <= 1
  {
    FailuresExactly(k, 2 * MAX_FAILURES - 1);
  }

  // ---- A full bucket ----

  /**
  Whatever runs from a state with a full bucket, until its reset time no attempt gets past the check
  and the bucket keeps that time, at which it lets attempts through again.
  */
  lemma {:induction false} FullUntilReset(k: nat, s: State, run: seq<Action>)
    requires s.bucket.Some? && s.bucket.value.count >= MAX_FAILURES
    requires forall id :: id in s.flights ==> s.flights[id] <= s.now
    requires Legal(k, s, run) && After(k, s, run).now < s.bucket.value.resetAt
    ensures var s' := After(k, s, run);
      && s.now <= s'.now && s'.bucket.Some? && s'.bucket.value.resetAt == s.bucket.value.resetAt
      && (forall id :: id in s'.flights ==> id in s.flights && s'.flights[id] == s.flights[id])
      && (forall now :: Allows(s'.bucket, now) <==> now >= s.bucket.value.resetAt)
    decreases |run|
  {
    if run != [] {
      FullUntilReset(k, s, run[..|run| - 1]);
    }
  }
}

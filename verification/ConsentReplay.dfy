/**
Consent assertions are honoured once (apps/control-plane/src/server/replay-guard.ts,
consent-assertion.ts, internal-route.ts, with the expiry rule of packages/schema/src/access-token.ts).

A request's verification reads the clock twice, for the expiry and then for the lifetime bounds, and
later claims the assertion's `jti`. `maxDelay` bounds the time from the first reading to the claim.
The clock is in whole milliseconds; `exp` and `iat` are any numbers of seconds.
*/
module ConsentReplay {

  const MAX_LIFETIME_S := 60.0
  const REPLAY_WINDOW_SECONDS := 120

  type Jti = string

  datatype Assertion = Assertion(jti: Jti, iat: real, exp: real)

  /** `Math.floor(Date.now() / 1000)` */
  function WholeSeconds(now: nat): real {
    (now / 1000) as real
  }

  predicate Expired(a: Assertion, now: nat) {
    a.exp <= WholeSeconds(now)
  }

  predicate LifetimeOk(a: Assertion, now: nat) {
    a.exp - a.iat <= MAX_LIFETIME_S && a.exp - WholeSeconds(now) <= MAX_LIFETIME_S
  }

  // ---- The guard ----

  function Swept(seen: map<Jti, int>, now: int): map<Jti, int> {
    map k | k in seen && seen[k] > now :: seen[k]
  }

  function Claimed(seen: map<Jti, int>, jti: Jti, ttlSeconds: int, now: int): map<Jti, int> {
    if jti in Swept(seen, now) then Swept(seen, now) else Swept(seen, now)[jti := now + ttlSeconds * 1000]
  }

  class MemoryReplayGuard {
    var seen: map<Jti, int>

    constructor ()
      ensures seen == map[]
    {
      seen := map[];
    }

    method ClaimOnce(jti: Jti, ttlSeconds: int, now: int) returns (first: bool)
      modifies this
      ensures seen == Claimed(old(seen), jti, ttlSeconds, now)
      ensures first <==> !(jti in old(seen) && old(seen)[jti] > now)
    {
      var rest := seen.Keys;
      while rest != {}
        invariant rest <= old(seen).Keys && seen.Keys <= old(seen).Keys
        invariant forall k :: k in seen ==> seen[k] == old(seen)[k]
        invariant forall k :: k in old(seen) && (k in rest || old(seen)[k] > now) ==> k in seen
        invariant forall k :: k in seen && k !in rest ==> seen[k] > now
        decreases |rest|
      {
        var k :| k in rest;
        rest := rest - {k};
        if seen[k] <= now {
          seen := seen - {k};
        }
      }
      assert seen == Swept(old(seen), now);
      if jti in seen { return false; }
      seen := seen[jti := now + ttlSeconds * 1000];
      return true;
    }
  }

  // ---- Requests ----

  /** A request whose assertion has passed the expiry check, and then also the lifetime bounds. */
  datatype Request = Unexpired(a: Assertion, checked: nat) | Verified(a: Assertion, checked: nat, bounded: nat)

  datatype Honour = Honour(a: Assertion, at: nat)

  datatype State = State(now: nat, seen: map<Jti, int>, requests: map<nat, Request>, honoured: seq<Honour>)

  datatype Config = Config(maxDelay: nat)

  datatype Action =
    | Tick(ms: nat)
    | CheckExpiry(r: nat, a: Assertion)
    | CheckLifetime(r: nat)
    | Claim(r: nat, actorActive: bool)

  const INIT := State(0, map[], map[], [])

  predicate Enabled(cfg: Config, s: State, act: Action) {
    match act
    case Tick(_) => true
    case CheckExpiry(r, a) => r !in s.requests && !Expired(a, s.now)
    case CheckLifetime(r) => r in s.requests && s.requests[r].Unexpired? && LifetimeOk(s.requests[r].a, s.now)
    case Claim(r, _) => r in s.requests && s.requests[r].Verified? && s.now - s.requests[r].checked <= cfg.maxDelay
  }

  function Do(cfg: Config, s: State, act: Action): State
    requires Enabled(cfg, s, act)
  {
    match act
    case Tick(ms) => s.(now := s.now + ms)
    case CheckExpiry(r, a) => s.(requests := s.requests[r := Unexpired(a, s.now)])
    case CheckLifetime(r) => s.(requests := s.requests[r := Verified(s.requests[r].a, s.requests[r].checked, s.now)])
    case Claim(r, actorActive) =>
      var a := s.requests[r].a;
      var first := a.jti !in Swept(s.seen, s.now);
      s.(requests := s.requests - {r},
         seen := Claimed(s.seen, a.jti, REPLAY_WINDOW_SECONDS, s.now),
         honoured := if first && actorActive then s.honoured + [Honour(a, s.now)] else s.honoured)
  }

  // ---- Runs ----

  ghost predicate Legal(cfg: Config, run: seq<Action>)
    decreases |run|, 0
  {
    run == [] || (Legal(cfg, run[..|run| - 1]) && Enabled(cfg, After(cfg, run[..|run| - 1]), run[|run| - 1]))
  }

  ghost function After(cfg: Config, run: seq<Action>): State
    requires Legal(cfg, run)
    decreases |run|, 1
  {
    if run == [] then INIT else Do(cfg, After(cfg, run[..|run| - 1]), run[|run| - 1])
  }

  ghost predicate Reachable(cfg: Config, s: State) {
    exists run :: Legal(cfg, run) && After(cfg, run) == s
  }

  lemma {:induction false} Advance(cfg: Config, s: State, act: Action) returns (s': State)
    requires Reachable(cfg, s) && Enabled(cfg, s, act)
    ensures s' == Do(cfg, s, act) && Reachable(cfg, s')
  {
    s' := Do(cfg, s, act);
    var run :| Legal(cfg, run) && After(cfg, run) == s;
    assert (run + [act])[..|run|] == run;
    assert Legal(cfg, run + [act]) && After(cfg, run + [act]) == s';
  }

  // ---- Honoured once ----

  predicate HonouredOnce(s: State) {
    forall i, j :: 0 <= i < j < |s.honoured| ==> s.honoured[i].a != s.honoured[j].a
  }

  predicate RequestOk(s: State, r: Request) {
    && r.checked <= s.now && !Expired(r.a, r.checked)
    && (r.Verified? ==> r.checked <= r.bounded <= s.now && LifetimeOk(r.a, r.bounded))
  }

  /** An honoured assertion is remembered until its window ends, and expires 60 s or less after it was claimed. */
  predicate HonourOk(s: State, h: Honour) {
    && h.at <= s.now && h.a.exp - WholeSeconds(h.at) <= MAX_LIFETIME_S
    && (s.now < h.at + REPLAY_WINDOW_SECONDS * 1000 ==>
          h.a.jti in s.seen && s.seen[h.a.jti] >= h.at + REPLAY_WINDOW_SECONDS * 1000)
  }

  predicate Inv(s: State) {
    && (forall r :: r in s.requests ==> RequestOk(s, s.requests[r]))
    && (forall i :: 0 <= i < |s.honoured| ==> HonourOk(s, s.honoured[i]))
  }

  /** The clock at which an assertion, claimed at `at`, can still pass the expiry check is within 60 s of it. */
  lemma {:induction false} LastChance(a: Assertion, bounded: nat, checked: nat)
    requires a.exp - WholeSeconds(bounded) <= MAX_LIFETIME_S && !Expired(a, checked)
    ensures checked < bounded + 60_000
  {
    assert WholeSeconds(checked) < WholeSeconds(bounded) + 60.0;
    assert checked / 1000 < bounded / 1000 + 60;
  }

  lemma {:induction false} SecondClaimRefused(cfg: Config, s: State, r: nat, i: nat)
    requires cfg.maxDelay <= 60_000 && Inv(s) && Enabled(cfg, s, Claim(r, true))
    requires i < |s.honoured| && s.honoured[i].a == s.requests[r].a
    ensures s.requests[r].a.jti in Swept(s.seen, s.now)
  {
    assert RequestOk(s, s.requests[r]) && HonourOk(s, s.honoured[i]);
    LastChance(s.honoured[i].a, s.honoured[i].at, s.requests[r].checked);
  }

  lemma {:induction false} WholeSecondsGrow(t: nat, u: nat)
    requires t <= u
    ensures WholeSeconds(t) <= WholeSeconds(u)
  {
  }

  lemma {:induction false} InvStep(cfg: Config, s: State, act: Action)
    requires Inv(s) && Enabled(cfg, s, act)
    ensures Inv(Do(cfg, s, act))
  {
    var s' := Do(cfg, s, act);
    forall r | r in s'.requests ensures RequestOk(s', s'.requests[r]) {
      assert r in s.requests ==> RequestOk(s, s.requests[r]);
    }
    if act.Claim? {
      assert RequestOk(s, s.requests[act.r]);
      WholeSecondsGrow(s.requests[act.r].bounded, s.now);
    }
    forall i | 0 <= i < |s'.honoured| ensures HonourOk(s', s'.honoured[i]) {
      assert i < |s.honoured| ==> HonourOk(s, s.honoured[i]);
    }
  }

  lemma {:induction false} OnceStep(cfg: Config, s: State, act: Action)
    requires cfg.maxDelay <= 60_000 && Inv(s) && HonouredOnce(s) && Enabled(cfg, s, act)
    ensures HonouredOnce(Do(cfg, s, act))
  {
    if act.Claim? && act.actorActive {
      forall i: nat | i < |s.honoured| && s.honoured[i].a == s.requests[act.r].a
        ensures s.requests[act.r].a.jti in Swept(s.seen, s.now)
      {
        SecondClaimRefused(cfg, s, act.r, i);
      }
    }
  }

  lemma {:induction false} OnceRun(cfg: Config, run: seq<Action>)
    requires cfg.maxDelay <= 60_000 && Legal(cfg, run)
    ensures Inv(After(cfg, run)) && HonouredOnce(After(cfg, run))
  {
    if run != [] {
      OnceRun(cfg, run[..|run| - 1]);
      InvStep(cfg, After(cfg, run[..|run| - 1]), run[|run| - 1]);
      OnceStep(cfg, After(cfg, run[..|run| - 1]), run[|run| - 1]);
    }
  }

  const SAMPLE := Assertion("j", 0.0, 60.0)

  lemma {:induction false} HonouredAtZero(cfg: Config) returns (s: State)
    ensures Reachable(cfg, s) && s == State(0, map["j" := 120_000], map[], [Honour(SAMPLE, 0)])
  {
    assert Legal(cfg, []) && After(cfg, []) == INIT;
    s := Advance(cfg, INIT, CheckExpiry(0, SAMPLE));
    s := Advance(cfg, s, CheckLifetime(0));
    s := Advance(cfg, s, Claim(0, true));
  }

  /** Verified again in its last millisecond, an assertion waits out the window and is claimed once more. */
  lemma {:induction false} SlowClaimBreaks(cfg: Config) returns (s: State)
    requires cfg.maxDelay > 60_000
    ensures Reachable(cfg, s) && !HonouredOnce(s)
  {
    s := HonouredAtZero(cfg);
    s := Advance(cfg, s, Tick(59_999));
    s := Advance(cfg, s, CheckExpiry(0, SAMPLE));
    s := Advance(cfg, s, CheckLifetime(0));
    s := Advance(cfg, s, Tick(60_001));
    s := Advance(cfg, s, Claim(0, true));
    assert s.honoured[0].a == s.honoured[1].a;
  }

  /**
  In every run the same assertion reaches the handler at most once, if and only if no request takes
  more than 60 s from its expiry check to its claim.
  */
  lemma {:induction false} HonouredOnceExactly(cfg: Config)
    ensures (forall s :: Reachable(cfg, s) ==> HonouredOnce(s)) <==> cfg.maxDelay <= 60_000
  {
    if cfg.maxDelay <= 60_000 {
      forall s | Reachable(cfg, s) ensures HonouredOnce(s) {
        var run :| Legal(cfg, run) && After(cfg, run) == s;
        OnceRun(cfg, run);
      }
    } else {
      var s := SlowClaimBreaks(cfg);
    }
  }
}

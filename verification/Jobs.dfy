/**
Metering an asynchronous job when its result is polled (apps/data-plane/src/pipeline.ts, `jobResult`)
over the job table (apps/data-plane/src/jobs/postgres-job-store.ts). Every SQL statement and every
answer of the upstream is one step; any number of submissions and polls interleave.

Rows go when their paddock is deleted, and a row needs a live paddock. `reuse` says whether a job id
may be submitted again after its row went, necessarily from another paddock: the upstream's ids are
unique, so it should not be, and the table alone does not prevent it.
*/
module Jobs {

  type JobId = nat
  type PollId = nat

  datatype Scope = Scope(keyId: nat, paddockId: nat)

  datatype Job = Job(owner: Scope, metered: bool)

  /** What `parseHistory` makes of a finished job. */
  datatype Outcome = Outcome(images: nat, gpuMs: nat)

  /** The pair of events `images` and `gpu_ms`. */
  datatype Emission = Emission(id: JobId, scope: Scope, outcome: Outcome)

  datatype Poll =
    | Fetching(id: JobId, scope: Scope)
    | Marking(id: JobId, scope: Scope, outcome: Outcome)
    | Emitting(id: JobId, scope: Scope, outcome: Outcome)

  /**
  `paddocks` are the live ones. `known`, every paddock there has been, and `owners`, who submitted each
  job id first, are history.
  */
  datatype State = State(
    paddocks: set<nat>, jobs: map<JobId, Job>, finished: map<JobId, Outcome>, polls: map<PollId, Poll>,
    events: seq<Emission>, known: set<nat>, owners: map<JobId, Scope>)

  datatype Config = Config(reuse: bool)

  datatype Action =
    | AddPaddock(p: nat)
    | DeletePaddock(p: nat)
    | Create(id: JobId, scope: Scope)
    | Complete(id: JobId, outcome: Outcome)
    | Get(q: PollId, id: JobId, scope: Scope)
    | Fetch(q: PollId, answered: bool)
    | Mark(q: PollId)
    | Emit(q: PollId)

  const INIT := State({}, map[], map[], map[], [], {}, map[])

  predicate Enabled(cfg: Config, s: State, a: Action) {
    match a
    case AddPaddock(p) => p !in s.known
    case DeletePaddock(p) => p in s.paddocks
    case Create(id, scope) => id in s.jobs || (scope.paddockId in s.paddocks && (cfg.reuse || id !in s.owners))
    case Complete(id, outcome) => id in s.owners && id !in s.finished
    case Get(q, id, scope) => q !in s.polls
    case Fetch(q, answered) => q in s.polls && s.polls[q].Fetching?
    case Mark(q) => q in s.polls && s.polls[q].Marking?
    case Emit(q) => q in s.polls && s.polls[q].Emitting?
  }

  function Do(cfg: Config, s: State, a: Action): State
    requires Enabled(cfg, s, a)
  {
    match a
    case AddPaddock(p) => s.(paddocks := s.paddocks + {p}, known := s.known + {p})
    case DeletePaddock(p) =>
      // ON DELETE CASCADE
      s.(paddocks := s.paddocks - {p},
         jobs := map id | id in s.jobs && s.jobs[id].owner.paddockId != p :: s.jobs[id])
    case Create(id, scope) =>
      // ON CONFLICT DO NOTHING
      if id in s.jobs then s
      else s.(jobs := s.jobs[id := Job(scope, false)], owners := if id in s.owners then s.owners else s.owners[id := scope])
    case Complete(id, outcome) => s.(finished := s.finished[id := outcome])
    case Get(q, id, scope) =>
      if id in s.jobs && s.jobs[id].owner == scope then s.(polls := s.polls[q := Fetching(id, scope)]) else s
    case Fetch(q, answered) =>
      var id := s.polls[q].id;
      if answered && id in s.finished then s.(polls := s.polls[q := Marking(id, s.polls[q].scope, s.finished[id])])
      else s.(polls := s.polls - {q})
    case Mark(q) =>
      // UPDATE ... WHERE metered = false RETURNING id
      var p := s.polls[q];
      if p.id in s.jobs && !s.jobs[p.id].metered then
        s.(jobs := s.jobs[p.id := s.jobs[p.id].(metered := true)], polls := s.polls[q := Emitting(p.id, p.scope, p.outcome)])
      else s.(polls := s.polls - {q})
    case Emit(q) =>
      var p := s.polls[q];
      s.(polls := s.polls - {q}, events := s.events + [Emission(p.id, p.scope, p.outcome)])
  }

  // ---- Runs ----

  ghost predicate Legal(cfg: Config, run: seq<Action>)
    decreases |run|, 0
  {
    run == [] || (Legal(cfg, run[..|run| - 1]) && Enabled(cfg, After(cfg, run[..|run| - 1]), run[|run| - 1]))
  }

  ghost function After(cfg: Config, run: seq<Action>): State
    requires Legal(cfg, run)
    decreases |run|, 1
  {
    if run == [] then INIT else Do(cfg, After(cfg, run[..|run| - 1]), run[|run| - 1])
  }

  ghost predicate Reachable(cfg: Config, s: State) {
    exists run :: Legal(cfg, run) && After(cfg, run) == s
  }

  lemma {:induction false} Advance(cfg: Config, s: State, a: Action) returns (s': State)
    requires Reachable(cfg, s) && Enabled(cfg, s, a)
    ensures s' == Do(cfg, s, a) && Reachable(cfg, s')
  {
    s' := Do(cfg, s, a);
    var run :| Legal(cfg, run) && After(cfg, run) == s;
    assert (run + [a])[..|run|] == run;
    assert Legal(cfg, run + [a]) && After(cfg, run + [a]) == s';
  }

  // ---- Metered once ----

  predicate AtMostOnce(s: State) {
    forall i, j :: 0 <= i < j < |s.events| ==> s.events[i].id != s.events[j].id
  }

  /** What was emitted was emitted for the job's first submitter, with the result the upstream finished it with. */
  predicate Deserved(s: State, e: Emission) {
    e.id in s.owners && s.owners[e.id] == e.scope && e.id in s.finished && s.finished[e.id] == e.outcome
  }

  predicate Metered(s: State) {
    AtMostOnce(s) && forall i :: 0 <= i < |s.events| ==> Deserved(s, s.events[i])
  }

  /** The job's one metering has been claimed: its row says so, or is gone. */
  predicate Claimed(s: State, id: JobId) {
    id in s.owners && (id in s.jobs ==> s.jobs[id].metered)
  }

  predicate PollOk(s: State, q: PollId)
    requires q in s.polls
  {
    var p := s.polls[q];
    && p.id in s.owners && s.owners[p.id] == p.scope
    && (!p.Fetching? ==> p.id in s.finished && s.finished[p.id] == p.outcome)
    && (p.Emitting? ==> Claimed(s, p.id) && forall i :: 0 <= i < |s.events| ==> s.events[i].id != p.id)
  }

  predicate AboutToEmit(a: Poll, b: Poll) {
    a.Emitting? && b.Emitting? && a.id == b.id
  }

  predicate Inv(s: State) {
    && Metered(s)
    && (forall id :: id in s.jobs ==> id in s.owners && s.owners[id] == s.jobs[id].owner)
    && (forall i :: 0 <= i < |s.events| ==> Claimed(s, s.events[i].id))
    && (forall q :: q in s.polls ==> PollOk(s, q))
    && (forall p, q :: p in s.polls && q in s.polls && AboutToEmit(s.polls[p], s.polls[q]) ==> p == q)
  }

  lemma {:induction false} InvMark(cfg: Config, s: State, q: PollId)
    requires Inv(s) && Enabled(cfg, s, Mark(q))
    ensures Inv(Do(cfg, s, Mark(q)))
  {
    var s' := Do(cfg, s, Mark(q));
    assert PollOk(s, q);
    forall p | p in s'.polls ensures PollOk(s', p) {
      assert PollOk(s, p);
    }
    forall p | p in s.polls && s.polls[p].Emitting? ensures Claimed(s, s.polls[p].id) {
      assert PollOk(s, p);
    }
  }

  lemma {:induction false} InvEmit(cfg: Config, s: State, q: PollId)
    requires Inv(s) && Enabled(cfg, s, Emit(q))
    ensures Inv(Do(cfg, s, Emit(q)))
  {
    var s' := Do(cfg, s, Emit(q));
    assert PollOk(s, q);
    forall p | p in s'.polls ensures PollOk(s', p) {
      assert PollOk(s, p);
    }
  }

  lemma {:induction false} InvTable(cfg: Config, s: State, a: Action)
    requires !cfg.reuse && Inv(s) && Enabled(cfg, s, a)
    requires a.AddPaddock? || a.DeletePaddock? || a.Create?
    ensures Inv(Do(cfg, s, a))
  {
    var s' := Do(cfg, s, a);
    forall q | q in s'.polls ensures PollOk(s', q) {
      assert PollOk(s, q);
    }
  }

  lemma {:induction false} PollStays(cfg: Config, s: State, a: Action, q: PollId)
    requires Inv(s) && Enabled(cfg, s, a) && q in Do(cfg, s, a).polls
    requires a.Complete? || a.Get? || a.Fetch?
    ensures PollOk(Do(cfg, s, a), q)
  {
    assert q in s.polls ==> PollOk(s, q);
  }

  lemma {:induction false} InvComplete(cfg: Config, s: State, a: Action)
    requires Inv(s) && Enabled(cfg, s, a) && a.Complete?
    ensures Inv(Do(cfg, s, a))
  {
    var s' := Do(cfg, s, a);
    forall q | q in s'.polls ensures PollOk(s', q) {
      PollStays(cfg, s, a, q);
    }
  }

  /** A step that changes polls only, when whoever is about to emit was so before. */
  lemma {:induction false} PollsFrame(s: State, s': State)
    requires Inv(s) && s' == s.(polls := s'.polls) && forall q :: q in s'.polls ==> PollOk(s', q)
    requires forall q :: q in s'.polls && s'.polls[q].Emitting? ==> q in s.polls && s'.polls[q] == s.polls[q]
    ensures Inv(s')
  {
  }

  lemma {:induction false} InvPoll(cfg: Config, s: State, a: Action)
    requires Inv(s) && Enabled(cfg, s, a)
    requires a.Get? || a.Fetch?
    ensures Inv(Do(cfg, s, a))
  {
    var s' := Do(cfg, s, a);
    forall q | q in s'.polls ensures PollOk(s', q) {
      PollStays(cfg, s, a, q);
    }
    PollsFrame(s, s');
  }

  lemma {:induction false} InvStep(cfg: Config, s: State, a: Action)
    requires !cfg.reuse && Inv(s) && Enabled(cfg, s, a)
    ensures Inv(Do(cfg, s, a))
  {
    match a
    case Mark(q) => InvMark(cfg, s, q);
    case Emit(q) => InvEmit(cfg, s, q);
    case Complete(_, _) => InvComplete(cfg, s, a);
    case _ => if a.Get? || a.Fetch? { InvPoll(cfg, s, a); } else { InvTable(cfg, s, a); }
  }

  lemma {:induction false} InvRun(cfg: Config, run: seq<Action>)
    requires !cfg.reuse && Legal(cfg, run)
    ensures Inv(After(cfg, run))
  {
    if run != [] {
      InvRun(cfg, run[..|run| - 1]);
      InvStep(cfg, After(cfg, run[..|run| - 1]), run[|run| - 1]);
    }
  }

  const ME := Scope(0, 0)
  const OTHER := Scope(0, 1)
  const RESULT := Outcome(1, 1)

  lemma {:induction false} Submitted() returns (s: State)
    ensures Reachable(Config(true), s)
    ensures s == State({0, 1}, map[0 := Job(ME, false)], map[0 := RESULT], map[], [], {0, 1}, map[0 := ME])
  {
    var cfg := Config(true);
    assert Legal(cfg, []) && After(cfg, []) == INIT;
    s := Advance(cfg, INIT, AddPaddock(0));
    s := Advance(cfg, s, AddPaddock(1));
    s := Advance(cfg, s, Create(0, ME));
    s := Advance(cfg, s, Complete(0, RESULT));
  }

  lemma {:induction false} TwoPollsFetch() returns (s: State)
    ensures Reachable(Config(true), s)
    ensures s == State({0, 1}, map[0 := Job(ME, false)], map[0 := RESULT],
      map[0 := Marking(0, ME, RESULT), 1 := Marking(0, ME, RESULT)], [], {0, 1}, map[0 := ME])
  {
    var cfg := Config(true);
    s := Submitted();
    s := Advance(cfg, s, Get(0, 0, ME));
    s := Advance(cfg, s, Get(1, 0, ME));
    s := Advance(cfg, s, Fetch(0, true));
    s := Advance(cfg, s, Fetch(1, true));
  }

  lemma {:induction false} FirstEmits() returns (s: State)
    ensures Reachable(Config(true), s)
    ensures s == State({1}, map[], map[0 := RESULT], map[1 := Marking(0, ME, RESULT)],
      [Emission(0, ME, RESULT)], {0, 1}, map[0 := ME])
  {
    var cfg := Config(true);
    s := TwoPollsFetch();
    s := Advance(cfg, s, Mark(0));
    s := Advance(cfg, s, Emit(0));
    s := Advance(cfg, s, DeletePaddock(0));
    assert s.jobs == map[];
  }

  /** Two polls reach the mark; between their marks the paddock goes and another one submits the id again. */
  lemma {:induction false} ReuseBreaks() returns (s: State)
    ensures Reachable(Config(true), s) && !AtMostOnce(s)
  {
    var cfg := Config(true);
    s := FirstEmits();
    s := Advance(cfg, s, Create(0, OTHER));
    s := Advance(cfg, s, Mark(1));
    s := Advance(cfg, s, Emit(1));
    assert s.events[0].id == s.events[1].id;
  }

  /**
  In every interleaving a job is metered at most once, for its first submitter and with its own result,
  if and only if no id comes back after its row was deleted.
  */
  lemma {:induction false} MeteredExactly(cfg: Config)
    ensures (forall s :: Reachable(cfg, s) ==> Metered(s)) <==> !cfg.reuse
  {
    if cfg.reuse {
      var s := ReuseBreaks();
      assert cfg == Config(true);
    } else {
      forall s | Reachable(cfg, s) ensures Metered(s) {
        var run :| Legal(cfg, run) && After(cfg, run) == s;
        InvRun(cfg, run);
      }
    }
  }

  /** A job that is finished and not yet claimed is metered by whichever poll marks it, so none is overlooked. */
  lemma {:induction false} FirstMarkWins(cfg: Config, s: State, q: PollId)
    requires !cfg.reuse && Reachable(cfg, s) && Enabled(cfg, s, Mark(q))
    ensures var s' := Do(cfg, s, Mark(q));
      (q in s'.polls <==> !Claimed(s, s.polls[q].id)) && (q in s'.polls ==> s'.polls[q].Emitting? && Claimed(s', s.polls[q].id))
  {
    var run :| Legal(cfg, run) && After(cfg, run) == s;
    InvRun(cfg, run);
    assert PollOk(s, q);
  }
}

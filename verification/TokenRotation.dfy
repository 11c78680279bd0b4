/**
What runs under the credentials lock: `refreshStored` (session.ts), `login` and `logout`
(commands.ts), each a sequence of steps on the shared store (credentials.ts) and on the
authorization server (device.ts), in any interleaving with every step of the lock itself.

The server's answers are arbitrary, except that with `wellFormed` a 200 carries a new access token
and a refresh token never issued before (section 6 of RFC 6749, with rotation). The other parts of a
configuration say whether an answer that spends a token may be lost on its way, and whether a process may crash, or its
write of the store fail, while it owes the store a replacement for a token that was spent.
`RotationExactly` says for which configurations no spent token is presented again.
*/
module TokenRotation {
  import opened Prelude
  import L = CredentialsLock

  type Issuer = string
  type Token = string

  datatype Credential = Credential(access: Token, refresh: Option<Token>)

  type Store = map<Issuer, Credential>

  /** `None` forgets the issuer. */
  datatype Change = Change(issuer: Issuer, value: Option<Credential>)

  function Apply(store: Store, c: Change): Store {
    match c.value
    case Some(cred) => store[c.issuer := cred]
    case None => store - {c.issuer}
  }

  datatype Task =
    | RefreshTask(issuer: Issuer, stale: Token)
    | LoginTask(issuer: Issuer, cred: Credential)
    | LogoutTask(issuer: Issuer)

  /** What a process has left to do, from choosing a command to leaving the critical section. */
  datatype Job =
    | NoJob
    | Chosen(task: Task)
    | Presenting(issuer: Issuer, token: Token)           // read the store; about to send the refresh
    | Awaiting(issuer: Issuer, token: Token)             // sent, not yet answered
    | Changing(change: Change)                           // about to read the store for a change
    | Replacing(change: Change, snapshot: Store)           // about to rename the new store into place
    | Done

  /** What an answered refresh says. `Failed` is a 5xx, a timeout or a lost connection that spends nothing. */
  datatype Answer =
    | Granted(access: Token, successor: Token)
    | GrantedNoSuccessor(access: Token)
    | GrantedMalformed
    | Refused
    | Failed

  /** `Answered` is logged when the server answers, whether or not the answer arrives. */
  datatype Event =
    | Presented(issuer: Issuer, token: Token)
    | Answered(issuer: Issuer, token: Token, answer: Answer)
    | Wrote(change: Change)

  /** A 200 or a 4xx: the server may have consumed the token. */
  predicate Spends(e: Event) {
    e.Answered? && !e.answer.Failed?
  }

  predicate WasSpent(log: seq<Event>, issuer: Issuer, t: Token) {
    exists k :: 0 <= k < |log| && Spends(log[k]) && log[k].issuer == issuer && log[k].token == t
  }

  /**
  `answersLost`: the server may spend a token and the process not learn it. `crashesOwing` and
  `writesFail`: a process may crash, or a write of the store fail, while a spent token is stored that
  it is about to replace. Any other crash the lock allows, and any other failed write, may always happen.
  */
  datatype Config = Config(lock: L.Config, wellFormed: bool, answersLost: bool, crashesOwing: bool, writesFail: bool)

  /** `issued` holds every refresh token any server has handed out; `first` is the store at the start. */
  datatype State = State(
    lock: L.State, store: Store, jobs: seq<Job>, log: seq<Event>, issued: set<(Issuer, Token)>, first: Store)

  datatype Action =
    | Lock(a: L.Action)
    | Choose(p: nat, task: Task)
    | Begin(p: nat)
    | GiveUp(p: nat)                 // discovery failed, nothing was sent
    | Present(p: nat)
    | Receive(p: nat, answer: Answer)
    | Lose(p: nat, answer: Answer)   // the token is spent, but the process sees a 5xx, a timeout or nothing
    | Snapshot(p: nat)
    | Rename(p: nat)
    | WriteFails(p: nat)             // reading, writing or renaming the store throws

  predicate Within(s: State, p: nat) {
    p < |s.lock.procs| && p < |s.jobs| && s.lock.procs[p].Inside?
  }

  /** The process is about to replace what is stored for an issuer, and that is a spent token. */
  predicate Owes(s: State, p: nat) {
    && p < |s.jobs| && (s.jobs[p].Changing? || s.jobs[p].Replacing?)
    && var issuer := s.jobs[p].change.issuer;
    && issuer in s.store && s.store[issuer].refresh.Some? && WasSpent(s.log, issuer, s.store[issuer].refresh.value)
  }

  predicate Fresh(s: State, issuer: Issuer, t: Option<Token>) {
    t.Some? ==> (issuer, t.value) !in s.issued
  }

  /** What the server may answer the process that waits. */
  predicate Answers(cfg: Config, s: State, p: nat, answer: Answer) {
    && Within(s, p) && s.jobs[p].Awaiting?
    && (cfg.wellFormed ==> !answer.GrantedNoSuccessor? && !answer.GrantedMalformed?)
    && (answer.Granted? ==> Fresh(s, s.jobs[p].issuer, Some(answer.successor)))
  }

  predicate Enabled(cfg: Config, s: State, a: Action) {
    match a
    case Lock(la) =>
      && L.Enabled(cfg.lock, s.lock, la)
      && (la.Open? ==> la.p < |s.jobs| && s.jobs[la.p].Chosen?)
      && (la.Finish? ==> la.p < |s.jobs| && s.jobs[la.p].Done?)
      && (la.Crash? ==> la.p < |s.jobs| && (Owes(s, la.p) ==> cfg.crashesOwing))
    case Choose(p, task) =>
      && p < |s.lock.procs| && p < |s.jobs| && s.lock.procs[p].Opening? && s.jobs[p].NoJob?
      && (task.LoginTask? ==> Fresh(s, task.issuer, task.cred.refresh))
    case Begin(p) => Within(s, p) && s.jobs[p].Chosen?
    case GiveUp(p) => Within(s, p) && s.jobs[p].Presenting?
    case Present(p) => Within(s, p) && s.jobs[p].Presenting?
    case Receive(p, answer) => Answers(cfg, s, p, answer)
    case Lose(p, answer) => cfg.answersLost && !answer.Failed? && Answers(cfg, s, p, answer)
    case Snapshot(p) => Within(s, p) && s.jobs[p].Changing?
    case Rename(p) => Within(s, p) && s.jobs[p].Replacing?
    case WriteFails(p) =>
      Within(s, p) && (s.jobs[p].Changing? || s.jobs[p].Replacing?) && (Owes(s, p) ==> cfg.writesFail)
  }

  /** The first step inside: `refreshStored` re-reads the store and decides what to send. */
  function Started(store: Store, task: Task): Job {
    match task
    case RefreshTask(issuer, stale) =>
      if issuer !in store then Done
      else if store[issuer].access != stale then Done
      else if store[issuer].refresh.None? then Done
      else Presenting(issuer, store[issuer].refresh.value)
    case LoginTask(issuer, cred) => Changing(Change(issuer, Some(cred)))
    case LogoutTask(issuer) => if issuer !in store then Done else Changing(Change(issuer, None))
  }

  /** What an answer makes of the stored credential; a failure keeps it. */
  function Settled(issuer: Issuer, token: Token, answer: Answer): Job {
    match answer
    case Granted(access, successor) => Changing(Change(issuer, Some(Credential(access, Some(successor)))))
    case GrantedNoSuccessor(access) => Changing(Change(issuer, Some(Credential(access, Some(token)))))
    case GrantedMalformed => Done
    case Refused => Changing(Change(issuer, None))
    case Failed => Done
  }

  function Issue(issued: set<(Issuer, Token)>, issuer: Issuer, t: Option<Token>): set<(Issuer, Token)> {
    if t.Some? then issued + {(issuer, t.value)} else issued
  }

  function Do(cfg: Config, s: State, a: Action): State
    requires Enabled(cfg, s, a)
  {
    match a
    case Lock(la) =>
      s.(lock := L.Do(cfg.lock, s.lock, la),
         jobs := if la.Finish? || la.Crash? then s.jobs[la.p := NoJob] else s.jobs)
    case Choose(p, task) =>
      s.(jobs := s.jobs[p := Chosen(task)],
         issued := if task.LoginTask? then Issue(s.issued, task.issuer, task.cred.refresh) else s.issued)
    case Begin(p) => s.(jobs := s.jobs[p := Started(s.store, s.jobs[p].task)])
    case GiveUp(p) => s.(jobs := s.jobs[p := Done])
    case Present(p) =>
      var j := s.jobs[p];
      s.(jobs := s.jobs[p := Awaiting(j.issuer, j.token)], log := s.log + [Presented(j.issuer, j.token)])
    case Receive(p, answer) =>
      var j := s.jobs[p];
      s.(jobs := s.jobs[p := Settled(j.issuer, j.token, answer)],
         log := s.log + [Answered(j.issuer, j.token, answer)],
         issued := if answer.Granted? then s.issued + {(j.issuer, answer.successor)} else s.issued)
    case Lose(p, answer) =>
      var j := s.jobs[p];
      s.(jobs := s.jobs[p := Done],
         log := s.log + [Answered(j.issuer, j.token, answer)],
         issued := if answer.Granted? then s.issued + {(j.issuer, answer.successor)} else s.issued)
    case Snapshot(p) =>
      var c := s.jobs[p].change;
      // deleteCredentials writes nothing when the issuer is not in the store.
      if c.value.None? && c.issuer !in s.store then s.(jobs := s.jobs[p := Done])
      else s.(jobs := s.jobs[p := Replacing(c, s.store)])
    case Rename(p) =>
      var c := s.jobs[p].change;
      s.(store := Apply(s.jobs[p].snapshot, c), jobs := s.jobs[p := Done], log := s.log + [Wrote(c)])
    case WriteFails(p) => s.(jobs := s.jobs[p := Done])
  }

  /** `n` processes, nobody inside, and a store whose tokens nobody has presented yet. */
  function Init(n: nat, store: Store, issued: set<(Issuer, Token)>): State {
    State(L.Init(n), store, seq(n, _ => NoJob), [], issued, store)
  }

  predicate Start(store: Store, issued: set<(Issuer, Token)>) {
    forall i :: i in store && store[i].refresh.Some? ==> (i, store[i].refresh.value) in issued
  }

  ghost predicate Legal(cfg: Config, init: State, run: seq<Action>)
    decreases |run|, 0
  {
    run == [] ||
    (Legal(cfg, init, run[..|run| - 1]) && Enabled(cfg, After(cfg, init, run[..|run| - 1]), run[|run| - 1]))
  }

  ghost function After(cfg: Config, init: State, run: seq<Action>): State
    requires Legal(cfg, init, run)
    decreases |run|, 1
  {
    if run == [] then init else Do(cfg, After(cfg, init, run[..|run| - 1]), run[|run| - 1])
  }

  ghost predicate Reachable(cfg: Config, s: State) {
    exists n: nat, store, issued, run ::
      && Start(store, issued)
      && Legal(cfg, Init(n, store, issued), run)
      && After(cfg, Init(n, store, issued), run) == s
  }

  // ---- What must hold ----

  /** Once answered 200 or 4xx, a refresh token is never presented again. */
  predicate NoReuse(log: seq<Event>) {
    forall i, j :: 0 <= i < j < |log| && Spends(log[i]) ==>
      log[j] != Presented(log[i].issuer, log[i].token)
  }

  function Replay(first: Store, log: seq<Event>): Store {
    if log == [] then first
    else
      var before := Replay(first, log[..|log| - 1]);
      if log[|log| - 1].Wrote? then Apply(before, log[|log| - 1].change) else before
  }

  /** The store is what its writes, one after the other, make of it: no issuer's write is lost. */
  predicate NoLostWrite(s: State) {
    s.store == Replay(s.first, s.log)
  }

  // ---- Invariant ----

  lemma {:induction false} SpentGrows(log: seq<Event>, e: Event)
    ensures forall i, t :: WasSpent(log + [e], i, t) <==>
      WasSpent(log, i, t) || (Spends(e) && e.issuer == i && e.token == t)
  {
    forall i, t ensures WasSpent(log + [e], i, t) <==>
        WasSpent(log, i, t) || (Spends(e) && e.issuer == i && e.token == t)
    {
      if WasSpent(log, i, t) {
        var k :| 0 <= k < |log| && Spends(log[k]) && log[k].issuer == i && log[k].token == t;
        assert (log + [e])[k] == log[k];
      }
      if Spends(e) && e.issuer == i && e.token == t {
        assert (log + [e])[|log|] == e;
      }
    }
  }

  predicate Working(j: Job) {
    !j.NoJob? && !j.Chosen?
  }

  function Carried(c: Change): Option<(Issuer, Token)> {
    if c.value.Some? && c.value.value.refresh.Some? then Some((c.issuer, c.value.value.refresh.value)) else None
  }

  /** The refresh token a job is about to store for an issuer. */
  function Pending(j: Job): Option<(Issuer, Token)> {
    match j
    case Chosen(LoginTask(i, cred)) => if cred.refresh.Some? then Some((i, cred.refresh.value)) else None
    case Changing(c) => Carried(c)
    case Replacing(c, _) => Carried(c)
    case _ => None
  }

  predicate Holds(store: Store, issuer: Issuer, t: Token) {
    issuer in store && store[issuer].refresh == Some(t)
  }

  /** The job that will replace what the store holds for `issuer`. */
  predicate Mends(j: Job, issuer: Issuer) {
    (j.Changing? || j.Replacing?) && j.change.issuer == issuer
  }

  predicate JobOk(s: State, j: Job) {
    && (Pending(j).Some? ==>
          var (i, t) := Pending(j).value;
          (i, t) in s.issued && !WasSpent(s.log, i, t) && !Holds(s.store, i, t))
    && (j.Presenting? || j.Awaiting? ==> Holds(s.store, j.issuer, j.token) && !WasSpent(s.log, j.issuer, j.token))
    && (j.Replacing? ==> j.snapshot == s.store)
  }

  predicate JobsOk(s: State) {
    forall p :: 0 <= p < |s.jobs| ==> JobOk(s, s.jobs[p])
  }

  /** No two jobs are about to store one token. */
  predicate Apart(jobs: seq<Job>) {
    forall p, q :: 0 <= p < q < |jobs| && Pending(jobs[p]).Some? ==> Pending(jobs[p]) != Pending(jobs[q])
  }

  /** Whoever is at work is inside the critical section. */
  predicate Placed(cfg: Config, s: State) {
    && L.Inv(cfg.lock, s.lock)
    && |s.jobs| == |s.lock.procs|
    && (forall p :: 0 <= p < |s.jobs| && Working(s.jobs[p]) ==> s.lock.procs[p].Inside?)
  }

  ghost predicate Known(s: State) {
    && (forall i, t :: WasSpent(s.log, i, t) ==> (i, t) in s.issued)
    && (forall i, t :: Holds(s.store, i, t) ==> (i, t) in s.issued)
  }

  /** A spent token is stored only while a job is at work that will replace it. */
  ghost predicate Mended(s: State) {
    forall i, t :: Holds(s.store, i, t) && WasSpent(s.log, i, t) ==> exists p :: 0 <= p < |s.jobs| && Mends(s.jobs[p], i)
  }

  ghost predicate Inv(cfg: Config, s: State) {
    Placed(cfg, s) && Known(s) && Mended(s) && JobsOk(s) && Apart(s.jobs) && NoReuse(s.log) && NoLostWrite(s)
  }

  predicate Safe(cfg: Config) {
    && L.SafeConfig(cfg.lock) && cfg.wellFormed && !cfg.answersLost
    && !(cfg.lock.crashes && cfg.crashesOwing) && !cfg.writesFail
  }

  /** Only one process works on the store at a time. */
  lemma {:induction false} OneWorks(cfg: Config, s: State, p: nat)
    requires Placed(cfg, s) && Within(s, p)
    ensures forall q :: 0 <= q < |s.jobs| && q != p ==> !Working(s.jobs[q])
  {
  }

  // ---- Steps that change one job ----

  lemma {:induction false} ApartStep(jobs: seq<Job>, p: nat, j: Job)
    requires Apart(jobs) && p < |jobs|
    requires Pending(j).Some? ==> forall q :: 0 <= q < |jobs| && q != p ==> Pending(jobs[q]) != Pending(j)
    ensures Apart(jobs[p := j])
  {
  }

  lemma {:induction false} PlacedStep(cfg: Config, s: State, s': State, p: nat)
    requires Placed(cfg, s) && p < |s.jobs| && s'.lock == s.lock && |s'.jobs| == |s.jobs|
    requires s'.jobs == s.jobs[p := s'.jobs[p]] && (Working(s'.jobs[p]) ==> s.lock.procs[p].Inside?)
    ensures Placed(cfg, s')
  {
  }

  /** The job that does not owe a replacement leaves all that is owed to others. */
  lemma {:induction false} MendedStep(s: State, p: nat, j: Job)
    requires Mended(s) && p < |s.jobs|
    requires forall i :: Mends(s.jobs[p], i) && Owes(s, p) ==> Mends(j, i)
    ensures Mended(s.(jobs := s.jobs[p := j]))
  {
    var s' := s.(jobs := s.jobs[p := j]);
    forall i, t | Holds(s'.store, i, t) && WasSpent(s'.log, i, t)
      ensures exists q :: 0 <= q < |s'.jobs| && Mends(s'.jobs[q], i)
    {
      var q :| 0 <= q < |s.jobs| && Mends(s.jobs[q], i);
      assert q == p ==> Owes(s, p);
      assert Mends(s'.jobs[q], i);
    }
  }

  lemma {:induction false} JobsOkStep(s: State, p: nat, j: Job)
    requires JobsOk(s) && p < |s.jobs| && JobOk(s, j)
    ensures JobsOk(s.(jobs := s.jobs[p := j]))
  {
    var s' := s.(jobs := s.jobs[p := j]);
    forall q | 0 <= q < |s'.jobs| ensures JobOk(s', s'.jobs[q]) {
      assert q != p ==> JobOk(s, s.jobs[q]);
    }
  }

  /** A step that changes nothing but one job. */
  lemma {:induction false} InvJob(cfg: Config, s: State, p: nat, j: Job)
    requires Inv(cfg, s) && p < |s.jobs| && JobOk(s, j) && (Working(j) ==> s.lock.procs[p].Inside?)
    requires Pending(j).Some? ==> Pending(j) == Pending(s.jobs[p])
    requires forall i :: Mends(s.jobs[p], i) && Owes(s, p) ==> Mends(j, i)
    ensures Inv(cfg, s.(jobs := s.jobs[p := j]))
  {
    var s' := s.(jobs := s.jobs[p := j]);
    assert Placed(cfg, s') by {
      PlacedStep(cfg, s, s', p);
    }
    MendedStep(s, p, j);
    JobsOkStep(s, p, j);
    ApartStep(s.jobs, p, j);
  }

  lemma {:induction false} InvBegin(cfg: Config, s: State, p: nat)
    requires Safe(cfg) && Inv(cfg, s) && Enabled(cfg, s, Begin(p))
    ensures Inv(cfg, Do(cfg, s, Begin(p)))
  {
    var j := Started(s.store, s.jobs[p].task);
    assert JobOk(s, j) by {
      assert JobOk(s, s.jobs[p]);
      OneWorks(cfg, s, p);
    }
    InvJob(cfg, s, p, j);
  }

  lemma {:induction false} InvGiveUp(cfg: Config, s: State, p: nat)
    requires Safe(cfg) && Inv(cfg, s) && Enabled(cfg, s, GiveUp(p))
    ensures Inv(cfg, Do(cfg, s, GiveUp(p)))
  {
    InvJob(cfg, s, p, Done);
  }

  lemma {:induction false} InvSnapshot(cfg: Config, s: State, p: nat)
    requires Safe(cfg) && Inv(cfg, s) && Enabled(cfg, s, Snapshot(p))
    ensures Inv(cfg, Do(cfg, s, Snapshot(p)))
  {
    assert JobOk(s, s.jobs[p]);
    var c := s.jobs[p].change;
    InvJob(cfg, s, p, if c.value.None? && c.issuer !in s.store then Done else Replacing(c, s.store));
  }

  /** A write that fails leaves the store as it was; nothing is owed to it. */
  lemma {:induction false} InvWriteFails(cfg: Config, s: State, p: nat)
    requires Safe(cfg) && Inv(cfg, s) && Enabled(cfg, s, WriteFails(p))
    ensures Inv(cfg, Do(cfg, s, WriteFails(p)))
  {
    InvJob(cfg, s, p, Done);
  }

  lemma {:induction false} LockPlaced(cfg: Config, s: State, la: L.Action)
    requires Safe(cfg) && Placed(cfg, s) && Enabled(cfg, s, Lock(la))
    ensures Placed(cfg, Do(cfg, s, Lock(la)))
  {
    L.InvStep(cfg.lock, s.lock, la);
  }

  /** What the other invariants say does not mention the lock. */
  lemma {:induction false} LockElsewhere(s: State, s': State)
    requires Known(s) && Mended(s) && JobsOk(s) && s' == s.(lock := s'.lock)
    ensures Known(s') && Mended(s') && JobsOk(s')
  {
    forall p | 0 <= p < |s'.jobs| ensures JobOk(s', s'.jobs[p]) {
      assert JobOk(s, s.jobs[p]);
    }
  }

  /** A process that crashes owes nothing, and its job goes with it. */
  lemma {:induction false} InvLock(cfg: Config, s: State, la: L.Action)
    requires Safe(cfg) && Inv(cfg, s) && Enabled(cfg, s, Lock(la))
    ensures Inv(cfg, Do(cfg, s, Lock(la)))
  {
    var t := if la.Finish? || la.Crash? then s.(jobs := s.jobs[la.p := NoJob]) else s;
    if la.Finish? || la.Crash? {
      InvJob(cfg, s, la.p, NoJob);
    }
    LockPlaced(cfg, s, la);
    LockElsewhere(t, Do(cfg, s, Lock(la)));
  }

  // ---- A command chosen ----

  lemma {:induction false} ChooseJob(cfg: Config, s: State, p: nat, task: Task, q: int)
    requires Inv(cfg, s) && Enabled(cfg, s, Choose(p, task)) && 0 <= q < |s.jobs|
    ensures JobOk(Do(cfg, s, Choose(p, task)), Do(cfg, s, Choose(p, task)).jobs[q])
  {
    assert JobOk(s, s.jobs[q]);
  }

  lemma {:induction false} ChooseApart(cfg: Config, s: State, p: nat, task: Task)
    requires Inv(cfg, s) && Enabled(cfg, s, Choose(p, task))
    ensures Apart(Do(cfg, s, Choose(p, task)).jobs)
  {
    forall q | 0 <= q < |s.jobs| && Pending(Chosen(task)).Some? ensures Pending(s.jobs[q]) != Pending(Chosen(task)) {
      assert JobOk(s, s.jobs[q]);
    }
    ApartStep(s.jobs, p, Chosen(task));
  }

  lemma {:induction false} InvChoose(cfg: Config, s: State, p: nat, task: Task)
    requires Safe(cfg) && Inv(cfg, s) && Enabled(cfg, s, Choose(p, task))
    ensures Inv(cfg, Do(cfg, s, Choose(p, task)))
  {
    var s' := Do(cfg, s, Choose(p, task));
    assert Placed(cfg, s') by {
      PlacedStep(cfg, s, s', p);
    }
    assert Mended(s') by {
      MendedStep(s, p, Chosen(task));
    }
    forall q | 0 <= q < |s'.jobs| ensures JobOk(s', s'.jobs[q]) {
      ChooseJob(cfg, s, p, task, q);
    }
    ChooseApart(cfg, s, p, task);
  }

  // ---- A token presented ----

  lemma {:induction false} ReplayStep(first: Store, log: seq<Event>, e: Event)
    ensures Replay(first, log + [e]) == if e.Wrote? then Apply(Replay(first, log), e.change) else Replay(first, log)
  {
    assert (log + [e])[..|log|] == log;
  }

  /** Only presenting a spent token is reuse. */
  lemma {:induction false} NoReuseStep(log: seq<Event>, e: Event)
    requires NoReuse(log) && (e.Presented? ==> !WasSpent(log, e.issuer, e.token))
    ensures NoReuse(log + [e])
  {
  }

  lemma {:induction false} PresentJob(cfg: Config, s: State, p: nat, q: int)
    requires Inv(cfg, s) && Enabled(cfg, s, Present(p)) && 0 <= q < |s.jobs|
    ensures JobOk(Do(cfg, s, Present(p)), Do(cfg, s, Present(p)).jobs[q])
  {
    SpentGrows(s.log, Presented(s.jobs[p].issuer, s.jobs[p].token));
    assert JobOk(s, s.jobs[p]) && JobOk(s, s.jobs[q]);
  }

  lemma {:induction false} PresentMended(cfg: Config, s: State, p: nat)
    requires Inv(cfg, s) && Enabled(cfg, s, Present(p))
    ensures Known(Do(cfg, s, Present(p))) && Mended(Do(cfg, s, Present(p)))
  {
    var s' := Do(cfg, s, Present(p));
    SpentGrows(s.log, Presented(s.jobs[p].issuer, s.jobs[p].token));
    forall i, t | Holds(s'.store, i, t) && WasSpent(s'.log, i, t)
      ensures exists q :: 0 <= q < |s'.jobs| && Mends(s'.jobs[q], i)
    {
      var q :| 0 <= q < |s.jobs| && Mends(s.jobs[q], i);
      assert Mends(s'.jobs[q], i);
    }
  }

  lemma {:induction false} InvPresent(cfg: Config, s: State, p: nat)
    requires Safe(cfg) && Inv(cfg, s) && Enabled(cfg, s, Present(p))
    ensures Inv(cfg, Do(cfg, s, Present(p)))
  {
    var s', j := Do(cfg, s, Present(p)), s.jobs[p];
    assert Placed(cfg, s') by {
      PlacedStep(cfg, s, s', p);
    }
    PresentMended(cfg, s, p);
    forall q | 0 <= q < |s'.jobs| ensures JobOk(s', s'.jobs[q]) {
      PresentJob(cfg, s, p, q);
    }
    ApartStep(s.jobs, p, Awaiting(j.issuer, j.token));
    assert NoReuse(s'.log) by {
      assert JobOk(s, j);
      NoReuseStep(s.log, Presented(j.issuer, j.token));
    }
    ReplayStep(s.first, s.log, Presented(j.issuer, j.token));
  }

  // ---- An answer received ----

  lemma {:induction false} ReceiveJob(cfg: Config, s: State, p: nat, answer: Answer, q: int)
    requires Safe(cfg) && Inv(cfg, s) && Enabled(cfg, s, Receive(p, answer)) && 0 <= q < |s.jobs|
    ensures JobOk(Do(cfg, s, Receive(p, answer)), Do(cfg, s, Receive(p, answer)).jobs[q])
  {
    SpentGrows(s.log, Answered(s.jobs[p].issuer, s.jobs[p].token, answer));
    OneWorks(cfg, s, p);
    assert JobOk(s, s.jobs[p]) && JobOk(s, s.jobs[q]);
  }

  lemma {:induction false} ReceiveMends(cfg: Config, s: State, p: nat, answer: Answer)
    requires Safe(cfg) && Inv(cfg, s) && Enabled(cfg, s, Receive(p, answer))
    ensures Mended(Do(cfg, s, Receive(p, answer)))
  {
    var s' := Do(cfg, s, Receive(p, answer));
    SpentGrows(s.log, Answered(s.jobs[p].issuer, s.jobs[p].token, answer));
    OneWorks(cfg, s, p);
    assert JobOk(s, s.jobs[p]);
    forall i, t | Holds(s'.store, i, t) && WasSpent(s'.log, i, t)
      ensures exists q :: 0 <= q < |s'.jobs| && Mends(s'.jobs[q], i)
    {
      assert Mends(s'.jobs[p], i);
    }
  }

  lemma {:induction false} ReceiveKnown(cfg: Config, s: State, p: nat, answer: Answer)
    requires Inv(cfg, s) && Enabled(cfg, s, Receive(p, answer))
    ensures Known(Do(cfg, s, Receive(p, answer)))
  {
    SpentGrows(s.log, Answered(s.jobs[p].issuer, s.jobs[p].token, answer));
    assert JobOk(s, s.jobs[p]);
  }

  lemma {:induction false} ReceiveApart(cfg: Config, s: State, p: nat, answer: Answer)
    requires Safe(cfg) && Inv(cfg, s) && Enabled(cfg, s, Receive(p, answer))
    ensures Apart(Do(cfg, s, Receive(p, answer)).jobs)
  {
    var j := Settled(s.jobs[p].issuer, s.jobs[p].token, answer);
    forall q | 0 <= q < |s.jobs| && Pending(j).Some? ensures Pending(s.jobs[q]) != Pending(j) {
      assert JobOk(s, s.jobs[q]);
    }
    ApartStep(s.jobs, p, j);
  }

  lemma {:induction false} ReceiveLog(cfg: Config, s: State, p: nat, answer: Answer)
    requires Inv(cfg, s) && Enabled(cfg, s, Receive(p, answer))
    ensures var s' := Do(cfg, s, Receive(p, answer)); NoReuse(s'.log) && NoLostWrite(s')
  {
    var e := Answered(s.jobs[p].issuer, s.jobs[p].token, answer);
    NoReuseStep(s.log, e);
    ReplayStep(s.first, s.log, e);
  }

  lemma {:induction false} InvReceive(cfg: Config, s: State, p: nat, answer: Answer)
    requires Safe(cfg) && Inv(cfg, s) && Enabled(cfg, s, Receive(p, answer))
    ensures Inv(cfg, Do(cfg, s, Receive(p, answer)))
  {
    var s' := Do(cfg, s, Receive(p, answer));
    assert Placed(cfg, s') by {
      PlacedStep(cfg, s, s', p);
    }
    ReceiveKnown(cfg, s, p, answer);
    ReceiveMends(cfg, s, p, answer);
    forall q | 0 <= q < |s'.jobs| ensures JobOk(s', s'.jobs[q]) {
      ReceiveJob(cfg, s, p, answer, q);
    }
    ReceiveApart(cfg, s, p, answer);
    ReceiveLog(cfg, s, p, answer);
  }

  // ---- The store replaced ----

  lemma {:induction false} RenameJob(cfg: Config, s: State, p: nat, q: int)
    requires Inv(cfg, s) && Enabled(cfg, s, Rename(p)) && 0 <= q < |s.jobs|
    ensures JobOk(Do(cfg, s, Rename(p)), Do(cfg, s, Rename(p)).jobs[q])
  {
    SpentGrows(s.log, Wrote(s.jobs[p].change));
    OneWorks(cfg, s, p);
    assert JobOk(s, s.jobs[p]) && JobOk(s, s.jobs[q]);
    assert q < p ==> Pending(s.jobs[q]).Some? ==> Pending(s.jobs[q]) != Pending(s.jobs[p]);
  }

  lemma {:induction false} RenameKnown(cfg: Config, s: State, p: nat)
    requires Inv(cfg, s) && Enabled(cfg, s, Rename(p))
    ensures Known(Do(cfg, s, Rename(p)))
  {
    SpentGrows(s.log, Wrote(s.jobs[p].change));
    assert JobOk(s, s.jobs[p]);
  }

  /** What the new store holds for the issuer is live, and for others what it held. */
  lemma {:induction false} RenameMends(cfg: Config, s: State, p: nat)
    requires Inv(cfg, s) && Enabled(cfg, s, Rename(p))
    ensures Mended(Do(cfg, s, Rename(p)))
  {
    SpentGrows(s.log, Wrote(s.jobs[p].change));
    OneWorks(cfg, s, p);
    assert JobOk(s, s.jobs[p]);
  }

  lemma {:induction false} RenameLog(cfg: Config, s: State, p: nat)
    requires Inv(cfg, s) && Enabled(cfg, s, Rename(p))
    ensures var s' := Do(cfg, s, Rename(p)); NoReuse(s'.log) && NoLostWrite(s')
  {
    assert JobOk(s, s.jobs[p]);
    NoReuseStep(s.log, Wrote(s.jobs[p].change));
    ReplayStep(s.first, s.log, Wrote(s.jobs[p].change));
  }

  lemma {:induction false} InvRename(cfg: Config, s: State, p: nat)
    requires Safe(cfg) && Inv(cfg, s) && Enabled(cfg, s, Rename(p))
    ensures Inv(cfg, Do(cfg, s, Rename(p)))
  {
    var s' := Do(cfg, s, Rename(p));
    assert Placed(cfg, s') by {
      PlacedStep(cfg, s, s', p);
    }
    RenameKnown(cfg, s, p);
    RenameMends(cfg, s, p);
    forall q | 0 <= q < |s'.jobs| ensures JobOk(s', s'.jobs[q]) {
      RenameJob(cfg, s, p, q);
    }
    ApartStep(s.jobs, p, Done);
    RenameLog(cfg, s, p);
  }

  lemma {:induction false} InvStep(cfg: Config, s: State, a: Action)
    requires Safe(cfg) && Inv(cfg, s) && Enabled(cfg, s, a)
    ensures Inv(cfg, Do(cfg, s, a))
  {
    match a
    case Lock(la) => InvLock(cfg, s, la);
    case Choose(p, task) => InvChoose(cfg, s, p, task);
    case Begin(p) => InvBegin(cfg, s, p);
    case GiveUp(p) => InvGiveUp(cfg, s, p);
    case Present(p) => InvPresent(cfg, s, p);
    case Receive(p, answer) => InvReceive(cfg, s, p, answer);
    case Snapshot(p) => InvSnapshot(cfg, s, p);
    case Rename(p) => InvRename(cfg, s, p);
    case WriteFails(p) => InvWriteFails(cfg, s, p);
  }

  lemma {:induction false} InvRun(cfg: Config, n: nat, store: Store, issued: set<(Issuer, Token)>, run: seq<Action>)
    requires Safe(cfg) && Start(store, issued) && Legal(cfg, Init(n, store, issued), run)
    ensures Inv(cfg, After(cfg, Init(n, store, issued), run))
    decreases |run|
  {
    var init := Init(n, store, issued);
    if run != [] {
      InvRun(cfg, n, store, issued, run[..|run| - 1]);
      InvStep(cfg, After(cfg, init, run[..|run| - 1]), run[|run| - 1]);
    }
  }

  // ---- Why the server, the network, the disk and the holder must behave ----

  lemma {:induction false} Advance(cfg: Config, s: State, a: Action) returns (s': State)
    requires Reachable(cfg, s) && Enabled(cfg, s, a)
    ensures s' == Do(cfg, s, a) && Reachable(cfg, s')
  {
    s' := Do(cfg, s, a);
    var n: nat, store, issued, run :|
      Start(store, issued) && Legal(cfg, Init(n, store, issued), run) && After(cfg, Init(n, store, issued), run) == s;
    assert (run + [a])[..|run|] == run;
    assert Legal(cfg, Init(n, store, issued), run + [a]) && After(cfg, Init(n, store, issued), run + [a]) == s';
  }

  const ISSUER: Issuer := "https://op"
  const SIGN_IN := Credential("a", Some("t"))
  const REFRESH := RefreshTask(ISSUER, "a")

  lemma {:induction false} SignedIn(cfg: Config, n: nat) returns (s: State)
    ensures s == Init(n, map[ISSUER := SIGN_IN], {(ISSUER, "t")}) && Reachable(cfg, s)
  {
    s := Init(n, map[ISSUER := SIGN_IN], {(ISSUER, "t")});
    assert Start(map[ISSUER := SIGN_IN], {(ISSUER, "t")});
    assert Legal(cfg, s, []) && After(cfg, s, []) == s;
  }

  /** Take the free lock. */
  lemma {:induction false} Enter(cfg: Config, s: State, p: nat, ino: nat) returns (s': State)
    requires Reachable(cfg, s) && p < |s.lock.procs| && p < |s.jobs|
    requires s.lock.procs[p].Opening? && s.jobs[p].Chosen? && s.lock.file.None?
    requires L.Stats(ino, s.lock.now) !in s.lock.used
    ensures Reachable(cfg, s') && s' == s.(lock := s'.lock) && s'.lock.now == s.lock.now
    ensures s'.lock.file == Some(L.LockFile(L.Stats(ino, s.lock.now), p, true, s.lock.serials))
    ensures s'.lock.procs == s.lock.procs[p := L.Inside(s'.lock.file.value)]
    ensures s'.lock.used == s.lock.used + {L.Stats(ino, s.lock.now)}
  {
    s' := Advance(cfg, s, Lock(L.Open(p, ino)));
    s' := Advance(cfg, s', Lock(L.Write(p)));
    s' := Advance(cfg, s', Lock(L.Fstat(p)));
  }

  /** Take the free lock and present the stored refresh token. */
  lemma {:induction false} EnterAndPresent(cfg: Config, s: State, p: nat, ino: nat) returns (s': State)
    requires Reachable(cfg, s) && |s.jobs| == |s.lock.procs| && p < |s.jobs|
    requires s.lock.procs[p].Opening? && s.jobs[p] == Chosen(REFRESH) && s.lock.file.None?
    requires L.Stats(ino, s.lock.now) !in s.lock.used
    requires ISSUER in s.store && s.store[ISSUER] == SIGN_IN
    ensures Reachable(cfg, s') && s'.log == s.log + [Presented(ISSUER, "t")]
    ensures s'.store == s.store && s'.issued == s.issued && s'.lock.now == s.lock.now
    ensures s'.lock.file == Some(L.LockFile(L.Stats(ino, s.lock.now), p, true, s.lock.serials))
    ensures s'.lock.procs == s.lock.procs[p := L.Inside(s'.lock.file.value)]
    ensures s'.jobs == s.jobs[p := Awaiting(ISSUER, "t")]
    ensures s'.lock.used == s.lock.used + {L.Stats(ino, s.lock.now)}
  {
    s' := Enter(cfg, s, p, ino);
    s' := Advance(cfg, s', Begin(p));
    s' := Advance(cfg, s', Present(p));
  }

  /** Process 0 of `n` holds the lock and has just presented the token. */
  lemma {:induction false} Waiting(cfg: Config, n: nat) returns (s: State)
    requires n >= 1
    ensures Reachable(cfg, s) && s.log == [Presented(ISSUER, "t")] && s.store == map[ISSUER := SIGN_IN]
    ensures s.lock.now == 0 && s.lock.used == {L.Stats(0, 0)} && s.issued == {(ISSUER, "t")}
    ensures s.lock.file == Some(L.LockFile(L.Stats(0, 0), 0, true, 0))
    ensures |s.jobs| == |s.lock.procs| == n && s.jobs[0] == Awaiting(ISSUER, "t")
    ensures s.lock.procs[0] == L.Inside(s.lock.file.value)
    ensures forall q :: 1 <= q < n ==> s.jobs[q].NoJob? && s.lock.procs[q].Opening?
  {
    var start := SignedIn(cfg, n);
    var chosen := Advance(cfg, start, Choose(0, REFRESH));
    assert chosen.lock == start.lock && chosen.log == [] && chosen.jobs[0] == Chosen(REFRESH);
    s := EnterAndPresent(cfg, chosen, 0, 0);
  }

  /** The token was spent, its holder has nothing left to do, and it is still stored. */
  predicate Stuck(s: State) {
    && |s.jobs| == |s.lock.procs| == 1 && s.jobs[0].Done? && s.lock.now == 0 && s.lock.used == {L.Stats(0, 0)}
    && s.lock.file == Some(L.LockFile(L.Stats(0, 0), 0, true, 0)) && s.lock.procs[0] == L.Inside(s.lock.file.value)
    && s.store == map[ISSUER := SIGN_IN]
    && |s.log| == 2 && Spends(s.log[1]) && s.log[1].issuer == ISSUER && s.log[1].token == "t"
  }

  /** The holder leaves, and its next command presents the token again. */
  lemma {:induction false} StuckBreaks(cfg: Config, s0: State) returns (s: State)
    requires Reachable(cfg, s0) && Stuck(s0)
    ensures Reachable(cfg, s) && !NoReuse(s.log)
  {
    s := Advance(cfg, s0, Lock(L.Finish(0)));
    s := Advance(cfg, s, Lock(L.CheckOwn(0)));
    s := Advance(cfg, s, Lock(L.UnlinkOwn(0)));
    s := Advance(cfg, s, Choose(0, REFRESH));
    s := EnterAndPresent(cfg, s, 0, 1);
    assert s.log[1] == s0.log[1] && s.log[2] == Presented(s.log[1].issuer, s.log[1].token);
  }

  /** A 200 that carries no usable tokens: the spent token stays stored. */
  lemma {:induction false} MalformedAnswerBreaks(cfg: Config) returns (s: State)
    requires !cfg.wellFormed
    ensures Reachable(cfg, s) && !NoReuse(s.log)
  {
    s := Waiting(cfg, 1);
    s := Advance(cfg, s, Receive(0, GrantedMalformed));
    s := StuckBreaks(cfg, s);
  }

  /** A 200 whose connection breaks: the process cannot tell it from a request that never arrived. */
  lemma {:induction false} LostAnswerBreaks(cfg: Config) returns (s: State)
    requires cfg.answersLost
    ensures Reachable(cfg, s) && !NoReuse(s.log)
  {
    s := Waiting(cfg, 1);
    s := Advance(cfg, s, Lose(0, Granted("b", "u")));
    s := StuckBreaks(cfg, s);
  }

  /** Process 0 of `n` has its 200, and has not yet written what it carried. */
  lemma {:induction false} Owing(cfg: Config, n: nat) returns (s: State)
    requires n >= 1
    ensures Reachable(cfg, s) && Owes(s, 0) && s.store == map[ISSUER := SIGN_IN]
    ensures s.log == [Presented(ISSUER, "t"), Answered(ISSUER, "t", Granted("b", "u"))]
    ensures s.lock.now == 0 && s.lock.used == {L.Stats(0, 0)}
    ensures s.lock.file == Some(L.LockFile(L.Stats(0, 0), 0, true, 0))
    ensures |s.jobs| == |s.lock.procs| == n && s.lock.procs[0] == L.Inside(s.lock.file.value)
    ensures forall q :: 1 <= q < n ==> s.jobs[q].NoJob? && s.lock.procs[q].Opening?
  {
    s := Waiting(cfg, n);
    s := Advance(cfg, s, Receive(0, Granted("b", "u")));
    assert Spends(s.log[1]) && s.log[1].issuer == ISSUER && s.log[1].token == "t";
  }

  /** The disk refuses the write: that is no reason to sign in again, so the spent token stays. */
  lemma {:induction false} WriteErrorBreaks(cfg: Config) returns (s: State)
    requires cfg.writesFail
    ensures Reachable(cfg, s) && !NoReuse(s.log)
  {
    s := Owing(cfg, 1);
    s := Advance(cfg, s, WriteFails(0));
    s := StuckBreaks(cfg, s);
  }

  /** Process 0 crashes owing, and process 1 finds its lock. */
  lemma {:induction false} LeftOwing(cfg: Config) returns (s: State)
    requires cfg.lock.crashes && cfg.crashesOwing
    ensures Reachable(cfg, s) && s.store == map[ISSUER := SIGN_IN]
    ensures s.log == [Presented(ISSUER, "t"), Answered(ISSUER, "t", Granted("b", "u"))]
    ensures |s.jobs| == |s.lock.procs| == 2 && s.jobs[1] == Chosen(REFRESH) && s.lock.procs[1].Looking?
    ensures s.lock.procs[0].Crashed? && s.lock.file == Some(L.LockFile(L.Stats(0, 0), 0, true, 0))
    ensures s.lock.now == 0 && s.lock.used == {L.Stats(0, 0)}
  {
    s := Owing(cfg, 2);
    s := Advance(cfg, s, Lock(L.Crash(0)));
    s := Advance(cfg, s, Choose(1, REFRESH));
    s := Advance(cfg, s, Lock(L.Open(1, 0)));
  }

  /** It takes the lock over; the spent token is still stored. */
  lemma {:induction false} TakenOver(cfg: Config) returns (s: State)
    requires L.SafeConfig(cfg.lock) && cfg.lock.crashes && cfg.crashesOwing
    ensures Reachable(cfg, s) && s.store == map[ISSUER := SIGN_IN] && s.lock.file.None?
    ensures s.log == [Presented(ISSUER, "t"), Answered(ISSUER, "t", Granted("b", "u"))]
    ensures |s.jobs| == |s.lock.procs| == 2 && s.jobs[1] == Chosen(REFRESH) && s.lock.procs[1].Opening?
    ensures s.lock.now == 0 && s.lock.used == {L.Stats(0, 0)}
  {
    s := LeftOwing(cfg);
    s := Advance(cfg, s, Lock(L.Look(1)));
    s := Advance(cfg, s, Lock(L.Judge(1, true)));
    s := Advance(cfg, s, Lock(L.Recheck(1)));
  }

  /** Process 1 presents it. */
  lemma {:induction false} CrashOwingBreaks(cfg: Config) returns (s: State)
    requires L.SafeConfig(cfg.lock) && cfg.lock.crashes && cfg.crashesOwing
    ensures Reachable(cfg, s) && !NoReuse(s.log)
  {
    s := TakenOver(cfg);
    s := EnterAndPresent(cfg, s, 1, 1);
    assert Spends(s.log[1]) && s.log[2] == Presented(s.log[1].issuer, s.log[1].token);
  }

  // ---- Why the lock must exclude ----

  function ToldAll(lock: L.State): seq<Job> {
    seq(|lock.procs|, p requires 0 <= p < |lock.procs| => if lock.procs[p].Crashed? then NoJob else Chosen(REFRESH))
  }

  /** Everybody is to refresh the same credential, and the lock is where its own run has brought it. */
  function SignedInAt(lock: L.State): State {
    State(lock, map[ISSUER := SIGN_IN], ToldAll(lock), [], {(ISSUER, "t")}, map[ISSUER := SIGN_IN])
  }

  /** `m` of `n` processes have been told to refresh. */
  lemma {:induction false} TellSome(cfg: Config, n: nat, m: nat) returns (s: State)
    requires m <= n
    ensures Reachable(cfg, s)
    ensures s == SignedInAt(L.Init(n)).(jobs := seq(n, p requires 0 <= p < n => if p < m then Chosen(REFRESH) else NoJob))
  {
    if m == 0 {
      s := SignedIn(cfg, n);
      assert s.jobs == seq(n, p requires 0 <= p < n => NoJob);
    } else {
      s := TellSome(cfg, n, m - 1);
      s := Advance(cfg, s, Choose(m - 1, REFRESH));
    }
  }

  lemma {:induction false} LiftedStep(cfg: Config, lock: L.State, a: L.Action)
    requires L.Enabled(cfg.lock, lock, a) && L.Stays(lock, a)
    ensures |L.Do(cfg.lock, lock, a).procs| == |lock.procs|
    ensures Enabled(cfg, SignedInAt(lock), Lock(a))
    ensures Do(cfg, SignedInAt(lock), Lock(a)) == SignedInAt(L.Do(cfg.lock, lock, a))
  {
  }

  /** Any run of the lock that takes nobody out of the critical section is one of refreshes that have yet to begin. */
  lemma {:induction false} Lifted(cfg: Config, n: nat, run: seq<L.Action>)
    requires L.Legal(cfg.lock, n, run) && L.StayingRun(cfg.lock, n, run)
    ensures |L.After(cfg.lock, n, run).procs| == n
    ensures Reachable(cfg, SignedInAt(L.After(cfg.lock, n, run)))
    decreases |run|
  {
    if run == [] {
      var s := TellSome(cfg, n, n);
      assert s == SignedInAt(L.Init(n));
    } else {
      var front, last := run[..|run| - 1], run[|run| - 1];
      Lifted(cfg, n, front);
      LiftedStep(cfg, L.After(cfg.lock, n, front), last);
      var _ := Advance(cfg, SignedInAt(L.After(cfg.lock, n, front)), Lock(last));
    }
  }

  /** One of two processes inside has its answer. */
  lemma {:induction false} OneAnswered(cfg: Config, s0: State, p: nat, q: nat) returns (s: State)
    requires Reachable(cfg, s0) && Within(s0, p) && Within(s0, q) && p != q
    requires s0 == SignedInAt(s0.lock)
    ensures Reachable(cfg, s) && s.lock == s0.lock && s.store == s0.store && |s.jobs| == |s0.jobs|
    ensures s.jobs[q] == Chosen(REFRESH)
    ensures s.log == [Presented(ISSUER, "t"), Answered(ISSUER, "t", Granted("b", "u"))]
  {
    s := Advance(cfg, s0, Begin(p));
    s := Advance(cfg, s, Present(p));
    s := Advance(cfg, s, Receive(p, Granted("b", "u")));
  }

  /** The other refreshes the same credential before the first has written. */
  lemma {:induction false} TwoInsideBreak(cfg: Config, s0: State, p: nat, q: nat) returns (s: State)
    requires Reachable(cfg, s0) && Within(s0, p) && Within(s0, q) && p != q
    requires s0 == SignedInAt(s0.lock)
    ensures Reachable(cfg, s) && !NoReuse(s.log)
  {
    s := OneAnswered(cfg, s0, p, q);
    s := Advance(cfg, s, Begin(q));
    s := Advance(cfg, s, Present(q));
    assert Spends(s.log[1]) && s.log[2] == Presented(s.log[1].issuer, s.log[1].token);
  }

  /** Under a lock that lets two processes in, a spent token is presented again. */
  lemma {:induction false} SharedLockBreaks(cfg: Config) returns (s: State)
    requires !L.SafeConfig(cfg.lock)
    ensures Reachable(cfg, s) && !NoReuse(s.log)
  {
    var lock := L.UnsafeBreaks(cfg.lock);
    var n: nat, run :|
      L.Legal(cfg.lock, n, run) && L.StayingRun(cfg.lock, n, run) && L.After(cfg.lock, n, run) == lock;
    Lifted(cfg, n, run);
    var p, q :| 0 <= p < n && 0 <= q < n && lock.procs[p].Inside? && lock.procs[q].Inside? && p != q;
    s := TwoInsideBreak(cfg, SignedInAt(lock), p, q);
  }

  lemma {:induction false} UnsafeBreaks(cfg: Config) returns (s: State)
    requires !Safe(cfg)
    ensures Reachable(cfg, s) && !NoReuse(s.log)
  {
    if !L.SafeConfig(cfg.lock) {
      s := SharedLockBreaks(cfg);
    } else if !cfg.wellFormed {
      s := MalformedAnswerBreaks(cfg);
    } else if cfg.answersLost {
      s := LostAnswerBreaks(cfg);
    } else if cfg.writesFail {
      s := WriteErrorBreaks(cfg);
    } else {
      s := CrashOwingBreaks(cfg);
    }
  }

  /**
  Over every run of concurrent refreshes, logins and logouts, no spent token is presented again and
  no write is lost, exactly when the lock excludes, every 200 is well formed, every answer arrives,
  and a process that owes the store a replacement for a spent token neither crashes nor fails to write it.
  */
  lemma {:induction false} RotationExactly(cfg: Config)
    ensures (forall s :: Reachable(cfg, s) ==> NoReuse(s.log) && NoLostWrite(s)) <==> Safe(cfg)
  {
    if Safe(cfg) {
      forall s | Reachable(cfg, s) ensures NoReuse(s.log) && NoLostWrite(s) {
        var n: nat, store, issued, run :|
          Start(store, issued) && Legal(cfg, Init(n, store, issued), run) && After(cfg, Init(n, store, issued), run) == s;
        InvRun(cfg, n, store, issued, run);
      }
    } else {
      var _ := UnsafeBreaks(cfg);
    }
  }
}

/**
The lock file that guards the CLI's credentials store (apps/cli/src/credentials.ts), as a state
machine whose actions are the system calls of `withCredentialsLock`, interleaved in any order
between any number of processes.

A configuration says what the environment may do: whether a process may crash, whether a holder may
keep the lock longer than `staleMs`, whether the re-check and the unlink of a takeover are one step
(the code makes them two), and whether an (inode, mtime) pair may be carried by two lock files. The
main result, `ExclusiveExactly`, says for which configurations two processes are never inside.
*/
module CredentialsLock {
  import opened Prelude

  /** What `sameLock` compares. */
  datatype Stats = Stats(ino: nat, mtime: nat)

  /**
  A lock file. `written` is false between the exclusive create and the write of `host:pid`.
  `serial` numbers the files in creation order: no process ever sees it.
  */
  datatype LockFile = LockFile(stats: Stats, owner: nat, written: bool, serial: nat)

  /** Where a process stands in `withCredentialsLock`. */
  datatype Phase =
    | Opening                    // about to open with O_EXCL
    | Writing(mine: LockFile)    // created the file, its line not yet written
    | Statting(mine: LockFile)   // line written, about to fstat
    | Inside(mine: LockFile)     // running fn
    | Releasing(mine: LockFile)  // fn is over, about to lstat its own lock
    | Unlinking(mine: LockFile)  // found its own lock, about to unlink it
    | Looking                    // found the lock held, about to lstat it
    | Judging(held: Stats)       // about to judge it by age and by its holder
    | Rechecking(held: Stats)    // judged it stale, about to lstat it again
    | Removing(held: Stats)      // the re-check passed, about to unlink
    | Crashed
  {
    /** The process has created a lock file and has not released it. */
    predicate Holding() { Writing? || Statting? || Inside? || Releasing? || Unlinking? }
  }

  datatype Config = Config(staleMs: nat, crashes: bool, overruns: bool, atomicTakeover: bool, uniqueIds: bool)

  /** `used` collects every identity a lock file has ever had. */
  datatype State = State(now: nat, file: Option<LockFile>, procs: seq<Phase>, used: set<Stats>, serials: nat)

  datatype Action =
    | Tick(ms: nat)
    | Open(p: nat, ino: nat)
    | Write(p: nat)
    | Fstat(p: nat)
    | Finish(p: nat)
    | CheckOwn(p: nat)
    | UnlinkOwn(p: nat)
    | Look(p: nat)
    | Judge(p: nat, exited: bool)
    | Recheck(p: nat)
    | Remove(p: nat)
    | Crash(p: nat)

  function Init(n: nat): State {
    State(0, None, seq(n, _ => Opening), {}, 0)
  }

  /** No holder keeps a lock older than `staleMs`. */
  predicate InTime(cfg: Config, procs: seq<Phase>, now: nat) {
    forall p :: 0 <= p < |procs| && procs[p].Holding() ==> now <= procs[p].mine.stats.mtime + cfg.staleMs
  }

  /** `holderExited` may answer true: the file names a process that no longer runs. */
  predicate HolderGone(s: State) {
    s.file.Some? && s.file.value.written && s.file.value.owner < |s.procs| && s.procs[s.file.value.owner].Crashed?
  }

  predicate Enabled(cfg: Config, s: State, a: Action) {
    match a
    case Tick(ms) => cfg.overruns || InTime(cfg, s.procs, s.now + ms)
    case Open(p, ino) =>
      && p < |s.procs| && s.procs[p].Opening?
      && (cfg.uniqueIds && s.file.None? ==> Stats(ino, s.now) !in s.used)
    case Write(p) =>
      && p < |s.procs| && s.procs[p].Writing?
      && (cfg.uniqueIds ==>
            var st := Stats(s.procs[p].mine.stats.ino, s.now);
            st == s.procs[p].mine.stats || st !in s.used)
    case Fstat(p) => p < |s.procs| && s.procs[p].Statting?
    case Finish(p) => p < |s.procs| && s.procs[p].Inside?
    case CheckOwn(p) => p < |s.procs| && s.procs[p].Releasing?
    case UnlinkOwn(p) => p < |s.procs| && s.procs[p].Unlinking?
    case Look(p) => p < |s.procs| && s.procs[p].Looking?
    case Judge(p, exited) => p < |s.procs| && s.procs[p].Judging? && (exited ==> HolderGone(s))
    case Recheck(p) => p < |s.procs| && s.procs[p].Rechecking?
    case Remove(p) => p < |s.procs| && s.procs[p].Removing?
    case Crash(p) => cfg.crashes && p < |s.procs| && !s.procs[p].Crashed?
  }

  predicate SameLock(file: Option<LockFile>, held: Stats) {
    file.Some? && file.value.stats == held
  }

  function Do(cfg: Config, s: State, a: Action): State
    requires Enabled(cfg, s, a)
  {
    match a
    case Tick(ms) => s.(now := s.now + ms)
    case Open(p, ino) =>
      if s.file.Some? then s.(procs := s.procs[p := Looking]) else
      var f := LockFile(Stats(ino, s.now), p, false, s.serials);
      s.(file := Some(f), procs := s.procs[p := Writing(f)], used := s.used + {f.stats}, serials := s.serials + 1)
    case Write(p) =>
      // The write goes to the descriptor: it reaches the path only if the file is still there.
      var mine := s.procs[p].mine;
      var f := mine.(stats := Stats(mine.stats.ino, s.now), written := true);
      s.(file := if s.file == Some(mine) then Some(f) else s.file,
         procs := s.procs[p := Statting(f)], used := s.used + {f.stats})
    case Fstat(p) => s.(procs := s.procs[p := Inside(s.procs[p].mine)])
    case Finish(p) => s.(procs := s.procs[p := Releasing(s.procs[p].mine)])
    case CheckOwn(p) =>
      var mine := s.procs[p].mine;
      s.(procs := s.procs[p := if SameLock(s.file, mine.stats) then Unlinking(mine) else Opening])
    case UnlinkOwn(p) => s.(file := None, procs := s.procs[p := Opening])
    case Look(p) =>
      s.(procs := s.procs[p := if s.file.None? then Opening else Judging(s.file.value.stats)])
    case Judge(p, exited) =>
      var held := s.procs[p].held;
      s.(procs := s.procs[p := if s.now - held.mtime > cfg.staleMs || exited then Rechecking(held) else Opening])
    case Recheck(p) =>
      var held := s.procs[p].held;
      if !SameLock(s.file, held) then s.(procs := s.procs[p := Opening])
      else if cfg.atomicTakeover then s.(file := None, procs := s.procs[p := Opening])
      else s.(procs := s.procs[p := Removing(held)])
    case Remove(p) => s.(file := None, procs := s.procs[p := Opening])
    case Crash(p) => s.(procs := s.procs[p := Crashed])
  }

  // ---- Runs ----

  ghost predicate Legal(cfg: Config, n: nat, run: seq<Action>)
    decreases |run|, 0
  {
    run == [] || (Legal(cfg, n, run[..|run| - 1]) && Enabled(cfg, After(cfg, n, run[..|run| - 1]), run[|run| - 1]))
  }

  /** The state `n` processes reach by the interleaving `run`. */
  ghost function After(cfg: Config, n: nat, run: seq<Action>): State
    requires Legal(cfg, n, run)
    decreases |run|, 1
  {
    if run == [] then Init(n) else Do(cfg, After(cfg, n, run[..|run| - 1]), run[|run| - 1])
  }

  ghost predicate Reachable(cfg: Config, s: State) {
    exists n: nat, run :: Legal(cfg, n, run) && After(cfg, n, run) == s
  }

  /** The step takes nobody out of the critical section. */
  predicate Stays(s: State, a: Action) {
    !a.Finish? && (a.Crash? && a.p < |s.procs| ==> !s.procs[a.p].Inside?)
  }

  ghost predicate StayingRun(cfg: Config, n: nat, run: seq<Action>)
    requires Legal(cfg, n, run)
    decreases |run|
  {
    run == [] ||
    (StayingRun(cfg, n, run[..|run| - 1]) && Stays(After(cfg, n, run[..|run| - 1]), run[|run| - 1]))
  }

  /** Reachable by a run in which whoever gets inside stays there. */
  ghost predicate ReachableStaying(cfg: Config, s: State) {
    exists n: nat, run :: Legal(cfg, n, run) && StayingRun(cfg, n, run) && After(cfg, n, run) == s
  }

  // ---- Mutual exclusion ----

  predicate Exclusive(s: State) {
    forall p, q :: 0 <= p < |s.procs| && 0 <= q < |s.procs| && s.procs[p].Inside? && s.procs[q].Inside? ==> p == q
  }

  predicate SafeConfig(cfg: Config) {
    !cfg.overruns && (!cfg.crashes || (cfg.atomicTakeover && cfg.uniqueIds))
  }

  /** The file at the path belongs to a process that holds it or has crashed. */
  predicate Owned(s: State) {
    s.file.Some? ==>
      var f := s.file.value;
      f.owner < |s.procs| && f.stats in s.used &&
      (s.procs[f.owner].Crashed? || (s.procs[f.owner].Holding() && s.procs[f.owner].mine == f))
  }

  /** Every holder's own file is the one at the path. */
  predicate Backed(s: State) {
    forall p :: 0 <= p < |s.procs| && s.procs[p].Holding() ==>
      s.file == Some(s.procs[p].mine) && s.procs[p].mine.owner == p && s.procs[p].mine.stats.mtime <= s.now
  }

  /** A verdict of staleness never fits a live holder's file, now or later. */
  predicate Verdict(cfg: Config, s: State, ph: Phase) {
    match ph
    case Judging(held) => held in s.used
    case Rechecking(held) =>
      && held in s.used
      && (!cfg.crashes ==> held.mtime + cfg.staleMs < s.now)
      && (SameLock(s.file, held) && s.file.value.owner < |s.procs| ==> s.procs[s.file.value.owner].Crashed?)
    case Removing(_) => false
    case Crashed => cfg.crashes
    case _ => true
  }

  predicate Inv(cfg: Config, s: State) {
    && Owned(s)
    && Backed(s)
    && InTime(cfg, s.procs, s.now)
    && (forall st :: st in s.used ==> st.mtime <= s.now)
    && (forall p :: 0 <= p < |s.procs| ==> Verdict(cfg, s, s.procs[p]))
  }

  lemma {:induction false} InvOpen(cfg: Config, s: State, p: nat, ino: nat)
    requires SafeConfig(cfg) && Inv(cfg, s) && Enabled(cfg, s, Open(p, ino))
    ensures Inv(cfg, Do(cfg, s, Open(p, ino)))
  {
    var s' := Do(cfg, s, Open(p, ino));
    forall q | 0 <= q < |s'.procs| ensures Verdict(cfg, s', s'.procs[q]) {
      assert q != p ==> Verdict(cfg, s, s.procs[q]);
    }
  }

  lemma {:induction false} InvWrite(cfg: Config, s: State, p: nat)
    requires SafeConfig(cfg) && Inv(cfg, s) && Enabled(cfg, s, Write(p))
    ensures Inv(cfg, Do(cfg, s, Write(p)))
  {
    var s' := Do(cfg, s, Write(p));
    forall q | 0 <= q < |s'.procs| ensures Verdict(cfg, s', s'.procs[q]) {
      assert q != p ==> Verdict(cfg, s, s.procs[q]);
    }
  }

  lemma {:induction false} InvCrash(cfg: Config, s: State, p: nat)
    requires SafeConfig(cfg) && Inv(cfg, s) && Enabled(cfg, s, Crash(p))
    ensures Inv(cfg, Do(cfg, s, Crash(p)))
  {
  }

  lemma {:induction false} InvJudge(cfg: Config, s: State, p: nat, exited: bool)
    requires SafeConfig(cfg) && Inv(cfg, s) && Enabled(cfg, s, Judge(p, exited))
    ensures Inv(cfg, Do(cfg, s, Judge(p, exited)))
  {
    assert Verdict(cfg, s, s.procs[p]);
    if HolderGone(s) {
      assert Verdict(cfg, s, s.procs[s.file.value.owner]);
    }
  }

  lemma {:induction false} InvRecheck(cfg: Config, s: State, p: nat)
    requires SafeConfig(cfg) && Inv(cfg, s) && Enabled(cfg, s, Recheck(p))
    ensures Inv(cfg, Do(cfg, s, Recheck(p)))
  {
    assert Verdict(cfg, s, s.procs[p]);
    if SameLock(s.file, s.procs[p].held) {
      assert Verdict(cfg, s, s.procs[s.file.value.owner]);
    }
  }

  /** The holder's own steps and the clock's. */
  lemma {:induction false} InvHolder(cfg: Config, s: State, a: Action)
    requires SafeConfig(cfg) && Inv(cfg, s) && Enabled(cfg, s, a)
    requires a.Tick? || a.Fstat? || a.Finish?
    ensures Inv(cfg, Do(cfg, s, a))
  {
  }

  lemma {:induction false} InvRelease(cfg: Config, s: State, a: Action)
    requires SafeConfig(cfg) && Inv(cfg, s) && Enabled(cfg, s, a)
    requires a.CheckOwn? || a.UnlinkOwn? || a.Look? || a.Remove?
    ensures Inv(cfg, Do(cfg, s, a))
  {
    if a.Remove? {
      assert Verdict(cfg, s, s.procs[a.p]);
    }
  }

  lemma {:induction false} InvStep(cfg: Config, s: State, a: Action)
    requires SafeConfig(cfg) && Inv(cfg, s) && Enabled(cfg, s, a)
    ensures Inv(cfg, Do(cfg, s, a))
  {
    match a
    case Open(p, ino) => InvOpen(cfg, s, p, ino);
    case Write(p) => InvWrite(cfg, s, p);
    case Judge(p, exited) => InvJudge(cfg, s, p, exited);
    case Recheck(p) => InvRecheck(cfg, s, p);
    case Crash(p) => InvCrash(cfg, s, p);
    case _ => if a.Tick? || a.Fstat? || a.Finish? { InvHolder(cfg, s, a); } else { InvRelease(cfg, s, a); }
  }

  lemma {:induction false} InvRun(cfg: Config, n: nat, run: seq<Action>)
    requires SafeConfig(cfg) && Legal(cfg, n, run)
    ensures Inv(cfg, After(cfg, n, run))
    decreases |run|
  {
    if run != [] {
      InvRun(cfg, n, run[..|run| - 1]);
      InvStep(cfg, After(cfg, n, run[..|run| - 1]), run[|run| - 1]);
    }
  }

  /** In a safe configuration a takeover never removes the lock of a process that is still running. */
  lemma {:induction false} TakeoverSparesTheLiving(cfg: Config, s: State, a: Action)
    requires SafeConfig(cfg) && Reachable(cfg, s) && Enabled(cfg, s, a)
    requires a.Recheck? || a.Remove?
    requires s.file.Some? && s.file.value.owner < |s.procs| && !s.procs[s.file.value.owner].Crashed?
    ensures Do(cfg, s, a).file == s.file
  {
    var n: nat, run :| Legal(cfg, n, run) && After(cfg, n, run) == s;
    InvRun(cfg, n, run);
    assert Verdict(cfg, s, s.procs[a.p]);
  }

  // ---- Why nothing weaker will do ----

  lemma {:induction false} Start(cfg: Config, n: nat)
    ensures ReachableStaying(cfg, Init(n))
  {
    assert Legal(cfg, n, []) && StayingRun(cfg, n, []) && After(cfg, n, []) == Init(n);
  }

  lemma {:induction false} Advance(cfg: Config, s: State, a: Action) returns (s': State)
    requires ReachableStaying(cfg, s) && Enabled(cfg, s, a) && Stays(s, a)
    ensures s' == Do(cfg, s, a) && ReachableStaying(cfg, s')
  {
    s' := Do(cfg, s, a);
    var n: nat, run :| Legal(cfg, n, run) && StayingRun(cfg, n, run) && After(cfg, n, run) == s;
    assert (run + [a])[..|run|] == run;
    assert Legal(cfg, n, run + [a]) && StayingRun(cfg, n, run + [a]) && After(cfg, n, run + [a]) == s';
  }

  /** Exclusive create, write, fstat, with nothing in between. */
  lemma {:induction false} Acquire(cfg: Config, s: State, p: nat, ino: nat) returns (s': State)
    requires ReachableStaying(cfg, s) && p < |s.procs| && s.procs[p].Opening? && s.file.None?
    requires cfg.uniqueIds ==> Stats(ino, s.now) !in s.used
    ensures ReachableStaying(cfg, s') && s'.now == s.now && |s'.procs| == |s.procs| && s'.procs[p].Inside?
    ensures forall q :: 0 <= q < |s.procs| && q != p ==> s'.procs[q] == s.procs[q]
    ensures s'.file == Some(LockFile(Stats(ino, s.now), p, true, s.serials))
    ensures s'.used == s.used + {Stats(ino, s.now)}
  {
    s' := Advance(cfg, s, Open(p, ino));
    s' := Advance(cfg, s', Write(p));
    s' := Advance(cfg, s', Fstat(p));
  }

  /** Find the lock held and lstat it. */
  lemma {:induction false} Regard(cfg: Config, s: State, p: nat) returns (s': State)
    requires ReachableStaying(cfg, s) && p < |s.procs| && s.procs[p].Opening? && s.file.Some?
    ensures ReachableStaying(cfg, s')
    ensures s' == s.(procs := s.procs[p := Judging(s.file.value.stats)])
  {
    s' := Advance(cfg, s, Open(p, 0));
    s' := Advance(cfg, s', Look(p));
    assert s'.procs == s.procs[p := Judging(s.file.value.stats)];
  }

  /** And judge it stale. */
  lemma {:induction false} Condemn(cfg: Config, s: State, p: nat, exited: bool) returns (s': State)
    requires ReachableStaying(cfg, s) && p < |s.procs| && s.procs[p].Opening? && s.file.Some?
    requires exited ==> HolderGone(s) && s.file.value.owner != p
    requires exited || s.now - s.file.value.stats.mtime > cfg.staleMs
    ensures ReachableStaying(cfg, s')
    ensures s' == s.(procs := s.procs[p := Rechecking(s.file.value.stats)])
  {
    s' := Regard(cfg, s, p);
    s' := Advance(cfg, s', Judge(p, exited));
    assert s'.procs == s.procs[p := Rechecking(s.file.value.stats)];
  }

  /** A holder that overruns `staleMs` loses its lock and does not notice. */
  lemma {:induction false} OverrunBreaks(cfg: Config) returns (s: State)
    requires cfg.overruns
    ensures ReachableStaying(cfg, s) && !Exclusive(s)
  {
    Start(cfg, 2);
    s := Acquire(cfg, Init(2), 0, 0);
    s := Advance(cfg, s, Tick(cfg.staleMs + 1));
    s := Condemn(cfg, s, 1, false);
    s := Advance(cfg, s, Recheck(1));
    if !cfg.atomicTakeover {
      s := Advance(cfg, s, Remove(1));
    }
    s := Acquire(cfg, s, 1, 1);
    assert s.procs[0].Inside? && s.procs[1].Inside?;
  }

  /** Process 0 of three has written its lock. */
  lemma {:induction false} LockWritten(cfg: Config) returns (s: State)
    ensures ReachableStaying(cfg, s) && s.now == 0 && s.used == {Stats(0, 0)}
    ensures s.file == Some(LockFile(Stats(0, 0), 0, true, 0))
    ensures s.procs == [Statting(LockFile(Stats(0, 0), 0, true, 0)), Opening, Opening]
  {
    Start(cfg, 3);
    s := Advance(cfg, Init(3), Open(0, 0));
    s := Advance(cfg, s, Write(0));
  }

  /** Process 0 of three has crashed with its lock written. */
  lemma {:induction false} CrashWithLock(cfg: Config) returns (s: State)
    requires cfg.crashes
    ensures ReachableStaying(cfg, s) && |s.procs| == 3 && s.now == 0
    ensures s.file == Some(LockFile(Stats(0, 0), 0, true, 0)) && s.used == {Stats(0, 0)}
    ensures s.procs == [Crashed, Opening, Opening]
  {
    s := LockWritten(cfg);
    s := Advance(cfg, s, Crash(0));
  }

  /** Processes 1 and 2 have both judged its lock stale. */
  lemma {:induction false} CrashAndTwoVerdicts(cfg: Config) returns (s: State)
    requires cfg.crashes
    ensures ReachableStaying(cfg, s) && |s.procs| == 3 && s.now == 0
    ensures s.file.Some? && s.file.value.stats == Stats(0, 0) && s.used == {Stats(0, 0)}
    ensures s.procs[1] == s.procs[2] == Rechecking(Stats(0, 0))
  {
    s := CrashWithLock(cfg);
    s := Condemn(cfg, s, 1, true);
    s := Condemn(cfg, s, 2, true);
  }

  /** Both re-checks have passed, and 1 has removed the lock. */
  lemma {:induction false} RemovedOnce(cfg: Config) returns (s: State)
    requires cfg.crashes && !cfg.atomicTakeover
    ensures ReachableStaying(cfg, s) && |s.procs| == 3 && s.now == 0
    ensures s.file.None? && s.used == {Stats(0, 0)}
    ensures s.procs[1].Opening? && s.procs[2].Removing?
  {
    s := CrashAndTwoVerdicts(cfg);
    s := Advance(cfg, s, Recheck(1));
    s := Advance(cfg, s, Recheck(2));
    s := Advance(cfg, s, Remove(1));
  }

  /** The code as it stands: 2 unlinks the lock that 1 created between 2's re-check and 2's unlink. */
  lemma {:induction false} TwoStepTakeoverBreaks(cfg: Config) returns (s: State)
    requires cfg.crashes && !cfg.atomicTakeover
    ensures ReachableStaying(cfg, s) && !Exclusive(s)
  {
    s := RemovedOnce(cfg);
    s := Acquire(cfg, s, 1, 1);
    s := Advance(cfg, s, Remove(2));
    s := Acquire(cfg, s, 2, 2);
    assert s.procs[1].Inside? && s.procs[2].Inside?;
  }

  /** A lock created at the same inode within the same clock tick passes for the one it replaced. */
  lemma {:induction false} RepeatedIdentityBreaks(cfg: Config) returns (s: State)
    requires cfg.crashes && cfg.atomicTakeover && !cfg.uniqueIds
    ensures ReachableStaying(cfg, s) && !Exclusive(s)
  {
    s := CrashAndTwoVerdicts(cfg);
    s := Advance(cfg, s, Recheck(1));
    s := Acquire(cfg, s, 1, 0);
    s := Advance(cfg, s, Recheck(2));
    s := Acquire(cfg, s, 2, 0);
    assert s.procs[1].Inside? && s.procs[2].Inside?;
  }

  /** Outside a safe configuration two processes get inside, and both may stay there. */
  lemma {:induction false} UnsafeBreaks(cfg: Config) returns (s: State)
    requires !SafeConfig(cfg)
    ensures ReachableStaying(cfg, s) && !Exclusive(s)
  {
    if cfg.overruns {
      s := OverrunBreaks(cfg);
    } else if !cfg.atomicTakeover {
      s := TwoStepTakeoverBreaks(cfg);
    } else {
      s := RepeatedIdentityBreaks(cfg);
    }
  }

  /**
  In every interleaving of any number of processes at most one is inside, exactly when no holder
  overruns `staleMs` and either none crashes or the re-check and unlink are one step and identities
  are never repeated.
  */
  lemma {:induction false} ExclusiveExactly(cfg: Config)
    ensures SafeConfig(cfg) <==> forall s :: Reachable(cfg, s) ==> Exclusive(s)
  {
    if SafeConfig(cfg) {
      forall s | Reachable(cfg, s) ensures Exclusive(s) {
        var n: nat, run :| Legal(cfg, n, run) && After(cfg, n, run) == s;
        InvRun(cfg, n, run);
      }
    } else {
      var _ := UnsafeBreaks(cfg);
    }
  }
}

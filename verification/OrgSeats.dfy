/**
Members, invites and seats of one organization (apps/control-plane/src/server/users-service.ts,
invites-service.ts, seats.ts), as a state machine whose steps are the calls' SQL statements where it
matters. Every call reads the clock before its first statement. The calls that take the org lock wait
for it and then count active users and pending invites in two statements. Accepting an invite looks it
up, hashes the password, looks at the invite again inside a transaction, and then inserts the user.

That transaction takes no org lock itself, but the user's `org_id` is a foreign key: the check of the
insert needs the org row for key share, which waits for the row lock `acquireOrgLock` takes for update.
So it commits only while nobody holds the org lock. Revoking an invite waits the same way, for the
foreign key of its audit row. Nothing waits between the second look at the invite and the insert.

`SeatsExactly` says which runs keep the seat limit: those in which no user is inserted for an invite
that is no longer pending, lapsed or revoked, while every seat is used.
*/
module OrgSeats {
  import opened Prelude

  type Id = nat
  type Email = string

  datatype Role = Admin | Member | Viewer

  datatype User = User(email: Email, role: Role, active: bool)

  datatype Invite = Invite(email: Email, role: Role, expiresAt: nat, accepted: bool)

  datatype Actor = Actor(id: Id, role: Role)

  /** INVITE_TTL_MS: seven days. */
  const INVITE_TTL := 7 * 24 * 60 * 60 * 1000

  /** A call that holds the org lock and has counted the active users. `at` is the clock it read when it was called. */
  datatype Held =
    | Unlocked
    | Activating(actor: Actor, u: Id, at: nat, active: nat)
    | Inviting(email: Email, role: Role, at: nat, active: nat)

  /** A call of `acceptInvite`: what it read of the invite, and whether its transaction has found it still there. */
  datatype Accept = Accept(i: Id, email: Email, role: Role, rechecked: bool)

  datatype Org = Org(users: map<Id, User>, invites: map<Id, Invite>, now: nat, lock: Held, accepts: map<Id, Accept>)

  datatype Config = Config(limit: nat)

  datatype Error = Forbidden | NotFound | LastAdmin | SelfAction

  datatype Result = Changed(org: Org) | Refused(error: Error)

  // ---- Counting ----

  function ActiveUsers(s: Org): set<Id> {
    set u | u in s.users && s.users[u].active
  }

  function PendingInvites(s: Org, at: nat): set<Id> {
    set i | i in s.invites && !s.invites[i].accepted && s.invites[i].expiresAt > at
  }

  function OtherActiveAdmins(s: Org, u: Id): set<Id> {
    set v | v in s.users && s.users[v].active && s.users[v].role == Admin && v != u
  }

  function Used(s: Org): nat {
    |ActiveUsers(s)| + |PendingInvites(s, s.now)|
  }

  predicate HasAdmin(s: Org) {
    exists u :: u in s.users && s.users[u].active && s.users[u].role == Admin
  }

  // ---- The calls that are one step ----

  function ChangeUserRole(s: Org, actor: Actor, u: Id, role: Role): Result {
    if actor.role != Admin then Refused(Forbidden)
    else if u !in s.users then Refused(NotFound)
    else if s.users[u].role == Admin && role != Admin && s.users[u].active && |OtherActiveAdmins(s, u)| == 0 then
      Refused(LastAdmin)
    else Changed(s.(users := s.users[u := s.users[u].(role := role)]))
  }

  predicate ActiveMember(s: Org, u: Id) {
    u in s.users && s.users[u].active
  }

  /** `setUserStatus` with `deactivated`. */
  function Deactivate(s: Org, actor: Actor, u: Id): Result {
    if actor.role != Admin then Refused(Forbidden)
    else if u == actor.id then Refused(SelfAction)
    else if !ActiveMember(s, actor.id) || u !in s.users then Refused(NotFound)
    else if s.users[u].role == Admin && s.users[u].active && |OtherActiveAdmins(s, u)| == 0 then Refused(LastAdmin)
    else Changed(s.(users := s.users[u := s.users[u].(active := false)]))
  }

  function RevokeInvite(s: Org, actor: Actor, i: Id): Result {
    if actor.role != Admin then Refused(Forbidden)
    else if i !in s.invites || s.invites[i].accepted then Refused(NotFound)
    else Changed(s.(invites := s.invites - {i}))
  }

  function Kept(s: Org, r: Result): Org {
    match r
    case Changed(org) => org
    case Refused(_) => s
  }

  // ---- The calls that count seats, and acceptance ----

  datatype Action =
    | Tick(ms: nat)
    | ChangingRole(actor: Actor, u: Id, role: Role)
    | Deactivating(actor: Actor, u: Id)
    | RevokingInvite(actor: Actor, i: Id)
    | BeginActivate(actor: Actor, u: Id, at: nat)
    | BeginInvite(actor: Actor, email: Email, role: Role, at: nat)
    | Finish(i: Id)
    | LookUp(c: Id, i: Id, at: nat)
    | Recheck(c: Id)
    | Commit(c: Id, u: Id)

  predicate Enabled(cfg: Config, s: Org, a: Action) {
    match a
    case Tick(_) => true
    case ChangingRole(_, _, _) => s.lock.Unlocked?
    case Deactivating(_, _) => s.lock.Unlocked?
    case RevokingInvite(_, _) => s.lock.Unlocked?
    case BeginActivate(_, _, at) => s.lock.Unlocked? && at <= s.now
    case BeginInvite(_, _, _, at) => s.lock.Unlocked? && at <= s.now
    case Finish(i) => !s.lock.Unlocked? && (s.lock.Inviting? ==> i !in s.invites)
    case LookUp(_, _, at) => at <= s.now
    case Recheck(c) => c in s.accepts && !s.accepts[c].rechecked
    case Commit(c, u) => c in s.accepts && s.accepts[c].rechecked && u !in s.users && s.lock.Unlocked?
  }

  /** The second half of `setUserStatus` with `active`: it counts only when the target is not active already. */
  function FinishActivate(cfg: Config, s: Org, h: Held): Org
    requires h.Activating?
  {
    if !ActiveMember(s, h.actor.id) || h.u !in s.users then s
    else if !s.users[h.u].active && h.active + |PendingInvites(s, h.at)| >= cfg.limit then s
    else s.(users := s.users[h.u := s.users[h.u].(active := true)])
  }

  predicate AlreadyKnown(s: Org, email: Email, at: nat) {
    || (exists u :: u in s.users && s.users[u].email == email && s.users[u].active)
    || (exists i :: i in PendingInvites(s, at) && s.invites[i].email == email)
  }

  function FinishInvite(cfg: Config, s: Org, h: Held, i: Id): Org
    requires h.Inviting?
  {
    if h.active + |PendingInvites(s, h.at)| >= cfg.limit || AlreadyKnown(s, h.email, h.at) then s
    else s.(invites := s.invites[i := Invite(h.email, h.role, h.at + INVITE_TTL, false)])
  }

  predicate Open(s: Org, i: Id) {
    i in s.invites && !s.invites[i].accepted
  }

  /** `user.email` is unique, so an address in use stops the insert. */
  predicate Inserts(s: Org, acc: Accept) {
    !exists v :: v in s.users && s.users[v].email == acc.email
  }

  /** The insert of `acceptInvite` and the end of its transaction. Marking an invite that is gone changes no row. */
  function CommitAccept(s: Org, acc: Accept, u: Id): Org {
    if !Inserts(s, acc) then s
    else s.(users := s.users[u := User(acc.email, acc.role, true)],
            invites := if acc.i in s.invites then s.invites[acc.i := s.invites[acc.i].(accepted := true)] else s.invites)
  }

  function Do(cfg: Config, s: Org, a: Action): Org
    requires Enabled(cfg, s, a)
  {
    match a
    case Tick(ms) => s.(now := s.now + ms)
    case ChangingRole(actor, u, role) => Kept(s, ChangeUserRole(s, actor, u, role))
    case Deactivating(actor, u) => Kept(s, Deactivate(s, actor, u))
    case RevokingInvite(actor, i) => Kept(s, RevokeInvite(s, actor, i))
    case BeginActivate(actor, u, at) =>
      if actor.role != Admin then s else s.(lock := Activating(actor, u, at, |ActiveUsers(s)|))
    case BeginInvite(actor, email, role, at) =>
      if actor.role != Admin then s else s.(lock := Inviting(email, role, at, |ActiveUsers(s)|))
    case Finish(i) =>
      (if s.lock.Activating? then FinishActivate(cfg, s, s.lock) else FinishInvite(cfg, s, s.lock, i)).(lock := Unlocked)
    case LookUp(c, i, at) =>
      if !Open(s, i) || s.invites[i].expiresAt <= at then s
      else s.(accepts := s.accepts[c := Accept(i, s.invites[i].email, s.invites[i].role, false)])
    case Recheck(c) =>
      if !Open(s, s.accepts[c].i) then s.(accepts := s.accepts - {c})
      else s.(accepts := s.accepts[c := s.accepts[c].(rechecked := true)])
    case Commit(c, u) => CommitAccept(s, s.accepts[c], u).(accepts := s.accepts - {c})
  }

  // ---- Runs ----

  ghost predicate Legal(cfg: Config, s: Org, run: seq<Action>)
    decreases |run|, 0
  {
    run == [] || (Legal(cfg, s, run[..|run| - 1]) && Enabled(cfg, After(cfg, s, run[..|run| - 1]), run[|run| - 1]))
  }

  /** The state the steps of `run` lead to from `s`. */
  ghost function After(cfg: Config, s: Org, run: seq<Action>): Org
    requires Legal(cfg, s, run)
    decreases |run|, 1
  {
    if run == [] then s else Do(cfg, After(cfg, s, run[..|run| - 1]), run[|run| - 1])
  }

  // ---- The last admin ----

  lemma {:induction false} OthersSuffice(s: Org, u: Id)
    ensures |OtherActiveAdmins(s, u)| == 0 <==> forall v :: v !in OtherActiveAdmins(s, u)
  {
    if |OtherActiveAdmins(s, u)| == 0 {
      assert OtherActiveAdmins(s, u) == {};
    } else {
      var v :| v in OtherActiveAdmins(s, u);
    }
  }

  /** A demotion is refused for the last admin's sake exactly when it would leave none. */
  lemma {:induction false} DemotionRefusedExactly(s: Org, actor: Actor, u: Id, role: Role)
    requires actor.role == Admin && u in s.users && HasAdmin(s)
    ensures ChangeUserRole(s, actor, u, role) == Refused(LastAdmin) <==>
      !HasAdmin(s.(users := s.users[u := s.users[u].(role := role)]))
  {
    var s' := s.(users := s.users[u := s.users[u].(role := role)]);
    OthersSuffice(s, u);
    if HasAdmin(s') {
      var v :| v in s'.users && s'.users[v].active && s'.users[v].role == Admin;
      assert v != u ==> v in OtherActiveAdmins(s, u);
    }
    if v :| v in OtherActiveAdmins(s, u) {
      assert s'.users[v] == s.users[v];
    }
    if s.users[u].role != Admin || !s.users[u].active {
      var v :| v in s.users && s.users[v].active && s.users[v].role == Admin;
      assert v in OtherActiveAdmins(s, u);
    }
    if role == Admin && s.users[u].active {
      assert s'.users[u].role == Admin;
    }
  }

  /** So is a deactivation. */
  lemma {:induction false} DeactivationRefusedExactly(s: Org, actor: Actor, u: Id)
    requires actor.role == Admin && u != actor.id && ActiveMember(s, actor.id) && u in s.users && HasAdmin(s)
    ensures Deactivate(s, actor, u) == Refused(LastAdmin) <==>
      !HasAdmin(s.(users := s.users[u := s.users[u].(active := false)]))
  {
    var s' := s.(users := s.users[u := s.users[u].(active := false)]);
    OthersSuffice(s, u);
    if HasAdmin(s') {
      var v :| v in s'.users && s'.users[v].active && s'.users[v].role == Admin;
      assert v in OtherActiveAdmins(s, u);
    }
    if v :| v in OtherActiveAdmins(s, u) {
      assert s'.users[v] == s.users[v];
    }
    if s.users[u].role != Admin || !s.users[u].active {
      var v :| v in s.users && s.users[v].active && s.users[v].role == Admin;
      assert v in OtherActiveAdmins(s, u);
    }
  }

  lemma {:induction false} AdminStep(cfg: Config, s: Org, a: Action)
    requires HasAdmin(s) && Enabled(cfg, s, a)
    ensures HasAdmin(Do(cfg, s, a))
  {
    var v :| v in s.users && s.users[v].active && s.users[v].role == Admin;
    if a.ChangingRole? && a.actor.role == Admin && a.u in s.users {
      DemotionRefusedExactly(s, a.actor, a.u, a.role);
    } else if a.Deactivating? && a.actor.role == Admin && a.u != a.actor.id && ActiveMember(s, a.actor.id) && a.u in s.users {
      DeactivationRefusedExactly(s, a.actor, a.u);
    } else {
      var s' := Do(cfg, s, a);
      assert v in s'.users && s'.users[v].active && s'.users[v].role == Admin;
    }
  }

  /** An organization that has an active admin has one after every run, whatever the configuration. */
  lemma {:induction false} AlwaysAnAdmin(cfg: Config, s: Org, run: seq<Action>)
    requires HasAdmin(s) && Legal(cfg, s, run)
    ensures HasAdmin(After(cfg, s, run))
  {
    if run != [] {
      AlwaysAnAdmin(cfg, s, run[..|run| - 1]);
      AdminStep(cfg, After(cfg, s, run[..|run| - 1]), run[|run| - 1]);
    }
  }

  // ---- Seats ----

  lemma {:induction false} OneMore(a: set<Id>, b: set<Id>, x: Id)
    requires a <= b + {x}
    ensures |a| <= |b| + 1
  {
    SubsetSize(a, b + {x});
  }

  lemma {:induction false} PendingShrinks(s: Org, at: nat, later: nat)
    requires at <= later
    ensures |PendingInvites(s, later)| <= |PendingInvites(s, at)|
  {
    SubsetSize(PendingInvites(s, later), PendingInvites(s, at));
  }

  /** While the lock is held, what was counted is still so. */
  predicate Counted(s: Org) {
    match s.lock
    case Unlocked => true
    case Activating(_, _, at, active) => active == |ActiveUsers(s)| && at <= s.now
    case Inviting(_, _, at, active) => active == |ActiveUsers(s)| && at <= s.now
  }

  lemma {:induction false} ActivateKeepsLimit(cfg: Config, s: Org, h: Held)
    requires h.Activating? && h.active == |ActiveUsers(s)| && h.at <= s.now && Used(s) <= cfg.limit
    ensures Used(FinishActivate(cfg, s, h)) <= cfg.limit
  {
    var s' := FinishActivate(cfg, s, h);
    PendingShrinks(s, h.at, s.now);
    assert PendingInvites(s', s.now) == PendingInvites(s, s.now);
    if h.u in s.users && s.users[h.u].active {
      assert ActiveUsers(s') == ActiveUsers(s);
    } else {
      OneMore(ActiveUsers(s'), ActiveUsers(s), h.u);
    }
  }

  lemma {:induction false} InviteKeepsLimit(cfg: Config, s: Org, h: Held, i: Id)
    requires h.Inviting? && h.active == |ActiveUsers(s)| && h.at <= s.now && Used(s) <= cfg.limit && i !in s.invites
    ensures Used(FinishInvite(cfg, s, h, i)) <= cfg.limit
  {
    var s' := FinishInvite(cfg, s, h, i);
    PendingShrinks(s, h.at, s.now);
    assert ActiveUsers(s') == ActiveUsers(s);
    OneMore(PendingInvites(s', s.now), PendingInvites(s, s.now), i);
  }

  lemma {:induction false} FinishKeepsLimit(cfg: Config, s: Org, i: Id)
    requires Counted(s) && Used(s) <= cfg.limit && Enabled(cfg, s, Finish(i))
    ensures Used(Do(cfg, s, Finish(i))) <= cfg.limit
  {
    var done;
    if s.lock.Activating? {
      ActivateKeepsLimit(cfg, s, s.lock);
      done := FinishActivate(cfg, s, s.lock);
    } else {
      InviteKeepsLimit(cfg, s, s.lock, i);
      done := FinishInvite(cfg, s, s.lock, i);
    }
    var s' := Do(cfg, s, Finish(i));
    assert ActiveUsers(s') == ActiveUsers(done) && PendingInvites(s', s'.now) == PendingInvites(done, done.now);
  }

  lemma {:induction false} AcceptanceSets(s: Org, acc: Accept, u: Id)
    requires Inserts(s, acc) && u !in s.users
    ensures var s' := CommitAccept(s, acc, u);
      && s'.now == s.now && u !in ActiveUsers(s) && ActiveUsers(s') == ActiveUsers(s) + {u}
      && PendingInvites(s', s.now) == PendingInvites(s, s.now) - {acc.i}
  {
  }

  lemma {:induction false} AcceptanceCosts(s: Org, acc: Accept, u: Id)
    requires Inserts(s, acc) && u !in s.users
    ensures Used(CommitAccept(s, acc, u)) == Used(s) + if acc.i in PendingInvites(s, s.now) then 0 else 1
  {
    AcceptanceSets(s, acc, u);
  }

  /** What an acceptance does to the count: nothing while its invite is pending, one more seat once it has lapsed or is gone. */
  lemma {:induction false} CommitCosts(cfg: Config, s: Org, c: Id, u: Id)
    requires Enabled(cfg, s, Commit(c, u))
    ensures Used(Do(cfg, s, Commit(c, u))) == Used(s) +
      if Inserts(s, s.accepts[c]) && s.accepts[c].i !in PendingInvites(s, s.now) then 1 else 0
  {
    var s', done := Do(cfg, s, Commit(c, u)), CommitAccept(s, s.accepts[c], u);
    assert ActiveUsers(s') == ActiveUsers(done) && PendingInvites(s', s'.now) == PendingInvites(done, done.now);
    if Inserts(s, s.accepts[c]) {
      AcceptanceCosts(s, s.accepts[c], u);
    }
  }

  /** The step inserts a user for an invite that no longer keeps a seat, with none free. */
  predicate Overbooks(cfg: Config, s: Org, a: Action) {
    && a.Commit? && a.c in s.accepts && Inserts(s, s.accepts[a.c])
    && s.accepts[a.c].i !in PendingInvites(s, s.now) && Used(s) == cfg.limit
  }

  lemma {:induction false} CountedStep(cfg: Config, s: Org, a: Action)
    requires Counted(s) && Enabled(cfg, s, a)
    ensures Counted(Do(cfg, s, a))
  {
    var s' := Do(cfg, s, a);
    assert s.lock.Unlocked? || s'.lock.Unlocked? || ActiveUsers(s') == ActiveUsers(s);
    assert a.BeginActivate? || a.BeginInvite? ==> ActiveUsers(s') == ActiveUsers(s);
  }

  /** A step from within the limit stays within it, except exactly such an acceptance. */
  lemma {:induction false} LimitStep(cfg: Config, s: Org, a: Action)
    requires Counted(s) && Used(s) <= cfg.limit && Enabled(cfg, s, a)
    ensures Used(Do(cfg, s, a)) <= cfg.limit <==> !Overbooks(cfg, s, a)
  {
    var s' := Do(cfg, s, a);
    match a
    case Tick(ms) =>
      assert ActiveUsers(s') == ActiveUsers(s);
      assert PendingInvites(s', s'.now) == PendingInvites(s, s'.now);
      PendingShrinks(s, s.now, s'.now);
    case Finish(i) => FinishKeepsLimit(cfg, s, i);
    case Commit(c, u) => CommitCosts(cfg, s, c, u);
    case _ =>
      assert a.Deactivating? || ActiveUsers(s') == ActiveUsers(s);
      SubsetSize(ActiveUsers(s'), ActiveUsers(s));
      SubsetSize(PendingInvites(s', s'.now), PendingInvites(s, s.now));
  }

  /** The run and each of its beginnings end within the limit. */
  ghost predicate StaysWithin(cfg: Config, s: Org, run: seq<Action>)
    requires Legal(cfg, s, run)
    decreases |run|
  {
    Used(After(cfg, s, run)) <= cfg.limit && (run == [] || StaysWithin(cfg, s, run[..|run| - 1]))
  }

  /** Some step of the run inserts a user who takes one seat too many. */
  ghost predicate Overbooked(cfg: Config, s: Org, run: seq<Action>)
    requires Legal(cfg, s, run)
    decreases |run|
  {
    run != [] &&
    (Overbooked(cfg, s, run[..|run| - 1]) || Overbooks(cfg, After(cfg, s, run[..|run| - 1]), run[|run| - 1]))
  }

  lemma {:induction false} CountedRun(cfg: Config, s: Org, run: seq<Action>)
    requires Counted(s) && Legal(cfg, s, run)
    ensures Counted(After(cfg, s, run))
  {
    if run != [] {
      CountedRun(cfg, s, run[..|run| - 1]);
      CountedStep(cfg, After(cfg, s, run[..|run| - 1]), run[|run| - 1]);
    }
  }

  /**
  A run from within the seat limit, whatever overlaps in it, stays within the limit throughout if and
  only if no acceptance in it inserts its user with the invite no longer pending and every seat used.
  */
  lemma {:induction false} SeatsExactly(cfg: Config, s: Org, run: seq<Action>)
    requires s.lock.Unlocked? && Used(s) <= cfg.limit && Legal(cfg, s, run)
    ensures StaysWithin(cfg, s, run) <==> !Overbooked(cfg, s, run)
  {
    if run != [] {
      var front := run[..|run| - 1];
      SeatsExactly(cfg, s, front);
      CountedRun(cfg, s, front);
      if StaysWithin(cfg, s, front) {
        LimitStep(cfg, After(cfg, s, front), run[|run| - 1]);
      }
    }
  }

  lemma {:induction false} Extend(cfg: Config, s: Org, run: seq<Action>, a: Action) returns (run': seq<Action>, s': Org)
    requires Legal(cfg, s, run) && Enabled(cfg, After(cfg, s, run), a)
    ensures Legal(cfg, s, run') && s' == After(cfg, s, run') == Do(cfg, After(cfg, s, run), a)
  {
    run' := run + [a];
    assert run'[..|run|] == run;
    s' := After(cfg, s, run');
  }

  /** One admin, and one invite that lapses at 1. */
  const START := Org(map[0 := User("a", Admin, true)], map[0 := Invite("b", Member, 1, false)], 0, Unlocked, map[])

  lemma {:induction false} StartUsesTwo()
    ensures Used(START) == 2
  {
    assert ActiveUsers(START) == {0} && PendingInvites(START, 0) == {0};
  }

  predicate ThreeSeats(s: Org) {
    {0, 1} <= ActiveUsers(s) && 1 in PendingInvites(s, s.now)
  }

  lemma {:induction false} ThreeAreTooMany(s: Org)
    requires ThreeSeats(s)
    ensures Used(s) > 2
  {
    SubsetSize({0, 1}, ActiveUsers(s));
    SubsetSize({1}, PendingInvites(s, s.now));
  }

  /** The acceptance of the invite to `b`, after its second look. */
  const ACCEPT := Accept(0, "b", Member, true)

  /** The invite to `b` was looked up at 0 and again in the transaction. */
  lemma {:induction false} LookedTwice(cfg: Config) returns (run: seq<Action>)
    ensures Legal(cfg, START, run) && After(cfg, START, run) == START.(accepts := map[0 := ACCEPT])
  {
    var s;
    run := [];
    run, s := Extend(cfg, START, run, LookUp(0, 0, 0));
    run, s := Extend(cfg, START, run, Recheck(0));
  }

  /** The acceptance is about to insert its user, and its invite keeps no seat. */
  predicate Due(s: Org) {
    && s.lock.Unlocked? && s.users == START.users && s.accepts == map[0 := ACCEPT]
    && PendingInvites(s, s.now) == {} && 1 !in s.invites
  }

  /** Another invitation takes the seat. */
  function SeatGone(s: Org): Org {
    s.(invites := s.invites[1 := Invite("c", Member, s.now + INVITE_TTL, false)])
  }

  lemma {:induction false} InviteSteps(cfg: Config, s: Org)
    requires cfg.limit == 2 && Due(s)
    ensures Enabled(cfg, s, BeginInvite(Actor(0, Admin), "c", Member, s.now))
    ensures var s' := Do(cfg, s, BeginInvite(Actor(0, Admin), "c", Member, s.now));
      Enabled(cfg, s', Finish(1)) && Do(cfg, s', Finish(1)) == SeatGone(s)
  {
    assert ActiveUsers(s) == {0};
    var s' := Do(cfg, s, BeginInvite(Actor(0, Admin), "c", Member, s.now));
    assert PendingInvites(s', s.now) == {};
  }

  lemma {:induction false} AnotherInvited(cfg: Config, run: seq<Action>) returns (run': seq<Action>)
    requires cfg.limit == 2 && Legal(cfg, START, run) && Due(After(cfg, START, run))
    ensures Legal(cfg, START, run') && After(cfg, START, run') == SeatGone(After(cfg, START, run))
  {
    var s := After(cfg, START, run);
    InviteSteps(cfg, s);
    run', s := Extend(cfg, START, run, BeginInvite(Actor(0, Admin), "c", Member, s.now));
    run', s := Extend(cfg, START, run', Finish(1));
  }

  lemma {:induction false} SeatTaken(cfg: Config, run: seq<Action>) returns (run': seq<Action>)
    requires cfg.limit == 2 && Legal(cfg, START, run) && Due(After(cfg, START, run))
    ensures Legal(cfg, START, run') && Used(After(cfg, START, run')) > cfg.limit
    ensures After(cfg, START, run').now == After(cfg, START, run).now
  {
    var s;
    run' := AnotherInvited(cfg, run);
    run', s := Extend(cfg, START, run', Commit(0, 1));
    assert ThreeSeats(s);
    ThreeAreTooMany(s);
  }

  /** An invite is looked at twice in time, lapses, its seat goes to another invite, and then its user is inserted. */
  lemma {:induction false} LateAcceptBreaks(cfg: Config) returns (run: seq<Action>)
    requires cfg.limit == 2
    ensures START.lock.Unlocked? && Used(START) <= cfg.limit
    ensures Legal(cfg, START, run) && Used(After(cfg, START, run)) > cfg.limit
  {
    StartUsesTwo();
    var s;
    run := LookedTwice(cfg);
    run, s := Extend(cfg, START, run, Tick(1));
    run := SeatTaken(cfg, run);
  }

  /** Nothing lapses: the invite is revoked after the second look. */
  lemma {:induction false} RevokedAcceptBreaks(cfg: Config) returns (run: seq<Action>)
    requires cfg.limit == 2
    ensures START.lock.Unlocked? && Used(START) <= cfg.limit
    ensures Legal(cfg, START, run) && Used(After(cfg, START, run)) > cfg.limit && After(cfg, START, run).now == START.now
  {
    StartUsesTwo();
    var s;
    run := LookedTwice(cfg);
    run, s := Extend(cfg, START, run, RevokingInvite(Actor(0, Admin), 0));
    run := SeatTaken(cfg, run);
  }

  // ---- Calls that do not overlap ----

  datatype Call = Quick(a: Action) | Activate(actor: Actor, u: Id) | InviteUser(actor: Actor, email: Email, role: Role, i: Id)
    | AcceptInvite(i: Id, u: Id)

  /** Two steps with nothing between them. When the first refuses, the second has nothing to do. */
  function Both(cfg: Config, s: Org, a: Action, b: Action): Org {
    if !Enabled(cfg, s, a) then s else
    var s' := Do(cfg, s, a);
    if !Enabled(cfg, s', b) then s else Do(cfg, s', b)
  }

  predicate IsQuick(a: Action) {
    a.Tick? || a.ChangingRole? || a.Deactivating? || a.RevokingInvite?
  }

  predicate Idle(s: Org) {
    s.lock.Unlocked? && s.accepts == map[]
  }

  /** `acceptInvite` with nothing between its steps. */
  function AcceptAtOnce(cfg: Config, s: Org, i: Id, u: Id): Org
    requires u !in s.users && Idle(s)
  {
    var found := Do(cfg, s, LookUp(0, i, s.now));
    if 0 !in found.accepts then found else
    var again := Do(cfg, found, Recheck(0));
    if 0 !in again.accepts then again else Do(cfg, again, Commit(0, u))
  }

  function DoCall(cfg: Config, s: Org, call: Call): Org {
    match call
    case Quick(a) =>
      if IsQuick(a) && Enabled(cfg, s, a) then Do(cfg, s, a) else s
    case Activate(actor, u) => Both(cfg, s, BeginActivate(actor, u, s.now), Finish(0))
    case InviteUser(actor, email, role, i) => Both(cfg, s, BeginInvite(actor, email, role, s.now), Finish(i))
    case AcceptInvite(i, u) => if u in s.users || !Idle(s) then s else AcceptAtOnce(cfg, s, i, u)
  }

  function AfterCalls(cfg: Config, s: Org, calls: seq<Call>): Org {
    if calls == [] then s else DoCall(cfg, AfterCalls(cfg, s, calls[..|calls| - 1]), calls[|calls| - 1])
  }

  lemma {:induction false} AcceptCall(cfg: Config, s: Org, i: Id, u: Id)
    requires Idle(s) && Used(s) <= cfg.limit && u !in s.users
    ensures Idle(AcceptAtOnce(cfg, s, i, u)) && Used(AcceptAtOnce(cfg, s, i, u)) <= cfg.limit
  {
    var found := Do(cfg, s, LookUp(0, i, s.now));
    if 0 in found.accepts {
      var again := Do(cfg, found, Recheck(0));
      assert again == s.(accepts := map[0 := Accept(i, s.invites[i].email, s.invites[i].role, true)]);
      assert ActiveUsers(again) == ActiveUsers(s) && PendingInvites(again, s.now) == PendingInvites(s, s.now);
      CommitCosts(cfg, again, 0, u);
      assert again.accepts - {0} == map[];
    }
  }

  lemma {:induction false} QuickKeepsLimit(cfg: Config, s: Org, a: Action)
    requires Idle(s) && Used(s) <= cfg.limit && Enabled(cfg, s, a)
    requires IsQuick(a)
    ensures Idle(Do(cfg, s, a)) && Used(Do(cfg, s, a)) <= cfg.limit
  {
    LimitStep(cfg, s, a);
  }

  lemma {:induction false} CountedCall(cfg: Config, s: Org, a: Action, i: Id)
    requires Idle(s) && Used(s) <= cfg.limit && (a.BeginActivate? || a.BeginInvite?) && a.at <= s.now
    ensures Idle(Both(cfg, s, a, Finish(i))) && Used(Both(cfg, s, a, Finish(i))) <= cfg.limit
  {
    var s' := Do(cfg, s, a);
    assert ActiveUsers(s') == ActiveUsers(s) && PendingInvites(s', s.now) == PendingInvites(s, s.now);
    if Enabled(cfg, s', Finish(i)) {
      FinishKeepsLimit(cfg, s', i);
    }
  }

  lemma {:induction false} CallKeepsLimit(cfg: Config, s: Org, call: Call)
    requires Idle(s) && Used(s) <= cfg.limit
    ensures Idle(DoCall(cfg, s, call)) && Used(DoCall(cfg, s, call)) <= cfg.limit
  {
    match call
    case Quick(a) =>
      if IsQuick(a) && Enabled(cfg, s, a) {
        QuickKeepsLimit(cfg, s, a);
      }
    case Activate(actor, u) => CountedCall(cfg, s, BeginActivate(actor, u, s.now), 0);
    case InviteUser(actor, email, role, i) => CountedCall(cfg, s, BeginInvite(actor, email, role, s.now), i);
    case AcceptInvite(i, u) =>
      if u !in s.users {
        AcceptCall(cfg, s, i, u);
      }
  }

  /** Calls that do not overlap stay within the limit: an acceptance then looks up and commits at one time. */
  lemma {:induction false} SerialCallsKeepLimit(cfg: Config, s: Org, calls: seq<Call>)
    requires Idle(s) && Used(s) <= cfg.limit
    ensures Idle(AfterCalls(cfg, s, calls)) && Used(AfterCalls(cfg, s, calls)) <= cfg.limit
  {
    if calls != [] {
      SerialCallsKeepLimit(cfg, s, calls[..|calls| - 1]);
      CallKeepsLimit(cfg, AfterCalls(cfg, s, calls[..|calls| - 1]), calls[|calls| - 1]);
    }
  }
}

/**
OAuth keys and the grants they are bound to: the control plane's mint, revocation and role changes
(apps/control-plane/src/server/keys-service.ts, users-service.ts), the paddocks they are scoped to,
and the OP's consent and token issue (apps/auth/src/interactions.ts, resources.ts, paddocks.ts), as
one state machine whose steps interleave freely.

Each database transaction is one step. A consent takes four: it fixes its grant, the control plane
loads the actor, the mint's transaction runs, the grant is saved. The code loads the actor before the
mint's transaction; `freshActor` says whether the two are one step.
*/
module OauthKeys {
  import opened Prelude

  type Id = nat
  type Client = string
  type Slug = string

  datatype Role = Admin | Member | Viewer
  {
    /** The role matrix's `resource.write`. */
    predicate MayWrite() { !Viewer? }
  }

  datatype User = User(orgId: Id, role: Role, active: bool)

  datatype Paddock = Paddock(orgId: Id, slug: Slug, active: bool)

  /** The check constraint `api_key_oauth_binding`: only an oauth key has a grant, a client and a user. */
  datatype Kind = Live | Oauth(grantId: Id, clientId: Client, userId: Id)

  /** `paddocks` holds the key's rows of `key_paddock`. */
  datatype Key = Key(orgId: Id, kind: Kind, active: bool, paddocks: set<Id>)

  datatype Grant = Grant(userId: Id, clientId: Client, scopes: set<Slug>)

  datatype Actor = Actor(id: Id, orgId: Id, role: Role)

  /** An approval under way. `scopes` is what the grant held when it was read. */
  datatype Consent =
    Consent(userId: Id, clientId: Client, slug: Slug, grantId: Id, scopes: set<Slug>, actor: Option<Actor>, minted: bool)

  /** `owners` and `minted` are history: whose each grant id is, and for which paddock names a key was minted on it. */
  datatype State = State(
    users: map<Id, User>,
    paddocks: map<Id, Paddock>,
    keys: map<Id, Key>,
    grants: map<Id, Grant>,
    consents: map<Id, Consent>,
    owners: map<Id, (Id, Client)>,
    minted: set<(Id, Slug)>)

  datatype Config = Config(freshActor: bool)

  datatype Action =
    | AddUser(u: Id, user: User)
    | ChangeRole(u: Id, role: Role)
    | SetStatus(u: Id, active: bool)
    | SavePaddock(p: Id, paddock: Paddock)
    | DeletePaddock(p: Id)
    | CreateKey(k: Id, orgId: Id, paddocks: set<Id>)
    | RevokeKey(k: Id)
    | Begin(c: Id, userId: Id, clientId: Client, slug: Slug, grantId: Id)
    | LoadActor(c: Id)
    | Mint(c: Id, p: Id, k: Id)
    | SaveGrant(c: Id)
    | Issue(grantId: Id, slug: Slug, k: Id)

  const INIT := State(map[], map[], map[], map[], map[], map[], {})

  /** The mint's `existing` query. */
  predicate Reusable(s: State, k: Id, userId: Id, clientId: Client, p: Id) {
    && k in s.keys && s.keys[k].active && s.keys[k].kind.Oauth? && p in s.keys[k].paddocks
    && s.keys[k].kind.userId == userId && s.keys[k].kind.clientId == clientId
  }

  /** The rows of `activeOauthKeyForGrant`. */
  predicate ForGrant(s: State, k: Id, grantId: Id, p: Id) {
    k in s.keys && s.keys[k].active && s.keys[k].kind.Oauth? && s.keys[k].kind.grantId == grantId && p in s.keys[k].paddocks
  }

  predicate Named(s: State, p: Id, slug: Slug) {
    p in s.paddocks && s.paddocks[p].slug == slug
  }

  ghost predicate Enabled(cfg: Config, s: State, a: Action) {
    match a
    case AddUser(u, user) => u !in s.users
    case ChangeRole(u, role) => u in s.users
    case SetStatus(u, active) => u in s.users
    case SavePaddock(p, paddock) =>
      && (p in s.paddocks ==> s.paddocks[p].orgId == paddock.orgId)
      && (forall q :: Named(s, q, paddock.slug) ==> q == p)
    case DeletePaddock(p) => p in s.paddocks
    case CreateKey(k, orgId, paddocks) =>
      k !in s.keys && forall p :: p in paddocks ==> p in s.paddocks && s.paddocks[p].orgId == orgId
    case RevokeKey(k) => k in s.keys && s.keys[k].active
    case Begin(c, userId, clientId, slug, grantId) =>
      c !in s.consents &&
      (if grantId in s.grants then s.grants[grantId].userId == userId && s.grants[grantId].clientId == clientId
       else grantId !in s.owners)
    case LoadActor(c) =>
      && c in s.consents && s.consents[c].actor.None?
      && s.consents[c].userId in s.users && s.users[s.consents[c].userId].active
    case Mint(c, p, k) =>
      && c in s.consents && s.consents[c].actor.Some? && !s.consents[c].minted
      && var actor := s.consents[c].actor.value;
         && actor.role.MayWrite()
         && (cfg.freshActor ==> actor.id in s.users && s.users[actor.id] == User(actor.orgId, actor.role, true))
         && Named(s, p, s.consents[c].slug) && s.paddocks[p].orgId == actor.orgId && s.paddocks[p].active
         && (Reusable(s, k, actor.id, s.consents[c].clientId, p) ||
             (k !in s.keys && forall j :: !Reusable(s, j, actor.id, s.consents[c].clientId, p)))
    case SaveGrant(c) => c in s.consents && s.consents[c].minted
    case Issue(grantId, slug, k) => exists p :: Named(s, p, slug) && ForGrant(s, k, grantId, p)
  }

  /** `revokeOauthKeysForUser`. */
  function RevokeAll(keys: map<Id, Key>, orgId: Id, u: Id): map<Id, Key> {
    map k | k in keys ::
      if keys[k].orgId == orgId && keys[k].kind.Oauth? && keys[k].kind.userId == u then keys[k].(active := false) else keys[k]
  }

  ghost function Do(cfg: Config, s: State, a: Action): State
    requires Enabled(cfg, s, a)
  {
    match a
    case AddUser(u, user) => s.(users := s.users[u := user])
    case ChangeRole(u, role) =>
      s.(users := s.users[u := s.users[u].(role := role)],
         keys := if role == Viewer then RevokeAll(s.keys, s.users[u].orgId, u) else s.keys)
    case SetStatus(u, active) =>
      s.(users := s.users[u := s.users[u].(active := active)],
         keys := if active then s.keys else RevokeAll(s.keys, s.users[u].orgId, u))
    case SavePaddock(p, paddock) => s.(paddocks := s.paddocks[p := paddock])
    case DeletePaddock(p) =>
      s.(paddocks := s.paddocks - {p},
         keys := map k | k in s.keys :: s.keys[k].(paddocks := s.keys[k].paddocks - {p}))
    case CreateKey(k, orgId, paddocks) => s.(keys := s.keys[k := Key(orgId, Live, true, paddocks)])
    case RevokeKey(k) => s.(keys := s.keys[k := s.keys[k].(active := false)])
    case Begin(c, userId, clientId, slug, grantId) =>
      var scopes := if grantId in s.grants then s.grants[grantId].scopes else {};
      s.(consents := s.consents[c := Consent(userId, clientId, slug, grantId, scopes, None, false)],
         owners := s.owners[grantId := (userId, clientId)])
    case LoadActor(c) =>
      var u := s.consents[c].userId;
      s.(consents := s.consents[c := s.consents[c].(actor := Some(Actor(u, s.users[u].orgId, s.users[u].role)))])
    case Mint(c, p, k) =>
      var con := s.consents[c];
      var actor := con.actor.value;
      s.(keys := s.keys[k :=
           if k in s.keys then s.keys[k].(kind := s.keys[k].kind.(grantId := con.grantId))
           else Key(actor.orgId, Oauth(con.grantId, con.clientId, actor.id), true, {p})],
         consents := s.consents[c := con.(minted := true)],
         minted := s.minted + {(con.grantId, con.slug)})
    case SaveGrant(c) =>
      var con := s.consents[c];
      s.(grants := s.grants[con.grantId := Grant(con.userId, con.clientId, con.scopes + {con.slug})],
         consents := s.consents - {c})
    case Issue(grantId, slug, k) => s
  }

  // ---- Runs ----

  ghost predicate Legal(cfg: Config, s: State, run: seq<Action>)
    decreases |run|, 0
  {
    run == [] || (Legal(cfg, s, run[..|run| - 1]) && Enabled(cfg, After(cfg, s, run[..|run| - 1]), run[|run| - 1]))
  }

  /** The state the steps of `run` lead to from `s`. */
  ghost function After(cfg: Config, s: State, run: seq<Action>): State
    requires Legal(cfg, s, run)
    decreases |run|, 1
  {
    if run == [] then s else Do(cfg, After(cfg, s, run[..|run| - 1]), run[|run| - 1])
  }

  ghost predicate Reachable(cfg: Config, s: State) {
    exists run :: Legal(cfg, INIT, run) && After(cfg, INIT, run) == s
  }

  lemma {:induction false} Advance(cfg: Config, s: State, a: Action) returns (s': State)
    requires Reachable(cfg, s) && Enabled(cfg, s, a)
    ensures s' == Do(cfg, s, a) && Reachable(cfg, s')
  {
    s' := Do(cfg, s, a);
    var run :| Legal(cfg, INIT, run) && After(cfg, INIT, run) == s;
    assert (run + [a])[..|run|] == run;
    assert Legal(cfg, INIT, run + [a]) && After(cfg, INIT, run + [a]) == s';
  }

  // ---- What every step keeps ----

  ghost predicate UniqueSlugs(s: State) {
    forall p, q :: p in s.paddocks && q in s.paddocks && s.paddocks[p].slug == s.paddocks[q].slug ==> p == q
  }

  /** At most one active oauth key for a user, a client and a paddock. */
  ghost predicate OneKey(s: State) {
    forall j, k, u, c, p :: Reusable(s, j, u, c, p) && Reusable(s, k, u, c, p) ==> j == k
  }

  predicate KeyOwned(s: State, k: Key) {
    k.kind.Oauth? ==>
      && k.kind.grantId in s.owners && s.owners[k.kind.grantId] == (k.kind.userId, k.kind.clientId)
      && k.kind.userId in s.users && s.users[k.kind.userId].orgId == k.orgId
  }

  predicate ConsentOwned(s: State, c: Consent) {
    && c.grantId in s.owners && s.owners[c.grantId] == (c.userId, c.clientId)
    && (forall slug :: slug in c.scopes ==> (c.grantId, slug) in s.minted)
    && (c.minted ==> (c.grantId, c.slug) in s.minted)
    && (c.actor.Some? ==>
          c.actor.value.id == c.userId && c.userId in s.users && s.users[c.userId].orgId == c.actor.value.orgId)
  }

  predicate GrantOwned(s: State, id: Id, g: Grant) {
    && id in s.owners && s.owners[id] == (g.userId, g.clientId)
    && forall slug :: slug in g.scopes ==> (id, slug) in s.minted
  }

  predicate Owned(s: State) {
    && (forall k :: k in s.keys ==> KeyOwned(s, s.keys[k]))
    && (forall c :: c in s.consents ==> ConsentOwned(s, s.consents[c]))
    && (forall g :: g in s.grants ==> GrantOwned(s, g, s.grants[g]))
  }

  /** No resource scope is on a saved grant before a key for it was minted on that grant. */
  predicate ScopesFollowKeys(s: State) {
    forall g, slug :: g in s.grants && slug in s.grants[g].scopes ==> (g, slug) in s.minted
  }

  /** Nobody who may not approve an app has an approved one. */
  predicate Standing(s: State) {
    forall k :: k in s.keys && s.keys[k].active && s.keys[k].kind.Oauth? ==>
      var u := s.keys[k].kind.userId;
      u in s.users && s.users[u].active && s.users[u].role.MayWrite()
  }

  /** An oauth key is scoped to the one paddock it was minted for, until that paddock is deleted. */
  ghost predicate Narrow(s: State) {
    forall k, p, q :: k in s.keys && s.keys[k].kind.Oauth? && p in s.keys[k].paddocks && q in s.keys[k].paddocks ==> p == q
  }

  ghost predicate Inv(s: State) {
    UniqueSlugs(s) && OneKey(s) && Narrow(s) && Owned(s)
  }

  lemma {:induction false} NarrowStep(cfg: Config, s: State, a: Action)
    requires Inv(s) && Enabled(cfg, s, a)
    ensures Narrow(Do(cfg, s, a))
  {
  }

  lemma {:induction false} KeysOwnedStep(cfg: Config, s: State, a: Action, k: Id)
    requires Inv(s) && Enabled(cfg, s, a) && k in Do(cfg, s, a).keys
    ensures KeyOwned(Do(cfg, s, a), Do(cfg, s, a).keys[k])
  {
    assert k in s.keys ==> KeyOwned(s, s.keys[k]);
    if a.Mint? { assert ConsentOwned(s, s.consents[a.c]); }
    if a.Begin? && a.grantId in s.grants { assert GrantOwned(s, a.grantId, s.grants[a.grantId]); }
  }

  lemma {:induction false} ConsentsOwnedStep(cfg: Config, s: State, a: Action, c: Id)
    requires Inv(s) && Enabled(cfg, s, a) && c in Do(cfg, s, a).consents
    ensures ConsentOwned(Do(cfg, s, a), Do(cfg, s, a).consents[c])
  {
    assert c in s.consents ==> ConsentOwned(s, s.consents[c]);
    if a.Begin? && a.grantId in s.grants { assert GrantOwned(s, a.grantId, s.grants[a.grantId]); }
  }

  lemma {:induction false} GrantsOwnedStep(cfg: Config, s: State, a: Action, g: Id)
    requires Inv(s) && Enabled(cfg, s, a) && g in Do(cfg, s, a).grants
    ensures GrantOwned(Do(cfg, s, a), g, Do(cfg, s, a).grants[g])
  {
    assert g in s.grants ==> GrantOwned(s, g, s.grants[g]);
    if a.SaveGrant? { assert ConsentOwned(s, s.consents[a.c]); }
  }

  lemma {:induction false} OwnedStep(cfg: Config, s: State, a: Action)
    requires Inv(s) && Enabled(cfg, s, a)
    ensures Owned(Do(cfg, s, a))
  {
    var s' := Do(cfg, s, a);
    forall k | k in s'.keys ensures KeyOwned(s', s'.keys[k]) { KeysOwnedStep(cfg, s, a, k); }
    forall c | c in s'.consents ensures ConsentOwned(s', s'.consents[c]) { ConsentsOwnedStep(cfg, s, a, c); }
    forall g | g in s'.grants ensures GrantOwned(s', g, s'.grants[g]) { GrantsOwnedStep(cfg, s, a, g); }
  }

  lemma {:induction false} OneKeyStep(cfg: Config, s: State, a: Action)
    requires Inv(s) && Enabled(cfg, s, a)
    ensures OneKey(Do(cfg, s, a)) && UniqueSlugs(Do(cfg, s, a))
  {
    var s' := Do(cfg, s, a);
    if a.Mint? {
      var con := s.consents[a.c];
      assert ConsentOwned(s, con);
      forall j, k, u, c, p | Reusable(s', j, u, c, p) && Reusable(s', k, u, c, p) ensures j == k {
        assert j != a.k ==> Reusable(s, j, u, c, p);
        assert k != a.k ==> Reusable(s, k, u, c, p);
        if a.k !in s.keys {
          assert !Reusable(s, j, con.actor.value.id, con.clientId, a.p);
          assert !Reusable(s, k, con.actor.value.id, con.clientId, a.p);
        } else {
          assert j == a.k ==> Reusable(s, j, u, c, p);
          assert k == a.k ==> Reusable(s, k, u, c, p);
        }
      }
    } else {
      forall j, k, u, c, p | Reusable(s', j, u, c, p) && Reusable(s', k, u, c, p) ensures j == k {
        assert Reusable(s, j, u, c, p) && Reusable(s, k, u, c, p);
      }
    }
    if a.SavePaddock? {
      forall p, q | p in s'.paddocks && q in s'.paddocks && s'.paddocks[p].slug == s'.paddocks[q].slug ensures p == q {
        assert q != a.p ==> (Named(s, q, a.paddock.slug) <==> s'.paddocks[q].slug == a.paddock.slug);
        assert p != a.p ==> (Named(s, p, a.paddock.slug) <==> s'.paddocks[p].slug == a.paddock.slug);
      }
    }
  }

  /** A step keeps everybody's standing, except a mint for an actor who has lost it since it was read. */
  lemma {:induction false} StandingStep(cfg: Config, s: State, a: Action)
    requires Inv(s) && Standing(s) && Enabled(cfg, s, a)
    ensures Standing(Do(cfg, s, a)) <==>
      (a.Mint? ==> var u := s.consents[a.c].userId; s.users[u].active && s.users[u].role.MayWrite())
  {
    var s' := Do(cfg, s, a);
    forall k | k in s.keys ensures KeyOwned(s, s.keys[k]) {}
    if a.Mint? {
      assert ConsentOwned(s, s.consents[a.c]);
      assert s'.keys[a.k].active && s'.keys[a.k].kind.Oauth? && s'.keys[a.k].kind.userId == s.consents[a.c].userId;
    }
  }

  lemma {:induction false} InvRun(cfg: Config, run: seq<Action>)
    requires Legal(cfg, INIT, run)
    ensures Inv(After(cfg, INIT, run))
    ensures cfg.freshActor ==> Standing(After(cfg, INIT, run))
  {
    if run != [] {
      var front, a := run[..|run| - 1], run[|run| - 1];
      InvRun(cfg, front);
      OwnedStep(cfg, After(cfg, INIT, front), a);
      OneKeyStep(cfg, After(cfg, INIT, front), a);
      NarrowStep(cfg, After(cfg, INIT, front), a);
      if cfg.freshActor {
        StandingStep(cfg, After(cfg, INIT, front), a);
        if a.Mint? { assert ConsentOwned(After(cfg, INIT, front), After(cfg, INIT, front).consents[a.c]); }
      }
    }
  }

  lemma {:induction false} InvReached(cfg: Config, s: State)
    requires Reachable(cfg, s)
    ensures Inv(s)
    ensures cfg.freshActor ==> Standing(s)
  {
    var run :| Legal(cfg, INIT, run) && After(cfg, INIT, run) == s;
    InvRun(cfg, run);
  }

  /** However mints, rebinds and revocations interleave, one approval never has two active keys. */
  lemma {:induction false} OneKeyPerApproval(cfg: Config, s: State, j: Id, k: Id, userId: Id, clientId: Client, p: Id)
    requires Reachable(cfg, s) && Reusable(s, j, userId, clientId, p) && Reusable(s, k, userId, clientId, p)
    ensures j == k
  {
    InvReached(cfg, s);
  }

  lemma {:induction false} NoScopeBeforeItsKey(cfg: Config, s: State)
    requires Reachable(cfg, s)
    ensures ScopesFollowKeys(s)
  {
    InvReached(cfg, s);
    forall g, slug | g in s.grants && slug in s.grants[g].scopes ensures (g, slug) in s.minted {
      assert GrantOwned(s, g, s.grants[g]);
    }
  }

  // ---- Token issue ----

  /**
  A token's key is the only one the lookup can find, so `limit 1` never chooses. It is active, bound to
  the grant and scoped to the paddock the resource names, and it was approved by the grant's own user
  for the grant's own client.
  */
  lemma {:induction false} IssueIsSound(cfg: Config, s: State, grantId: Id, slug: Slug, k: Id)
    requires Reachable(cfg, s) && Enabled(cfg, s, Issue(grantId, slug, k))
    ensures exists p :: Named(s, p, slug) && ForGrant(s, k, grantId, p)
    ensures forall j :: Enabled(cfg, s, Issue(grantId, slug, j)) ==> j == k
    ensures grantId in s.owners && s.owners[grantId] == (s.keys[k].kind.userId, s.keys[k].kind.clientId)
    ensures cfg.freshActor ==>
      var u := s.keys[k].kind.userId; u in s.users && s.users[u].active && s.users[u].role.MayWrite()
  {
    InvReached(cfg, s);
    assert KeyOwned(s, s.keys[k]);
    forall j | Enabled(cfg, s, Issue(grantId, slug, j)) ensures j == k {
      assert KeyOwned(s, s.keys[j]);
      var p :| Named(s, p, slug) && ForGrant(s, k, grantId, p);
      var q :| Named(s, q, slug) && ForGrant(s, j, grantId, q);
      assert p == q;
      var kind := s.keys[k].kind;
      assert Reusable(s, j, kind.userId, kind.clientId, p) && Reusable(s, k, kind.userId, kind.clientId, p);
    }
  }

  lemma {:induction false} RevokedStep(cfg: Config, s: State, a: Action, k: Id)
    requires Enabled(cfg, s, a) && k in s.keys && !s.keys[k].active
    ensures var s' := Do(cfg, s, a); k in s'.keys && !s'.keys[k].active && s'.keys[k].kind == s.keys[k].kind
  {
  }

  /** Revocation is for good: no run brings a revoked key back or binds it to another grant. */
  lemma {:induction false} RevokedForGood(cfg: Config, s: State, run: seq<Action>, k: Id)
    requires Legal(cfg, s, run) && k in s.keys && !s.keys[k].active
    ensures var s' := After(cfg, s, run); k in s'.keys && !s'.keys[k].active && s'.keys[k].kind == s.keys[k].kind
  {
    if run != [] {
      RevokedForGood(cfg, s, run[..|run| - 1], k);
      RevokedStep(cfg, After(cfg, s, run[..|run| - 1]), run[|run| - 1], k);
    }
  }

  /** The grant has no active key for the paddock. */
  ghost predicate Silent(s: State, grantId: Id, p: Id) {
    forall k :: !ForGrant(s, k, grantId, p)
  }

  ghost predicate Binds(s: State, a: Action, grantId: Id, p: Id) {
    a.Mint? && a.p == p && a.c in s.consents && s.consents[a.c].grantId == grantId
  }

  /** The run mints a key for the paddock onto the grant. */
  ghost predicate Remints(cfg: Config, s: State, run: seq<Action>, grantId: Id, p: Id)
    requires Legal(cfg, s, run)
    decreases |run|
  {
    run != [] &&
    (Remints(cfg, s, run[..|run| - 1], grantId, p) ||
     Binds(After(cfg, s, run[..|run| - 1]), run[|run| - 1], grantId, p))
  }

  lemma {:induction false} SilentStep(cfg: Config, s: State, a: Action, grantId: Id, p: Id)
    requires Inv(s) && Silent(s, grantId, p) && Enabled(cfg, s, a)
    ensures Silent(Do(cfg, s, a), grantId, p) <==> !Binds(s, a, grantId, p)
  {
    var s' := Do(cfg, s, a);
    if Binds(s, a, grantId, p) {
      assert ForGrant(s', a.k, grantId, p);
    } else {
      forall k ensures !ForGrant(s', k, grantId, p) {
        assert !ForGrant(s, k, grantId, p);
      }
    }
  }

  lemma {:induction false} InvFrom(cfg: Config, s: State, run: seq<Action>)
    requires Inv(s) && Legal(cfg, s, run)
    ensures Inv(After(cfg, s, run))
  {
    if run != [] {
      var t, a := After(cfg, s, run[..|run| - 1]), run[|run| - 1];
      InvFrom(cfg, s, run[..|run| - 1]);
      OwnedStep(cfg, t, a);
      OneKeyStep(cfg, t, a);
      NarrowStep(cfg, t, a);
    }
  }

  /**
  Once a grant's key for a paddock is revoked, or rebound to another grant, the grant gets no token for
  that paddock in any run, until a run's mint binds a key for it again.
  */
  lemma {:induction false} SilentUntilReminted(cfg: Config, s: State, run: seq<Action>, grantId: Id, p: Id, slug: Slug, k: Id)
    requires Reachable(cfg, s) && Silent(s, grantId, p) && Legal(cfg, s, run) && !Remints(cfg, s, run, grantId, p)
    ensures Silent(After(cfg, s, run), grantId, p)
    ensures Named(After(cfg, s, run), p, slug) ==> !Enabled(cfg, After(cfg, s, run), Issue(grantId, slug, k))
  {
    InvReached(cfg, s);
    InvFrom(cfg, s, run);
    if run != [] {
      var front := run[..|run| - 1];
      SilentUntilReminted(cfg, s, front, grantId, p, slug, k);
      InvFrom(cfg, s, front);
      SilentStep(cfg, After(cfg, s, front), run[|run| - 1], grantId, p);
    }
  }

  lemma {:induction false} SameApproval(s: State, j: Id, k: Id, grantId: Id, p: Id)
    requires Inv(s) && ForGrant(s, j, grantId, p) && ForGrant(s, k, grantId, p)
    ensures j == k
  {
    assert KeyOwned(s, s.keys[j]) && KeyOwned(s, s.keys[k]);
    var kind := s.keys[k].kind;
    assert Reusable(s, j, kind.userId, kind.clientId, p) && Reusable(s, k, kind.userId, kind.clientId, p);
  }

  /** Revoking the key a grant's tokens name, or rebinding it to another grant, silences the grant. */
  lemma {:induction false} RevokeSilences(cfg: Config, s: State, grantId: Id, p: Id, k: Id)
    requires Reachable(cfg, s) && ForGrant(s, k, grantId, p)
    ensures Enabled(cfg, s, RevokeKey(k)) && Silent(Do(cfg, s, RevokeKey(k)), grantId, p)
    ensures forall c :: Enabled(cfg, s, Mint(c, p, k)) && s.consents[c].grantId != grantId ==>
      Silent(Do(cfg, s, Mint(c, p, k)), grantId, p)
  {
    InvReached(cfg, s);
    forall j | ForGrant(s, j, grantId, p) ensures j == k {
      SameApproval(s, j, k, grantId, p);
    }
    forall c | Enabled(cfg, s, Mint(c, p, k)) && s.consents[c].grantId != grantId
      ensures Silent(Do(cfg, s, Mint(c, p, k)), grantId, p)
    {
      forall j ensures !ForGrant(Do(cfg, s, Mint(c, p, k)), j, grantId, p) {
        assert j != k ==> !ForGrant(s, j, grantId, p);
      }
    }
    forall j ensures !ForGrant(Do(cfg, s, RevokeKey(k)), j, grantId, p) {
      assert j != k ==> !ForGrant(s, j, grantId, p);
    }
  }

  // ---- Standing ----

  /** A member's approval, its actor loaded and its key not yet minted. */
  lemma {:induction false} ActorLoaded() returns (s: State)
    ensures Reachable(Config(false), s)
    ensures s == State(map[0 := User(0, Member, true)], map[0 := Paddock(0, "a", true)], map[], map[],
      map[0 := Consent(0, "c", "a", 0, {}, Some(Actor(0, 0, Member)), false)], map[0 := (0, "c")], {})
  {
    var cfg := Config(false);
    assert Legal(cfg, INIT, []) && After(cfg, INIT, []) == INIT;
    s := Advance(cfg, INIT, AddUser(0, User(0, Member, true)));
    s := Advance(cfg, s, SavePaddock(0, Paddock(0, "a", true)));
    s := Advance(cfg, s, Begin(0, 0, "c", "a", 0));
    s := Advance(cfg, s, LoadActor(0));
  }

  /** A member approves, is made a viewer, and then the mint runs for the actor loaded before. */
  lemma {:induction false} StaleActorBreaks() returns (s: State)
    ensures Reachable(Config(false), s) && !Standing(s)
  {
    var cfg := Config(false);
    s := ActorLoaded();
    s := Advance(cfg, s, ChangeRole(0, Viewer));
    s := Advance(cfg, s, Mint(0, 0, 0));
    assert s.keys[0].active && s.keys[0].kind.Oauth?;
  }

  /**
  No viewer and no deactivated user ever has an active oauth key, in every run, if and only if the
  mint's actor is read in the mint's own transaction.
  */
  lemma {:induction false} StandingExactly(cfg: Config)
    ensures (forall s :: Reachable(cfg, s) ==> Standing(s)) <==> cfg.freshActor
  {
    if cfg.freshActor {
      forall s | Reachable(cfg, s) ensures Standing(s) {
        InvReached(cfg, s);
      }
    } else {
      var s := StaleActorBreaks();
      assert cfg == Config(false);
    }
  }
}

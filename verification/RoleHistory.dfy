/** Role membership over whole histories: what grants and revokes add up to, and what a sync shows of it. */
module RoleHistory {
  import opened Wrappers
  import opened Events
  import opened AuditRecords
  import opened Membership
  import opened Roles

  /** Who holds which role, on the server. */
  function Relation(users: seq<User>): View {
    set i, r | 0 <= i < |users| && r in users[i].roles :: Pair(users[i].name, r)
  }

  function AfterAll(users: seq<User>, attempts: seq<Attempt>): seq<User> {
    if attempts == [] then users
    else Attempted(AfterAll(users, attempts[..|attempts| - 1]), attempts[|attempts| - 1]).1
  }

  predicate HasUser(users: seq<User>, name: string) {
    exists i :: 0 <= i < |users| && users[i].name == name
  }

  /** What it takes for a call to go through. */
  predicate Succeeds(users: seq<User>, a: Attempt) {
    && a.principal.resourceType == USER_TYPE
    && a.principal.name != "" && HasUser(users, a.principal.name)
    && (a.grants ==> a.role != "" && a.principal.name != "*")
    && !a.readsFail && !a.writesFail
  }

  /** A call that goes through for this user. */
  predicate Names(users: seq<User>, a: Attempt, name: string) {
    Succeeds(users, a) && a.principal.name == name
  }

  predicate NeverNamed(users: seq<User>, attempts: seq<Attempt>, name: string) {
    forall k :: 0 <= k < |attempts| ==> !Names(users, attempts[k], name)
  }

  predicate About(a: Attempt, p: Pair) {
    a.principal.name == p.user && a.role == p.role
  }

  /** Whether the last call about the pair that went through granted it or revoked it. */
  function LastWord(users: seq<User>, attempts: seq<Attempt>, p: Pair): Option<bool> {
    if attempts == [] then None
    else
      var a := attempts[|attempts| - 1];
      if About(a, p) && Succeeds(users, a) then Some(a.grants) else LastWord(users, attempts[..|attempts| - 1], p)
  }

  predicate SameNames(users: seq<User>, others: seq<User>) {
    |users| == |others| && forall i :: 0 <= i < |users| ==> users[i].name == others[i].name
  }

  // ---- the lists ----

  ghost predicate DistinctStrings(xs: seq<string>) {
    forall i, j :: 0 <= i < j < |xs| ==> xs[i] != xs[j]
  }

  lemma {:induction false} DeduplicateKeeps(xs: seq<string>)
    ensures var ys := Deduplicate(xs);
      (forall x :: x in ys <==> x in xs) && DistinctStrings(ys)
  {
    if xs != [] {
      var n := |xs| - 1;
      assert xs == xs[..n] + [xs[n]];
      DeduplicateKeeps(xs[..n]);
      assert xs[n] in Deduplicate(xs[..n]) ==> Deduplicate(xs) == Deduplicate(xs[..n]);
    }
  }

  lemma {:induction false} DroppedKeeps(xs: seq<string>, role: string)
    ensures forall x :: x in Dropped(xs, role) <==> x in xs && x != role
  {
    if xs != [] {
      var n := |xs| - 1;
      assert xs == xs[..n] + [xs[n]];
      DroppedKeeps(xs[..n], role);
    }
  }

  /** `a` shows up before any `b` does. */
  predicate Before(xs: seq<string>, a: string, b: string)
  {
    if xs == [] then false
    else
      var n := |xs| - 1;
      Before(xs[..n], a, b) || (xs[n] == a && b !in xs)
  }

  lemma BeforeSnoc(xs: seq<string>, x: string, a: string, b: string)
    ensures Before(xs + [x], a, b) <==> Before(xs, a, b) || (x == a && x != b && b !in xs)
  {
    assert (xs + [x])[..|xs|] == xs;
  }

  lemma {:induction false} BeforeHas(xs: seq<string>, a: string, b: string)
    ensures Before(xs, a, b) ==> a in xs
    ensures a in xs && b !in xs ==> Before(xs, a, b)
  {
    if xs != [] {
      var n := |xs| - 1;
      assert xs == xs[..n] + [xs[n]];
      BeforeHas(xs[..n], a, b);
    }
  }

  lemma {:induction false} DeduplicateOrder(xs: seq<string>, a: string, b: string)
    requires a != b
    ensures Before(Deduplicate(xs), a, b) <==> Before(xs, a, b)
  {
    if xs != [] {
      var n := |xs| - 1;
      assert xs == xs[..n] + [xs[n]];
      DeduplicateOrder(xs[..n], a, b);
      DeduplicateKeeps(xs[..n]);
      BeforeSnoc(xs[..n], xs[n], a, b);
      BeforeSnoc(Deduplicate(xs[..n]), xs[n], a, b);
      BeforeHas(xs[..n], a, b);
    }
  }

  lemma {:induction false} DroppedOrder(xs: seq<string>, role: string, a: string, b: string)
    requires a != role && b != role
    ensures Before(Dropped(xs, role), a, b) <==> Before(xs, a, b)
  {
    if xs != [] {
      var n := |xs| - 1;
      assert xs == xs[..n] + [xs[n]];
      DroppedOrder(xs[..n], role, a, b);
      DroppedKeeps(xs[..n], role);
      BeforeSnoc(xs[..n], xs[n], a, b);
      BeforeSnoc(Dropped(xs[..n], role), xs[n], a, b);
      assert Dropped(xs, role) == Dropped(xs[..n], role) + if xs[n] == role then [] else [xs[n]];
      assert xs[n] == role ==> Dropped(xs, role) == Dropped(xs[..n], role);
    }
  }

  /** Revoke leaves every other role once, in the order the roles first had, and no trace of the one
      revoked. */
  lemma RevokeKeepsTheRest(u: User, role: string)
    ensures var roles := Revoked(u, role).roles;
      && (forall r :: r in roles <==> r in u.roles && r != role)
      && DistinctStrings(roles)
      && (forall a, b :: a != b && a != role && b != role ==> (Before(roles, a, b) <==> Before(u.roles, a, b)))
  {
    DroppedKeeps(u.roles, role);
    DeduplicateKeeps(Dropped(u.roles, role));
    forall a, b | a != b && a != role && b != role
      ensures Before(Revoked(u, role).roles, a, b) <==> Before(u.roles, a, b)
    {
      DeduplicateOrder(Dropped(u.roles, role), a, b);
      DroppedOrder(u.roles, role, a, b);
    }
  }

  // ---- grants and revokes ----

  lemma AttemptSucceeds(users: seq<User>, a: Attempt)
    ensures Attempted(users, a).0.None? <==> Succeeds(users, a)
    ensures !Succeeds(users, a) ==> Attempted(users, a).1 == users
    ensures Succeeds(users, a) ==> Attempted(users, a).1 == Changed(users, a)
  {
    var i := IndexOf(users, a.principal.name);
    assert i < |users| ==> users[i].name == a.principal.name;
  }

  lemma SucceedsByNames(users: seq<User>, others: seq<User>, a: Attempt)
    requires SameNames(users, others)
    ensures Succeeds(users, a) <==> Succeeds(others, a)
  {
    var name := a.principal.name;
    if HasUser(users, name) {
      var i :| 0 <= i < |users| && users[i].name == name;
      assert others[i].name == name;
    }
    if HasUser(others, name) {
      var i :| 0 <= i < |others| && others[i].name == name;
      assert users[i].name == name;
    }
  }

  lemma ChangedRoles(u: User, a: Attempt, p: Pair)
    requires u.name == a.principal.name
    ensures p.role in (if a.grants then Granted(u, a.role) else Revoked(u, a.role)).roles
      <==> if p.role == a.role then a.grants else p.role in u.roles
  {
    if !a.grants {
      RevokeKeepsTheRest(u, a.role);
    }
  }

  lemma InRelation(users: seq<User>, i: nat, role: string)
    requires DistinctNames(users) && i < |users|
    ensures Pair(users[i].name, role) in Relation(users) <==> role in users[i].roles
  {
  }

  lemma RelationFrame(users: seq<User>, others: seq<User>, p: Pair)
    requires SameNames(users, others)
    requires forall i :: 0 <= i < |users| ==>
      users[i].name == p.user ==> (p.role in users[i].roles <==> p.role in others[i].roles)
    ensures p in Relation(users) <==> p in Relation(others)
  {
  }

  /** One call changes membership only of its own pair, and nothing of any other user. */
  lemma OneAttempt(users: seq<User>, a: Attempt, p: Pair)
    requires DistinctNames(users)
    ensures var after := Attempted(users, a).1;
      && SameNames(users, after)
      && (p in Relation(after) <==> if About(a, p) && Succeeds(users, a) then a.grants else p in Relation(users))
      && (forall i :: 0 <= i < |users| && !Names(users, a, users[i].name) ==> after[i] == users[i])
  {
    AttemptSucceeds(users, a);
    if Succeeds(users, a) {
      var i := IndexOf(users, a.principal.name);
      var after := Changed(users, a);
      ChangedRoles(users[i], a, p);
      if About(a, p) {
        InRelation(after, i, p.role);
      } else {
        RelationFrame(users, after, p);
      }
    }
  }

  /** After any history of grants and revokes, failed ones among them, a user holds a role exactly when the
      last call about the two that went through granted it, or none did and the user held it before.
      Users no successful call named are as they were. */
  lemma {:induction false} MembershipHistory(users: seq<User>, attempts: seq<Attempt>, p: Pair)
    requires DistinctNames(users)
    ensures var after := AfterAll(users, attempts);
      && SameNames(users, after)
      && (p in Relation(after) <==>
            match LastWord(users, attempts, p) case None => p in Relation(users) case Some(b) => b)
      && (forall i :: 0 <= i < |users| && NeverNamed(users, attempts, users[i].name) ==> after[i] == users[i])
  {
    if attempts != [] {
      var n := |attempts| - 1;
      var before := AfterAll(users, attempts[..n]);
      MembershipHistory(users, attempts[..n], p);
      OneAttempt(before, attempts[n], p);
      SucceedsByNames(users, before, attempts[n]);
    }
  }

  // ---- what Grants and a full sync show ----

  /** All grants of a sync that reads one snapshot. */
  function SyncGrants(users: seq<User>, roles: seq<string>): seq<Pair> {
    if roles == [] then [] else SyncGrants(users, roles[..|roles| - 1]) + GrantsIn(users, roles[|roles| - 1])
  }

  lemma {:induction false} HeldIsRelation(users: seq<User>, p: Pair)
    ensures p in AllHeld(users) <==> p in Relation(users)
  {
    if users != [] {
      var n := |users| - 1;
      var u := users[n];
      HeldIsRelation(users[..n], p);
      var own := HeldOf(u.name, u.roles);
      assert AllHeld(users) == AllHeld(users[..n]) + own;
      assert p in own <==> p.user == u.name && p.role in u.roles by {
        if p.user == u.name && p.role in u.roles {
          var i :| 0 <= i < |u.roles| && u.roles[i] == p.role;
          assert own[i] == p;
        }
      }
    }
  }

  /** Conservation: over distinct role names a sync emits one grant per occurrence of a listed role in a
      user's role list, and nothing else. */
  lemma {:induction false} FullSyncConserves(users: seq<User>, roles: seq<string>, p: Pair)
    requires DistinctStrings(roles)
    ensures multiset(SyncGrants(users, roles))[p] == if p.role in roles then multiset(AllHeld(users))[p] else 0
  {
    if roles != [] {
      var n := |roles| - 1;
      assert roles == roles[..n] + [roles[n]];
      FullSyncConserves(users, roles[..n], p);
      GrantsCount(users, roles[n], p);
    }
  }

  /** A sync shows the relation exactly when every role held is listed. */
  lemma FullSyncComplete(users: seq<User>, roles: seq<string>)
    requires DistinctStrings(roles)
    ensures (forall p :: p in SyncGrants(users, roles) <==> p in Relation(users))
      <==> forall p :: p in Relation(users) ==> p.role in roles
  {
    forall p: Pair ensures p in SyncGrants(users, roles) <==> p in Relation(users) && p.role in roles {
      FullSyncConserves(users, roles, p);
      HeldIsRelation(users, p);
      assert p in SyncGrants(users, roles) <==> multiset(SyncGrants(users, roles))[p] > 0;
      assert p in AllHeld(users) <==> multiset(AllHeld(users))[p] > 0;
    }
  }

  /** Grants over a snapshot just loaded shows who holds the role after any history. */
  lemma GrantsAfterHistory(users: seq<User>, attempts: seq<Attempt>, p: Pair)
    requires DistinctNames(users)
    ensures p in GrantsIn(Snapshot([], AfterAll(users, attempts)), p.role)
      <==> match LastWord(users, attempts, p) case None => p in Relation(users) case Some(b) => b
  {
    var after := AfterAll(users, attempts);
    MembershipHistory(users, attempts, p);
    GrantsCount(after, p.role, p);
    HeldIsRelation(after, p);
    assert p in GrantsIn(after, p.role) <==> multiset(GrantsIn(after, p.role))[p] > 0;
    assert p in AllHeld(after) <==> multiset(AllHeld(after))[p] > 0;
  }

  // ---- the cache ----

  /** A role builder and the server beside it. */
  datatype Site = Site(cache: seq<User>, users: seq<User>)

  /** A List, a Grants, or anything that changes the users on the server. A Grants says whether the server
      fails it, and which users' resources can be built. */
  datatype Act =
    | Listing(fails: bool)
    | Granting(role: string, readsFail: bool, builds: User -> bool)
    | Changing(users: seq<User>)

  function AnswerTo(s: Site, a: Act): Option<seq<Pair>> {
    if a.Granting? then GrantsAnswer(s.cache, s.users, a.readsFail, a.builds, a.role) else None
  }

  function AfterAct(s: Site, a: Act): Site {
    match a
    case Listing(fails) => if fails then s else s.(cache := [])
    case Granting(_, readsFail, _) =>
      if s.cache == [] && readsFail then s else s.(cache := Snapshot(s.cache, s.users))
    case Changing(users) => s.(users := users)
  }

  /** The roles asked about with success, and all the grants answered. */
  function Asked(s: Site, acts: seq<Act>): seq<string>
    decreases acts
  {
    if acts == [] then []
    else
      var rest := Asked(AfterAct(s, acts[0]), acts[1..]);
      if AnswerTo(s, acts[0]).Some? then [acts[0].role] + rest else rest
  }

  function Answers(s: Site, acts: seq<Act>): seq<Pair>
    decreases acts
  {
    if acts == [] then []
    else
      var rest := Answers(AfterAct(s, acts[0]), acts[1..]);
      if AnswerTo(s, acts[0]).Some? then AnswerTo(s, acts[0]).value + rest else rest
  }

  /** The users at the first Grants that sees any. */
  function FirstSeen(s: Site, acts: seq<Act>): seq<User>
    decreases acts
  {
    if s.cache != [] then s.cache
    else if acts == [] then []
    else FirstSeen(AfterAct(s, acts[0]), acts[1..])
  }

  predicate NoListing(acts: seq<Act>) {
    forall k :: 0 <= k < |acts| ==> !(acts[k].Listing? && !acts[k].fails)
  }

  /** The roles asked about with success while the builder saw no user at all, and those asked later. */
  function Early(s: Site, acts: seq<Act>): seq<string>
    decreases acts
  {
    if acts == [] || s.cache != [] then []
    else
      var rest := Early(AfterAct(s, acts[0]), acts[1..]);
      if AnswerTo(s, acts[0]).Some? && s.users == [] then [acts[0].role] + rest else rest
  }

  function Late(s: Site, acts: seq<Act>): seq<string>
    decreases acts
  {
    if acts == [] then []
    else
      var rest := Late(AfterAct(s, acts[0]), acts[1..]);
      if AnswerTo(s, acts[0]).Some? && Snapshot(s.cache, s.users) != [] then [acts[0].role] + rest else rest
  }

  lemma SyncGrantsSnoc(users: seq<User>, roles: seq<string>, role: string)
    ensures SyncGrants(users, roles + [role]) == SyncGrants(users, roles) + GrantsIn(users, role)
  {
    assert (roles + [role])[..|roles|] == roles;
  }

  lemma {:induction false} SyncGrantsConcat(users: seq<User>, a: seq<string>, b: seq<string>)
    ensures SyncGrants(users, a + b) == SyncGrants(users, a) + SyncGrants(users, b)
  {
    if b == [] {
      assert a + b == a;
    } else {
      var front, last := b[..|b| - 1], b[|b| - 1];
      assert a + b == (a + front) + [last] && b == front + [last];
      SyncGrantsConcat(users, a, front);
      SyncGrantsSnoc(users, a + front, last);
      SyncGrantsSnoc(users, front, last);
    }
  }

  lemma {:induction false} AskedSplits(s: Site, acts: seq<Act>)
    requires NoListing(acts)
    ensures Asked(s, acts) == Early(s, acts) + Late(s, acts)
    decreases acts
  {
    if acts != [] {
      assert NoListing(acts[1..]);
      AskedSplits(AfterAct(s, acts[0]), acts[1..]);
    }
  }

  /** A builder that holds users answers from them and keeps them. */
  lemma {:induction false} CacheAnswers(s: Site, acts: seq<Act>)
    requires NoListing(acts) && s.cache != []
    ensures Answers(s, acts) == SyncGrants(s.cache, Late(s, acts))
    decreases acts
  {
    if acts != [] {
      assert NoListing(acts[1..]);
      var next := AfterAct(s, acts[0]);
      assert next.cache == s.cache;
      CacheAnswers(next, acts[1..]);
      if AnswerTo(s, acts[0]).Some? {
        OneRole(s.cache, acts[0].role);
        SyncGrantsConcat(s.cache, [acts[0].role], Late(next, acts[1..]));
      }
    }
  }

  /** One snapshot between Lists, whatever changes on the server and whichever calls fail: every Grants
      that sees a user answers from the users the first such call saw. Those before it saw none, and
      answered nothing; an empty user list is not kept. */
  lemma {:induction false} OneSnapshot(s: Site, acts: seq<Act>)
    requires NoListing(acts)
    ensures Answers(s, acts) == SyncGrants(FirstSeen(s, acts), Late(s, acts))
    ensures Asked(s, acts) == Early(s, acts) + Late(s, acts)
    decreases acts
  {
    AskedSplits(s, acts);
    if s.cache != [] {
      CacheAnswers(s, acts);
    } else if acts != [] {
      assert NoListing(acts[1..]);
      var next := AfterAct(s, acts[0]);
      OneSnapshot(next, acts[1..]);
      if AnswerTo(s, acts[0]).Some? {
        OneRole(s.users, acts[0].role);
        SyncGrantsConcat(s.users, [acts[0].role], Late(next, acts[1..]));
      }
    }
  }

  lemma OneRole(users: seq<User>, role: string)
    ensures SyncGrants(users, [role]) == GrantsIn(users, role)
    ensures GrantsIn([], role) == []
  {
    assert SyncGrants(users, []) == [];
  }

  lemma DistinctTail(a: seq<string>, b: seq<string>)
    requires DistinctStrings(a + b)
    ensures DistinctStrings(b)
  {
    forall i, j | 0 <= i < j < |b| ensures b[i] != b[j] {
      assert (a + b)[|a| + i] == b[i] && (a + b)[|a| + j] == b[j];
    }
  }

  /** So a sync that asks about distinct roles, List to List, emits each membership of its one snapshot as
      often as it occurs there, for the roles asked about since the builder first saw a user. */
  lemma SyncConserves(s: Site, acts: seq<Act>, p: Pair)
    requires NoListing(acts) && DistinctStrings(Asked(s, acts))
    ensures multiset(Answers(s, acts))[p]
      == if p.role in Late(s, acts) then multiset(AllHeld(FirstSeen(s, acts)))[p] else 0
  {
    OneSnapshot(s, acts);
    var early, late := Early(s, acts), Late(s, acts);
    DistinctTail(early, late);
    FullSyncConserves(FirstSeen(s, acts), late, p);
  }

  /** A Grants answers exactly when there is a cache or the server can be read, and every user of the cache, or
      else of the server, builds; and then with each membership of the role as often as it occurs. */
  lemma GrantsAnswers(s: Site, role: string, readsFail: bool, builds: User -> bool, p: Pair)
    ensures var answer := AnswerTo(s, Granting(role, readsFail, builds));
      var users := if s.cache != [] then s.cache else s.users;
      && (answer.Some? <==> (s.cache != [] || !readsFail) && forall i :: 0 <= i < |users| ==> builds(users[i]))
      && (answer.Some? ==>
            multiset(answer.value)[p] == if p.role == role then multiset(AllHeld(users))[p] else 0)
  {
    GrantsCount(Snapshot(s.cache, s.users), role, p);
  }

  /** The roles a run asks about. */
  function Requested(acts: seq<Act>): seq<string> {
    if acts == [] then []
    else (if acts[0].Granting? then [acts[0].role] else []) + Requested(acts[1..])
  }

  ghost predicate NothingFails(acts: seq<Act>) {
    forall k :: 0 <= k < |acts| ==> Works(acts[k])
  }

  ghost predicate Works(a: Act) {
    a.Granting? ==> !a.readsFail && forall u: User :: a.builds(u)
  }

  /** Where nothing fails, every role asked about is answered. */
  lemma {:induction false} AllAnswered(s: Site, acts: seq<Act>)
    requires NothingFails(acts)
    ensures Asked(s, acts) == Requested(acts)
    decreases acts
  {
    if acts != [] {
      assert Works(acts[0]);
      assert forall k :: 0 <= k < |acts[1..]| ==> acts[1..][k] == acts[k + 1];
      AllAnswered(AfterAct(s, acts[0]), acts[1..]);
    }
  }

  lemma {:induction false} NoneEarly(s: Site, acts: seq<Act>)
    requires s.cache != []
    ensures Early(s, acts) == []
  {
  }

  /** A sync that works, from its first Grants on: whatever changes on the server meanwhile, the roles asked
      about are all answered, with each membership of the users that first Grants read as often as it occurs. */
  lemma WorkingSync(s: Site, acts: seq<Act>, p: Pair)
    requires s.cache == [] && s.users != [] && acts != [] && acts[0].Granting?
    requires NoListing(acts) && NothingFails(acts) && DistinctStrings(Requested(acts))
    ensures multiset(Answers(s, acts))[p] == if p.role in Requested(acts) then multiset(AllHeld(s.users))[p] else 0
  {
    AllAnswered(s, acts);
    OneSnapshot(s, acts);
    SyncConserves(s, acts, p);
    assert Works(acts[0]);
    var next := AfterAct(s, acts[0]);
    assert next.cache == s.users;
    NoneEarly(next, acts[1..]);
    assert Early(s, acts) == [];
    assert [] + Late(s, acts) == Late(s, acts);
  }

  // ---- the audit log ----

  /** The record the server writes when a call goes through: the user's complete new role list. */
  function UpdateRecord(users: seq<User>, a: Attempt, id: string, at: Instant): AuditRecord
    requires HasUser(users, a.principal.name)
  {
    AuditRecord(id, at, "user.update",
      UserUpdate(a.principal.name, Changed(users, a)[IndexOf(users, a.principal.name)].roles))
  }

  /** Grants and revokes keep the relation equal to the fold of the audit log. */
  lemma AttemptKeepsTruth(users: seq<User>, a: Attempt, log: seq<AuditRecord>, id: string, at: Instant)
    requires DistinctNames(users) && Relation(users) == Truth(log) && Succeeds(users, a)
    ensures Relation(Attempted(users, a).1) == Truth(log + [UpdateRecord(users, a, id, at)])
  {
    AttemptSucceeds(users, a);
    var r := UpdateRecord(users, a, id, at);
    assert (log + [r])[..|log|] == log;
    var i, after := IndexOf(users, a.principal.name), Changed(users, a);
    forall p: Pair ensures p in Relation(after) <==> p in AfterRecord(Truth(log), r) {
      if p.user == a.principal.name {
        assert after[i].name == p.user;
        InRelation(after, i, p.role);
      } else {
        RelationFrame(users, after, p);
      }
    }
  }

  /** So the sync of a server whose log accounts for its users leaves the consumer with the truth, exactly
      when every role held is listed. */
  lemma SyncShowsTruth(users: seq<User>, roles: seq<string>, log: seq<AuditRecord>)
    requires Relation(users) == Truth(log) && DistinctStrings(roles)
    ensures (set p | p in SyncGrants(users, roles)) == Truth(log) <==> forall p :: p in Truth(log) ==> p.role in roles
  {
    FullSyncComplete(users, roles);
    var shown := set p | p in SyncGrants(users, roles);
    if shown == Truth(log) {
      assert forall p :: p in shown <==> p in SyncGrants(users, roles);
    }
  }
}

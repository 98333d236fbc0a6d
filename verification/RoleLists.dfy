/** The lists a grant or a revoke leaves a user with: roles, logins, and how often each occurs. */
module RoleLists {
  import opened Wrappers
  import opened Events
  import opened AuditRecords
  import opened Roles
  import opened RoleHistory

  function Max(a: int, b: int): int {
    if a < b then b else a
  }

  /** A login list that gained the user's own name: each login once, in the order of first occurrence. */
  ghost predicate LoginsKept(u: User, v: User) {
    && (forall l :: l in v.logins <==> l in u.logins || l == u.name)
    && DistinctStrings(v.logins)
    && forall a, b :: a != b ==> (Before(v.logins, a, b) <==> Before(u.logins + [u.name], a, b))
  }

  lemma LoginsOf(u: User)
    ensures LoginsKept(u, u.(logins := Deduplicate(u.logins + [u.name])))
  {
    DeduplicateKeeps(u.logins + [u.name]);
    forall a, b | a != b
      ensures Before(Deduplicate(u.logins + [u.name]), a, b) <==> Before(u.logins + [u.name], a, b)
    {
      DeduplicateOrder(u.logins + [u.name], a, b);
    }
  }

  /** The user's list after a grant: the old one with the role at its end unless it was there. */
  ghost predicate RoleGained(before: seq<string>, after: seq<string>, role: string) {
    && before <= after
    && multiset(after)[role] == Max(1, multiset(before)[role])
    && forall r :: r != role ==> multiset(after)[r] == multiset(before)[r]
  }

  lemma GrantedList(u: User, role: string)
    ensures RoleGained(u.roles, Granted(u, role).roles, role)
  {
    var roles := u.roles;
    assert role in roles <==> multiset(roles)[role] > 0;
    assert multiset(roles + [role]) == multiset(roles) + multiset{role};
  }

  lemma TargetChanged(users: seq<User>, a: Attempt, i: nat)
    requires DistinctNames(users) && Succeeds(users, a) && i < |users| && users[i].name == a.principal.name
    ensures var v := Attempted(users, a).1[i];
      v == if a.grants then Granted(users[i], a.role) else Revoked(users[i], a.role)
  {
    AttemptSucceeds(users, a);
    var k := IndexOf(users, a.principal.name);
    assert k == i;
  }

  /** A successful grant: the old roles are the front of the new ones, the role occurs once if it did not
      before and as often as before if it did, every other role as often as before; the name is the same and
      no login is lost. */
  lemma GrantEffect(users: seq<User>, a: Attempt, i: nat)
    requires DistinctNames(users) && Succeeds(users, a) && a.grants
    requires i < |users| && users[i].name == a.principal.name
    ensures |Attempted(users, a).1| == |users|
    ensures var u, v := users[i], Attempted(users, a).1[i];
      v.name == u.name && RoleGained(u.roles, v.roles, a.role) && LoginsKept(u, v)
  {
    AttemptSucceeds(users, a);
    TargetChanged(users, a, i);
    GrantedList(users[i], a.role);
    LoginsOf(users[i]);
  }

  /** A successful revoke keeps name and logins the same way; its roles are those of RevokeKeepsTheRest. */
  lemma RevokeEffect(users: seq<User>, a: Attempt, i: nat)
    requires DistinctNames(users) && Succeeds(users, a) && !a.grants
    requires i < |users| && users[i].name == a.principal.name
    ensures |Attempted(users, a).1| == |users|
    ensures var u, v := users[i], Attempted(users, a).1[i];
      && v.name == u.name && LoginsKept(u, v)
      && (forall r :: r in v.roles <==> r in u.roles && r != a.role) && DistinctStrings(v.roles)
      && (forall x, y :: x != y && x != a.role && y != a.role ==> (Before(v.roles, x, y) <==> Before(u.roles, x, y)))
  {
    AttemptSucceeds(users, a);
    TargetChanged(users, a, i);
    RevokeKeepsTheRest(users[i], a.role);
    LoginsOf(users[i]);
  }

  // ---- again ----

  lemma {:induction false} DistinctStays(xs: seq<string>)
    requires DistinctStrings(xs)
    ensures Deduplicate(xs) == xs
  {
    if xs != [] {
      var n := |xs| - 1;
      DistinctStays(xs[..n]);
      assert xs[n] !in xs[..n];
      assert xs == xs[..n] + [xs[n]];
    }
  }

  lemma LoginsAgain(u: User)
    ensures var v := u.(logins := Deduplicate(u.logins + [u.name]));
      Deduplicate(v.logins + [v.name]) == v.logins
  {
    var logins := Deduplicate(u.logins + [u.name]);
    DeduplicateKeeps(u.logins + [u.name]);
    DistinctStays(logins);
    assert u.name in u.logins + [u.name];
    assert (logins + [u.name])[..|logins|] == logins;
  }

  /** Granting what was just granted changes nothing. */
  lemma GrantAgain(u: User, role: string)
    ensures Granted(Granted(u, role), role) == Granted(u, role)
  {
    LoginsAgain(u);
    assert role in Granted(u, role).roles;
  }

  lemma AttemptAgain(users: seq<User>, a: Attempt)
    requires DistinctNames(users) && Succeeds(users, a) && a.grants
    ensures var after := Attempted(users, a).1; Attempted(after, a).1 == after
  {
    var i := IndexOf(users, a.principal.name);
    var after := Attempted(users, a).1;
    AttemptSucceeds(users, a);
    OneAttempt(users, a, Pair("", ""));
    SucceedsByNames(users, after, a);
    AttemptSucceeds(after, a);
    assert after[i].name == a.principal.name;
    assert IndexOf(after, a.principal.name) == i;
    GrantAgain(users[i], a.role);
  }

  // ---- over histories ----

  ghost predicate DistinctRoleLists(users: seq<User>) {
    forall i :: 0 <= i < |users| ==> DistinctStrings(users[i].roles)
  }

  lemma GrantKeepsDistinct(u: User, role: string)
    requires DistinctStrings(u.roles)
    ensures DistinctStrings(Granted(u, role).roles)
  {
  }

  lemma AttemptKeepsDistinct(users: seq<User>, a: Attempt)
    requires DistinctNames(users) && DistinctRoleLists(users)
    ensures DistinctRoleLists(Attempted(users, a).1)
  {
    AttemptSucceeds(users, a);
    if Succeeds(users, a) {
      var k := IndexOf(users, a.principal.name);
      if a.grants {
        GrantKeepsDistinct(users[k], a.role);
      } else {
        RevokeKeepsTheRest(users[k], a.role);
      }
    }
  }

  /** Role lists without repeats stay so over any history. */
  lemma {:induction false} DistinctRolesStay(users: seq<User>, attempts: seq<Attempt>)
    requires DistinctNames(users) && DistinctRoleLists(users)
    ensures DistinctNames(AfterAll(users, attempts)) && DistinctRoleLists(AfterAll(users, attempts))
  {
    if attempts != [] {
      var n := |attempts| - 1;
      DistinctRolesStay(users, attempts[..n]);
      AttemptKeepsDistinct(AfterAll(users, attempts[..n]), attempts[n]);
      MembershipHistory(users, attempts, Pair("", ""));
    }
  }

  lemma {:induction false} HeldOnce(users: seq<User>, p: Pair)
    requires DistinctNames(users) && DistinctRoleLists(users)
    ensures multiset(AllHeld(users))[p] <= 1
    ensures multiset(AllHeld(users))[p] == 1 ==> exists i :: 0 <= i < |users| && users[i].name == p.user
  {
    if users != [] {
      var n := |users| - 1;
      HeldOnce(users[..n], p);
      HeldOfOnce(users[n].name, users[n].roles, p);
      assert AllHeld(users) == AllHeld(users[..n]) + HeldOf(users[n].name, users[n].roles);
    }
  }

  lemma {:induction false} HeldOfOnce(name: string, roles: seq<string>, p: Pair)
    requires DistinctStrings(roles)
    ensures multiset(HeldOf(name, roles))[p] <= 1
    ensures multiset(HeldOf(name, roles))[p] == 1 ==> name == p.user && p.role in roles
  {
    if roles != [] {
      var n := |roles| - 1;
      HeldOfOnce(name, roles[..n], p);
      assert HeldOf(name, roles) == HeldOf(name, roles[..n]) + [Pair(name, roles[n])];
    }
  }

  /** So after any history Grants answers each pair at most once. */
  lemma GrantsAtMostOnce(users: seq<User>, attempts: seq<Attempt>, role: string, p: Pair)
    requires DistinctNames(users) && DistinctRoleLists(users)
    ensures multiset(GrantsIn(AfterAll(users, attempts), role))[p] <= 1
  {
    DistinctRolesStay(users, attempts);
    HeldOnce(AfterAll(users, attempts), p);
    GrantsCount(AfterAll(users, attempts), role, p);
  }

  // ---- errors ----

  /** Which error a call ends with: the first of these that applies, in this order. */
  lemma AttemptErrors(users: seq<User>, a: Attempt)
    ensures var error := Attempted(users, a).0;
      var notUser := a.principal.resourceType != "user";
      var badRole := a.grants && (a.role == "" || a.principal.name == "*");
      var unread := a.readsFail || a.principal.name == "";
      var unknown := forall i :: 0 <= i < |users| ==> users[i].name != a.principal.name;
      error ==
        if notUser then Some(OnlyUsers)
        else if badRole then Some(BadRole)
        else if unread then Some(ReadFailed)
        else if unknown then Some(NoSuchUser)
        else if a.writesFail then Some(WriteFailed)
        else None
  {
    var i := IndexOf(users, a.principal.name);
    assert i < |users| ==> users[i].name == a.principal.name;
  }
}

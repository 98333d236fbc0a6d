/** Role membership on the server, and the role builder that lists, grants and revokes it. */
module Roles {
  import opened Wrappers
  import opened Events
  import opened AuditRecords

  datatype User = User(name: string, roles: seq<string>, logins: seq<string>)

  datatype Principal = Principal(resourceType: string, name: string)

  datatype RoleError = OnlyUsers | BadRole | ReadFailed | NoSuchUser | WriteFailed

  // ---- values ----

  /** utils.Deduplicate: the first occurrence of each, in order. */
  function Deduplicate(xs: seq<string>): seq<string> {
    if xs == [] then []
    else
      var front := Deduplicate(xs[..|xs| - 1]);
      if xs[|xs| - 1] in front then front else front + [xs[|xs| - 1]]
  }

  function AddRole(roles: seq<string>, role: string): seq<string> {
    if role in roles then roles else roles + [role]
  }

  function Dropped(roles: seq<string>, role: string): seq<string> {
    if roles == [] then []
    else Dropped(roles[..|roles| - 1], role) + if roles[|roles| - 1] == role then [] else [roles[|roles| - 1]]
  }

  function Granted(u: User, role: string): User {
    u.(logins := Deduplicate(u.logins + [u.name]), roles := AddRole(u.roles, role))
  }

  function Revoked(u: User, role: string): User {
    u.(logins := Deduplicate(u.logins + [u.name]), roles := Deduplicate(Dropped(u.roles, role)))
  }

  ghost predicate DistinctNames(users: seq<User>) {
    forall i, j :: 0 <= i < j < |users| ==> users[i].name != users[j].name
  }

  /** Where the user is, or the length when there is none. */
  function IndexOf(users: seq<User>, name: string): (i: nat)
    ensures i <= |users| && (i < |users| ==> users[i].name == name)
    ensures forall j :: 0 <= j < i ==> users[j].name != name
  {
    if users == [] then 0
    else
      var i := IndexOf(users[..|users| - 1], name);
      if i < |users| - 1 then i else if users[|users| - 1].name == name then |users| - 1 else |users|
  }

  /** The grants of one role: one per occurrence in a user's role list, in user order. */
  function UserGrants(name: string, roles: seq<string>, role: string): seq<Pair> {
    if roles == [] then []
    else UserGrants(name, roles[..|roles| - 1], role) + if roles[|roles| - 1] == role then [Pair(name, role)] else []
  }

  function GrantsIn(users: seq<User>, role: string): seq<Pair> {
    if users == [] then []
    else GrantsIn(users[..|users| - 1], role) + UserGrants(users[|users| - 1].name, users[|users| - 1].roles, role)
  }

  function HeldOf(name: string, roles: seq<string>): seq<Pair> {
    seq(|roles|, i requires 0 <= i < |roles| => Pair(name, roles[i]))
  }

  /** Every membership, once per occurrence in a role list. */
  function AllHeld(users: seq<User>): seq<Pair> {
    if users == [] then []
    else
      var u := users[|users| - 1];
      AllHeld(users[..|users| - 1]) + HeldOf(u.name, u.roles)
  }

  /** The pairs of one role, in their order. */
  function OfRole(ps: seq<Pair>, role: string): seq<Pair> {
    if ps == [] then []
    else OfRole(ps[..|ps| - 1], role) + if ps[|ps| - 1].role == role then [ps[|ps| - 1]] else []
  }

  lemma {:induction false} OfRoleConcat(a: seq<Pair>, b: seq<Pair>, role: string)
    ensures OfRole(a + b, role) == OfRole(a, role) + OfRole(b, role)
  {
    if b == [] {
      assert a + b == a;
    } else {
      assert (a + b)[..|a + b| - 1] == a + b[..|b| - 1];
      OfRoleConcat(a, b[..|b| - 1], role);
    }
  }

  lemma {:induction false} UserGrantsAreOfRole(name: string, roles: seq<string>, role: string)
    ensures UserGrants(name, roles, role) == OfRole(HeldOf(name, roles), role)
  {
    if roles != [] {
      var n := |roles| - 1;
      UserGrantsAreOfRole(name, roles[..n], role);
      assert HeldOf(name, roles)[..n] == HeldOf(name, roles[..n]);
    }
  }

  /** The grants of a role are the memberships of that role, in their order. */
  lemma {:induction false} GrantsAreOfRole(users: seq<User>, role: string)
    ensures GrantsIn(users, role) == OfRole(AllHeld(users), role)
  {
    if users != [] {
      var n := |users| - 1;
      GrantsAreOfRole(users[..n], role);
      UserGrantsAreOfRole(users[n].name, users[n].roles, role);
      OfRoleConcat(AllHeld(users[..n]), HeldOf(users[n].name, users[n].roles), role);
    }
  }

  lemma {:induction false} UserGrantsCount(name: string, roles: seq<string>, role: string, p: Pair)
    ensures multiset(UserGrants(name, roles, role))[p] == if p.role == role then multiset(HeldOf(name, roles))[p] else 0
  {
    if roles != [] {
      var n := |roles| - 1;
      UserGrantsCount(name, roles[..n], role, p);
      assert HeldOf(name, roles) == HeldOf(name, roles[..n]) + [Pair(name, roles[n])];
    }
  }

  lemma {:induction false} GrantsCount(users: seq<User>, role: string, p: Pair)
    ensures multiset(GrantsIn(users, role))[p] == if p.role == role then multiset(AllHeld(users))[p] else 0
  {
    if users != [] {
      var n := |users| - 1;
      GrantsCount(users[..n], role, p);
      UserGrantsCount(users[n].name, users[n].roles, role, p);
      assert AllHeld(users) == AllHeld(users[..n]) + HeldOf(users[n].name, users[n].roles);
    }
  }

  predicate AllBuild<T>(xs: seq<T>, builds: T -> bool) {
    forall i :: 0 <= i < |xs| ==> builds(xs[i])
  }

  /** What Grants answers, from a cache or from the users on the server. */
  function GrantsAnswer(cache: seq<User>, users: seq<User>, readsFail: bool, builds: User -> bool,
      role: string): Option<seq<Pair>>
  {
    if cache == [] && readsFail then None
    else if !AllBuild(Snapshot(cache, users), builds) then None
    else Some(GrantsIn(Snapshot(cache, users), role))
  }

  // ---- objects ----

  class TeleportServer {
    var users: seq<User>
    var roleNames: seq<string>
    var readsFail: bool
    var writesFail: bool

    ghost predicate Valid()
      reads this
    {
      DistinctNames(users)
    }

    method GetUsers() returns (r: Option<seq<User>>)
      ensures r == if readsFail then None else Some(users)
    {
      if readsFail { return None; }
      return Some(users);
    }

    method GetUser(name: string) returns (r: Result<User, RoleError>)
      ensures r == FindUser(users, readsFail, name)
    {
      if readsFail || name == "" { return Failure(ReadFailed); }
      var i := IndexOf(users, name);
      if i == |users| { return Failure(NoSuchUser); }
      return Success(users[i]);
    }

    method UpdateUser(u: User) returns (ok: bool)
      requires Valid() && IndexOf(users, u.name) < |users|
      modifies this`users
      ensures Valid()
      ensures ok == !writesFail
      ensures users == if ok then old(users)[IndexOf(old(users), u.name) := u] else old(users)
    {
      if writesFail { return false; }
      users := users[IndexOf(users, u.name) := u];
      return true;
    }
  }

  function FindUser(users: seq<User>, readsFail: bool, name: string): Result<User, RoleError> {
    if readsFail || name == "" then Failure(ReadFailed)
    else if IndexOf(users, name) == |users| then Failure(NoSuchUser)
    else Success(users[IndexOf(users, name)])
  }

  /** A call to Grant or Revoke, and whether the server's reads and writes fail during it. */
  datatype Attempt = Attempt(grants: bool, principal: Principal, role: string, readsFail: bool, writesFail: bool)

  /** The error of a call that stops before the update, if any. Grant builds a role first, which fails
      without a name or with the wildcard as a login. */
  function Refusal(users: seq<User>, a: Attempt): Option<RoleError> {
    if a.principal.resourceType != USER_TYPE then Some(OnlyUsers)
    else if a.grants && (a.role == "" || a.principal.name == "*") then Some(BadRole)
    else
      match FindUser(users, a.readsFail, a.principal.name)
      case Failure(e) => Some(e)
      case Success(_) => None
  }

  function Changed(users: seq<User>, a: Attempt): seq<User> {
    var i := IndexOf(users, a.principal.name);
    if i == |users| then users
    else users[i := if a.grants then Granted(users[i], a.role) else Revoked(users[i], a.role)]
  }

  /** The error returned and the users afterwards. */
  function Attempted(users: seq<User>, a: Attempt): (Option<RoleError>, seq<User>) {
    match Refusal(users, a)
    case Some(e) => (Some(e), users)
    case None => if a.writesFail then (Some(WriteFailed), users) else (None, Changed(users, a))
  }

  class RoleBuilder {
    var userCache: seq<User>

    constructor ()
      ensures userCache == []
    {
      userCache := [];
    }

    /** A non-empty cache answers; otherwise the server does, and its answer is cached. */
    method GetUsers(client: TeleportServer) returns (r: Option<seq<User>>)
      modifies this
      ensures old(userCache) != [] ==> r == Some(old(userCache)) && userCache == old(userCache)
      ensures old(userCache) == [] && client.readsFail ==> r == None && userCache == old(userCache)
      ensures old(userCache) == [] && !client.readsFail ==> r == Some(client.users) && userCache == client.users
    {
      if |userCache| != 0 {
        return Some(userCache);
      }
      r := client.GetUsers();
      if r.None? {
        return None;
      }
      userCache := r.value;
    }

    /** The role names, unless the server fails or a role's resource cannot be built; only then is the cache
        not dropped. */
    method List(client: TeleportServer, builds: string -> bool) returns (r: Option<seq<string>>)
      modifies this
      ensures r == if client.readsFail || !AllBuild(client.roleNames, builds) then None else Some(client.roleNames)
      ensures userCache == if r.None? then old(userCache) else []
    {
      if client.readsFail {
        return None;
      }
      var roles := client.roleNames;
      var rv: seq<string> := [];
      for i := 0 to |roles|
        invariant rv == roles[..i] && AllBuild(roles[..i], builds) && userCache == old(userCache)
      {
        if !builds(roles[i]) {
          return None;
        }
        rv := rv + [roles[i]];
      }
      assert roles[..|roles|] == roles;
      userCache := [];
      return Some(rv);
    }

    /** One grant per occurrence of the role, unless there is neither a cache nor a server, or the resource of
        some user, holding the role or not, cannot be built. The users stay cached either way. */
    method Grants(client: TeleportServer, role: string, builds: User -> bool) returns (r: Option<seq<Pair>>)
      modifies this
      ensures r == GrantsAnswer(old(userCache), client.users, client.readsFail, builds, role)
      ensures var users := if old(userCache) != [] then old(userCache) else client.users;
        && (r.Some? <==>
              (old(userCache) != [] || !client.readsFail) && forall i :: 0 <= i < |users| ==> builds(users[i]))
        && (r.Some? ==> r.value == OfRole(AllHeld(users), role))
      ensures userCache
        == if old(userCache) == [] && client.readsFail then old(userCache) else Snapshot(old(userCache), client.users)
    {
      var answer := GetUsers(client);
      if answer.None? {
        return None;
      }
      var users := answer.value;
      var rv: seq<Pair> := [];
      for i := 0 to |users|
        invariant rv == GrantsIn(users[..i], role) && AllBuild(users[..i], builds)
        invariant userCache == Snapshot(old(userCache), client.users)
      {
        assert users[..i + 1][..i] == users[..i];
        if !builds(users[i]) {
          return None;
        }
        var roles := users[i].roles;
        ghost var before := rv;
        for j := 0 to |roles|
          invariant rv == before + UserGrants(users[i].name, roles[..j], role)
        {
          assert roles[..j + 1][..j] == roles[..j];
          if roles[j] != role {
            continue;
          }
          rv := rv + [Pair(users[i].name, role)];
        }
        assert roles[..|roles|] == roles;
      }
      assert users[..|users|] == users;
      GrantsAreOfRole(users, role);
      return Some(rv);
    }

    method Grant(client: TeleportServer, principal: Principal, role: string) returns (error: Option<RoleError>)
      requires client.Valid()
      modifies client`users
      ensures client.Valid()
      ensures (error, client.users)
        == Attempted(old(client.users), Attempt(true, principal, role, client.readsFail, client.writesFail))
    {
      if principal.resourceType != USER_TYPE {
        return Some(OnlyUsers);
      }
      if role == "" || principal.name == "*" {
        return Some(BadRole);
      }
      var answer := client.GetUser(principal.name);
      if answer.Failure? {
        return Some(answer.error);
      }
      var user := answer.value;
      user := user.(logins := Deduplicate(user.logins + [principal.name]));
      user := user.(roles := AddRole(user.roles, role));
      var ok := client.UpdateUser(user);
      return if ok then None else Some(WriteFailed);
    }

    method Revoke(client: TeleportServer, principal: Principal, role: string) returns (error: Option<RoleError>)
      requires client.Valid()
      modifies client`users
      ensures client.Valid()
      ensures (error, client.users)
        == Attempted(old(client.users), Attempt(false, principal, role, client.readsFail, client.writesFail))
    {
      if principal.resourceType != USER_TYPE {
        return Some(OnlyUsers);
      }
      var answer := client.GetUser(principal.name);
      if answer.Failure? {
        return Some(answer.error);
      }
      var user := answer.value;
      user := user.(logins := Deduplicate(user.logins + [principal.name]));
      var roleList: seq<string> := [];
      for i := 0 to |user.roles|
        invariant roleList == Dropped(user.roles[..i], role)
      {
        assert user.roles[..i + 1][..i] == user.roles[..i];
        if user.roles[i] != role {
          roleList := roleList + [user.roles[i]];
        }
      }
      assert user.roles[..|user.roles|] == user.roles;
      user := user.(roles := Deduplicate(roleList));
      var ok := client.UpdateUser(user);
      return if ok then None else Some(WriteFailed);
    }
  }

  function Snapshot(cache: seq<User>, users: seq<User>): seq<User> {
    if cache != [] then cache else users
  }
}

/** What the events of one record say, and which records move the cursor. */
module RecordEvents {
  import opened Events
  import opened AuditRecords
  import opened FeedPage
  import opened FeedRefinement
  import AuditFeed

  // ---- the events of a record ----

  /** The role names that count, in order. */
  function NonEmpty(roles: seq<string>): seq<string> {
    if roles == [] then []
    else NonEmpty(roles[..|roles| - 1]) + if roles[|roles| - 1] == "" then [] else [roles[|roles| - 1]]
  }

  lemma {:induction false} NonEmptyMembers(roles: seq<string>)
    ensures forall role :: role in NonEmpty(roles) <==> role in roles && role != ""
  {
    if roles != [] {
      var n := |roles| - 1;
      assert roles == roles[..n] + [roles[n]];
      NonEmptyMembers(roles[..n]);
    }
  }

  /** One grant per non-empty role, in the order of the roles. */
  lemma {:induction false} GrantsInOrder(id: string, t: Instant, user: string, roles: seq<string>)
    ensures var es, names := AuditFeed.RoleGrants(id, t, user, roles), NonEmpty(roles);
      |es| == |names| && forall i :: 0 <= i < |es| ==> es[i] == CreateGrant(id + ":role:" + names[i], t, names[i], user)
  {
    if roles != [] {
      GrantsInOrder(id, t, user, roles[..|roles| - 1]);
    }
  }

  lemma {:induction false} RevokesInOrder(id: string, t: Instant, user: string, roles: seq<string>)
    ensures var es, names := AuditFeed.RoleRevokes(id, t, user, roles), NonEmpty(roles);
      && |es| == |names|
      && forall i :: 0 <= i < |es| ==> es[i] == CreateRevoke(id + ":role:" + names[i], t, names[i], user)
  {
    if roles != [] {
      RevokesInOrder(id, t, user, roles[..|roles| - 1]);
    }
  }

  predicate NamesRole(roles: seq<string>, role: string) {
    role in roles && role != ""
  }

  predicate GrantOf(id: string, t: Instant, user: string, roles: seq<string>, e: Event) {
    e.CreateGrant? && NamesRole(roles, e.role) && e == CreateGrant(id + ":role:" + e.role, t, e.role, user)
  }

  predicate RevokeOf(id: string, t: Instant, user: string, roles: seq<string>, e: Event) {
    e.CreateRevoke? && NamesRole(roles, e.role) && e == CreateRevoke(id + ":role:" + e.role, t, e.role, user)
  }

  /** What a record has to tell, in the terms of the audit log. */
  predicate Tells(requests: Requests, r: AuditRecord, e: Event) {
    match r.body
    case UserCreate(name, roles) => TellsUser(r, name, roles, e)
    case UserUpdate(name, roles) => TellsUser(r, name, roles, e)
    case RoleCreate(name) => name != "" && e == ResourceChange(r.id, r.time, "role", name)
    case RoleUpdate(name) => name != "" && e == ResourceChange(r.id, r.time, "role", name)
    case LockCreate(user) => user != "" && e == ResourceChange(r.id, r.time, "user", user)
    case LockDelete(user) => user != "" && e == ResourceChange(r.id, r.time, "user", user)
    case AccessRequest(user, id, state) =>
      user == "" && id != "" && TellsRequest(r, state, requests(id), e)
    case _ => false
  }

  predicate TellsLogin(r: AuditRecord, e: Event) {
    && r.body.UserLogin? && r.body.success && e.Usage? && e.id == r.id && e.at == r.time && e.user == r.body.user
    && e.cluster == (if r.body.clusterName == "" then "teleport" else r.body.clusterName)
  }

  /** What a record has to tell the consumer of a feed. */
  predicate TellsIn(feed: Feed, requests: Requests, r: AuditRecord, e: Event) {
    match feed
    case Audits => Tells(requests, r, e)
    case Logins => TellsLogin(r, e)
  }

  predicate TellsUser(r: AuditRecord, name: string, roles: seq<string>, e: Event) {
    name != "" && (e == ResourceChange(r.id, r.time, "user", name) || GrantOf(r.id, r.time, name, roles, e))
  }

  predicate TellsRequest(r: AuditRecord, state: string, found: Lookup, e: Event) {
    && found.Request? && found.user != ""
    && ((state == "APPROVED" && GrantOf(r.id, r.time, found.user, found.roles, e))
        || (state == "EXPIRED" && RevokeOf(r.id, r.time, found.user, found.roles, e)))
  }

  lemma GrantsAre(id: string, t: Instant, user: string, roles: seq<string>, e: Event)
    ensures e in AuditFeed.RoleGrants(id, t, user, roles) <==> GrantOf(id, t, user, roles, e)
    ensures e in AuditFeed.RoleRevokes(id, t, user, roles) <==> RevokeOf(id, t, user, roles, e)
  {
    NonEmptyMembers(roles);
    GrantsInOrder(id, t, user, roles);
    RevokesInOrder(id, t, user, roles);
    var names := NonEmpty(roles);
    if GrantOf(id, t, user, roles, e) {
      var i :| 0 <= i < |names| && names[i] == e.role;
      assert AuditFeed.RoleGrants(id, t, user, roles)[i] == e;
    }
    if RevokeOf(id, t, user, roles, e) {
      var i :| 0 <= i < |names| && names[i] == e.role;
      assert AuditFeed.RoleRevokes(id, t, user, roles)[i] == e;
    }
  }

  lemma RequestTells(requests: Requests, r: AuditRecord, e: Event)
    requires AuditFeed.IsStateChange(r)
    ensures e in Converted(Audits, requests, r).events
      <==> r.body.requestId != "" && TellsRequest(r, r.body.requestState, requests(r.body.requestId), e)
  {
    var id := r.body.requestId;
    if id != "" && requests(id).Request? {
      GrantsAre(r.id, r.time, requests(id).user, requests(id).roles, e);
    }
  }

  /** A record becomes exactly the events it has to tell. */
  lemma RecordTells(requests: Requests, r: AuditRecord, e: Event)
    ensures e in Converted(Audits, requests, r).events <==> Tells(requests, r, e)
  {
    match r.body
    case UserCreate(name, roles) => GrantsAre(r.id, r.time, name, roles, e);
    case UserUpdate(name, roles) => GrantsAre(r.id, r.time, name, roles, e);
    case AccessRequest(user, id, state) =>
      if user == "" {
        RequestTells(requests, r, e);
      }
    case _ =>
  }

  /** A login becomes one usage event of its cluster if it succeeded; nothing else does. */
  lemma LoginTells(requests: Requests, r: AuditRecord, e: Event)
    ensures e in Converted(Logins, requests, r).events <==> TellsLogin(r, e)
    ensures |Converted(Logins, requests, r).events| <= 1
  {
  }

  /** A user record's events: the resource change first, then one grant for each non-empty role, in role
      order. */
  lemma UserEventsInOrder(requests: Requests, r: AuditRecord)
    requires (r.body.UserCreate? || r.body.UserUpdate?) && r.body.name != ""
    ensures var es, names := Converted(Audits, requests, r).events, NonEmpty(r.body.roles);
      && |es| == 1 + |names|
      && es[0] == ResourceChange(r.id, r.time, "user", r.body.name)
      && forall i :: 0 <= i < |names| ==>
           es[1 + i] == CreateGrant(r.id + ":role:" + names[i], r.time, names[i], r.body.name)
  {
    GrantsInOrder(r.id, r.time, r.body.name, r.body.roles);
  }

  // ---- what the filter lets through ----

  lemma Unfetched(requests: Requests, r: AuditRecord, e: Event)
    requires Typed(r) && r.eventType !in EventTypes(Audits)
    ensures !Tells(requests, r, e)
  {
    var types := EventTypes(Audits);
    assert types[0] == "user.create" && types[1] == "user.update";
    assert types[2] == "role.created" && types[3] == "role.updated";
    assert types[4] == "access_request.review" && types[5] == "access_request.update";
    assert types[6] == "access_request.expire";
    assert types[7] == "lock.created" && types[8] == "lock.deleted";
  }

  /** What a feed makes of a record of the log is exactly what the record has to tell: the filter leaves out
      nothing that matters. */
  lemma EntryTells(feed: Feed, requests: Requests, r: AuditRecord, e: Event)
    requires Typed(r)
    ensures e in EntryOf(feed, requests, r).outputs <==> TellsIn(feed, requests, r, e)
  {
    match feed
    case Audits =>
      if r.eventType in EventTypes(Audits) {
        RecordTells(requests, r, e);
      } else {
        Unfetched(requests, r, e);
      }
    case Logins => LoginTells(requests, r, e);
  }

  // ---- the cursor ----

  /** Records whose time the cursor never sees: nameless ones, submitted requests, and all other kinds. */
  predicate Ignored(feed: Feed, r: AuditRecord) {
    match feed
    case Logins => !r.body.UserLogin?
    case Audits =>
      match r.body
      case UserCreate(name, _) => name == ""
      case UserUpdate(name, _) => name == ""
      case RoleCreate(name) => name == ""
      case RoleUpdate(name) => name == ""
      case LockCreate(user) => user == ""
      case LockDelete(user) => user == ""
      case AccessRequest(user, _, _) => user != ""
      case _ => true
  }

  /** The cursor sees the time of a record, with or without events, unless the record is ignored; an
      ignored record has no events, so none is ever delivered without its time being seen. */
  lemma CursorSees(feed: Feed, requests: Requests, r: AuditRecord)
    ensures Converted(feed, requests, r).at == if Ignored(feed, r) then ZERO_TIME else r.time
    ensures Ignored(feed, r) ==> Converted(feed, requests, r).events == []
  {
  }
}

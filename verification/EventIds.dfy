/** The ids the audit converter derives identify the events of the whole log. */
module EventIds {
  import opened Events
  import opened EventLog
  import opened AuditRecords
  import opened FeedPage
  import opened FeedRefinement
  import opened ExactlyOnce
  import AuditFeed

  predicate ColonFree(s: string) {
    ':' !in s
  }

  /** The part of an id before its first colon. */
  function Base(s: string): string {
    if s == "" || s[0] == ':' then "" else [s[0]] + Base(s[1..])
  }

  lemma {:induction false} BaseOfRoleId(id: string, rest: string)
    requires ColonFree(id) && (rest == "" || rest[0] == ':')
    ensures Base(id + rest) == id
  {
    if id == "" {
      assert id + rest == rest;
    } else {
      assert (id + rest)[1..] == id[1..] + rest;
      BaseOfRoleId(id[1..], rest);
    }
  }

  lemma RoleIdsDiffer(id: string, a: string, b: string)
    ensures AuditFeed.RoleEventId(id, a) == AuditFeed.RoleEventId(id, b) ==> a == b
    ensures AuditFeed.RoleEventId(id, a) != id
  {
    var x, y := AuditFeed.RoleEventId(id, a), AuditFeed.RoleEventId(id, b);
    var n := |id| + 6;
    assert x[n..] == a && y[n..] == b;
    assert |x| > |id|;
  }

  /** Role names that occur twice would share an event id; empty ones emit nothing. */
  ghost predicate DistinctRoles(roles: seq<string>) {
    forall i, j :: 0 <= i < j < |roles| && roles[i] != "" ==> roles[i] != roles[j]
  }

  /** The roles a record's events name. */
  function RolesOf(requests: Requests, r: AuditRecord): seq<string> {
    match r.body
    case UserCreate(_, roles) => roles
    case UserUpdate(_, roles) => roles
    case AccessRequest(_, id, _) => if requests(id).Request? then requests(id).roles else []
    case _ => []
  }

  ghost predicate RoleIds(es: seq<Event>, id: string, roles: seq<string>) {
    && Distinct(es)
    && forall e :: e in es ==> exists role :: role in roles && role != "" && e.id == AuditFeed.RoleEventId(id, role)
  }

  lemma {:induction false} GrantIds(id: string, t: Instant, user: string, roles: seq<string>)
    requires DistinctRoles(roles)
    ensures RoleIds(AuditFeed.RoleGrants(id, t, user, roles), id, roles)
  {
    if roles != [] {
      var n := |roles| - 1;
      GrantIds(id, t, user, roles[..n]);
      var e := CreateGrant(AuditFeed.RoleEventId(id, roles[n]), t, roles[n], user);
      OneMoreRoleId(AuditFeed.RoleGrants(id, t, user, roles[..n]), e, id, roles);
    }
  }

  /** Within a record, ids are distinct exactly when no role is named twice. */
  lemma {:induction false} GrantIdsExactly(id: string, t: Instant, user: string, roles: seq<string>)
    ensures Distinct(AuditFeed.RoleGrants(id, t, user, roles)) <==> DistinctRoles(roles)
  {
    if DistinctRoles(roles) {
      GrantIds(id, t, user, roles);
    } else {
      var n := |roles| - 1;
      var front := AuditFeed.RoleGrants(id, t, user, roles[..n]);
      var es := AuditFeed.RoleGrants(id, t, user, roles);
      assert front <= es;
      if DistinctRoles(roles[..n]) {
        var i :| 0 <= i < n && roles[i] != "" && roles[i] == roles[n];
        GrantNamed(id, t, user, roles[..n], roles[n]);
        var k :| 0 <= k < |front| && front[k].id == AuditFeed.RoleEventId(id, roles[n]);
        assert es[k].id == es[|front|].id;
      } else {
        GrantIdsExactly(id, t, user, roles[..n]);
        var i, j :| 0 <= i < j < |front| && front[i].id == front[j].id;
        assert es[i].id == es[j].id;
      }
    }
  }

  lemma {:induction false} GrantNamed(id: string, t: Instant, user: string, roles: seq<string>, role: string)
    requires role in roles && role != ""
    ensures Known(AuditFeed.RoleGrants(id, t, user, roles), AuditFeed.RoleEventId(id, role))
  {
    var n := |roles| - 1;
    var front, es := AuditFeed.RoleGrants(id, t, user, roles[..n]), AuditFeed.RoleGrants(id, t, user, roles);
    if roles[n] == role {
      assert es[|front|].id == AuditFeed.RoleEventId(id, role);
    } else {
      assert roles == roles[..n] + [roles[n]];
      GrantNamed(id, t, user, roles[..n], role);
      var k :| 0 <= k < |front| && front[k].id == AuditFeed.RoleEventId(id, role);
      assert es[k] == front[k];
    }
  }

  lemma {:induction false} RevokeIds(id: string, t: Instant, user: string, roles: seq<string>)
    requires DistinctRoles(roles)
    ensures RoleIds(AuditFeed.RoleRevokes(id, t, user, roles), id, roles)
  {
    if roles != [] {
      var n := |roles| - 1;
      RevokeIds(id, t, user, roles[..n]);
      var e := CreateRevoke(AuditFeed.RoleEventId(id, roles[n]), t, roles[n], user);
      OneMoreRoleId(AuditFeed.RoleRevokes(id, t, user, roles[..n]), e, id, roles);
    }
  }

  lemma OneMoreRoleId(es: seq<Event>, e: Event, id: string, roles: seq<string>)
    requires roles != [] && DistinctRoles(roles) && RoleIds(es, id, roles[..|roles| - 1])
    requires e.id == AuditFeed.RoleEventId(id, roles[|roles| - 1])
    ensures RoleIds(es + [], id, roles)
    ensures roles[|roles| - 1] != "" ==> RoleIds(es + [e], id, roles)
  {
    var n := |roles| - 1;
    assert es + [] == es;
    forall x | x in es
      ensures exists role :: role in roles && role != "" && x.id == AuditFeed.RoleEventId(id, role)
    {
      var role :| role in roles[..n] && role != "" && x.id == AuditFeed.RoleEventId(id, role);
      assert role in roles;
    }
    if roles[n] != "" {
      forall x | x in es ensures x.id != e.id {
        var role :| role in roles[..n] && role != "" && x.id == AuditFeed.RoleEventId(id, role);
        RoleIdsDiffer(id, role, roles[n]);
      }
      assert roles[n] in roles;
    }
  }

  /** The events of one record have distinct ids, all with the record's id before the first colon. */
  ghost predicate OwnIds(es: seq<Event>, id: string) {
    Distinct(es) && forall e :: e in es ==> Base(e.id) == id
  }

  lemma RoleIdsOwn(es: seq<Event>, id: string, roles: seq<string>)
    requires ColonFree(id) && RoleIds(es, id, roles)
    ensures OwnIds(es, id)
  {
    forall e | e in es ensures Base(e.id) == id {
      var role :| role in roles && role != "" && e.id == AuditFeed.RoleEventId(id, role);
      BaseOfRoleId(id, ":role:" + role);
      assert id + ":role:" + role == id + (":role:" + role);
    }
  }

  lemma FirstAndRoles(first: Event, es: seq<Event>, id: string, roles: seq<string>)
    requires ColonFree(id) && RoleIds(es, id, roles) && first.id == id
    ensures OwnIds([first] + es, id)
  {
    RoleIdsOwn(es, id, roles);
    BaseOfRoleId(id, "");
    assert id + "" == id;
    forall e | e in es ensures e.id != id {
      var role :| role in roles && role != "" && e.id == AuditFeed.RoleEventId(id, role);
      RoleIdsDiffer(id, role, role);
    }
  }

  lemma OneOwnId(e: Event)
    requires ColonFree(e.id)
    ensures OwnIds([e], e.id) && OwnIds([], e.id)
  {
    BaseOfRoleId(e.id, "");
    assert e.id + "" == e.id;
  }

  lemma StateChangeIds(requests: Requests, r: AuditRecord)
    requires ColonFree(r.id) && DistinctRoles(RolesOf(requests, r)) && AuditFeed.IsStateChange(r)
    ensures OwnIds(Converted(Audits, requests, r).events, r.id)
  {
    var id := r.body.requestId;
    OneOwnId(ResourceChange(r.id, r.time, "", ""));
    if requests(id).Request? {
      var user, roles := requests(id).user, requests(id).roles;
      GrantIds(r.id, r.time, user, roles);
      RevokeIds(r.id, r.time, user, roles);
      RoleIdsOwn(AuditFeed.RoleGrants(r.id, r.time, user, roles), r.id, roles);
      RoleIdsOwn(AuditFeed.RoleRevokes(r.id, r.time, user, roles), r.id, roles);
    }
  }

  lemma PlainIds(requests: Requests, r: AuditRecord)
    requires ColonFree(r.id) && DistinctRoles(RolesOf(requests, r)) && !AuditFeed.IsStateChange(r)
    ensures OwnIds(AuditFeed.PlainConversion(r).events, r.id)
  {
    match r.body
    case UserCreate(name, roles) => UserIds(r.id, r.time, name, roles);
    case UserUpdate(name, roles) => UserIds(r.id, r.time, name, roles);
    case RoleCreate(name) => OneOwnId(ResourceChange(r.id, r.time, ROLE_TYPE, name));
    case RoleUpdate(name) => OneOwnId(ResourceChange(r.id, r.time, ROLE_TYPE, name));
    case LockCreate(user) => OneOwnId(ResourceChange(r.id, r.time, USER_TYPE, user));
    case LockDelete(user) => OneOwnId(ResourceChange(r.id, r.time, USER_TYPE, user));
    case _ =>
  }

  lemma RecordIds(requests: Requests, r: AuditRecord)
    requires ColonFree(r.id) && DistinctRoles(RolesOf(requests, r))
    ensures OwnIds(EntryOf(Audits, requests, r).outputs, r.id)
  {
    if AuditFeed.IsStateChange(r) {
      StateChangeIds(requests, r);
    } else {
      PlainIds(requests, r);
    }
  }

  lemma UserIds(id: string, t: Instant, name: string, roles: seq<string>)
    requires ColonFree(id) && DistinctRoles(roles)
    ensures OwnIds(AuditFeed.UserEvents(id, t, name, roles).events, id)
  {
    GrantIds(id, t, name, roles);
    FirstAndRoles(ResourceChange(id, t, USER_TYPE, name), AuditFeed.RoleGrants(id, t, name, roles), id, roles);
  }

  ghost predicate DistinctRecords(log: seq<AuditRecord>) {
    forall i, j :: 0 <= i < j < |log| ==> log[i].id != log[j].id
  }

  /** Every event descends from a record of the log, whose id its own begins with. */
  ghost predicate FromRecords(es: seq<Event>, log: seq<AuditRecord>) {
    forall e :: e in es ==> exists i :: 0 <= i < |log| && Base(e.id) == log[i].id
  }

  ghost predicate SoundRecords(requests: Requests, log: seq<AuditRecord>) {
    forall i :: 0 <= i < |log| ==> ColonFree(log[i].id) && DistinctRoles(RolesOf(requests, log[i]))
  }

  lemma OutAppends(requests: Requests, log: seq<AuditRecord>, r: AuditRecord)
    ensures Out(Entries(Audits, requests, log + [r]))
      == Out(Entries(Audits, requests, log)) + EntryOf(Audits, requests, r).outputs
  {
    ConvertedSnoc(Audits, requests, log, r);
    Snoc(0, Entries(Audits, requests, log), EntryOf(Audits, requests, r));
  }

  lemma FrontSound(requests: Requests, front: seq<AuditRecord>, r: AuditRecord)
    requires DistinctRecords(front + [r]) && SoundRecords(requests, front + [r])
    ensures DistinctRecords(front) && SoundRecords(requests, front)
    ensures ColonFree(r.id) && DistinctRoles(RolesOf(requests, r))
    ensures forall i :: 0 <= i < |front| ==> front[i].id != r.id
  {
    var log := front + [r];
    assert forall i :: 0 <= i < |front| ==> log[i] == front[i];
    assert log[|front|] == r;
  }

  lemma JoinIds(a: seq<Event>, b: seq<Event>, front: seq<AuditRecord>, r: AuditRecord)
    requires Distinct(a) && FromRecords(a, front)
    requires OwnIds(b, r.id) && forall i :: 0 <= i < |front| ==> front[i].id != r.id
    ensures Distinct(a + b) && FromRecords(a + b, front + [r])
  {
    var log := front + [r];
    forall e | e in a + b ensures exists i :: 0 <= i < |log| && Base(e.id) == log[i].id {
      if e in a {
        var i :| 0 <= i < |front| && Base(e.id) == front[i].id;
        assert log[i] == front[i];
      } else {
        assert log[|front|] == r;
      }
    }
    forall i, j | 0 <= i < j < |a + b| ensures (a + b)[i].id != (a + b)[j].id {
      if i < |a| <= j {
        assert (a + b)[i] in a && (a + b)[j] in b;
      } else if |a| <= i {
        assert (a + b)[i] == b[i - |a|] && (a + b)[j] == b[j - |a|];
      }
    }
  }

  /** Over the whole converted log, ids are pairwise distinct. */
  lemma {:induction false} IdsIdentifyEvents(requests: Requests, log: seq<AuditRecord>)
    requires DistinctRecords(log) && SoundRecords(requests, log)
    ensures Distinct(Out(Entries(Audits, requests, log)))
    ensures FromRecords(Out(Entries(Audits, requests, log)), log)
  {
    if log == [] {
      assert Out(Entries(Audits, requests, log)) == [];
    } else {
      var front, r := log[..|log| - 1], log[|log| - 1];
      assert log == front + [r];
      FrontSound(requests, front, r);
      IdsIdentifyEvents(requests, front);
      RecordIds(requests, r);
      OutAppends(requests, front, r);
      JoinIds(Out(Entries(Audits, requests, front)), EntryOf(Audits, requests, r).outputs, front, r);
    }
  }
}

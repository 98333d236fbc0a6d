/** How the view of a caught-up audit feed can differ from who really holds which role. */
module Divergence {
  import opened Wrappers
  import opened Events
  import opened EventLog
  import opened AuditRecords
  import opened FeedPage
  import opened FeedRefinement
  import opened Membership
  import opened Marks
  import AuditFeed

  /** User records and access requests carry their types; nothing else bears on a pair. */
  predicate WellTyped(r: AuditRecord) {
    r.body.UserCreate? || r.body.UserUpdate? || r.body.AccessRequest? ==> Typed(r)
  }

  /** The request a state change is about, when it can still be found, covers the pair. */
  predicate Concerns(requests: Requests, r: AuditRecord, p: Pair) {
    && AuditFeed.NeedsLookup(r) && requests(r.body.requestId).Request?
    && requests(r.body.requestId).user == p.user && p.role in requests(r.body.requestId).roles
  }

  function MarkOf(requests: Requests, r: AuditRecord, p: Pair): Mark {
    match r.body
    case UserCreate(name, roles) => if name != p.user then Silent else if p.role in roles then Assigned else Removed
    case UserUpdate(name, roles) => if name != p.user then Silent else if p.role in roles then Assigned else Removed
    case UserDelete(name) => if name != p.user then Silent else Removed
    case AccessRequest(_, _, state) =>
      if !Concerns(requests, r, p) then Silent
      else if state == "APPROVED" then Approved
      else if state == "EXPIRED" then Expired
      else Silent
    case _ => Silent
  }

  function MarksOf(requests: Requests, rs: seq<AuditRecord>, p: Pair): (ms: seq<Mark>)
    ensures |ms| == |rs| && forall i :: 0 <= i < |rs| ==> ms[i] == MarkOf(requests, rs[i], p)
  {
    seq(|rs|, i requires 0 <= i < |rs| => MarkOf(requests, rs[i], p))
  }

  predicate Fetched(r: AuditRecord) {
    r.eventType in EventTypes(Audits)
  }

  /** What one mark says to the consumer. */
  function Says(m: Mark): Option<bool> {
    if Gives(m) then Some(true) else if m.Expired? then Some(false) else None
  }

  predicate Named(p: Pair) {
    p.user != "" && p.role != ""
  }

  // ---- what one record says about a pair ----

  lemma InSnoc(roles: seq<string>, role: string)
    requires roles != []
    ensures role in roles <==> role in roles[..|roles| - 1] || role == roles[|roles| - 1]
  {
    assert roles == roles[..|roles| - 1] + [roles[|roles| - 1]];
  }

  lemma {:induction false} GrantsSay(id: string, t: Instant, user: string, roles: seq<string>, p: Pair)
    requires Named(p)
    ensures LastChange(AuditFeed.RoleGrants(id, t, user, roles), p) ==
      if user == p.user && p.role in roles then Some(true) else None
  {
    if roles != [] {
      var n := |roles| - 1;
      GrantsSay(id, t, user, roles[..n], p);
      var front := AuditFeed.RoleGrants(id, t, user, roles[..n]);
      InSnoc(roles, p.role);
      if roles[n] == "" {
        assert front + [] == front;
      } else {
        LastSnoc(front, CreateGrant(AuditFeed.RoleEventId(id, roles[n]), t, roles[n], user), p);
      }
    }
  }

  lemma {:induction false} RevokesSay(id: string, t: Instant, user: string, roles: seq<string>, p: Pair)
    requires Named(p)
    ensures LastChange(AuditFeed.RoleRevokes(id, t, user, roles), p) ==
      if user == p.user && p.role in roles then Some(false) else None
  {
    if roles != [] {
      var n := |roles| - 1;
      RevokesSay(id, t, user, roles[..n], p);
      var front := AuditFeed.RoleRevokes(id, t, user, roles[..n]);
      InSnoc(roles, p.role);
      if roles[n] == "" {
        assert front + [] == front;
      } else {
        LastSnoc(front, CreateRevoke(AuditFeed.RoleEventId(id, roles[n]), t, roles[n], user), p);
      }
    }
  }

  lemma LastSnoc(es: seq<Event>, e: Event, p: Pair)
    ensures LastChange(es + [e], p) ==
      if Grants(e, p) then Some(true) else if Revokes(e, p) then Some(false) else LastChange(es, p)
  {
    assert (es + [e])[..|es|] == es;
  }

  lemma UserSays(id: string, t: Instant, name: string, roles: seq<string>, p: Pair)
    requires Named(p)
    ensures LastChange(AuditFeed.UserEvents(id, t, name, roles).events, p) ==
      if name == p.user && p.role in roles then Some(true) else None
  {
    if name != "" {
      GrantsSay(id, t, name, roles, p);
      var first := [ResourceChange(id, t, USER_TYPE, name)];
      LastSnoc([], first[0], p);
      assert [] + first == first;
      LastChangeConcat(first, AuditFeed.RoleGrants(id, t, name, roles), p);
    }
  }

  lemma OneResourceSays(e: Event, p: Pair)
    requires e.ResourceChange?
    ensures LastChange([e], p) == None
  {
    LastSnoc([], e, p);
    assert [] + [e] == [e];
  }

  lemma ResolvedSays(r: AuditRecord, user: string, roles: seq<string>, p: Pair)
    requires Named(p) && AuditFeed.IsStateChange(r)
    ensures LastChange(AuditFeed.Resolved(r, user, roles).events, p) ==
      if user != p.user || p.role !in roles then None
      else if r.body.requestState == "APPROVED" then Some(true)
      else if r.body.requestState == "EXPIRED" then Some(false)
      else None
  {
    GrantsSay(r.id, r.time, user, roles, p);
    RevokesSay(r.id, r.time, user, roles, p);
  }

  lemma RequestSays(requests: Requests, r: AuditRecord, p: Pair)
    requires Named(p) && r.body.AccessRequest?
    ensures LastChange(Converted(Audits, requests, r).events, p) == Says(MarkOf(requests, r, p))
  {
    var id := r.body.requestId;
    if AuditFeed.NeedsLookup(r) && requests(id).Request? {
      ResolvedSays(r, requests(id).user, requests(id).roles, p);
    }
  }

  lemma PlainSays(requests: Requests, r: AuditRecord, p: Pair)
    requires Named(p) && !r.body.AccessRequest? && !r.body.UserDelete?
    ensures LastChange(AuditFeed.PlainConversion(r).events, p) == Says(MarkOf(requests, r, p))
  {
    match r.body
    case UserCreate(name, roles) => UserSays(r.id, r.time, name, roles, p);
    case UserUpdate(name, roles) => UserSays(r.id, r.time, name, roles, p);
    case RoleCreate(name) => OneResourceSays(ResourceChange(r.id, r.time, ROLE_TYPE, name), p);
    case RoleUpdate(name) => OneResourceSays(ResourceChange(r.id, r.time, ROLE_TYPE, name), p);
    case LockCreate(user) => OneResourceSays(ResourceChange(r.id, r.time, USER_TYPE, user), p);
    case LockDelete(user) => OneResourceSays(ResourceChange(r.id, r.time, USER_TYPE, user), p);
    case _ =>
  }

  /** A record's own events say about a pair what the record does to it. Deletions alone say nothing. */
  lemma ConversionSays(requests: Requests, r: AuditRecord, p: Pair)
    requires Named(p)
    ensures LastChange(Converted(Audits, requests, r).events, p)
      == if r.body.UserDelete? then None else Says(MarkOf(requests, r, p))
  {
    if r.body.AccessRequest? {
      RequestSays(requests, r, p);
    } else if !r.body.UserDelete? {
      PlainSays(requests, r, p);
    }
  }

  /** What the filter leaves out says nothing, deletions included. */
  lemma UnfetchedSays(requests: Requests, r: AuditRecord, p: Pair)
    requires WellTyped(r) && !Fetched(r)
    ensures Says(MarkOf(requests, r, p)) == None
  {
    var types := AuditFeed.RESOURCE_CHANGE_EVENT_TYPES;
    assert types[0] == "user.create" && types[1] == "user.update";
    assert types[4] == "access_request.review" && types[5] == "access_request.update";
    assert types[6] == "access_request.expire";
  }

  lemma EntrySays(requests: Requests, r: AuditRecord, p: Pair)
    requires Named(p) && WellTyped(r)
    ensures LastChange(EntryOf(Audits, requests, r).outputs, p) == Says(MarkOf(requests, r, p))
  {
    if Fetched(r) {
      ConversionSays(requests, r, p);
      assert r.body.UserDelete? ==> Says(MarkOf(requests, r, p)) == None;
    } else {
      UnfetchedSays(requests, r, p);
    }
  }

  // ---- what a stretch of the log does to a pair ----

  lemma {:induction false} TruthByMarks(requests: Requests, rs: seq<AuditRecord>, p: Pair)
    ensures p in Truth(rs) <==> Holds(false, MarksOf(requests, rs, p))
  {
    if rs != [] {
      var n := |rs| - 1;
      TruthByMarks(requests, rs[..n], p);
      assert MarksOf(requests, rs, p)[..n] == MarksOf(requests, rs[..n], p);
    }
  }

  /** Entries whose outputs say what the marks say fold to what the marks show. */
  lemma {:induction false} SeenByOutputs(view: View, es: seq<Entry>, ms: seq<Mark>, p: Pair)
    requires |es| == |ms| && forall i :: 0 <= i < |es| ==> LastChange(es[i].outputs, p) == Says(ms[i])
    ensures p in Apply(view, Out(es)) <==> Seen(p in view, ms)
  {
    if es != [] {
      var n := |es| - 1;
      SeenByOutputs(view, es[..n], ms[..n], p);
      assert es == es[..n] + [es[n]];
      Snoc(0, es[..n], es[n]);
      ApplyConcat(view, Out(es[..n]), es[n].outputs);
      ApplyByLastChange(Apply(view, Out(es[..n])), es[n].outputs, p);
    }
  }

  lemma ViewByMarks(requests: Requests, view: View, rs: seq<AuditRecord>, p: Pair)
    requires Named(p) && forall r :: r in rs ==> WellTyped(r)
    ensures p in Apply(view, Out(Entries(Audits, requests, rs))) <==> Seen(p in view, MarksOf(requests, rs, p))
  {
    var es, ms := Entries(Audits, requests, rs), MarksOf(requests, rs, p);
    forall i | 0 <= i < |rs| ensures LastChange(es[i].outputs, p) == Says(ms[i]) {
      EntrySays(requests, rs[i], p);
    }
    SeenByOutputs(view, es, ms, p);
  }

  // ---- the two ways to differ ----

  function Stretch(log: seq<AuditRecord>, lo: nat, hi: nat): seq<AuditRecord> {
    if lo <= hi <= |log| then log[lo..hi] else []
  }

  /** The view of a consumer that last synced when the log was `k` long, and has since folded what the
      feed makes of the records from `lo` to `hi`. */
  function FeedView(requests: Requests, log: seq<AuditRecord>, lo: nat, hi: nat, k: nat): View
    requires k <= |log|
  {
    Apply(Truth(log[..k]), Out(Entries(Audits, requests, Stretch(log, lo, hi))))
  }

  /** What such a view shows, wherever the three positions lie: the pair was given and not revoked since,
      or the sync had it and nothing was said about it. */
  lemma ShownExactly(requests: Requests, log: seq<AuditRecord>, lo: nat, hi: nat, k: nat, p: Pair)
    requires k <= |log| && Named(p) && forall r :: r in log ==> WellTyped(r)
    ensures var ms := MarksOf(requests, Stretch(log, lo, hi), p);
      p in FeedView(requests, log, lo, hi, k) <==>
        ((exists i: nat :: GivenAt(ms, i)) || (p in Truth(log[..k]) && Quiet(ms)))
  {
    ViewByMarks(requests, Truth(log[..k]), Stretch(log, lo, hi), p);
    SeenTrue(p in Truth(log[..k]), MarksOf(requests, Stretch(log, lo, hi), p));
  }

  /** Sync at `k`, replay from `lo` to `hi`: truth and view in terms of the marks from `lo` on. */
  lemma PairByMarks(requests: Requests, log: seq<AuditRecord>, lo: nat, hi: nat, k: nat, p: Pair)
    requires lo <= k <= hi <= |log| && Named(p) && forall r :: r in log ==> WellTyped(r)
    ensures var before := p in Truth(log[..lo]);
      var a, b := MarksOf(requests, log[lo..k], p), MarksOf(requests, log[k..hi], p);
      && MarksOf(requests, log[lo..hi], p) == a + b
      && (p in Truth(log[..hi]) <==> Holds(before, a + b))
      && (p in Truth(log[..k]) <==> Holds(before, a))
      && (p in FeedView(requests, log, lo, hi, k) <==> Seen(Holds(before, a), a + b))
  {
    TruthFrom(requests, log, lo, hi, p);
    TruthFrom(requests, log, lo, k, p);
    MarksSplit(requests, log, lo, hi, k, p);
    ViewByMarks(requests, Truth(log[..k]), log[lo..hi], p);
  }

  lemma MarksSplit(requests: Requests, log: seq<AuditRecord>, lo: nat, hi: nat, k: nat, p: Pair)
    requires lo <= k <= hi <= |log|
    ensures MarksOf(requests, log[lo..hi], p) == MarksOf(requests, log[lo..k], p) + MarksOf(requests, log[k..hi], p)
  {
  }

  lemma TruthFrom(requests: Requests, log: seq<AuditRecord>, lo: nat, hi: nat, p: Pair)
    requires lo <= hi <= |log|
    ensures p in Truth(log[..hi]) <==> Holds(p in Truth(log[..lo]), MarksOf(requests, log[lo..hi], p))
  {
    TruthByMarks(requests, log[..lo], p);
    TruthByMarks(requests, log[..hi], p);
    var a, b := MarksOf(requests, log[..lo], p), MarksOf(requests, log[lo..hi], p);
    HoldsConcat(false, a, b);
    assert MarksOf(requests, log[..hi], p) == a + b;
  }

  /** Missing: a role the user really holds is absent from the view exactly when, within what was
      replayed, a request for it expired and nothing gave it again; that expiry then follows the
      user's last own record. */
  lemma MissingFromView(requests: Requests, log: seq<AuditRecord>, lo: nat, hi: nat, k: nat, p: Pair)
    requires lo <= k <= hi <= |log| && Named(p) && forall r :: r in log ==> WellTyped(r)
    requires p in Truth(log[..hi])
    ensures var ms := MarksOf(requests, log[lo..hi], p);
      && (p !in FeedView(requests, log, lo, hi, k) <==> exists i: nat :: ExpiredAt(ms, i))
      && forall i: nat :: ExpiredAt(ms, i) ==> forall j: nat :: i < j < |ms| ==> !Own(ms[j])
  {
    PairByMarks(requests, log, lo, hi, k, p);
    Missing(p in Truth(log[..lo]), MarksOf(requests, log[lo..k], p), MarksOf(requests, log[k..hi], p));
  }

  /** Extra: a role the user does not hold is in the view exactly when it was given and not revoked
      since, or nothing was said about it and the sync had it; and then it was removed later, or the
      user deleted, or it is an approved temporary one. */
  lemma ExtraInView(requests: Requests, log: seq<AuditRecord>, lo: nat, hi: nat, k: nat, p: Pair)
    requires lo <= k <= hi <= |log| && Named(p) && forall r :: r in log ==> WellTyped(r)
    requires p !in Truth(log[..hi])
    ensures var ms := MarksOf(requests, log[lo..hi], p);
      && (p in FeedView(requests, log, lo, hi, k) <==>
            (exists i: nat :: GivenAt(ms, i)) || (p in Truth(log[..k]) && Quiet(ms)))
      && (p in FeedView(requests, log, lo, hi, k) ==> exists i: nat :: RemovedAt(ms, i) || TemporaryAt(ms, i))
  {
    PairByMarks(requests, log, lo, hi, k, p);
    var before, a, b := p in Truth(log[..lo]), MarksOf(requests, log[lo..k], p), MarksOf(requests, log[k..hi], p);
    ExtraIff(before, a, b);
    if p in FeedView(requests, log, lo, hi, k) {
      ExtraCause(before, a, b);
    }
  }
}

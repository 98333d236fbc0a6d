/** The audit event feed: resource changes, grants and revokes. */
module AuditFeed {
  import opened Wrappers
  import opened Events
  import opened EventPagination
  import opened AuditRecords
  import opened FeedPage
  import Timestamps

  const RESOURCE_CHANGE_EVENT_TYPES: seq<string> := [
    "user.create", "user.update", "role.created", "role.updated",
    "access_request.review", "access_request.update", "access_request.expire",
    "lock.created", "lock.deleted"]

  // ---- conversion, as functions ----

  /** The id of the event for one role of a record. */
  function RoleEventId(id: string, role: string): string {
    id + ":role:" + role
  }

  function RoleGrants(id: string, t: Instant, user: string, roles: seq<string>): seq<Event> {
    if roles == [] then []
    else
      var n := |roles| - 1;
      RoleGrants(id, t, user, roles[..n]) +
        if roles[n] == "" then [] else [CreateGrant(RoleEventId(id, roles[n]), t, roles[n], user)]
  }

  function RoleRevokes(id: string, t: Instant, user: string, roles: seq<string>): seq<Event> {
    if roles == [] then []
    else
      var n := |roles| - 1;
      RoleRevokes(id, t, user, roles[..n]) +
        if roles[n] == "" then [] else [CreateRevoke(RoleEventId(id, roles[n]), t, roles[n], user)]
  }

  const NOTHING := Conversion([], ZERO_TIME)

  function UserEvents(id: string, t: Instant, name: string, roles: seq<string>): Conversion {
    if name == "" then NOTHING
    else Conversion([ResourceChange(id, t, USER_TYPE, name)] + RoleGrants(id, t, name, roles), t)
  }

  function SingleResourceChange(id: string, t: Instant, resourceType: string, name: string): Conversion {
    if name == "" then NOTHING else Conversion([ResourceChange(id, t, resourceType, name)], t)
  }

  function LockEvents(id: string, t: Instant, targetUser: string): Conversion {
    if targetUser == "" then NOTHING else Conversion([ResourceChange(id, t, USER_TYPE, targetUser)], t)
  }

  function PlainConversion(r: AuditRecord): Conversion {
    match r.body
    case UserCreate(name, roles) => UserEvents(r.id, r.time, name, roles)
    case UserUpdate(name, roles) => UserEvents(r.id, r.time, name, roles)
    case RoleCreate(name) => SingleResourceChange(r.id, r.time, ROLE_TYPE, name)
    case RoleUpdate(name) => SingleResourceChange(r.id, r.time, ROLE_TYPE, name)
    case LockCreate(user) => LockEvents(r.id, r.time, user)
    case LockDelete(user) => LockEvents(r.id, r.time, user)
    case _ => NOTHING
  }

  /** Review, update and expire records carry no user: the request must be looked up. */
  predicate IsStateChange(r: AuditRecord) {
    r.body.AccessRequest? && r.body.user == ""
  }

  predicate NeedsLookup(r: AuditRecord) {
    IsStateChange(r) && r.body.requestId != ""
  }

  /** What a state change means once its request is known. */
  function Resolved(r: AuditRecord, user: string, roles: seq<string>): Conversion
    requires IsStateChange(r)
  {
    if user == "" then Conversion([], r.time)
    else if r.body.requestState == "APPROVED" then Conversion(RoleGrants(r.id, r.time, user, roles), r.time)
    else if r.body.requestState == "EXPIRED" then Conversion(RoleRevokes(r.id, r.time, user, roles), r.time)
    else Conversion([], r.time)
  }

  function StateChangeConversion(lookup: string -> Lookup, r: AuditRecord): Result<Conversion, FeedError>
    requires IsStateChange(r)
  {
    if r.body.requestId == "" then Success(Conversion([], r.time))
    else
      match lookup(r.body.requestId)
      case LookupError => Failure(LookupFailed(r.body.requestId))
      case NotFound => Success(Conversion([], r.time))
      case Request(user, roles) => Success(Resolved(r, user, roles))
  }

  function Convert(lookup: string -> Lookup, r: AuditRecord): Result<Conversion, FeedError> {
    if IsStateChange(r) then StateChangeConversion(lookup, r) else Success(PlainConversion(r))
  }

  /** The page's conversions, or the first lookup failure. */
  function ConvertAll(lookup: string -> Lookup, rs: seq<AuditRecord>): Result<seq<Conversion>, FeedError> {
    if rs == [] then Success([])
    else
      match ConvertAll(lookup, rs[..|rs| - 1])
      case Failure(e) => Failure(e)
      case Success(cs) =>
        match Convert(lookup, rs[|rs| - 1])
        case Failure(e) => Failure(e)
        case Success(c) => Success(cs + [c])
  }

  function Listing(client: Client, earliest: Option<Instant>, token: Option<string>,
      now: Instant): Result<Delivery, FeedError>
  {
    Listed(client, RESOURCE_CHANGE_EVENT_TYPES, rs => ConvertAll(client.lookup, rs), earliest, token, now)
  }

  // ---- the feed as it runs ----

  method ConvertUserEvent(id: string, t: Instant, name: string, roles: seq<string>)
    returns (out: seq<Event>, at: Instant)
    ensures Conversion(out, at) == UserEvents(id, t, name, roles)
  {
    if name == "" {
      return [], ZERO_TIME;
    }
    out := [ResourceChange(id, t, USER_TYPE, name)];
    for i := 0 to |roles|
      invariant out == [ResourceChange(id, t, USER_TYPE, name)] + RoleGrants(id, t, name, roles[..i])
    {
      assert roles[..i + 1][..i] == roles[..i];
      if roles[i] == "" {
        continue;
      }
      out := out + [CreateGrant(RoleEventId(id, roles[i]), t, roles[i], name)];
    }
    assert roles[..|roles|] == roles;
    at := t;
  }

  method ConvertAuditEvent(r: AuditRecord) returns (out: seq<Event>, at: Instant)
    ensures Conversion(out, at) == PlainConversion(r)
  {
    match r.body {
      case UserCreate(name, roles) => out, at := ConvertUserEvent(r.id, r.time, name, roles);
      case UserUpdate(name, roles) => out, at := ConvertUserEvent(r.id, r.time, name, roles);
      case _ =>
        var c := PlainConversion(r);
        out, at := c.events, c.at;
    }
  }

  /** None when the record is not a state change and falls through to ConvertAuditEvent. Without a client
      there is no lookup and nothing to emit. */
  method TryConvertAccessRequestStateChange(client: Option<string -> Lookup>, r: AuditRecord)
    returns (handled: Option<Result<Conversion, FeedError>>)
    ensures !IsStateChange(r) ==> handled == None
    ensures IsStateChange(r) && client.None? ==> handled == Some(Success(Conversion([], r.time)))
    ensures IsStateChange(r) && client.Some? ==> handled == Some(StateChangeConversion(client.value, r))
  {
    if !r.body.AccessRequest? || r.body.user != "" {
      return None;
    }
    if r.body.requestId == "" {
      return Some(Success(Conversion([], r.time)));
    }
    if client.None? {
      return Some(Success(Conversion([], r.time)));
    }
    var answer := client.value(r.body.requestId);
    if answer.LookupError? {
      return Some(Failure(LookupFailed(r.body.requestId)));
    }
    if answer.NotFound? || answer.user == "" {
      return Some(Success(Conversion([], r.time)));
    }
    var out: seq<Event> := [];
    var user, roles := answer.user, answer.roles;
    if r.body.requestState == "APPROVED" {
      for i := 0 to |roles|
        invariant out == RoleGrants(r.id, r.time, user, roles[..i])
      {
        assert roles[..i + 1][..i] == roles[..i];
        if roles[i] == "" {
          continue;
        }
        out := out + [CreateGrant(RoleEventId(r.id, roles[i]), r.time, roles[i], user)];
      }
    } else if r.body.requestState == "EXPIRED" {
      for i := 0 to |roles|
        invariant out == RoleRevokes(r.id, r.time, user, roles[..i])
      {
        assert roles[..i + 1][..i] == roles[..i];
        if roles[i] == "" {
          continue;
        }
        out := out + [CreateRevoke(RoleEventId(r.id, roles[i]), r.time, roles[i], user)];
      }
    }
    assert roles[..|roles|] == roles;
    return Some(Success(Conversion(out, r.time)));
  }

  /** The loop of ListEvents: the first failed lookup abandons the page; otherwise every record's
      events are appended and its time updates the cursor. */
  method ConvertPage(lookup: string -> Lookup, cursor: EventPageCursor, records: seq<AuditRecord>)
    returns (r: Result<seq<Event>, FeedError>)
    modifies cursor
    ensures match ConvertAll(lookup, records)
      case Failure(e) => r == Failure(e)
      case Success(cs) =>
        r == Success(EventsOf(cs)) && cursor.Value() == UpdatedAll(old(cursor.Value()), TimesOf(cs))
  {
    ghost var c := cursor.Value();
    ghost var cs: seq<Conversion> := [];
    var result: seq<Event> := [];
    for i := 0 to |records|
      invariant ConvertAll(lookup, records[..i]) == Success(cs)
      invariant result == EventsOf(cs)
      invariant cursor.Value() == UpdatedAll(c, TimesOf(cs))
    {
      assert records[..i + 1][..i] == records[..i];
      var handled := TryConvertAccessRequestStateChange(Some(lookup), records[i]);
      if handled.Some? {
        if handled.value.Failure? {
          FailureStays(lookup, records, i + 1);
          return Failure(handled.value.error);
        }
        OneMore(c, cs, handled.value.value);
        cs := cs + [handled.value.value];
        result := result + handled.value.value.events;
        cursor.UpdateLatestEvent(handled.value.value.at);
        continue;
      }
      var derived, at := ConvertAuditEvent(records[i]);
      OneMore(c, cs, Conversion(derived, at));
      cs := cs + [Conversion(derived, at)];
      result := result + derived;
      cursor.UpdateLatestEvent(at);
    }
    assert records[..|records|] == records;
    return Success(result);
  }

  method ListEvents(client: Client, earliest: Option<Instant>, token: Option<string>, now: Instant)
    returns (r: Result<Delivery, FeedError>)
    ensures r == Listing(client, earliest, token, now)
  {
    var unmarshalled := UnmarshalEventPageCursor(token, earliest, now);
    if unmarshalled.Failure? {
      return Failure(unmarshalled.error);
    }
    var cursor := unmarshalled.value;
    var from := Timestamps.Parse(cursor.StartAt);
    if from.None? {
      return Failure(BadStartAt);
    }
    assert Opened(token, earliest, now) == Success((cursor.Value(), from.value));
    var answer := client.search(SearchRequest(from.value, now, RESOURCE_CHANGE_EVENT_TYPES, EVENTS_PAGE_SIZE,
      cursor.LastKey));
    if answer.None? {
      return Failure(SearchFailed);
    }
    var result := ConvertPage(client.lookup, cursor, answer.value.records);
    if result.Failure? {
      return Failure(result.error);
    }
    if answer.value.lastKey == "" {
      cursor.PrepareNextSync();
    } else {
      cursor.LastKey := answer.value.lastKey;
    }
    var text := cursor.Marshal();
    return Success(Delivery(result.value, text, answer.value.lastKey != ""));
  }

  lemma {:induction false} FailureStays(lookup: string -> Lookup, rs: seq<AuditRecord>, k: nat)
    requires k <= |rs| && ConvertAll(lookup, rs[..k]).Failure?
    ensures ConvertAll(lookup, rs) == ConvertAll(lookup, rs[..k])
    decreases |rs| - k
  {
    if k == |rs| {
      assert rs[..k] == rs;
    } else {
      assert rs[..k + 1][..k] == rs[..k];
      FailureStays(lookup, rs, k + 1);
    }
  }
}

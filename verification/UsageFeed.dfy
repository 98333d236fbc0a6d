/** The usage event feed: successful logins. */
module UsageFeed {
  import opened Wrappers
  import opened Events
  import opened EventPagination
  import opened AuditRecords
  import opened FeedPage
  import Timestamps

  const USER_LOGIN_EVENT_TYPE := "user.login"

  /** The usage event, if any, and the time returned for the cursor: failed logins still carry theirs. */
  function ConvertToUsageEvent(r: AuditRecord): (Option<Event>, Instant) {
    match r.body
    case UserLogin(user, success, cluster) =>
      if !success then (None, r.time)
      else (Some(Usage(r.id, r.time, if cluster == "" then "teleport" else cluster, user)), r.time)
    case _ => (None, ZERO_TIME)
  }

  function Convert(r: AuditRecord): Conversion {
    var (e, at) := ConvertToUsageEvent(r);
    Conversion(if e.Some? then [e.value] else [], at)
  }

  function ConvertAll(rs: seq<AuditRecord>): seq<Conversion> {
    if rs == [] then [] else ConvertAll(rs[..|rs| - 1]) + [Convert(rs[|rs| - 1])]
  }

  function Listing(client: Client, earliest: Option<Instant>, token: Option<string>,
      now: Instant): Result<Delivery, FeedError>
  {
    Listed(client, [USER_LOGIN_EVENT_TYPE], rs => Success(ConvertAll(rs)), earliest, token, now)
  }

  method ConvertPage(cursor: EventPageCursor, records: seq<AuditRecord>) returns (result: seq<Event>)
    modifies cursor
    ensures result == EventsOf(ConvertAll(records))
    ensures cursor.Value() == UpdatedAll(old(cursor.Value()), TimesOf(ConvertAll(records)))
  {
    ghost var c := cursor.Value();
    result := [];
    for i := 0 to |records|
      invariant result == EventsOf(ConvertAll(records[..i]))
      invariant cursor.Value() == UpdatedAll(c, TimesOf(ConvertAll(records[..i])))
    {
      assert records[..i + 1][..i] == records[..i];
      OneMore(c, ConvertAll(records[..i]), Convert(records[i]));
      var (event, at) := ConvertToUsageEvent(records[i]);
      cursor.UpdateLatestEvent(at);
      if event.Some? {
        result := result + [event.value];
      }
    }
    assert records[..|records|] == records;
  }

  method ListEvents(client: Client, earliest: Option<Instant>, token: Option<string>, now: Instant)
    returns (r: Result<Delivery, FeedError>)
    ensures r == Listing(client, earliest, token, now)
  {
    var unmarshalled := UnmarshalEventPageCursor(token, earliest, now);
    if unmarshalled.Failure? {
      return Failure(unmarshalled.error);
    }
    var cursor := unmarshalled.value;
    var from := Timestamps.Parse(cursor.StartAt);
    if from.None? {
      return Failure(BadStartAt);
    }
    assert Opened(token, earliest, now) == Success((cursor.Value(), from.value));
    var answer := client.search(SearchRequest(from.value, now, [USER_LOGIN_EVENT_TYPE], EVENTS_PAGE_SIZE,
      cursor.LastKey));
    if answer.None? {
      return Failure(SearchFailed);
    }
    ghost var before := cursor.Value();
    var result := ConvertPage(cursor, answer.value.records);
    if answer.value.lastKey == "" {
      cursor.PrepareNextSync();
    } else {
      cursor.LastKey := answer.value.lastKey;
    }
    assert cursor.Value() == Turned(UpdatedAll(before, TimesOf(ConvertAll(answer.value.records))),
      answer.value.lastKey);
    var text := cursor.Marshal();
    return Success(Delivery(result, text, answer.value.lastKey != ""));
  }
}

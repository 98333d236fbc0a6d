/** The pagination cursor both feeds share: its text form, its two in-place updates, and its codec. */
module EventPagination {
  import opened Wrappers
  import opened Events
  import Timestamps
  import JsonText
  import Base64
  import Utf8

  /** The value of an eventPageCursor. */
  datatype PageCursor = PageCursor(startAt: string, latestEventSeen: string, lastKey: string)

  datatype FeedError =
    | BadCursorEncoding
    | BadCursorJson
    | BadStartAt
    | SearchFailed
    | LookupFailed(requestId: string)

  const DAY: Instant := 86_400_000_000_000

  // ---- codec ----

  function Field(name: string, value: string): seq<JsonText.Member> {
    if value == "" then [] else [(name, value)]
  }

  /** The JSON members; empty ones are omitted. */
  function Members(c: PageCursor): seq<JsonText.Member> {
    Field("start_at", c.startAt) + Field("latest_event_seen", c.latestEventSeen) + Field("last_key", c.lastKey)
  }

  function MarshalText(c: PageCursor): string {
    Base64.Encode(Utf8.Encode(JsonText.WriteObject(Members(c))))
  }

  /** One JSON member lands in its field; null and unknown names change nothing. */
  function Assign(c: PageCursor, m: (string, Option<string>)): PageCursor {
    if m.1.None? then c
    else if m.0 == "start_at" then c.(startAt := m.1.value)
    else if m.0 == "latest_event_seen" then c.(latestEventSeen := m.1.value)
    else if m.0 == "last_key" then c.(lastKey := m.1.value)
    else c
  }

  function AssignAll(c: PageCursor, ms: seq<(string, Option<string>)>): PageCursor
    decreases ms
  {
    if ms == [] then c else AssignAll(Assign(c, ms[0]), ms[1..])
  }

  function DecodeText(token: string): Result<PageCursor, FeedError> {
    var empty := PageCursor("", "", "");
    match Base64.Decode(token)
    case None => Failure(BadCursorEncoding)
    case Some(bytes) =>
      match JsonText.ReadObject(Utf8.Decode(bytes))
      case None => Failure(BadCursorJson)
      case Some(ms) => Success(AssignAll(empty, ms))
  }

  /** An empty StartAt becomes the default start, or a day ago; an empty LatestEventSeen, StartAt. */
  function Refill(c: PageCursor, defaultStart: Option<Instant>, now: Instant): PageCursor {
    var start := if c.startAt != "" then c.startAt
                 else Timestamps.Format(if defaultStart.Some? then defaultStart.value else now - DAY);
    PageCursor(start, if c.latestEventSeen == "" then start else c.latestEventSeen, c.lastKey)
  }

  /** No token, or an empty one, stands for a blank cursor. */
  function Decoded(token: Option<string>): Result<PageCursor, FeedError> {
    if token.None? || token.value == "" then Success(PageCursor("", "", "")) else DecodeText(token.value)
  }

  function Unmarshal(token: Option<string>, defaultStart: Option<Instant>,
      now: Instant): Result<PageCursor, FeedError>
  {
    match Decoded(token)
    case Failure(e) => Failure(e)
    case Success(c) => Success(Refill(c, defaultStart, now))
  }

  function Updated(c: PageCursor, t: Instant): PageCursor {
    if t == ZERO_TIME then c
    else
      var latest := Timestamps.Parse(c.latestEventSeen);
      if latest.None? || t > latest.value then c.(latestEventSeen := Timestamps.Format(t)) else c
  }

  function UpdatedAll(c: PageCursor, ts: seq<Instant>): PageCursor
    decreases ts
  {
    if ts == [] then c else UpdatedAll(Updated(c, ts[0]), ts[1..])
  }

  function Prepared(c: PageCursor): PageCursor {
    PageCursor(c.latestEventSeen, "", "")
  }

  /** The text of the default start, or of 24 hours ago, whenever that instant can be written. */
  predicate StartsAt(startAt: string, defaultStart: Option<Instant>, now: Instant) {
    var start := if defaultStart.Some? then defaultStart.value else now - 24 * 60 * 60 * 1_000_000_000;
    0 <= start < Timestamps.END_OF_TIME ==> Timestamps.Parse(startAt) == Some(start)
  }

  lemma FilledStart(defaultStart: Option<Instant>, now: Instant)
    ensures StartsAt(Refill(PageCursor("", "", ""), defaultStart, now).startAt, defaultStart, now)
  {
    var start := if defaultStart.Some? then defaultStart.value else now - 24 * 60 * 60 * 1_000_000_000;
    if 0 <= start < Timestamps.END_OF_TIME {
      Timestamps.FormatParses(start);
    }
  }

  // ---- the cursor object ----

  class EventPageCursor {
    var StartAt: string
    var LatestEventSeen: string
    var LastKey: string

    ghost function Value(): PageCursor
      reads this
    {
      PageCursor(StartAt, LatestEventSeen, LastKey)
    }

    constructor (c: PageCursor)
      ensures Value() == c
    {
      StartAt, LatestEventSeen, LastKey := c.startAt, c.latestEventSeen, c.lastKey;
    }

    /** The missing fields, filled in step by step: StartAt with the text of the default start, or of 24 hours
        ago, and then LatestEventSeen with StartAt. */
    method FillMissing(defaultStart: Option<Instant>, now: Instant)
      modifies this
      ensures Value() == Refill(old(Value()), defaultStart, now)
      ensures old(StartAt) == "" ==> StartsAt(StartAt, defaultStart, now)
      ensures old(StartAt) != "" ==> StartAt == old(StartAt)
      ensures LatestEventSeen == if old(LatestEventSeen) == "" then StartAt else old(LatestEventSeen)
      ensures LastKey == old(LastKey)
    {
      FilledStart(defaultStart, now);
      if StartAt == "" {
        var start := now - DAY;
        if defaultStart.Some? {
          start := defaultStart.value;
        }
        StartAt := Timestamps.Format(start);
      }
      if LatestEventSeen == "" {
        LatestEventSeen := StartAt;
      }
    }

    method Marshal() returns (token: string)
      ensures token == MarshalText(Value())
    {
      token := MarshalText(PageCursor(StartAt, LatestEventSeen, LastKey));
    }

    /** Zero times are ignored; an unparseable LatestEventSeen gives way to any other time. */
    method UpdateLatestEvent(t: Instant)
      modifies this`LatestEventSeen
      ensures Value() == Updated(old(Value()), t)
      ensures var seen := Timestamps.Parse(old(LatestEventSeen));
        LatestEventSeen ==
          if t != ZERO_TIME && (seen.None? || t > seen.value) then Timestamps.Format(t) else old(LatestEventSeen)
    {
      if t == ZERO_TIME {
        return;
      }
      var latest := Timestamps.Parse(LatestEventSeen);
      if latest.None? || t > latest.value {
        LatestEventSeen := Timestamps.Format(t);
      }
    }

    method PrepareNextSync()
      modifies this
      ensures Value() == Prepared(old(Value()))
      ensures StartAt == old(LatestEventSeen) && LatestEventSeen == "" && LastKey == ""
    {
      StartAt := LatestEventSeen;
      LatestEventSeen := "";
      LastKey := "";
    }
  }

  method UnmarshalEventPageCursor(token: Option<string>, defaultStart: Option<Instant>, now: Instant)
    returns (r: Result<EventPageCursor, FeedError>)
    ensures r.Success? <==> Unmarshal(token, defaultStart, now).Success?
    ensures r.Success? ==> fresh(r.value) && r.value.Value() == Unmarshal(token, defaultStart, now).value
    ensures r.Failure? ==> r.error == Unmarshal(token, defaultStart, now).error
    ensures token.None? || token.value == "" ==>
      && r.Success? && StartsAt(r.value.StartAt, defaultStart, now)
      && r.value.LatestEventSeen == r.value.StartAt && r.value.LastKey == ""
  {
    var decoded := Decoded(token);
    if decoded.Failure? {
      return Failure(decoded.error);
    }
    var c := new EventPageCursor(decoded.value);
    c.FillMissing(defaultStart, now);
    return Success(c);
  }

  // ---- the missing start ----

  /** No default start means one 24 hours ago. */
  lemma NoDefaultIsADayAgo(token: Option<string>, now: Instant)
    ensures Unmarshal(token, None, now) == Unmarshal(token, Some(now - 24 * 60 * 60 * 1_000_000_000), now)
  {
    assert DAY == 24 * 60 * 60 * 1_000_000_000;
  }

  // ---- round trip ----

  lemma MembersAssign(c: PageCursor)
    ensures AssignAll(PageCursor("", "", ""), JsonText.Present(Members(c))) == c
  {
    var a, b, d := Field("start_at", c.startAt), Field("latest_event_seen", c.latestEventSeen),
      Field("last_key", c.lastKey);
    AssignField(PageCursor("", "", ""), "start_at", c.startAt, b + d);
    AssignField(PageCursor(c.startAt, "", ""), "latest_event_seen", c.latestEventSeen, d);
    AssignField(PageCursor(c.startAt, c.latestEventSeen, ""), "last_key", c.lastKey, []);
    assert a + b + d == a + (b + d);
    assert d + [] == d;
  }

  lemma AssignField(c: PageCursor, name: string, value: string, rest: seq<JsonText.Member>)
    ensures AssignAll(c, JsonText.Present(Field(name, value) + rest))
      == AssignAll(if value == "" then c else Assign(c, (name, Some(value))), JsonText.Present(rest))
  {
    var ms := Field(name, value) + rest;
    if value == "" {
      assert ms == rest;
    } else {
      assert ms[1..] == rest;
      var ps := JsonText.Present(ms);
      assert ps[1..] == JsonText.Present(rest);
    }
  }

  /** Every cursor, with any Unicode field contents, decodes from its own text to itself. */
  lemma TextDecodes(c: PageCursor)
    ensures MarshalText(c) != ""
    ensures DecodeText(MarshalText(c)) == Success(c)
  {
    var text := JsonText.WriteObject(Members(c));
    assert Utf8.Encode(text) != [];
    Base64.EncodedHasNoBreaks(Utf8.Encode(text));
    Base64.EncodeDecodes(Utf8.Encode(text));
    Utf8.EncodeDecodes(text);
    JsonText.ObjectReads(Members(c));
    MembersAssign(c);
  }

  /** The codec round trip: unmarshal after marshal refills only what was empty, so with a StartAt
      neither the default start nor the clock matters. */
  lemma CursorRoundTrip(c: PageCursor, defaultStart: Option<Instant>, now: Instant)
    ensures Unmarshal(Some(MarshalText(c)), defaultStart, now) == Success(Refill(c, defaultStart, now))
    ensures c.startAt != "" ==>
      Unmarshal(Some(MarshalText(c)), defaultStart, now) == Success(
        c.(latestEventSeen := if c.latestEventSeen == "" then c.startAt else c.latestEventSeen))
  {
    TextDecodes(c);
  }
}

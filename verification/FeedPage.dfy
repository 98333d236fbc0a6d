/** What the two ListEvents have in common: opening the cursor and turning a converted page into a delivery. */
module FeedPage {
  import opened Wrappers
  import opened Events
  import opened EventPagination
  import opened AuditRecords
  import Timestamps

  /** What a converter returns for one record. */
  datatype Conversion = Conversion(events: seq<Event>, at: Instant)

  datatype Delivery = Delivery(events: seq<Event>, cursor: string, hasMore: bool)

  function EventsOf(cs: seq<Conversion>): seq<Event> {
    if cs == [] then [] else EventsOf(cs[..|cs| - 1]) + cs[|cs| - 1].events
  }

  function TimesOf(cs: seq<Conversion>): seq<Instant> {
    if cs == [] then [] else TimesOf(cs[..|cs| - 1]) + [cs[|cs| - 1].at]
  }

  /** After the last page the cursor is prepared for the next sync; otherwise it takes the new key. */
  function Turned(c: PageCursor, lastKey: string): PageCursor {
    if lastKey == "" then Prepared(c) else c.(lastKey := lastKey)
  }

  function DeliveryOf(c: PageCursor, cs: seq<Conversion>, lastKey: string): Delivery {
    Delivery(EventsOf(cs), MarshalText(Turned(UpdatedAll(c, TimesOf(cs)), lastKey)), lastKey != "")
  }

  /** More is to come exactly if there is a key, and then only the key changes; after the last page the cursor
      holds nothing but the latest time seen, as StartAt. */
  lemma DeliveryTurns(c: PageCursor, cs: seq<Conversion>, lastKey: string)
    ensures var d, seen := DeliveryOf(c, cs, lastKey), UpdatedAll(c, TimesOf(cs));
      && (d.hasMore <==> lastKey != "")
      && (d.hasMore ==> d.cursor == MarshalText(PageCursor(seen.startAt, seen.latestEventSeen, lastKey)))
      && (!d.hasMore ==> d.cursor == MarshalText(PageCursor(seen.latestEventSeen, "", "")))
  {
  }

  /** The search a call issues, or why it cannot: the cursor and the window's lower bound. */
  function Opened(token: Option<string>, earliest: Option<Instant>, now: Instant): Result<(PageCursor, Instant),
      FeedError> {
    match Unmarshal(token, earliest, now)
    case Failure(e) => Failure(e)
    case Success(c) =>
      match Timestamps.Parse(c.startAt)
      case None => Failure(BadStartAt)
      case Some(from) => Success((c, from))
  }

  /** One call, for any filter and any (possibly failing) conversion of the page. */
  function Listed(client: Client, eventTypes: seq<string>,
      convert: seq<AuditRecord> -> Result<seq<Conversion>, FeedError>,
      earliest: Option<Instant>, token: Option<string>, now: Instant): Result<Delivery, FeedError>
  {
    match Opened(token, earliest, now)
    case Failure(e) => Failure(e)
    case Success((c, from)) =>
      match client.search(SearchRequest(from, now, eventTypes, EVENTS_PAGE_SIZE, c.lastKey))
      case None => Failure(SearchFailed)
      case Some(page) =>
        match convert(page.records)
        case Failure(e) => Failure(e)
        case Success(cs) => Success(DeliveryOf(c, cs, page.lastKey))
  }

  /** Tokens and default starts matter only through the cursor they open to. */
  lemma ListedByOpening(client: Client, eventTypes: seq<string>,
      convert: seq<AuditRecord> -> Result<seq<Conversion>, FeedError>,
      earliest: Option<Instant>, token: Option<string>, earliest': Option<Instant>, token': Option<string>,
      now: Instant)
    requires Opened(token, earliest, now) == Opened(token', earliest', now)
    ensures Listed(client, eventTypes, convert, earliest, token, now)
      == Listed(client, eventTypes, convert, earliest', token', now)
  {
  }

  lemma OpenedADayAgo(token: Option<string>, now: Instant)
    ensures Opened(token, None, now) == Opened(token, Some(now - 24 * 60 * 60 * 1_000_000_000), now)
  {
    NoDefaultIsADayAgo(token, now);
  }

  lemma {:induction false} UpdatedAllConcat(c: PageCursor, a: seq<Instant>, b: seq<Instant>)
    ensures UpdatedAll(c, a + b) == UpdatedAll(UpdatedAll(c, a), b)
    decreases a
  {
    if a == [] {
      assert a + b == b;
    } else {
      assert (a + b)[1..] == a[1..] + b;
      UpdatedAllConcat(Updated(c, a[0]), a[1..], b);
    }
  }

  /** One more conversion appends its events and updates the cursor once more. */
  lemma OneMore(c: PageCursor, cs: seq<Conversion>, x: Conversion)
    ensures EventsOf(cs + [x]) == EventsOf(cs) + x.events
    ensures UpdatedAll(c, TimesOf(cs + [x])) == Updated(UpdatedAll(c, TimesOf(cs)), x.at)
  {
    assert (cs + [x])[..|cs|] == cs;
    UpdatedAllConcat(c, TimesOf(cs), [x.at]);
    assert UpdatedAll(UpdatedAll(c, TimesOf(cs)), [x.at]) == UpdatedAll(Updated(UpdatedAll(c, TimesOf(cs)), x.at), []);
  }
}

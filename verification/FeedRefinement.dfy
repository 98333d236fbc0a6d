/** One ListEvents call, on real cursor text, is one page of the protocol on instants. */
module FeedRefinement {
  import opened Wrappers
  import opened Events
  import opened EventLog
  import opened EventPagination
  import opened AuditRecords
  import opened FeedPage
  import AuditFeed
  import UsageFeed
  import Timestamps

  datatype Feed = Audits | Logins

  /** Who asked for what, as the access-request API answers when it answers. */
  type Requests = f: string -> Lookup | forall id :: !f(id).LookupError? witness _ => NotFound

  function EventTypes(feed: Feed): seq<string> {
    match feed
    case Audits => AuditFeed.RESOURCE_CHANGE_EVENT_TYPES
    case Logins => [UsageFeed.USER_LOGIN_EVENT_TYPE]
  }

  /** The conversion of a record when its lookup, if it needs one, is answered. */
  function Converted(feed: Feed, requests: Requests, r: AuditRecord): Conversion {
    match feed
    case Audits =>
      (match AuditFeed.Convert(requests, r)
       case Success(c) => c
       case Failure(_) => AuditFeed.NOTHING)
    case Logins => UsageFeed.Convert(r)
  }

  function ConvertedAll(feed: Feed, requests: Requests, rs: seq<AuditRecord>): seq<Conversion> {
    if rs == [] then []
    else ConvertedAll(feed, requests, rs[..|rs| - 1]) + [Converted(feed, requests, rs[|rs| - 1])]
  }

  function ListingOf(feed: Feed, client: Client, earliest: Option<Instant>, token: Option<string>,
      now: Instant): Result<Delivery, FeedError>
  {
    match feed
    case Audits => AuditFeed.Listing(client, earliest, token, now)
    case Logins => UsageFeed.Listing(client, earliest, token, now)
  }

  // ---- records as log entries ----

  function EntryOf(feed: Feed, requests: Requests, r: AuditRecord): Entry {
    if r.eventType in EventTypes(feed) then
      var c := Converted(feed, requests, r);
      Entry(r.time, c.at, c.events)
    else Entry(r.time, ZERO_TIME, [])
  }

  function Entries(feed: Feed, requests: Requests, log: seq<AuditRecord>): (es: seq<Entry>)
    ensures |es| == |log| && forall i :: 0 <= i < |log| ==> es[i] == EntryOf(feed, requests, log[i])
  {
    seq(|log|, i requires 0 <= i < |log| => EntryOf(feed, requests, log[i]))
  }

  lemma ConvertedHonest(feed: Feed, requests: Requests, r: AuditRecord)
    ensures var c := Converted(feed, requests, r);
      && (c.at == ZERO_TIME || c.at == r.time)
      && (c.at == ZERO_TIME && r.time != ZERO_TIME ==> c.events == [])
  {
  }

  lemma EntryHonest(feed: Feed, requests: Requests, r: AuditRecord)
    ensures Honest(EntryOf(feed, requests, r))
    ensures r.time != ZERO_TIME && !Stamped(EntryOf(feed, requests, r)) ==> EntryOf(feed, requests, r).outputs == []
  {
    ConvertedHonest(feed, requests, r);
  }

  function Matching(rs: seq<AuditRecord>, types: seq<string>): seq<AuditRecord> {
    if rs == [] then []
    else Matching(rs[..|rs| - 1], types) + if rs[|rs| - 1].eventType in types then [rs[|rs| - 1]] else []
  }

  function LatestOf(latest: Instant, ts: seq<Instant>): Instant
    decreases ts
  {
    if ts == [] then latest else LatestOf(Later(latest, ts[0]), ts[1..])
  }

  lemma {:induction false} LatestOfSnoc(latest: Instant, ts: seq<Instant>, t: Instant)
    ensures LatestOf(latest, ts + [t]) == Later(LatestOf(latest, ts), t)
    decreases ts
  {
    if ts == [] {
      assert (ts + [t])[1..] == [];
    } else {
      assert (ts + [t])[1..] == ts[1..] + [t];
      LatestOfSnoc(Later(latest, ts[0]), ts[1..], t);
    }
  }

  lemma ConversionSnoc(latest: Instant, cs: seq<Conversion>, x: Conversion)
    ensures EventsOf(cs + [x]) == EventsOf(cs) + x.events
    ensures LatestOf(latest, TimesOf(cs + [x])) == Later(LatestOf(latest, TimesOf(cs)), x.at)
  {
    assert (cs + [x])[..|cs|] == cs;
    LatestOfSnoc(latest, TimesOf(cs), x.at);
  }

  lemma ConvertedSnoc(feed: Feed, requests: Requests, rs: seq<AuditRecord>, r: AuditRecord)
    ensures ConvertedAll(feed, requests, rs + [r]) == ConvertedAll(feed, requests, rs) + [Converted(feed, requests, r)]
    ensures Matching(rs + [r], EventTypes(feed)) ==
      Matching(rs, EventTypes(feed)) + if r.eventType in EventTypes(feed) then [r] else []
    ensures Entries(feed, requests, rs + [r]) == Entries(feed, requests, rs) + [EntryOf(feed, requests, r)]
  {
    assert (rs + [r])[..|rs|] == rs;
    EntriesSnoc(feed, requests, rs, r);
  }

  lemma EntriesSnoc(feed: Feed, requests: Requests, rs: seq<AuditRecord>, r: AuditRecord)
    ensures Entries(feed, requests, rs + [r]) == Entries(feed, requests, rs) + [EntryOf(feed, requests, r)]
  {
  }

  /** The time a stretch of the log leaves in the cursor, and the events it becomes, are those of its
      matching records. */
  lemma {:induction false} MatchingConverted(feed: Feed, requests: Requests, rs: seq<AuditRecord>, latest: Instant)
    ensures var cs := ConvertedAll(feed, requests, Matching(rs, EventTypes(feed)));
      && EventsOf(cs) == Out(Entries(feed, requests, rs))
      && LatestOf(latest, TimesOf(cs)) == Latest(latest, Entries(feed, requests, rs))
  {
    if rs != [] {
      var n := |rs| - 1;
      var front, r := rs[..n], rs[n];
      assert rs == front + [r];
      MatchingConverted(feed, requests, front, latest);
      ConvertedSnoc(feed, requests, front, r);
      Snoc(latest, Entries(feed, requests, front), EntryOf(feed, requests, r));
      var m := Matching(front, EventTypes(feed));
      if r.eventType in EventTypes(feed) {
        ConvertedSnoc(feed, requests, m, r);
        ConversionSnoc(latest, ConvertedAll(feed, requests, m), Converted(feed, requests, r));
      } else {
        assert m + [] == m;
      }
    }
  }

  // ---- cursor text ----

  predicate InRange(t: Instant) {
    0 <= t < Timestamps.END_OF_TIME
  }

  function TextCursor(start: Instant, latest: Instant, key: string): PageCursor {
    PageCursor(Timestamps.Format(start), Timestamps.Format(latest), key)
  }

  /** The token stored for a cursor: at the end of a cycle only StartAt is kept. */
  function StoredToken(start: Instant, latest: Instant, key: string): string {
    MarshalText(if key == "" then PageCursor(Timestamps.Format(start), "", "") else TextCursor(start, latest, key))
  }

  lemma {:induction false} UpdatesAreLatest(start: Instant, latest: Instant, key: string, ts: seq<Instant>)
    requires InRange(latest) && forall i :: 0 <= i < |ts| ==> InRange(ts[i])
    ensures UpdatedAll(TextCursor(start, latest, key), ts) == TextCursor(start, LatestOf(latest, ts), key)
    decreases ts
  {
    if ts != [] {
      Timestamps.FormatParses(latest);
      UpdatesAreLatest(start, Later(latest, ts[0]), key, ts[1..]);
    }
  }

  /** A stored token opens to the cursor it was made from; the default start and the clock no longer matter. */
  lemma StoredTokenOpens(start: Instant, latest: Instant, key: string, earliest: Option<Instant>, now: Instant)
    requires InRange(start) && (key == "" ==> latest == start)
    ensures StoredToken(start, latest, key) != ""
    ensures Opened(Some(StoredToken(start, latest, key)), earliest, now)
      == Success((TextCursor(start, latest, key), start))
  {
    var c := if key == "" then PageCursor(Timestamps.Format(start), "", "") else TextCursor(start, latest, key);
    Timestamps.FormatNotEmpty(start);
    Timestamps.FormatNotEmpty(latest);
    TextDecodes(c);
    CursorRoundTrip(c, earliest, now);
    Timestamps.FormatParses(start);
  }

  /** A fresh feed opens at the earliest event the caller asked for. */
  lemma FreshOpens(token: Option<string>, origin: Instant, now: Instant)
    requires InRange(origin) && (token.None? || token.value == "")
    ensures Opened(token, Some(origin), now) == Success((TextCursor(origin, origin, ""), origin))
  {
    Timestamps.FormatParses(origin);
    Timestamps.FormatNotEmpty(origin);
  }

  // ---- lookups that fail ----

  /** A lookup either fails or gives the request's one stable answer. */
  ghost predicate Flaky(lookup: string -> Lookup, requests: Requests) {
    forall id :: lookup(id) == LookupError || lookup(id) == requests(id)
  }

  ghost predicate PageFails(feed: Feed, lookup: string -> Lookup, rs: seq<AuditRecord>) {
    feed.Audits? && exists i :: 0 <= i < |rs| && RecordFails(lookup, rs[i])
  }

  /** A page converts with failing lookups exactly when it would have converted without failures, record
      for record, or else not at all: exactly when one of its lookups fails. */
  lemma {:induction false} FlakyPage(lookup: string -> Lookup, requests: Requests, rs: seq<AuditRecord>)
    requires Flaky(lookup, requests)
    ensures !PageFails(Audits, lookup, rs)
      ==> AuditFeed.ConvertAll(lookup, rs) == Success(ConvertedAll(Audits, requests, rs))
    ensures PageFails(Audits, lookup, rs) ==> FailsAtFirst(lookup, rs, AuditFeed.ConvertAll(lookup, rs))
  {
    if rs != [] {
      var n := |rs| - 1;
      FlakyPage(lookup, requests, rs[..n]);
      PageFailsLast(lookup, rs);
      FlakyRecord(lookup, requests, rs[n]);
      if PageFails(Audits, lookup, rs[..n]) {
        FirstStays(lookup, rs, AuditFeed.ConvertAll(lookup, rs[..n]));
      } else if RecordFails(lookup, rs[n]) {
        assert forall j :: 0 <= j < n ==> rs[..n][j] == rs[j];
        assert FirstFailing(lookup, rs, n);
      }
    }
  }

  ghost predicate FirstFailing(lookup: string -> Lookup, rs: seq<AuditRecord>, i: nat) {
    i < |rs| && RecordFails(lookup, rs[i]) && forall j :: 0 <= j < i ==> !RecordFails(lookup, rs[j])
  }

  /** A failure that names the request of the first record whose lookup fails. */
  ghost predicate FailsAtFirst<T>(lookup: string -> Lookup, rs: seq<AuditRecord>, r: Result<T, FeedError>) {
    exists i: nat :: FirstFailing(lookup, rs, i) && r == Failure(LookupFailed(rs[i].body.requestId))
  }

  lemma FirstStays<T>(lookup: string -> Lookup, rs: seq<AuditRecord>, r: Result<T, FeedError>)
    requires rs != [] && FailsAtFirst(lookup, rs[..|rs| - 1], r)
    ensures FailsAtFirst(lookup, rs, r)
  {
    var front := rs[..|rs| - 1];
    var i: nat :| FirstFailing(lookup, front, i) && r == Failure(LookupFailed(front[i].body.requestId));
    assert forall j :: 0 <= j < |front| ==> front[j] == rs[j];
    assert FirstFailing(lookup, rs, i);
  }

  predicate RecordFails(lookup: string -> Lookup, r: AuditRecord) {
    AuditFeed.NeedsLookup(r) && lookup(r.body.requestId).LookupError?
  }

  lemma PageFailsLast(lookup: string -> Lookup, rs: seq<AuditRecord>)
    requires rs != []
    ensures var n := |rs| - 1;
      PageFails(Audits, lookup, rs) <==> PageFails(Audits, lookup, rs[..n]) || RecordFails(lookup, rs[n])
  {
    var n := |rs| - 1;
    if i :| 0 <= i < n && RecordFails(lookup, rs[..n][i]) {
      assert RecordFails(lookup, rs[i]);
    }
    if i :| 0 <= i < |rs| && RecordFails(lookup, rs[i]) {
      assert i < n ==> RecordFails(lookup, rs[..n][i]);
    }
  }

  lemma FlakyRecord(lookup: string -> Lookup, requests: Requests, r: AuditRecord)
    requires Flaky(lookup, requests)
    ensures var c := AuditFeed.Convert(lookup, r);
      if RecordFails(lookup, r) then c == Failure(LookupFailed(r.body.requestId))
      else c == Success(Converted(Audits, requests, r))
  {
  }

  lemma {:induction false} UsagePage(requests: Requests, rs: seq<AuditRecord>)
    ensures UsageFeed.ConvertAll(rs) == ConvertedAll(Logins, requests, rs)
  {
    if rs != [] {
      UsagePage(requests, rs[..|rs| - 1]);
    }
  }
}

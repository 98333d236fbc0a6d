/** What a consumer is given, in the terms of the audit log, and what a call asks the server for. */
module DeliveredRecords {
  import opened Wrappers
  import opened Events
  import opened EventLog
  import opened EventPagination
  import opened AuditRecords
  import opened FeedPage
  import opened FeedRefinement
  import opened RecordEvents
  import opened Protocol
  import opened ProtocolTheorems
  import opened FeedSystem
  import opened FeedSimulation
  import opened Divergence
  import opened EndToEnd
  import opened Membership
  import AuditFeed
  import UsageFeed

  ghost predicate AllTyped(log: seq<AuditRecord>) {
    forall i :: 0 <= i < |log| ==> Typed(log[i])
  }

  /** A record of the log between two times has the event to tell. */
  ghost predicate ToldBetween(feed: Feed, requests: Requests, log: seq<AuditRecord>, from: Instant, to: Instant,
      e: Event) {
    exists i :: 0 <= i < |log| && from <= log[i].time <= to && TellsIn(feed, requests, log[i], e)
  }

  lemma EntriesTell(feed: Feed, requests: Requests, log: seq<AuditRecord>, i: nat, e: Event)
    requires i < |log| && Typed(log[i])
    ensures e in Entries(feed, requests, log)[i].outputs <==> TellsIn(feed, requests, log[i], e)
  {
    EntryTells(feed, requests, log[i], e);
  }

  lemma ToldByWindow(feed: Feed, requests: Requests, log: seq<AuditRecord>, from: Instant, to: Instant, e: Event)
    requires Sorted(Entries(feed, requests, log)) && AllTyped(log)
    requires var es := Entries(feed, requests, log); e in Out(Seg(es, First(es, from), Upper(es, to)))
    ensures ToldBetween(feed, requests, log, from, to, e)
  {
    var es := Entries(feed, requests, log);
    OutWithin(es, from, to, e);
    var i :| 0 <= i < |es| && from <= es[i].time <= to && e in es[i].outputs;
    EntriesTell(feed, requests, log, i, e);
  }

  lemma WindowOfTold(feed: Feed, requests: Requests, log: seq<AuditRecord>, from: Instant, to: Instant, e: Event)
    requires Sorted(Entries(feed, requests, log)) && AllTyped(log) && ToldBetween(feed, requests, log, from, to, e)
    ensures var es := Entries(feed, requests, log); e in Out(Seg(es, First(es, from), Upper(es, to)))
  {
    var i :| 0 <= i < |log| && from <= log[i].time <= to && TellsIn(feed, requests, log[i], e);
    EntriesTell(feed, requests, log, i, e);
    WithinOut(Entries(feed, requests, log), from, to, i, e);
  }

  lemma WindowTells(feed: Feed, requests: Requests, log: seq<AuditRecord>, from: Instant, to: Instant, e: Event)
    requires Sorted(Entries(feed, requests, log)) && AllTyped(log)
    ensures var es := Entries(feed, requests, log);
      e in Out(Seg(es, First(es, from), Upper(es, to))) <==> ToldBetween(feed, requests, log, from, to, e)
  {
    var es := Entries(feed, requests, log);
    if e in Out(Seg(es, First(es, from), Upper(es, to))) {
      ToldByWindow(feed, requests, log, from, to, e);
    } else if ToldBetween(feed, requests, log, from, to, e) {
      WindowOfTold(feed, requests, log, from, to, e);
    }
  }

  /** At a completed cycle of either feed an event was delivered exactly if a record from the feed's start to
      the clock has it to tell. */
  lemma DeliveredExactly(place: string -> nat, requests: Requests, sys0: System, actions: seq<Action>, sys: System,
      a: Action, e: Event)
    requires SystemReachable(place, requests, sys0, actions, sys) && Completes(place, requests, sys, a)
    requires AllTyped(sys.log)
    ensures e in SystemNext(place, sys, a).delivered
      <==> ToldBetween(sys.feed, requests, sys.log, sys.origin, a.to, e)
  {
    ReachableState(place, requests, sys0, actions, sys);
    var s := StateOf(place, requests, sys0, actions);
    CompletionIsLastPage(place, requests, sys, s, a);
    CompletedCycleDeliveredAll(place, Start(requests, sys0), StepsOf(place, requests, sys0, actions), s, a.to);
    WindowTells(sys.feed, requests, sys.log, sys.origin, a.to, e);
  }

  // ---- the request ----

  /** The record types each feed asks for. */
  function AskedTypes(feed: Feed): seq<string> {
    match feed
    case Audits => [
      "user.create", "user.update", "role.created", "role.updated",
      "access_request.review", "access_request.update", "access_request.expire",
      "lock.created", "lock.deleted"]
    case Logins => ["user.login"]
  }

  /** A call makes one search, from its cursor's StartAt to the clock, for a hundred records of the feed's
      types from its LastKey on: clients that answer it alike, and look requests up alike, answer the call
      alike. */
  lemma OneSearch(feed: Feed, client: Client, other: Client, earliest: Option<Instant>, token: Option<string>,
      now: Instant)
    requires client.lookup == other.lookup
    requires var o := Opened(token, earliest, now);
      o.Success? ==>
        var req := SearchRequest(o.value.1, now, AskedTypes(feed), 100, o.value.0.lastKey);
        client.search(req) == other.search(req)
    ensures ListingOf(feed, client, earliest, token, now) == ListingOf(feed, other, earliest, token, now)
  {
    assert EventTypes(feed) == AskedTypes(feed);
    assert EVENTS_PAGE_SIZE == 100;
  }

  // ---- without an earliest event ----

  /** No earliest event means one 24 hours ago, for any token. */
  lemma NoEarliestIsADayAgo(feed: Feed, client: Client, token: Option<string>, now: Instant)
    ensures Opened(token, None, now) == Opened(token, Some(now - 24 * 60 * 60 * 1_000_000_000), now)
    ensures ListingOf(feed, client, None, token, now)
      == ListingOf(feed, client, Some(now - 24 * 60 * 60 * 1_000_000_000), token, now)
  {
    OpenedADayAgo(token, now);
    SameOpening(feed, client, None, token, Some(now - 24 * 60 * 60 * 1_000_000_000), token, now);
  }

  /** Without a token either, the search starts exactly there, and so does LatestEventSeen. */
  lemma FirstCallOpens(token: Option<string>, now: Instant)
    requires token.None? || token.value == ""
    requires InRange(now - 24 * 60 * 60 * 1_000_000_000)
    ensures var o := Opened(token, None, now);
      && o.Success? && o.value.1 == now - 24 * 60 * 60 * 1_000_000_000
      && o.value.0.latestEventSeen == o.value.0.startAt && o.value.0.lastKey == ""
  {
    OpenedADayAgo(token, now);
    FreshOpens(token, now - 24 * 60 * 60 * 1_000_000_000, now);
  }

  /** A server that answers with all of the window at once. */
  function WholeAnswer(place: string -> nat, requests: Requests, log: seq<AuditRecord>): Client {
    Client(req => Some(Answer(place, log, req, "")), requests)
  }

  ghost predicate DeliversDay(feed: Feed, requests: Requests, log: seq<AuditRecord>, now: Instant,
      r: Result<Delivery, FeedError>)
  {
    && r.Success? && !r.value.hasMore
    && forall e :: e in r.value.events
         <==> ToldBetween(feed, requests, log, now - 24 * 60 * 60 * 1_000_000_000, now, e)
  }

  /** So a first call without an earliest event delivers what the records of the last 24 hours have to tell. */
  lemma FirstCallDeliversADay(place: string -> nat, feed: Feed, requests: Requests, log: seq<AuditRecord>,
      token: Option<string>, now: Instant)
    requires token.None? || token.value == ""
    requires InRange(now - 24 * 60 * 60 * 1_000_000_000)
    requires InTimeOrder(log) && AllTyped(log) && forall i :: 0 <= i < |log| ==> InRange(log[i].time)
    ensures DeliversDay(feed, requests, log, now,
      ListingOf(feed, WholeAnswer(place, requests, log), None, token, now))
  {
    var from := now - 24 * 60 * 60 * 1_000_000_000;
    var sys := NewFeed(feed, log, from, now);
    var a := Call(now, "", false, requests, Stored);
    NeverStuck(place, requests, sys, [], sys, now);
    FirstListing(place, feed, requests, log, token, now);
    forall e ensures e in CallResult(place, sys, a).value.events <==> ToldBetween(feed, requests, log, from, now, e) {
      DeliveredExactly(place, requests, sys, [], sys, a, e);
      assert [] + CallResult(place, sys, a).value.events == CallResult(place, sys, a).value.events;
    }
    LastPageHasNoMore(place, requests, sys, a);
  }

  /** A feed not yet called that starts at `from`. */
  function NewFeed(feed: Feed, log: seq<AuditRecord>, from: Instant, now: Instant): System {
    System(feed, log, now, from, "", [], Truth(log))
  }

  lemma LastPageHasNoMore(place: string -> nat, requests: Requests, sys: System, a: Action)
    requires Fresh(sys) && Completes(place, requests, sys, a)
    ensures !CallResult(place, sys, a).value.hasMore
  {
    ReachableState(place, requests, sys, [], sys);
    var s := StateOf(place, requests, sys, []);
    CallOutcome(place, requests, sys, s, a, Position(place, s), PageEnd(place, s, a.to, a.next));
  }

  /** The call without earliest event and token is the first call of such a feed. */
  lemma FirstListing(place: string -> nat, feed: Feed, requests: Requests, log: seq<AuditRecord>,
      token: Option<string>, now: Instant)
    requires token.None? || token.value == ""
    ensures ListingOf(feed, WholeAnswer(place, requests, log), None, token, now)
      == CallResult(place, NewFeed(feed, log, now - 24 * 60 * 60 * 1_000_000_000, now),
           Call(now, "", false, requests, Stored))
  {
    var from := now - 24 * 60 * 60 * 1_000_000_000;
    var client := WholeAnswer(place, requests, log);
    var sys := NewFeed(feed, log, from, now);
    NoEarliestIsADayAgo(feed, client, token, now);
    SameOpening(feed, client, Some(from), token, Some(from), Some(""), now);
    OneSearch(feed, client, ClientOf(place, sys, Call(now, "", false, requests, Stored)), Some(from), Some(""), now);
  }

  lemma SameOpening(feed: Feed, client: Client, earliest: Option<Instant>, token: Option<string>,
      earliest': Option<Instant>, token': Option<string>, now: Instant)
    requires Opened(token, earliest, now) == Opened(token', earliest', now)
    ensures ListingOf(feed, client, earliest, token, now) == ListingOf(feed, client, earliest', token', now)
  {
    match feed
    case Audits =>
      ListedByOpening(client, AuditFeed.RESOURCE_CHANGE_EVENT_TYPES, rs => AuditFeed.ConvertAll(client.lookup, rs),
        earliest, token, earliest', token', now);
    case Logins =>
      ListedByOpening(client, [UsageFeed.USER_LOGIN_EVENT_TYPE], rs => Success(UsageFeed.ConvertAll(rs)),
        earliest, token, earliest', token', now);
  }
}

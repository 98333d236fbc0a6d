/** The whole system on real data: audit records, tokens, the ListEvents of a feed, and a consumer.
    Every step of it is a step of the protocol. */
module FeedSystem {
  import opened Wrappers
  import opened Events
  import opened EventLog
  import opened EventPagination
  import opened AuditRecords
  import opened FeedPage
  import opened FeedRefinement
  import opened Protocol
  import opened ProtocolProofs
  import opened Membership

  /** `token` is what the consumer stored last, empty before the first stored page. */
  datatype System = System(feed: Feed, log: seq<AuditRecord>, now: Instant, origin: Instant,
                           token: string, delivered: seq<Event>, view: View)

  /** A call says how the server answers it: the next key, whether the search fails, and which lookups do. */
  datatype Action =
    | AppendRecord(record: AuditRecord)
    | Call(to: Instant, next: string, searchFails: bool, lookup: string -> Lookup, fate: Fate)
    | Sync

  function FirstRecord(log: seq<AuditRecord>, from: Instant): (k: nat)
    ensures k <= |log|
  {
    if log == [] then 0
    else if log[|log| - 1].time < from then |log|
    else FirstRecord(log[..|log| - 1], from)
  }

  function ServerPosition(place: string -> nat, log: seq<AuditRecord>, from: Instant, key: string): nat {
    if key == "" then FirstRecord(log, from) else place(key)
  }

  /** SearchEvents: the matching records of the window from where the key resumes, both ends included. */
  function Answer(place: string -> nat, log: seq<AuditRecord>, req: SearchRequest, next: string): SearchPage {
    var p := ServerPosition(place, log, req.from, req.startKey);
    SearchPage(MatchingBetween(log, p, ServerEnd(place, log, p, req.to, next), req.eventTypes), next)
  }

  function ServerEnd(place: string -> nat, log: seq<AuditRecord>, p: nat, to: Instant, next: string): nat {
    if next != "" then place(next) else Max(p, FirstRecord(log, to + 1))
  }

  function MatchingBetween(log: seq<AuditRecord>, p: nat, q: nat, types: seq<string>): seq<AuditRecord> {
    if p <= q <= |log| then Matching(log[p..q], types) else []
  }

  function ClientOf(place: string -> nat, sys: System, a: Action): Client
    requires a.Call?
  {
    Client(req => if a.searchFails then None else Some(Answer(place, sys.log, req, a.next)), a.lookup)
  }

  function CallResult(place: string -> nat, sys: System, a: Action): Result<Delivery, FeedError>
    requires a.Call?
  {
    ListingOf(sys.feed, ClientOf(place, sys, a), Some(sys.origin), Some(sys.token), a.to)
  }

  /** A non-empty key points past where the request resumes, inside the window. */
  predicate Progresses(place: string -> nat, log: seq<AuditRecord>,
      opened': Result<(PageCursor, Instant), FeedError>, to: Instant, next: string)
  {
    match opened'
    case Failure(_) => true
    case Success((c, from)) =>
      next != "" ==> ServerPosition(place, log, from, c.lastKey) < place(next) <= FirstRecord(log, to + 1)
  }

  /** The assumptions of the protocol, about the request the connector really makes. */
  ghost predicate Possible(place: string -> nat, requests: Requests, sys: System, a: Action) {
    match a
    case AppendRecord(r) => InRange(r.time) && (sys.log == [] || sys.log[|sys.log| - 1].time <= r.time)
    case Call(to, next, _, lookup, _) =>
      && sys.now <= to
      && Flaky(lookup, requests)
      && Progresses(place, sys.log, Opened(Some(sys.token), Some(sys.origin), to), to, next)
    case Sync => true
  }

  function SystemNext(place: string -> nat, sys: System, a: Action): System {
    match a
    case AppendRecord(r) => sys.(log := sys.log + [r])
    case Sync => sys.(view := Truth(sys.log))
    case Call(to, _, _, _, fate) => AfterCall(sys, to, CallResult(place, sys, a), fate)
  }

  function AfterCall(sys: System, to: Instant, r: Result<Delivery, FeedError>, fate: Fate): System {
    match r
    case Failure(_) => sys.(now := to)
    case Success(d) =>
      match fate
      case ResponseLost => sys.(now := to)
      case CursorLost => sys.(now := to, delivered := sys.delivered + d.events, view := Apply(sys.view, d.events))
      case Stored =>
        sys.(now := to, delivered := sys.delivered + d.events, view := Apply(sys.view, d.events), token := d.cursor)
  }

  /** A feed not yet called, and a consumer that starts from a full sync of the current log. */
  ghost predicate Fresh(sys: System) {
    && sys.token == "" && sys.delivered == [] && InRange(sys.origin)
    && (forall i :: 0 <= i < |sys.log| ==> InRange(sys.log[i].time))
    && InTimeOrder(sys.log)
    && sys.view == Truth(sys.log)
  }

  ghost predicate InTimeOrder(log: seq<AuditRecord>) {
    forall i, j :: 0 <= i < j < |log| ==> log[i].time <= log[j].time
  }

  lemma EntriesInTimeOrder(feed: Feed, requests: Requests, log: seq<AuditRecord>)
    ensures InTimeOrder(log) <==> Sorted(Entries(feed, requests, log))
  {
    var es := Entries(feed, requests, log);
    forall i, j | 0 <= i < j < |log| ensures es[i].time <= es[j].time <==> log[i].time <= log[j].time {
    }
  }

  /** The protocol state a fresh system starts from: a consumer synced at the current log. */
  function Start(requests: Requests, sys: System): State {
    State(Entries(sys.feed, requests, sys.log), sys.now, sys.origin, sys.origin, "", [], sys.view,
      sys.origin, 0, [], [], sys.view, |sys.log|, 0)
  }

  ghost predicate PossibleRun(place: string -> nat, requests: Requests, sys: System, actions: seq<Action>)
    decreases actions
  {
    actions == [] ||
    (Possible(place, requests, sys, actions[0])
      && PossibleRun(place, requests, SystemNext(place, sys, actions[0]), actions[1..]))
  }

  function SystemRun(place: string -> nat, sys: System, actions: seq<Action>): System
    decreases actions
  {
    if actions == [] then sys else SystemRun(place, SystemNext(place, sys, actions[0]), actions[1..])
  }

  // ---- the simulation ----

  ghost predicate Agree(requests: Requests, sys: System, s: State) {
    && s.log == Entries(sys.feed, requests, sys.log)
    && BaseAgrees(sys.log, s.base, s.syncedAt)
    && s.now == sys.now && s.origin == sys.origin && s.delivered == sys.delivered && s.view == sys.view
    && InRange(sys.origin)
    && (forall i :: 0 <= i < |sys.log| ==> InRange(sys.log[i].time))
    && TokenAgrees(sys.token, s)
  }

  /** The view the last full sync left is the truth of the log at that moment. */
  ghost predicate BaseAgrees(log: seq<AuditRecord>, base: View, k: nat) {
    k <= |log| && base == Truth(log[..k])
  }

  ghost predicate TokenAgrees(token: string, s: State) {
    (s.key == "" ==> s.latest == s.start) &&
    if token == "" then s.start == s.origin && s.key == "" else token == StoredToken(s.start, s.latest, s.key)
  }

  lemma {:induction false} FirstRecordIsFirst(feed: Feed, requests: Requests, log: seq<AuditRecord>, from: Instant)
    ensures FirstRecord(log, from) == First(Entries(feed, requests, log), from)
  {
    if log != [] {
      var es := Entries(feed, requests, log);
      assert es[..|log| - 1] == Entries(feed, requests, log[..|log| - 1]);
      assert es[|log| - 1].time == log[|log| - 1].time;
      FirstRecordIsFirst(feed, requests, log[..|log| - 1], from);
    }
  }

  lemma LogInRange(requests: Requests, sys: System, s: State)
    requires Agree(requests, sys, s)
    ensures forall i :: 0 <= i < |s.log| ==> InRange(s.log[i].time)
  {
    forall i | 0 <= i < |s.log| ensures InRange(s.log[i].time) {
      assert s.log[i] == EntryOf(sys.feed, requests, sys.log[i]);
    }
  }

  /** The times in the cursor stay formattable: they are the origin or times of records. */
  lemma CursorInRange(place: string -> nat, s: State)
    requires CursorOk(place, s) && CycleOk(place, s) && InRange(s.origin)
    requires forall i :: 0 <= i < |s.log| ==> InRange(s.log[i].time)
    ensures InRange(s.start) && InRange(s.latest)
  {
    HandOverIsSeen(s.log, s.start, First(s.log, s.start), Position(place, s));
  }

  lemma StateInRange(place: string -> nat, requests: Requests, sys: System, s: State)
    requires CursorOk(place, s) && CycleOk(place, s) && Agree(requests, sys, s)
    ensures InRange(s.start) && InRange(s.latest)
  {
    LogInRange(requests, sys, s);
    CursorInRange(place, s);
  }

  lemma TokenOpens(token: string, origin: Instant, start: Instant, latest: Instant, key: string, to: Instant)
    requires InRange(start) && (key == "" ==> latest == start)
    requires if token == "" then start == origin && key == "" else token == StoredToken(start, latest, key)
    ensures Opened(Some(token), Some(origin), to) == Success((TextCursor(start, latest, key), start))
  {
    if token == "" {
      FreshOpens(Some(""), origin, to);
    } else {
      StoredTokenOpens(start, latest, key, Some(origin), to);
    }
  }

  /** The server reads the request the way the protocol reads the cursor. */
  lemma WindowsAgree(place: string -> nat, feed: Feed, requests: Requests, log: seq<AuditRecord>, s: State, to: Instant)
    requires s.log == Entries(feed, requests, log)
    ensures ServerPosition(place, log, s.start, s.key) == Position(place, s)
    ensures FirstRecord(log, to + 1) == Upper(s.log, to)
  {
    FirstRecordIsFirst(feed, requests, log, s.start);
    FirstRecordIsFirst(feed, requests, log, to + 1);
  }

  lemma CallEnabled(place: string -> nat, feed: Feed, requests: Requests, log: seq<AuditRecord>, s: State,
      to: Instant, next: string, fate: Fate, c: PageCursor)
    requires s.log == Entries(feed, requests, log) && s.now <= to && c.lastKey == s.key
    requires Progresses(place, log, Success((c, s.start)), to, next)
    ensures Enabled(place, s, Page(to, next, fate))
  {
    WindowsAgree(place, feed, requests, log, s, to);
  }

  /** The page the server answers with is the stretch of log the protocol delivers. */
  lemma AnswerIsPage(place: string -> nat, feed: Feed, requests: Requests, log: seq<AuditRecord>, s: State,
      types: seq<string>, to: Instant, next: string, p: nat, q: nat)
    requires s.log == Entries(feed, requests, log)
    requires p == Position(place, s) && q == PageEnd(place, s, to, next) && p <= q <= |log|
    ensures Answer(place, log, SearchRequest(s.start, to, types, EVENTS_PAGE_SIZE, s.key), next)
      == SearchPage(Matching(log[p..q], types), next)
  {
    WindowsAgree(place, feed, requests, log, s, to);
    assert ServerEnd(place, log, p, to, next) == q;
    assert MatchingBetween(log, p, q, types) == Matching(log[p..q], types);
  }

  function ConvertedPage(feed: Feed, lookup: string -> Lookup,
      rs: seq<AuditRecord>): Result<seq<Conversion>, FeedError>
  {
    match feed
    case Audits => AuditFeed.ConvertAll(lookup, rs)
    case Logins => Success(UsageFeed.ConvertAll(rs))
  }

  function PageOutcome(feed: Feed, lookup: string -> Lookup, c: PageCursor,
      answer: Option<SearchPage>): Result<Delivery, FeedError>
  {
    match answer
    case None => Failure(SearchFailed)
    case Some(page) =>
      match ConvertedPage(feed, lookup, page.records)
      case Failure(e) => Failure(e)
      case Success(cs) => Success(DeliveryOf(c, cs, page.lastKey))
  }

  lemma OpenedCall(place: string -> nat, sys: System, a: Action, c: PageCursor, from: Instant)
    requires a.Call? && Opened(Some(sys.token), Some(sys.origin), a.to) == Success((c, from))
    ensures CallResult(place, sys, a) == PageOutcome(sys.feed, a.lookup, c,
      if a.searchFails then None
      else Some(Answer(place, sys.log, SearchRequest(from, a.to, EventTypes(sys.feed), EVENTS_PAGE_SIZE, c.lastKey),
        a.next)))
  {
  }

  /** The converted page turns the cursor text exactly as the protocol turns its instants. */
  lemma PageTurns(feed: Feed, requests: Requests, rs: seq<AuditRecord>, start: Instant, latest: Instant, key: string,
      next: string)
    requires InRange(latest) && forall r :: r in rs ==> InRange(r.time)
    ensures var seen := Latest(latest, Entries(feed, requests, rs));
      DeliveryOf(TextCursor(start, latest, key), ConvertedAll(feed, requests, Matching(rs, EventTypes(feed))), next)
      == Delivery(Out(Entries(feed, requests, rs)), StoredToken(if next == "" then seen else start, seen, next),
        next != "")
  {
    var cs := ConvertedAll(feed, requests, Matching(rs, EventTypes(feed)));
    MatchingConverted(feed, requests, rs, latest);
    MatchingInRange(rs, EventTypes(feed));
    TimesInRange(feed, requests, Matching(rs, EventTypes(feed)));
    UpdatesAreLatest(start, latest, key, TimesOf(cs));
  }

  lemma {:induction false} TimesInRange(feed: Feed, requests: Requests, rs: seq<AuditRecord>)
    requires forall r :: r in rs ==> InRange(r.time)
    ensures forall t :: t in TimesOf(ConvertedAll(feed, requests, rs)) ==> InRange(t)
  {
    if rs != [] {
      var n := |rs| - 1;
      TimesInRange(feed, requests, rs[..n]);
      TimesSnoc(ConvertedAll(feed, requests, rs[..n]), Converted(feed, requests, rs[n]));
      ConvertedHonest(feed, requests, rs[n]);
    }
  }

  lemma {:induction false} MatchingInRange(rs: seq<AuditRecord>, types: seq<string>)
    requires forall r :: r in rs ==> InRange(r.time)
    ensures forall r :: r in Matching(rs, types) ==> InRange(r.time)
  {
    if rs != [] {
      MatchingInRange(rs[..|rs| - 1], types);
    }
  }

  lemma TimesSnoc(cs: seq<Conversion>, x: Conversion)
    ensures TimesOf(cs + [x]) == TimesOf(cs) + [x.at]
  {
    assert (cs + [x])[..|cs|] == cs;
  }
}

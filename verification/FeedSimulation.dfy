/** Every run of the feeds on real data is a run of the protocol. */
module FeedSimulation {
  import opened Wrappers
  import opened Events
  import opened EventLog
  import opened EventPagination
  import opened AuditRecords
  import opened FeedPage
  import opened FeedRefinement
  import opened Protocol
  import opened ProtocolProofs
  import opened Membership
  import opened FeedSystem
  import Timestamps

  ghost predicate Fails(requests: Requests, sys: System, a: Action, p: nat, q: nat)
    requires a.Call? && p <= q <= |sys.log|
  {
    a.searchFails || PageFails(sys.feed, a.lookup, Matching(sys.log[p..q], EventTypes(sys.feed)))
  }

  lemma PageOutcomes(feed: Feed, requests: Requests, lookup: string -> Lookup, c: PageCursor, rs: seq<AuditRecord>,
      next: string)
    requires Flaky(lookup, requests)
    ensures var r := PageOutcome(feed, lookup, c, Some(SearchPage(rs, next)));
      if PageFails(feed, lookup, rs) then FailsAtFirst(lookup, rs, r)
      else r == Success(DeliveryOf(c, ConvertedAll(feed, requests, rs), next))
  {
    if feed.Audits? {
      FlakyPage(lookup, requests, rs);
    } else {
      UsagePage(requests, rs);
    }
  }

  /** The call as made: the stored token opens to the protocol's cursor, and the server answers with its page. */
  lemma CallMade(place: string -> nat, requests: Requests, sys: System, s: State, a: Action, p: nat, q: nat)
    requires CursorOk(place, s) && CycleOk(place, s) && Agree(requests, sys, s) && a.Call?
      && Possible(place, requests, sys, a)
    requires p == Position(place, s) && q == PageEnd(place, s, a.to, a.next)
    ensures Enabled(place, s, Page(a.to, a.next, a.fate)) && p <= q <= |sys.log|
    ensures CallResult(place, sys, a) == PageOutcome(sys.feed, a.lookup, TextCursor(s.start, s.latest, s.key),
      if a.searchFails then None else Some(SearchPage(Matching(sys.log[p..q], EventTypes(sys.feed)), a.next)))
  {
    var c := TextCursor(s.start, s.latest, s.key);
    StateInRange(place, requests, sys, s);
    TokenOpens(sys.token, sys.origin, s.start, s.latest, s.key, a.to);
    CallEnabled(place, sys.feed, requests, sys.log, s, a.to, a.next, a.fate, c);
    PageBounds(place, s, a.to, a.next);
    OpenedCall(place, sys, a, c, s.start);
    AnswerIsPage(place, sys.feed, requests, sys.log, s, EventTypes(sys.feed), a.to, a.next, p, q);
  }

  function PageDelivery(start: Instant, latest: Instant, page: seq<Entry>, next: string): Delivery {
    var seen := Latest(latest, page);
    Delivery(Out(page), StoredToken(if next == "" then seen else start, seen, next), next != "")
  }

  lemma EntriesOfSlice(feed: Feed, requests: Requests, log: seq<AuditRecord>, p: nat, q: nat)
    requires p <= q <= |log|
    ensures Entries(feed, requests, log[p..q]) == Seg(Entries(feed, requests, log), p, q)
  {
  }

  lemma OutcomeOf(feed: Feed, requests: Requests, lookup: string -> Lookup, rs: seq<AuditRecord>, page: seq<Entry>,
      start: Instant, latest: Instant, key: string, next: string)
    requires Flaky(lookup, requests) && InRange(latest) && (forall r :: r in rs ==> InRange(r.time))
    requires page == Entries(feed, requests, rs)
    ensures var ms := Matching(rs, EventTypes(feed));
      var r := PageOutcome(feed, lookup, TextCursor(start, latest, key), Some(SearchPage(ms, next)));
      if PageFails(feed, lookup, ms) then FailsAtFirst(lookup, ms, r)
      else r == Success(PageDelivery(start, latest, page, next))
  {
    PageOutcomes(feed, requests, lookup, TextCursor(start, latest, key), Matching(rs, EventTypes(feed)), next);
    PageTurns(feed, requests, rs, start, latest, key, next);
  }

  lemma SliceOutcome(feed: Feed, requests: Requests, lookup: string -> Lookup, log: seq<AuditRecord>, es: seq<Entry>,
      p: nat, q: nat,
      start: Instant, latest: Instant, key: string, next: string)
    requires Flaky(lookup, requests) && InRange(latest) && (forall i :: 0 <= i < |log| ==> InRange(log[i].time))
    requires es == Entries(feed, requests, log) && p <= q <= |log|
    ensures var ms := Matching(log[p..q], EventTypes(feed));
      var r := PageOutcome(feed, lookup, TextCursor(start, latest, key), Some(SearchPage(ms, next)));
      if PageFails(feed, lookup, ms) then FailsAtFirst(lookup, ms, r)
      else r == Success(PageDelivery(start, latest, Seg(es, p, q), next))
  {
    EntriesOfSlice(feed, requests, log, p, q);
    OutcomeOf(feed, requests, lookup, log[p..q], Seg(es, p, q), start, latest, key, next);
  }

  lemma CallAnswered(place: string -> nat, requests: Requests, sys: System, s: State, a: Action, p: nat, q: nat)
    requires CursorOk(place, s) && CycleOk(place, s) && Agree(requests, sys, s)
    requires a.Call? && Possible(place, requests, sys, a) && !a.searchFails
    requires p == Position(place, s) && q == PageEnd(place, s, a.to, a.next) && p <= q <= |sys.log|
    ensures var r := CallResult(place, sys, a);
      if PageFails(sys.feed, a.lookup, Matching(sys.log[p..q], EventTypes(sys.feed))) then
        FailsAtFirst(a.lookup, Matching(sys.log[p..q], EventTypes(sys.feed)), r)
      else r == Success(PageDelivery(s.start, s.latest, Seg(s.log, p, q), a.next))
  {
    CallMade(place, requests, sys, s, a, p, q);
    StateInRange(place, requests, sys, s);
    SliceOutcome(sys.feed, requests, a.lookup, sys.log, s.log, p, q, s.start, s.latest, s.key, a.next);
  }

  /** A call on a token the feed handed out fails only when the search or a lookup of its page fails, and
      says which;
      otherwise it returns the events of the protocol's page and the token of the protocol's cursor. */
  lemma CallOutcome(place: string -> nat, requests: Requests, sys: System, s: State, a: Action, p: nat, q: nat)
    requires CursorOk(place, s) && CycleOk(place, s) && Agree(requests, sys, s) && a.Call?
      && Possible(place, requests, sys, a)
    requires p == Position(place, s) && q == PageEnd(place, s, a.to, a.next)
    ensures Enabled(place, s, Page(a.to, a.next, a.fate)) && p <= q <= |sys.log|
    ensures var r := CallResult(place, sys, a);
      if a.searchFails then r == Failure(SearchFailed)
      else if Fails(requests, sys, a, p, q) then
        FailsAtFirst(a.lookup, Matching(sys.log[p..q], EventTypes(sys.feed)), r)
      else r == Success(PageDelivery(s.start, s.latest, Seg(s.log, p, q), a.next))
  {
    CallMade(place, requests, sys, s, a, p, q);
    if !a.searchFails {
      CallAnswered(place, requests, sys, s, a, p, q);
    }
  }

  // ---- steps and runs ----

  /** The protocol step an action amounts to. */
  function StepOf(place: string -> nat, requests: Requests, sys: System, a: Action): Step {
    match a
    case AppendRecord(r) => Append(EntryOf(sys.feed, requests, r))
    case Sync => FullSync(Truth(sys.log))
    case Call(to, next, _, _, fate) => PageStep(to, next, CallResult(place, sys, a), fate)
  }

  function PageStep(to: Instant, next: string, r: Result<Delivery, FeedError>, fate: Fate): Step {
    if r.Failure? then FailedCall(to) else Page(to, next, fate)
  }

  /** What the consumer does with a delivery agrees with what the protocol does with the page. */
  lemma DeliveryAgrees(place: string -> nat, sys: System, s: State, to: Instant, next: string, d: Delivery,
      fate: Fate, p: nat, q: nat)
    requires s.origin == sys.origin && s.delivered == sys.delivered && s.view == sys.view
    requires p == Position(place, s) && q == PageEnd(place, s, to, next) && d.events == Out(Seg(s.log, p, q))
    ensures var sys' := AfterCall(sys, to, Success(d), fate); var t := Next(place, s, Page(to, next, fate));
      && sys'.log == sys.log && sys'.feed == sys.feed && t.log == s.log
      && t.now == sys'.now && t.origin == sys'.origin && t.delivered == sys'.delivered && t.view == sys'.view
      && sys'.origin == sys.origin
      && sys'.token == (if fate == Stored then d.cursor else sys.token)
      && t.key == (if fate == Stored then next else s.key)
      && t.base == s.base && t.syncedAt == s.syncedAt
      && t.latest == (if fate == Stored then Latest(s.latest, Seg(s.log, p, q)) else s.latest)
      && t.start == (if fate == Stored && next == "" then t.latest else s.start)
  {
  }

  lemma TokenNotEmpty(start: Instant, latest: Instant, key: string)
    ensures StoredToken(start, latest, key) != ""
  {
    TextDecodes(if key == "" then PageCursor(Timestamps.Format(start), "", "") else TextCursor(start, latest, key));
  }

  lemma CallSimulated(place: string -> nat, requests: Requests, sys: System, s: State, a: Action)
    requires Inv(place, s) && Agree(requests, sys, s) && a.Call? && Possible(place, requests, sys, a)
    ensures Enabled(place, s, StepOf(place, requests, sys, a))
    ensures Agree(requests, SystemNext(place, sys, a), Next(place, s, StepOf(place, requests, sys, a)))
  {
    var p, q := Position(place, s), PageEnd(place, s, a.to, a.next);
    CallOutcome(place, requests, sys, s, a, p, q);
    CallResultAgrees(place, requests, sys, s, a.to, a.next, CallResult(place, sys, a), a.fate, p, q);
  }

  lemma ClockAgrees(requests: Requests, sys: System, s: State, to: Instant)
    requires Agree(requests, sys, s)
    ensures Agree(requests, sys.(now := to), s.(now := to))
  {
  }

  /** A failed call leaves everything but the clock. */
  lemma FailureAgrees(place: string -> nat, requests: Requests, sys: System, s: State, to: Instant, next: string,
      fate: Fate, e: FeedError)
    requires Agree(requests, sys, s)
    ensures Agree(requests, AfterCall(sys, to, Failure(e), fate), Next(place, s, PageStep(to, next, Failure(e), fate)))
  {
    ClockAgrees(requests, sys, s, to);
    assert AfterCall(sys, to, Failure(e), fate) == sys.(now := to);
    assert Next(place, s, PageStep(to, next, Failure(e), fate)) == s.(now := to);
  }

  lemma CallResultAgrees(place: string -> nat, requests: Requests, sys: System, s: State, to: Instant, next: string,
      r: Result<Delivery, FeedError>, fate: Fate, p: nat, q: nat)
    requires Agree(requests, sys, s) && p == Position(place, s) && q == PageEnd(place, s, to, next)
    requires r.Success? ==> r == Success(PageDelivery(s.start, s.latest, Seg(s.log, p, q), next))
    ensures Agree(requests, AfterCall(sys, to, r, fate), Next(place, s, PageStep(to, next, r, fate)))
  {
    if r.Success? {
      var seen := Latest(s.latest, Seg(s.log, p, q));
      TokenNotEmpty(if next == "" then seen else s.start, seen, next);
      DeliveryAgrees(place, sys, s, to, next, r.value, fate, p, q);
    } else {
      FailureAgrees(place, requests, sys, s, to, next, fate, r.error);
    }
  }

  lemma AppendAgrees(feed: Feed, requests: Requests, log: seq<AuditRecord>, es: seq<Entry>, r: AuditRecord)
    requires es == Entries(feed, requests, log) && (log == [] || log[|log| - 1].time <= r.time)
    ensures var e := EntryOf(feed, requests, r);
      && Honest(e) && (es == [] || es[|es| - 1].time <= e.time)
      && Entries(feed, requests, log + [r]) == es + [e]
  {
    EntryHonest(feed, requests, r);
    ConvertedSnoc(feed, requests, log, r);
  }

  lemma BaseAppends(log: seq<AuditRecord>, r: AuditRecord, base: View, k: nat)
    requires BaseAgrees(log, base, k)
    ensures BaseAgrees(log + [r], base, k)
  {
    assert (log + [r])[..k] == log[..k];
  }

  lemma SyncAgrees(log: seq<AuditRecord>)
    ensures BaseAgrees(log, Truth(log), |log|)
  {
    assert log[..|log|] == log;
  }

  lemma AppendSimulated(place: string -> nat, requests: Requests, sys: System, s: State, r: AuditRecord)
    requires Agree(requests, sys, s) && Possible(place, requests, sys, AppendRecord(r))
    ensures Enabled(place, s, Append(EntryOf(sys.feed, requests, r)))
    ensures Agree(requests, sys.(log := sys.log + [r]), s.(log := s.log + [EntryOf(sys.feed, requests, r)]))
  {
    AppendAgrees(sys.feed, requests, sys.log, s.log, r);
    StateAppends(requests, sys, s, r, EntryOf(sys.feed, requests, r));
  }

  lemma StateAppends(requests: Requests, sys: System, s: State, r: AuditRecord, e: Entry)
    requires Agree(requests, sys, s) && InRange(r.time)
    requires Entries(sys.feed, requests, sys.log + [r]) == s.log + [e]
    ensures Agree(requests, sys.(log := sys.log + [r]), s.(log := s.log + [e]))
  {
    BaseAppends(sys.log, r, s.base, s.syncedAt);
  }

  lemma StepSimulated(place: string -> nat, requests: Requests, sys: System, s: State, a: Action)
    requires Inv(place, s) && Agree(requests, sys, s) && Possible(place, requests, sys, a)
    ensures Enabled(place, s, StepOf(place, requests, sys, a))
    ensures Agree(requests, SystemNext(place, sys, a), Next(place, s, StepOf(place, requests, sys, a)))
  {
    if a.Call? {
      CallSimulated(place, requests, sys, s, a);
    } else if a.AppendRecord? {
      AppendSimulated(place, requests, sys, s, a.record);
    } else {
      SyncAgrees(sys.log);
    }
  }

  function StepsOf(place: string -> nat, requests: Requests, sys: System, actions: seq<Action>): seq<Step>
    decreases actions
  {
    if actions == [] then []
    else
      [StepOf(place, requests, sys, actions[0])]
      + StepsOf(place, requests, SystemNext(place, sys, actions[0]), actions[1..])
  }

  /** Simulation: the protocol run of a system run is legal and ends in the state the system is in. */
  lemma {:induction false} RunSimulated(place: string -> nat, requests: Requests, sys: System, s: State,
      actions: seq<Action>)
    requires Inv(place, s) && Agree(requests, sys, s) && PossibleRun(place, requests, sys, actions)
    ensures Legal(place, s, StepsOf(place, requests, sys, actions))
    ensures Agree(requests, SystemRun(place, sys, actions), Run(place, s, StepsOf(place, requests, sys, actions)))
    decreases actions
  {
    if actions != [] {
      var step := StepOf(place, requests, sys, actions[0]);
      StepSimulated(place, requests, sys, s, actions[0]);
      NextInv(place, s, step);
      RunSimulated(place, requests, SystemNext(place, sys, actions[0]), Next(place, s, step), actions[1..]);
      var steps := StepsOf(place, requests, sys, actions);
      assert steps[0] == step && steps[1..]
        == StepsOf(place, requests, SystemNext(place, sys, actions[0]), actions[1..]);
    }
  }

  /** A fresh system is an initial protocol state. */
  lemma FreshAgrees(place: string -> nat, requests: Requests, sys: System)
    requires Fresh(sys)
    ensures Agree(requests, sys, Start(requests, sys))
    ensures Initial(Start(requests, sys)) && Clean(Start(requests, sys).log) && Inv(place, Start(requests, sys))
  {
    var s := Start(requests, sys);
    SyncAgrees(sys.log);
    EntriesInTimeOrder(sys.feed, requests, sys.log);
    forall i | 0 <= i < |s.log| ensures Honest(s.log[i]) {
      EntryHonest(sys.feed, requests, sys.log[i]);
    }
    InitialInv(place, s);
  }
}

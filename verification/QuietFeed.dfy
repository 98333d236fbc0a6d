/** A feed that finds nothing new: the same token again, and only the records at its StartAt. */
module QuietFeed {
  import opened Wrappers
  import opened Events
  import opened EventLog
  import opened EventPagination
  import opened AuditRecords
  import opened FeedPage
  import opened FeedRefinement
  import opened Protocol
  import opened ProtocolProofs
  import opened ProtocolTheorems
  import opened FeedSystem
  import opened FeedSimulation
  import opened Divergence
  import opened EndToEnd

  /** The time a token asks for records from. */
  function StartAtOf(token: string): Instant {
    match Opened(Some(token), None, 0)
    case Failure(_) => 0
    case Success((_, from)) => from
  }

  function RecordsAt(rs: seq<AuditRecord>, t: Instant): seq<AuditRecord> {
    if rs == [] then []
    else if rs[0].time == t then [rs[0]] + RecordsAt(rs[1..], t)
    else RecordsAt(rs[1..], t)
  }

  /** A call, answered with `r`, that ends a cycle and whose cursor is stored. */
  predicate EndsWith(a: Action, r: Result<Delivery, FeedError>)
    requires a.Call?
  {
    a.next == "" && a.fate == Stored && r.Success?
  }

  predicate NeverCompletes(place: string -> nat, sys: System, actions: seq<Action>)
    decreases actions
  {
    actions == [] ||
    ((actions[0].Call? ==> !EndsWith(actions[0], CallResult(place, sys, actions[0])))
     && NeverCompletes(place, SystemNext(place, sys, actions[0]), actions[1..]))
  }

  /** What an answer adds to the running cycle: the events of a call whose cursor is stored. */
  function StoredEvents(a: Action, r: Result<Delivery, FeedError>): seq<Event>
    requires a.Call?
  {
    if a.fate == Stored && r.Success? then r.value.events else []
  }

  function StoredPage(place: string -> nat, sys: System, a: Action): seq<Event> {
    if a.Call? then StoredEvents(a, CallResult(place, sys, a)) else []
  }

  function StoredPages(place: string -> nat, sys: System, actions: seq<Action>): seq<Event>
    decreases actions
  {
    if actions == [] then []
    else StoredPage(place, sys, actions[0]) + StoredPages(place, SystemNext(place, sys, actions[0]), actions[1..])
  }

  // ---- records at one time ----

  lemma {:induction false} AtRecords(feed: Feed, requests: Requests, rs: seq<AuditRecord>, t: Instant)
    ensures At(Entries(feed, requests, rs), t) == Entries(feed, requests, RecordsAt(rs, t))
  {
    if rs != [] {
      var es := Entries(feed, requests, rs);
      assert es[1..] == Entries(feed, requests, rs[1..]) && es[0].time == rs[0].time;
      AtRecords(feed, requests, rs[1..], t);
      if rs[0].time == t {
        EntriesCons(feed, requests, rs[0], RecordsAt(rs[1..], t));
      }
    }
  }

  lemma EntriesCons(feed: Feed, requests: Requests, r: AuditRecord, rs: seq<AuditRecord>)
    ensures Entries(feed, requests, [r] + rs) == [EntryOf(feed, requests, r)] + Entries(feed, requests, rs)
  {
    var all := [r] + rs;
    var es := Entries(feed, requests, all);
    forall i | 0 <= i < |all| ensures es[i] == ([EntryOf(feed, requests, r)] + Entries(feed, requests, rs))[i] {
      if i > 0 {
        assert all[i] == rs[i - 1];
      }
    }
  }

  lemma {:induction false} NoneAt(rs: seq<AuditRecord>, t: Instant)
    requires forall i :: 0 <= i < |rs| ==> rs[i].time < t
    ensures RecordsAt(rs, t) == []
  {
    if rs != [] {
      NoneAt(rs[1..], t);
    }
  }

  lemma {:induction false} RecordsAtConcat(a: seq<AuditRecord>, b: seq<AuditRecord>, t: Instant)
    ensures RecordsAt(a + b, t) == RecordsAt(a, t) + RecordsAt(b, t)
  {
    if a == [] {
      assert a + b == b;
    } else {
      assert (a + b)[1..] == a[1..] + b;
      RecordsAtConcat(a[1..], b, t);
    }
  }

  lemma BeforeFirst(log: seq<AuditRecord>, t: Instant, i: nat)
    requires InTimeOrder(log) && i < FirstRecord(log, t)
    ensures log[i].time < t
  {
    EntriesInTimeOrder(Audits, AnyRequests(), log);
    FirstRecordIsFirst(Audits, AnyRequests(), log, t);
    FirstSplits(Entries(Audits, AnyRequests(), log), t);
  }

  function AnyRequests(): Requests {
    _ => NotFound
  }

  /** Of a log up to `hi`, the records at `t` lie in the window that starts at `t`. */
  lemma RecordsAtWindow(log: seq<AuditRecord>, t: Instant, hi: nat)
    requires InTimeOrder(log) && hi <= |log|
    ensures RecordsAt(log[..hi], t) == RecordsAt(Stretch(log, FirstRecord(log, t), hi), t)
  {
    var lo := FirstRecord(log, t);
    var front := log[..if lo <= hi then lo else hi];
    forall i | 0 <= i < |front| ensures front[i].time < t {
      BeforeFirst(log, t, i);
    }
    NoneAt(front, t);
    assert log[..hi] == front + Stretch(log, lo, hi);
    RecordsAtConcat(front, Stretch(log, lo, hi), t);
  }

  // ---- the running cycle ----

  lemma PagePending(place: string -> nat, s: State, to: Instant, next: string, fate: Fate)
    requires fate == Stored ==> next != ""
    ensures Next(place, s, Page(to, next, fate)).pending == s.pending +
      if fate == Stored then Out(Seg(s.log, Position(place, s), PageEnd(place, s, to, next))) else []
  {
    assert s.pending + [] == s.pending;
  }

  lemma AnswerPending(place: string -> nat, s: State, a: Action, r: Result<Delivery, FeedError>)
    requires a.Call? && !EndsWith(a, r)
    requires r.Success? ==> r.value.events == Out(Seg(s.log, Position(place, s), PageEnd(place, s, a.to, a.next)))
    ensures var step := PageStep(a.to, a.next, r, a.fate);
      !EndsCycle(step) && Next(place, s, step).pending == s.pending + StoredEvents(a, r)
  {
    if r.Success? {
      PagePending(place, s, a.to, a.next, a.fate);
    } else {
      assert s.pending + [] == s.pending;
    }
  }

  lemma CallPending(place: string -> nat, requests: Requests, sys: System, s: State, a: Action)
    requires Inv(place, s) && Agree(requests, sys, s) && Possible(place, requests, sys, a)
    requires a.Call? && !EndsWith(a, CallResult(place, sys, a))
    ensures var step := StepOf(place, requests, sys, a);
      !EndsCycle(step) && Next(place, s, step).pending == s.pending + StoredPage(place, sys, a)
  {
    CallOutcome(place, requests, sys, s, a, Position(place, s), PageEnd(place, s, a.to, a.next));
    AnswerPending(place, s, a, CallResult(place, sys, a));
  }

  lemma OtherPending(place: string -> nat, requests: Requests, sys: System, s: State, a: Action)
    requires !a.Call?
    ensures var step := StepOf(place, requests, sys, a);
      !EndsCycle(step) && Next(place, s, step).pending == s.pending + StoredPage(place, sys, a)
  {
    assert s.pending + [] == s.pending;
  }

  lemma PendingStep(place: string -> nat, requests: Requests, sys: System, s: State, a: Action)
    requires Inv(place, s) && Agree(requests, sys, s) && Possible(place, requests, sys, a)
    requires a.Call? ==> !EndsWith(a, CallResult(place, sys, a))
    ensures var step := StepOf(place, requests, sys, a);
      && !EndsCycle(step) && Next(place, s, step).pending == s.pending + StoredPage(place, sys, a)
      && Inv(place, Next(place, s, step)) && Agree(requests, SystemNext(place, sys, a), Next(place, s, step))
  {
    StepSimulated(place, requests, sys, s, a);
    NextInv(place, s, StepOf(place, requests, sys, a));
    if a.Call? {
      CallPending(place, requests, sys, s, a);
    } else {
      OtherPending(place, requests, sys, s, a);
    }
  }

  lemma {:induction false} PendingIsStored(place: string -> nat, requests: Requests, sys: System, s: State,
      actions: seq<Action>)
    requires Inv(place, s) && Agree(requests, sys, s) && PossibleRun(place, requests, sys, actions)
    requires NeverCompletes(place, sys, actions)
    ensures var steps := StepsOf(place, requests, sys, actions);
      NoneEnds(steps) && Run(place, s, steps).pending == s.pending + StoredPages(place, sys, actions)
    decreases actions
  {
    if actions == [] {
      NothingPending(place, requests, sys, s);
    } else {
      var t := Next(place, s, StepOf(place, requests, sys, actions[0]));
      NeverSplits(place, sys, actions);
      PendingStep(place, requests, sys, s, actions[0]);
      PendingIsStored(place, requests, SystemNext(place, sys, actions[0]), t, actions[1..]);
      PendingJoins(place, requests, sys, s, actions, t);
    }
  }

  lemma NothingPending(place: string -> nat, requests: Requests, sys: System, s: State)
    ensures NoneEnds(StepsOf(place, requests, sys, []))
    ensures Run(place, s, StepsOf(place, requests, sys, [])).pending == s.pending + StoredPages(place, sys, [])
  {
    assert s.pending + [] == s.pending;
  }

  lemma NeverSplits(place: string -> nat, sys: System, actions: seq<Action>)
    requires actions != [] && NeverCompletes(place, sys, actions)
    ensures actions[0].Call? ==> !EndsWith(actions[0], CallResult(place, sys, actions[0]))
    ensures NeverCompletes(place, SystemNext(place, sys, actions[0]), actions[1..])
  {
  }

  lemma PendingJoins(place: string -> nat, requests: Requests, sys: System, s: State, actions: seq<Action>, t: State)
    requires actions != [] && t == Next(place, s, StepOf(place, requests, sys, actions[0]))
    requires !EndsCycle(StepOf(place, requests, sys, actions[0]))
    requires t.pending == s.pending + StoredPage(place, sys, actions[0])
    requires var next := SystemNext(place, sys, actions[0]);
      var rest := StepsOf(place, requests, next, actions[1..]);
      NoneEnds(rest) && Run(place, t, rest).pending == t.pending + StoredPages(place, next, actions[1..])
    ensures var steps := StepsOf(place, requests, sys, actions);
      NoneEnds(steps) && Run(place, s, steps).pending == s.pending + StoredPages(place, sys, actions)
  {
    NextStepsOf(place, requests, sys, actions);
    FirstStep(place, s, StepsOf(place, requests, sys, actions));
    ThreeParts(s.pending, StoredPage(place, sys, actions[0]),
      StoredPages(place, SystemNext(place, sys, actions[0]), actions[1..]));
  }

  lemma FirstStep(place: string -> nat, s: State, steps: seq<Step>)
    requires steps != []
    ensures Run(place, s, steps) == Run(place, Next(place, s, steps[0]), steps[1..])
    ensures NoneEnds(steps) <==> !EndsCycle(steps[0]) && NoneEnds(steps[1..])
  {
  }

  lemma ThreeParts(a: seq<Event>, b: seq<Event>, c: seq<Event>)
    ensures a + (b + c) == a + b + c
  {
  }

  /** A completed cycle stores the token of its new StartAt, and its events are those of its stored pages. */
  lemma Completed(place: string -> nat, requests: Requests, sys: System, s: State, a: Action)
    requires Inv(place, s) && Agree(requests, sys, s) && Completes(place, requests, sys, a)
    ensures var t := Next(place, s, Page(a.to, "", Stored));
      && SystemNext(place, sys, a).token == StoredToken(t.start, t.start, "")
      && InRange(t.start) && t.pending == []
      && |t.cycles| == |s.cycles| + 1
      && t.cycles[|s.cycles|].events == s.pending + CallResult(place, sys, a).value.events
  {
    var p, q := Position(place, s), PageEnd(place, s, a.to, "");
    CallOutcome(place, requests, sys, s, a, p, q);
    CompletionIsLastPage(place, requests, sys, s, a);
    NextInv(place, s, Page(a.to, "", Stored));
    StateInRange(place, requests, SystemNext(place, sys, a), Next(place, s, Page(a.to, "", Stored)));
  }

  lemma StoredStart(start: Instant)
    requires InRange(start)
    ensures StartAtOf(StoredToken(start, start, "")) == start
  {
    StoredTokenOpens(start, start, "", None, 0);
  }

  // ---- quiescence ----

  lemma WindowSilent(feed: Feed, requests: Requests, rs: seq<AuditRecord>)
    requires forall i :: 0 <= i < |rs| ==> rs[i].time != ZERO_TIME
    ensures Silent(Entries(feed, requests, rs))
  {
    forall i | 0 <= i < |rs| ensures var e := Entries(feed, requests, rs)[i]; Stamped(e) || e.outputs == [] {
      EntryHonest(feed, requests, rs[i]);
    }
  }

  /** No record a window from `from` on could hold is dated at Go's zero time. */
  ghost predicate Dated(log: seq<AuditRecord>, from: Instant) {
    forall i :: 0 <= i < |log| && log[i].time >= from ==> log[i].time != ZERO_TIME
  }

  lemma SilentFrom(feed: Feed, requests: Requests, log: seq<AuditRecord>, origin: Instant, start: Instant, hi: nat)
    requires InTimeOrder(log) && Dated(log, origin) && origin <= start
    ensures Silent(Seg(Entries(feed, requests, log), First(Entries(feed, requests, log), start), hi))
  {
    var lo := FirstRecord(log, start);
    FirstRecordIsFirst(feed, requests, log, start);
    SegIsStretch(feed, requests, log, lo, hi);
    StretchDated(log, origin, start, hi);
    WindowSilent(feed, requests, Stretch(log, lo, hi));
  }

  lemma StretchDated(log: seq<AuditRecord>, origin: Instant, start: Instant, hi: nat)
    requires InTimeOrder(log) && Dated(log, origin) && origin <= start
    ensures var rs := Stretch(log, FirstRecord(log, start), hi);
      forall i :: 0 <= i < |rs| ==> rs[i].time != ZERO_TIME
  {
    var lo := FirstRecord(log, start);
    var rs := Stretch(log, lo, hi);
    forall i | 0 <= i < |rs| ensures rs[i].time != ZERO_TIME {
      FromFirst(log, start, lo + i);
      assert rs[i] == log[lo + i];
    }
  }

  lemma FromFirst(log: seq<AuditRecord>, t: Instant, i: nat)
    requires InTimeOrder(log) && FirstRecord(log, t) <= i < |log|
    ensures log[i].time >= t
  {
    EntriesInTimeOrder(Audits, AnyRequests(), log);
    FirstRecordIsFirst(Audits, AnyRequests(), log, t);
    FirstSplits(Entries(Audits, AnyRequests(), log), t);
  }

  /** Quiescence: after a completed cycle, whatever calls fail or get lost and however the next cycle is
      paged, if its window ends at the same record it stores the same token, and its pages together are
      exactly the converted records whose time is the token's StartAt, in log order. */
  lemma NothingNew(place: string -> nat, requests: Requests, sys0: System, actions: seq<Action>, sys: System,
      a: Action, more: seq<Action>, b: Action)
    requires SystemReachable(place, requests, sys0, actions, sys) && Completes(place, requests, sys, a)
    requires var t := SystemNext(place, sys, a);
      PossibleRun(place, requests, t, more) && NeverCompletes(place, t, more)
    requires var u := SystemRun(place, SystemNext(place, sys, a), more);
      && Completes(place, requests, u, b)
      && WindowEnd(u.log, b.to) == WindowEnd(sys.log, a.to)
      && Dated(u.log, u.origin)
    ensures var t := SystemNext(place, sys, a);
      var u := SystemRun(place, t, more);
      && SystemNext(place, u, b).token == t.token
      && StoredPages(place, t, more) + CallResult(place, u, b).value.events
         == Out(Entries(u.feed, requests, RecordsAt(u.log[..WindowEnd(u.log, b.to)], StartAtOf(t.token))))
  {
    var s := StateOf(place, requests, sys0, actions);
    ReachableState(place, requests, sys0, actions, sys);
    SecondCycle(place, requests, sys, s, a, more, b);
    StoredStart(Next(place, s, Page(a.to, "", Stored)).start);
  }

  /** From the completed cycle to the call that completes the next one. */
  lemma BetweenCycles(place: string -> nat, requests: Requests, sys: System, s: State, a: Action, more: seq<Action>)
    requires Inv(place, s) && Agree(requests, sys, s) && Completes(place, requests, sys, a)
    requires PossibleRun(place, requests, SystemNext(place, sys, a), more)
    requires NeverCompletes(place, SystemNext(place, sys, a), more)
    ensures var t, st := SystemNext(place, sys, a), Next(place, s, Page(a.to, "", Stored));
      var steps := StepsOf(place, requests, t, more);
      && Enabled(place, s, Page(a.to, "", Stored))
      && Legal(place, st, steps) && NoneEnds(steps)
      && Inv(place, Run(place, st, steps)) && Agree(requests, SystemRun(place, t, more), Run(place, st, steps))
      && Run(place, st, steps).pending == StoredPages(place, t, more)
  {
    var t, st := SystemNext(place, sys, a), Next(place, s, Page(a.to, "", Stored));
    CompletionIsLastPage(place, requests, sys, s, a);
    Completed(place, requests, sys, s, a);
    NextInv(place, s, Page(a.to, "", Stored));
    RunSimulated(place, requests, t, st, more);
    RunInv(place, st, StepsOf(place, requests, t, more));
    PendingIsStored(place, requests, t, st, more);
    assert [] + StoredPages(place, t, more) == StoredPages(place, t, more);
  }

  lemma SecondCycle(place: string -> nat, requests: Requests, sys: System, s: State, a: Action,
      more: seq<Action>, b: Action)
    requires Inv(place, s) && Agree(requests, sys, s) && Completes(place, requests, sys, a)
    requires var t := SystemNext(place, sys, a);
      PossibleRun(place, requests, t, more) && NeverCompletes(place, t, more)
    requires var u := SystemRun(place, SystemNext(place, sys, a), more);
      && Completes(place, requests, u, b)
      && WindowEnd(u.log, b.to) == WindowEnd(sys.log, a.to)
      && Dated(u.log, u.origin)
    ensures var t := SystemNext(place, sys, a);
      var u := SystemRun(place, t, more);
      var start := Next(place, s, Page(a.to, "", Stored)).start;
      && InRange(start)
      && SystemNext(place, u, b).token == StoredToken(start, start, "") == t.token
      && StoredPages(place, t, more) + CallResult(place, u, b).value.events
         == Out(Entries(u.feed, requests, RecordsAt(u.log[..WindowEnd(u.log, b.to)], start)))
  {
    var t := SystemNext(place, sys, a);
    var u := SystemRun(place, t, more);
    var st := Next(place, s, Page(a.to, "", Stored));
    var su := Run(place, st, StepsOf(place, requests, t, more));
    BetweenCycles(place, requests, sys, s, a, more);
    Completed(place, requests, sys, s, a);
    CompletionIsLastPage(place, requests, u, su, b);
    Completed(place, requests, u, su, b);
    SameWindowEnd(place, requests, sys, s, a, u, su, b);
    SilentWindow(place, requests, u, su, b);
    QuietCycle(place, s, a.to, StepsOf(place, requests, t, more), b.to);
    LogsAgree(requests, u, su);
    WindowEvents(u.feed, requests, u.log, st.start, b.to);
  }

  lemma LogsAgree(requests: Requests, u: System, su: State)
    requires Agree(requests, u, su) && Clean(su.log)
    ensures su.log == Entries(u.feed, requests, u.log) && InTimeOrder(u.log)
  {
    EntriesInTimeOrder(u.feed, requests, u.log);
  }

  lemma SameWindowEnd(place: string -> nat, requests: Requests, sys: System, s: State, a: Action,
      u: System, su: State, b: Action)
    requires Agree(requests, sys, s) && Agree(requests, u, su) && a.Call? && b.Call?
    requires WindowEnd(u.log, b.to) == WindowEnd(sys.log, a.to)
    ensures Upper(su.log, b.to) == Upper(s.log, a.to)
  {
    FirstRecordIsFirst(sys.feed, requests, sys.log, a.to + 1);
    FirstRecordIsFirst(u.feed, requests, u.log, b.to + 1);
  }

  lemma SilentWindow(place: string -> nat, requests: Requests, u: System, su: State, b: Action)
    requires Inv(place, su) && Agree(requests, u, su) && b.Call? && Dated(u.log, u.origin)
    ensures Silent(Seg(su.log, First(su.log, su.start), Upper(su.log, b.to)))
  {
    EntriesInTimeOrder(u.feed, requests, u.log);
    SilentFrom(u.feed, requests, u.log, u.origin, su.start, Upper(su.log, b.to));
  }

  /** A window's records at its lower end, as records. */
  lemma WindowEvents(feed: Feed, requests: Requests, log: seq<AuditRecord>, start: Instant, to: Instant)
    requires InTimeOrder(log)
    ensures var es := Entries(feed, requests, log);
      Out(At(Seg(es, First(es, start), Upper(es, to)), start))
        == Out(Entries(feed, requests, RecordsAt(log[..WindowEnd(log, to)], start)))
  {
    var hi := WindowEnd(log, to);
    WindowOfLog(feed, requests, log, start, to);
    SegIsStretch(feed, requests, log, FirstRecord(log, start), hi);
    AtRecords(feed, requests, Stretch(log, FirstRecord(log, start), hi), start);
    RecordsAtWindow(log, start, hi);
  }
}

/** What the consumer of a real feed can rely on, over every run. */
module EndToEnd {
  import opened Wrappers
  import opened Events
  import opened EventLog
  import opened EventPagination
  import opened AuditRecords
  import opened FeedPage
  import opened FeedRefinement
  import opened Protocol
  import opened ProtocolProofs
  import opened ProtocolTheorems
  import opened Membership
  import opened FeedSystem
  import opened FeedSimulation
  import opened Divergence
  import opened EventIds
  import ExactlyOnce
  import Marks
  import Timestamps

  ghost predicate SystemReachable(place: string -> nat, requests: Requests, sys0: System, actions: seq<Action>,
      sys: System)
  {
    Fresh(sys0) && PossibleRun(place, requests, sys0, actions) && sys == SystemRun(place, sys0, actions)
  }

  /** The protocol state behind a reachable system. */
  ghost function StateOf(place: string -> nat, requests: Requests, sys0: System, actions: seq<Action>): State {
    Run(place, Start(requests, sys0), StepsOf(place, requests, sys0, actions))
  }

  lemma ReachableState(place: string -> nat, requests: Requests, sys0: System, actions: seq<Action>, sys: System)
    requires SystemReachable(place, requests, sys0, actions, sys)
    ensures var s := StateOf(place, requests, sys0, actions);
      && Agree(requests, sys, s) && Inv(place, s)
      && Reachable(place, Start(requests, sys0), StepsOf(place, requests, sys0, actions), s)
  {
    FreshAgrees(place, requests, sys0);
    RunSimulated(place, requests, sys0, Start(requests, sys0), actions);
    RunInv(place, Start(requests, sys0), StepsOf(place, requests, sys0, actions));
  }

  /** A token stands alone: it opens, to times that parse, and neither the default start nor the clock has a
      say. */
  ghost predicate StandsAlone(token: string) {
    && Opened(Some(token), None, 0).Success?
    && Timestamps.Parse(Opened(Some(token), None, 0).value.0.latestEventSeen).Some?
    && forall earliest, now :: Opened(Some(token), earliest, now) == Opened(Some(token), None, 0)
  }

  /** Closure: every token a feed hands out stands alone, so a later call fails exactly when the search
      fails or a lookup of its page does. */
  lemma OnlyServerErrors(place: string -> nat, requests: Requests, sys0: System, actions: seq<Action>, sys: System,
      a: Action)
    requires SystemReachable(place, requests, sys0, actions, sys) && a.Call? && Possible(place, requests, sys, a)
    ensures sys.token != "" ==> StandsAlone(sys.token)
    ensures var s := StateOf(place, requests, sys0, actions);
      var p, q := Position(place, s), PageEnd(place, s, a.to, a.next); var r := CallResult(place, sys, a);
      && p <= q <= |sys.log|
      && (r.Failure? <==> Fails(requests, sys, a, p, q))
      && (a.searchFails ==> r == Failure(SearchFailed))
      && (r.Failure? && !a.searchFails ==>
            FailsAtFirst(a.lookup, Matching(sys.log[p..q], EventTypes(sys.feed)), r))
  {
    ReachableState(place, requests, sys0, actions, sys);
    var s := StateOf(place, requests, sys0, actions);
    CallOutcome(place, requests, sys, s, a, Position(place, s), PageEnd(place, s, a.to, a.next));
    if sys.token != "" {
      StateInRange(place, requests, sys, s);
      TokenStandsAlone(s.start, s.latest, s.key);
    }
  }

  lemma TokenStandsAlone(start: Instant, latest: Instant, key: string)
    requires InRange(start) && InRange(latest) && (key == "" ==> latest == start)
    ensures StandsAlone(StoredToken(start, latest, key))
  {
    StoredTokenOpens(start, latest, key, None, 0);
    Timestamps.FormatParses(latest);
    forall earliest, now
      ensures Opened(Some(StoredToken(start, latest, key)), earliest, now)
        == Opened(Some(StoredToken(start, latest, key)), None, 0)
    {
      StoredTokenOpens(start, latest, key, earliest, now);
    }
  }

  // ---- a completed cycle ----

  /** A last page that reached the consumer, its cursor stored. */
  ghost predicate Completes(place: string -> nat, requests: Requests, sys: System, a: Action) {
    && a.Call? && a.next == "" && a.fate == Stored && Possible(place, requests, sys, a)
    && CallResult(place, sys, a).Success?
  }

  /** A feed is never stuck: whatever happened before, a call that the server and the lookups answer, and
      that reaches the end of the window, completes the cycle. */
  lemma NeverStuck(place: string -> nat, requests: Requests, sys0: System, actions: seq<Action>, sys: System,
      to: Instant)
    requires SystemReachable(place, requests, sys0, actions, sys)
    requires sys.now <= to
    ensures Completes(place, requests, sys, Call(to, "", false, requests, Stored))
  {
    ReachableState(place, requests, sys0, actions, sys);
    var s := StateOf(place, requests, sys0, actions);
    var a := Call(to, "", false, requests, Stored);
    CanBeMade(place, requests, sys, to);
    CallOutcome(place, requests, sys, s, a, Position(place, s), PageEnd(place, s, to, ""));
    NothingFails(requests, sys, a, Position(place, s), PageEnd(place, s, to, ""));
  }

  lemma CanBeMade(place: string -> nat, requests: Requests, sys: System, to: Instant)
    requires sys.now <= to
    ensures Possible(place, requests, sys, Call(to, "", false, requests, Stored))
  {
  }

  lemma NothingFails(requests: Requests, sys: System, a: Action, p: nat, q: nat)
    requires a.Call? && !a.searchFails && a.lookup == requests && p <= q <= |sys.log|
    ensures !Fails(requests, sys, a, p, q)
  {
  }

  lemma StepOfSuccess(place: string -> nat, requests: Requests, sys: System, a: Action)
    requires a.Call? && CallResult(place, sys, a).Success?
    ensures StepOf(place, requests, sys, a) == Page(a.to, a.next, a.fate)
  {
  }

  lemma CompletionIsLastPage(place: string -> nat, requests: Requests, sys: System, s: State, a: Action)
    requires Agree(requests, sys, s) && Inv(place, s) && Completes(place, requests, sys, a)
    ensures Enabled(place, s, Page(a.to, "", Stored))
    ensures Agree(requests, SystemNext(place, sys, a), Next(place, s, Page(a.to, "", Stored)))
  {
    StepOfSuccess(place, requests, sys, a);
    CallSimulated(place, requests, sys, s, a);
  }

  /** Where the window of a call made at `to` ends. */
  function WindowEnd(log: seq<AuditRecord>, to: Instant): nat {
    FirstRecord(log, to + 1)
  }

  lemma WindowOfLog(feed: Feed, requests: Requests, log: seq<AuditRecord>, from: Instant, to: Instant)
    ensures var es := Entries(feed, requests, log);
      && First(es, from) == FirstRecord(log, from) && Upper(es, to) == WindowEnd(log, to)
  {
    FirstRecordIsFirst(feed, requests, log, from);
    FirstRecordIsFirst(feed, requests, log, to + 1);
  }

  lemma SegIsStretch(feed: Feed, requests: Requests, log: seq<AuditRecord>, lo: nat, hi: nat)
    ensures Seg(Entries(feed, requests, log), lo, hi) == Entries(feed, requests, Stretch(log, lo, hi))
  {
  }

  // ---- the view ----

  predicate NoSync(actions: seq<Action>) {
    forall i :: 0 <= i < |actions| ==> !actions[i].Sync?
  }

  lemma {:induction false} NoSyncSteps(place: string -> nat, requests: Requests, sys: System, actions: seq<Action>)
    requires NoSync(actions)
    ensures NoneSyncs(StepsOf(place, requests, sys, actions))
    decreases actions
  {
    if actions != [] {
      NoSyncSteps(place, requests, SystemNext(place, sys, actions[0]), actions[1..]);
      NextStepsOf(place, requests, sys, actions);
    }
  }

  lemma NextStepsOf(place: string -> nat, requests: Requests, sys: System, actions: seq<Action>)
    requires actions != []
    ensures var steps := StepsOf(place, requests, sys, actions);
      && steps != [] && steps[0] == StepOf(place, requests, sys, actions[0])
      && steps[1..] == StepsOf(place, requests, SystemNext(place, sys, actions[0]), actions[1..])
  {
  }

  /** End to end without a full sync: after any interleaving of appends, pages, failed calls, lost responses
      and lost cursors, a completed cycle leaves the view of either feed's consumer one fold over the
      converted log, from the feed's start to the clock, on top of the view it began with. */
  lemma CompletedCycleFromStart(place: string -> nat, requests: Requests, sys0: System, actions: seq<Action>,
      sys: System, a: Action)
    requires SystemReachable(place, requests, sys0, actions, sys) && NoSync(actions)
    requires Completes(place, requests, sys, a)
    ensures SystemNext(place, sys, a).view == Apply(sys0.view,
      Out(Entries(sys.feed, requests, Stretch(sys.log, FirstRecord(sys.log, sys0.origin), WindowEnd(sys.log, a.to)))))
  {
    ReachableState(place, requests, sys0, actions, sys);
    var s0, steps := Start(requests, sys0), StepsOf(place, requests, sys0, actions);
    var s := StateOf(place, requests, sys0, actions);
    CompletionIsLastPage(place, requests, sys, s, a);
    NoSyncSteps(place, requests, sys0, actions);
    CompletedCycleFromOrigin(place, s0, steps, s, a.to);
    WindowOfLog(sys.feed, requests, sys.log, sys0.origin, a.to);
    SegIsStretch(sys.feed, requests, sys.log, FirstRecord(sys.log, sys0.origin), WindowEnd(sys.log, a.to));
  }

  /** The position in the log the next call resumes at. */
  function ResumesAt(place: string -> nat, sys: System): nat {
    match Opened(Some(sys.token), Some(sys.origin), 0)
    case Failure(_) => 0
    case Success((c, from)) => ServerPosition(place, sys.log, from, c.lastKey)
  }

  /** How long the log was at the last full sync of a run that began synced at `k`. */
  function LastSync(place: string -> nat, sys: System, actions: seq<Action>, k: nat): nat
    decreases actions
  {
    if actions == [] then k
    else
      LastSync(place, SystemNext(place, sys, actions[0]), actions[1..], if actions[0].Sync? then |sys.log| else k)
  }

  /** The lowest position a call could resume at since the last full sync, or `low` if that is lower. */
  function LowestReplay(place: string -> nat, sys: System, actions: seq<Action>, low: nat): nat
    decreases actions
  {
    if actions == [] then low
    else
      var next := SystemNext(place, sys, actions[0]);
      LowestReplay(place, next, actions[1..],
        if actions[0].Sync? then ResumesAt(place, sys) else Min(low, ResumesAt(place, next)))
  }

  /** Where the consumer of a run was last synced: at the start unless it synced again. */
  function SyncedAt(place: string -> nat, sys0: System, actions: seq<Action>): nat {
    LastSync(place, sys0, actions, |sys0.log|)
  }

  /** The first record replayed since: records before the feed's start never are. */
  function ReplayedFrom(place: string -> nat, sys0: System, actions: seq<Action>): nat {
    Max(LowestReplay(place, sys0, actions, 0), FirstRecord(SystemRun(place, sys0, actions).log, sys0.origin))
  }

  lemma ResumesAtPosition(place: string -> nat, requests: Requests, sys: System, s: State)
    requires Inv(place, s) && Agree(requests, sys, s)
    ensures ResumesAt(place, sys) == Position(place, s)
  {
    StateInRange(place, requests, sys, s);
    TokenOpens(sys.token, sys.origin, s.start, s.latest, s.key, 0);
    WindowsAgree(place, sys.feed, requests, sys.log, s, 0);
  }

  /** The run's own bookkeeping is the protocol's. */
  lemma {:induction false} RunTracked(place: string -> nat, requests: Requests, sys: System, s: State,
      actions: seq<Action>)
    requires Inv(place, s) && Agree(requests, sys, s) && PossibleRun(place, requests, sys, actions)
    ensures var t := Run(place, s, StepsOf(place, requests, sys, actions));
      t.syncedAt == LastSync(place, sys, actions, s.syncedAt) && t.low == LowestReplay(place, sys, actions, s.low)
    decreases actions
  {
    if actions != [] {
      var a, next := actions[0], SystemNext(place, sys, actions[0]);
      var step := StepOf(place, requests, sys, a);
      var t := Next(place, s, step);
      StepSimulated(place, requests, sys, s, a);
      NextInv(place, s, step);
      ResumesAtPosition(place, requests, sys, s);
      ResumesAtPosition(place, requests, next, t);
      StepTracked(place, requests, sys, s, a);
      NextStepsOf(place, requests, sys, actions);
      RunTracked(place, requests, next, t, actions[1..]);
    }
  }

  lemma StepTracked(place: string -> nat, requests: Requests, sys: System, s: State, a: Action)
    requires Inv(place, s) && s.log == Entries(sys.feed, requests, sys.log)
    requires Enabled(place, s, StepOf(place, requests, sys, a))
    ensures var t := Next(place, s, StepOf(place, requests, sys, a));
      && t.syncedAt == (if a.Sync? then |sys.log| else s.syncedAt)
      && t.low == (if a.Sync? then Position(place, s) else Min(s.low, Position(place, t)))
  {
    var step := StepOf(place, requests, sys, a);
    assert step.FullSync? <==> a.Sync?;
    LowStep(place, s, step);
    SyncStep(place, s, step);
  }

  lemma SyncStep(place: string -> nat, s: State, step: Step)
    ensures Next(place, s, step).syncedAt == if step.FullSync? then |s.log| else s.syncedAt
  {
  }

  lemma ReachableTracked(place: string -> nat, requests: Requests, sys0: System, actions: seq<Action>, sys: System)
    requires SystemReachable(place, requests, sys0, actions, sys)
    ensures var s := StateOf(place, requests, sys0, actions);
      && s.syncedAt == SyncedAt(place, sys0, actions) && Floor(s) == ReplayedFrom(place, sys0, actions)
      && BaseAgrees(sys.log, s.base, s.syncedAt)
  {
    ReachableState(place, requests, sys0, actions, sys);
    FreshAgrees(place, requests, sys0);
    RunTracked(place, requests, sys0, Start(requests, sys0), actions);
    OriginStays(place, sys0, actions);
    FirstRecordIsFirst(sys.feed, requests, sys.log, sys0.origin);
  }

  lemma {:induction false} OriginStays(place: string -> nat, sys: System, actions: seq<Action>)
    ensures SystemRun(place, sys, actions).origin == sys.origin
    decreases actions
  {
    if actions != [] {
      OriginStays(place, SystemNext(place, sys, actions[0]), actions[1..]);
      OriginStep(place, sys, actions[0]);
    }
  }

  lemma OriginStep(place: string -> nat, sys: System, a: Action)
    ensures SystemNext(place, sys, a).origin == sys.origin
  {
  }

  /** End to end: after any interleaving of appends, pages, failed calls, lost responses, lost cursors and
      full syncs, a completed cycle of the audit feed leaves the view one fold of the converted log, from
      the lowest position replayed since the last full sync to the clock, on top of the truth at that sync. */
  lemma CompletedCycleView(place: string -> nat, requests: Requests, sys0: System, actions: seq<Action>,
      sys: System, a: Action)
    requires SystemReachable(place, requests, sys0, actions, sys) && sys.feed == Audits
    requires Completes(place, requests, sys, a)
    ensures var k, lo := SyncedAt(place, sys0, actions), ReplayedFrom(place, sys0, actions);
      && k <= |sys.log|
      && SystemNext(place, sys, a).view == FeedView(requests, sys.log, lo, WindowEnd(sys.log, a.to), k)
  {
    ReachableState(place, requests, sys0, actions, sys);
    ReachableTracked(place, requests, sys0, actions, sys);
    var s := StateOf(place, requests, sys0, actions);
    CompletionIsLastPage(place, requests, sys, s, a);
    CompletedCycleViewIsOnePass(place, Start(requests, sys0), StepsOf(place, requests, sys0, actions), s, a.to);
    FirstRecordIsFirst(sys.feed, requests, sys.log, a.to + 1);
    SegIsStretch(sys.feed, requests, sys.log, Floor(s), WindowEnd(sys.log, a.to));
  }

  /** The replay began no later than the sync, and reached the end of the log, whenever no record after the
      first sync is older than the feed's start and none is dated after the completing call. */
  lemma ReplayCoversSync(place: string -> nat, requests: Requests, sys0: System, actions: seq<Action>,
      sys: System, to: Instant)
    requires SystemReachable(place, requests, sys0, actions, sys)
    requires forall i :: |sys0.log| <= i < |sys.log| ==> sys.log[i].time >= sys0.origin
    requires forall i :: 0 <= i < |sys.log| ==> sys.log[i].time <= to
    ensures ReplayedFrom(place, sys0, actions) <= SyncedAt(place, sys0, actions) <= WindowEnd(sys.log, to) == |sys.log|
  {
    SyncWithinLog(place, requests, sys0, actions, sys);
    OriginBefore(sys.log, sys0.origin, SyncedAt(place, sys0, actions));
    AllWithinClock(sys.log, to);
  }

  lemma SyncWithinLog(place: string -> nat, requests: Requests, sys0: System, actions: seq<Action>, sys: System)
    requires SystemReachable(place, requests, sys0, actions, sys)
    ensures |sys0.log| <= SyncedAt(place, sys0, actions) <= |sys.log|
    ensures LowestReplay(place, sys0, actions, 0) <= SyncedAt(place, sys0, actions)
  {
    ReachableState(place, requests, sys0, actions, sys);
    FreshAgrees(place, requests, sys0);
    RunTracked(place, requests, sys0, Start(requests, sys0), actions);
    SyncedGrows(place, Start(requests, sys0), StepsOf(place, requests, sys0, actions));
  }

  lemma {:induction false} OriginBefore(log: seq<AuditRecord>, origin: Instant, k: nat)
    requires k <= |log| && forall i :: k <= i < |log| ==> log[i].time >= origin
    ensures FirstRecord(log, origin) <= k
  {
    if k < |log| {
      OriginBefore(log[..|log| - 1], origin, k);
    }
  }

  lemma AllWithinClock(log: seq<AuditRecord>, to: Instant)
    requires forall i :: 0 <= i < |log| ==> log[i].time <= to
    ensures WindowEnd(log, to) == |log|
  {
  }

  /** ... and so it shows exactly what was given and not revoked in that stretch, or was true at the sync and
      not spoken of since. Where the stretch begins by the sync and ends after it, what it gets wrong about
      the log so far is exactly expired requests that hide a role, and removals, deletions and temporary
      roles that leave one. */
  lemma CompletedCycleAgainstTruth(place: string -> nat, requests: Requests, sys0: System, actions: seq<Action>,
      sys: System, a: Action, p: Pair)
    requires SystemReachable(place, requests, sys0, actions, sys) && sys.feed == Audits
    requires Completes(place, requests, sys, a)
    requires Named(p) && forall r :: r in sys.log ==> WellTyped(r)
    ensures var k, lo, hi := SyncedAt(place, sys0, actions), ReplayedFrom(place, sys0, actions),
      WindowEnd(sys.log, a.to);
      var view, ms := SystemNext(place, sys, a).view, MarksOf(requests, Stretch(sys.log, lo, hi), p);
      && k <= |sys.log|
      && (p in view <==> (exists i: nat :: Marks.GivenAt(ms, i)) || (p in Truth(sys.log[..k]) && Marks.Quiet(ms)))
      && (lo <= k <= hi ==> MissesExactly(p, view, Truth(sys.log[..hi]), ms))
      && (lo <= k <= hi ==> AddsExactly(p, view, Truth(sys.log[..hi]), Truth(sys.log[..k]), ms))
  {
    CompletedCycleView(place, requests, sys0, actions, sys, a);
    var k, lo, hi := SyncedAt(place, sys0, actions), ReplayedFrom(place, sys0, actions), WindowEnd(sys.log, a.to);
    ShownExactly(requests, sys.log, lo, hi, k, p);
    if lo <= k <= hi {
      if p in Truth(sys.log[..hi]) {
        MissingFromView(requests, sys.log, lo, hi, k, p);
      } else {
        ExtraInView(requests, sys.log, lo, hi, k, p);
      }
    }
  }

  /** A pair truly held is missing exactly when a request for it expired, nothing gave it again, and so no
      own record of the user follows. */
  ghost predicate MissesExactly(p: Pair, view: View, truth: View, ms: seq<Marks.Mark>) {
    p in truth ==>
      && (p !in view <==> exists i: nat :: Marks.ExpiredAt(ms, i))
      && forall i: nat :: Marks.ExpiredAt(ms, i) ==> forall j: nat :: i < j < |ms| ==> !Marks.Own(ms[j])
  }

  /** A pair not held is shown exactly when it was given and not revoked, or was synced and not spoken of;
      and then a removal, a deletion or a temporary request is the cause. */
  ghost predicate AddsExactly(p: Pair, view: View, truth: View, synced: View, ms: seq<Marks.Mark>) {
    p !in truth ==>
      && (p in view <==> (exists i: nat :: Marks.GivenAt(ms, i)) || (p in synced && Marks.Quiet(ms)))
      && (p in view ==> exists i: nat :: Marks.RemovedAt(ms, i) || Marks.TemporaryAt(ms, i))
  }

  /** Exactly once: with colon-free record ids and no role named twice in a record, a consumer that drops
      ids it has seen ends a completed cycle with exactly the converted log from the feed's start to the
      clock. */
  lemma CompletedCycleExactlyOnce(place: string -> nat, requests: Requests, sys0: System, actions: seq<Action>,
      sys: System, a: Action)
    requires SystemReachable(place, requests, sys0, actions, sys) && sys.feed == Audits
    requires Completes(place, requests, sys, a)
    requires DistinctRecords(sys.log) && SoundRecords(requests, sys.log)
    ensures ExactlyOnce.Dedup(SystemNext(place, sys, a).delivered) == Out(Entries(Audits, requests,
      Stretch(sys.log, FirstRecord(sys.log, sys.origin), WindowEnd(sys.log, a.to))))
  {
    ReachableState(place, requests, sys0, actions, sys);
    var s := StateOf(place, requests, sys0, actions);
    IdsIdentifyEvents(requests, sys.log);
    CompletionIsLastPage(place, requests, sys, s, a);
    ExactlyOnce.CompletedCycleOnce(place, Start(requests, sys0), StepsOf(place, requests, sys0, actions), s, a.to);
    WindowOfLog(sys.feed, requests, sys.log, sys.origin, a.to);
    SegIsStretch(sys.feed, requests, sys.log, FirstRecord(sys.log, sys.origin), WindowEnd(sys.log, a.to));
  }

  // ---- retries ----

  /** A page that converts in spite of unreliable lookups converts as it would without failures. */
  lemma SuccessNeedsNoFailures(place: string -> nat, requests: Requests, sys: System, a: Action)
    requires a.Call? && Flaky(a.lookup, requests) && CallResult(place, sys, a).Success?
    ensures CallResult(place, sys, a.(lookup := requests)) == CallResult(place, sys, a)
  {
    match Opened(Some(sys.token), Some(sys.origin), a.to)
    case Failure(_) =>
    case Success((c, from)) =>
      OpenedCall(place, sys, a, c, from);
      OpenedCall(place, sys, a.(lookup := requests), c, from);
      var page := Answer(place, sys.log,
        SearchRequest(from, a.to, EventTypes(sys.feed), EVENTS_PAGE_SIZE, c.lastKey), a.next);
      FlakyPage(a.lookup, requests, page.records);
      FlakyPage(requests, requests, page.records);
  }

  /** The run that remains when failed calls are dropped and no lookup fails. */
  function Smooth(place: string -> nat, requests: Requests, sys: System, actions: seq<Action>): seq<Action>
    decreases actions
  {
    if actions == [] then []
    else
      var rest := Smooth(place, requests, SystemNext(place, sys, actions[0]), actions[1..]);
      if !actions[0].Call? then [actions[0]] + rest
      else if CallResult(place, sys, actions[0]).Failure? then rest
      else [actions[0].(lookup := requests)] + rest
  }

  /** Two systems that differ at most in that the second's clock lags. */
  predicate SameButClock(a: System, b: System) {
    b == a.(now := b.now) && b.now <= a.now
  }

  lemma ResultIgnoresClock(place: string -> nat, sys: System, sys': System, a: Action)
    requires a.Call? && SameButClock(sys, sys')
    ensures CallResult(place, sys', a) == CallResult(place, sys, a)
  {
    match Opened(Some(sys.token), Some(sys.origin), a.to)
    case Failure(_) =>
    case Success((c, from)) =>
      OpenedCall(place, sys, a, c, from);
      OpenedCall(place, sys', a, c, from);
  }

  /** What is possible at a clock is possible, without failures, at an earlier one. */
  lemma StillPossible(place: string -> nat, requests: Requests, sys: System, sys': System, a: Action)
    requires a.Call? && Possible(place, requests, sys, a) && SameButClock(sys, sys')
    ensures Possible(place, requests, sys', a.(lookup := requests))
  {
  }

  lemma AfterIgnoresClock(sys: System, sys': System, to: Instant, r: Result<Delivery, FeedError>, fate: Fate)
    requires SameButClock(sys, sys') && sys.now <= to
    ensures r.Success? ==> SameButClock(AfterCall(sys, to, r, fate), AfterCall(sys', to, r, fate))
    ensures r.Failure? ==> SameButClock(AfterCall(sys, to, r, fate), sys')
  {
  }

  lemma SmoothStep(place: string -> nat, requests: Requests, sys: System, sys': System, a: Action)
    requires a.Call? && Possible(place, requests, sys, a) && SameButClock(sys, sys')
    ensures CallResult(place, sys, a).Failure? ==> SameButClock(SystemNext(place, sys, a), sys')
    ensures CallResult(place, sys, a).Success? ==>
      var b := a.(lookup := requests);
      && Possible(place, requests, sys', b)
      && CallResult(place, sys', b).Success?
      && SameButClock(SystemNext(place, sys, a), SystemNext(place, sys', b))
  {
    var r := CallResult(place, sys, a);
    AfterIgnoresClock(sys, sys', a.to, r, a.fate);
    if r.Success? {
      SuccessNeedsNoFailures(place, requests, sys, a);
      ResultIgnoresClock(place, sys, sys', a.(lookup := requests));
      StillPossible(place, requests, sys, sys', a);
    }
  }

  /** Retry transparency: whatever lookups and searches fail on the way, the run that succeeds leaves the
      log, the token, the delivered sequence and the view of the run without any failure. */
  lemma {:induction false} RetryTransparency(place: string -> nat, requests: Requests, sys: System, sys': System,
      actions: seq<Action>)
    requires PossibleRun(place, requests, sys, actions) && SameButClock(sys, sys')
    ensures var smooth := Smooth(place, requests, sys, actions);
      && PossibleRun(place, requests, sys', smooth)
      && NeverFails(place, sys', smooth)
      && SameButClock(SystemRun(place, sys, actions), SystemRun(place, sys', smooth))
    decreases actions
  {
    if actions != [] {
      var a := actions[0];
      var next := SystemNext(place, sys, a);
      var rest := Smooth(place, requests, next, actions[1..]);
      var smooth := Smooth(place, requests, sys, actions);
      if !a.Call? {
        assert smooth[0] == a && smooth[1..] == rest;
        RetryTransparency(place, requests, next, SystemNext(place, sys', a), actions[1..]);
      } else {
        SmoothStep(place, requests, sys, sys', a);
        if CallResult(place, sys, a).Failure? {
          RetryTransparency(place, requests, next, sys', actions[1..]);
        } else {
          var b := a.(lookup := requests);
          assert smooth[0] == b && smooth[1..] == rest;
          RetryTransparency(place, requests, next, SystemNext(place, sys', b), actions[1..]);
        }
      }
    }
  }

  predicate NeverFails(place: string -> nat, sys: System, actions: seq<Action>)
    decreases actions
  {
    actions == [] ||
    ((actions[0].Call? ==> CallResult(place, sys, actions[0]).Success?)
     && NeverFails(place, SystemNext(place, sys, actions[0]), actions[1..]))
  }

  // ---- last login ----

  predicate Login(r: AuditRecord, user: string, t: Instant) {
    r.body.UserLogin? && r.body.success && r.body.user == user && r.time == t
  }

  predicate LoginEvent(e: Event, user: string, t: Instant) {
    e.Usage? && e.user == user && e.at == t
  }

  lemma LoginEntry(requests: Requests, r: AuditRecord, user: string, t: Instant)
    requires r.body.UserLogin? ==> r.eventType == "user.login"
    ensures (exists e :: e in EntryOf(Logins, requests, r).outputs && LoginEvent(e, user, t)) <==> Login(r, user, t)
  {
    var es := EntryOf(Logins, requests, r).outputs;
    if Login(r, user, t) {
      assert es[0] in es && LoginEvent(es[0], user, t);
    }
  }

  /** The time of a user's last login among events, and among log records between `from` and `to`. */
  ghost predicate LastDelivered(es: seq<Event>, user: string, t: Instant) {
    (exists e :: e in es && LoginEvent(e, user, t)) && forall e, u :: e in es && LoginEvent(e, user, u) ==> u <= t
  }

  ghost predicate LastInLog(log: seq<AuditRecord>, from: Instant, to: Instant, user: string, t: Instant) {
    && from <= t <= to
    && (exists r :: r in log && Login(r, user, t))
    && forall r, u :: r in log && Login(r, user, u) && from <= u <= to ==> u <= t
  }

  lemma LoginOutFrom(requests: Requests, log: seq<AuditRecord>, from: Instant, to: Instant, user: string, t: Instant,
      e: Event)
    requires Sorted(Entries(Logins, requests, log)) && TypedLogins(log)
    requires var es := Entries(Logins, requests, log); e in Out(Seg(es, First(es, from), Upper(es, to)))
    requires LoginEvent(e, user, t)
    ensures from <= t <= to && exists r :: r in log && Login(r, user, t)
  {
    var es := Entries(Logins, requests, log);
    OutWithin(es, from, to, e);
    var i :| 0 <= i < |es| && from <= es[i].time <= to && e in es[i].outputs;
    LoginEntry(requests, log[i], user, t);
    assert log[i] in log && Login(log[i], user, t);
  }

  /** Events of a window come from records inside it. */
  lemma OutWithin(es: seq<Entry>, from: Instant, to: Instant, e: Event)
    requires Sorted(es) && e in Out(Seg(es, First(es, from), Upper(es, to)))
    ensures exists i :: 0 <= i < |es| && from <= es[i].time <= to && e in es[i].outputs
  {
    FirstSplits(es, from);
    FirstSplits(es, to + 1);
    var lo, hi := First(es, from), Upper(es, to);
    OutMember(Seg(es, lo, hi), e);
    var i :| 0 <= i < |Seg(es, lo, hi)| && e in Seg(es, lo, hi)[i].outputs;
    assert es[lo + i] == Seg(es, lo, hi)[i];
  }

  lemma LoginOutOf(requests: Requests, log: seq<AuditRecord>, from: Instant, to: Instant, user: string, t: Instant,
      i: nat)
    requires Sorted(Entries(Logins, requests, log)) && TypedLogins(log)
    requires i < |log| && Login(log[i], user, t) && from <= t <= to
    ensures var es := Entries(Logins, requests, log);
      exists e :: e in Out(Seg(es, First(es, from), Upper(es, to))) && LoginEvent(e, user, t)
  {
    var es := Entries(Logins, requests, log);
    LoginEntry(requests, log[i], user, t);
    var e :| e in EntryOf(Logins, requests, log[i]).outputs && LoginEvent(e, user, t);
    WithinOut(es, from, to, i, e);
  }

  lemma WithinOut(es: seq<Entry>, from: Instant, to: Instant, i: nat, e: Event)
    requires Sorted(es) && i < |es| && from <= es[i].time <= to && e in es[i].outputs
    ensures e in Out(Seg(es, First(es, from), Upper(es, to)))
  {
    FirstSplits(es, from);
    FirstSplits(es, to + 1);
    OutHas(es, First(es, from), Upper(es, to), i, e);
  }

  ghost predicate TypedLogins(log: seq<AuditRecord>) {
    forall i :: 0 <= i < |log| && log[i].body.UserLogin? ==> log[i].eventType == "user.login"
  }

  /** Last login: at a completed cycle the latest usage event delivered for a user is the latest successful
      login in the log from the feed's start to the clock, though failed logins moved the cursor too. */
  lemma LastLogin(place: string -> nat, requests: Requests, sys0: System, actions: seq<Action>, sys: System,
      a: Action, user: string, t: Instant)
    requires SystemReachable(place, requests, sys0, actions, sys) && sys.feed == Logins
    requires Completes(place, requests, sys, a)
    requires TypedLogins(sys.log)
    ensures LastDelivered(SystemNext(place, sys, a).delivered, user, t)
      <==> LastInLog(sys.log, sys.origin, a.to, user, t)
  {
    ReachableState(place, requests, sys0, actions, sys);
    var s := StateOf(place, requests, sys0, actions);
    CompletionIsLastPage(place, requests, sys, s, a);
    CompletedCycleDeliveredAll(place, Start(requests, sys0), StepsOf(place, requests, sys0, actions), s, a.to);
    SameLogins(requests, sys.log, sys.origin, a.to, SystemNext(place, sys, a).delivered, user, t);
  }

  lemma SameLogins(requests: Requests, log: seq<AuditRecord>, from: Instant, to: Instant, delivered: seq<Event>,
      user: string, t: Instant)
    requires Sorted(Entries(Logins, requests, log)) && TypedLogins(log)
    requires var es := Entries(Logins, requests, log);
      forall e :: e in delivered <==> e in Out(Seg(es, First(es, from), Upper(es, to)))
    ensures LastDelivered(delivered, user, t) <==> LastInLog(log, from, to, user, t)
  {
    forall e, u | e in delivered && LoginEvent(e, user, u)
      ensures from <= u <= to && exists r :: r in log && Login(r, user, u)
    {
      LoginOutFrom(requests, log, from, to, user, u, e);
    }
    forall r, u | r in log && Login(r, user, u) && from <= u <= to
      ensures exists e :: e in delivered && LoginEvent(e, user, u)
    {
      var i :| 0 <= i < |log| && log[i] == r;
      LoginOutOf(requests, log, from, to, user, u, i);
    }
  }
}

/** What the feed protocol guarantees in every reachable state and over every run. */
module ProtocolTheorems {
  import opened Events
  import opened EventLog
  import opened Protocol
  import opened ProtocolProofs

  ghost predicate Reachable(place: string -> nat, s0: State, steps: seq<Step>, s: State) {
    Initial(s0) && Clean(s0.log) && Legal(place, s0, steps) && s == Run(place, s0, steps)
  }

  lemma ReachableInv(place: string -> nat, s0: State, steps: seq<Step>, s: State)
    requires Reachable(place, s0, steps, s)
    ensures Inv(place, s)
  {
    InitialInv(place, s0);
    RunInv(place, s0, steps);
  }

  /** No loss: a record at or after the origin whose events were not all delivered still lies ahead:
      not before StartAt, not before the current position, and not before `high`. */
  lemma NoLoss(place: string -> nat, s0: State, steps: seq<Step>, s: State, i: nat)
    requires Reachable(place, s0, steps, s) && i < |s.log| && s.log[i].time >= s.origin
    ensures (forall e :: e in s.log[i].outputs ==> e in s.delivered)
      || (s.log[i].time >= s.start && i >= Position(place, s) && i >= s.high)
  {
    ReachableInv(place, s0, steps, s);
    FirstSplits(s.log, s.origin);
    FirstSplits(s.log, s.start);
    if i < s.high {
      forall e | e in s.log[i].outputs ensures e in s.delivered {
        OutHas(s.log, First(s.log, s.origin), s.high, i, e);
      }
    }
  }

  lemma OutHas(log: seq<Entry>, lo: nat, hi: nat, i: nat, e: Event)
    requires lo <= i < hi <= |log| && e in log[i].outputs
    ensures e in Out(Seg(log, lo, hi))
  {
    var seg := Seg(log, lo, hi);
    assert e in seg[i - lo].outputs;
    OutMember(seg, e);
  }

  /** Nothing is invented: a delivered event comes from a record at or after the origin. */
  lemma NothingInvented(place: string -> nat, s0: State, steps: seq<Step>, s: State, e: Event)
    requires Reachable(place, s0, steps, s) && e in s.delivered
    ensures exists i :: 0 <= i < |s.log| && s.log[i].time >= s.origin && e in s.log[i].outputs
  {
    ReachableInv(place, s0, steps, s);
    SegMember(s.log, s.origin, s.high, e);
  }

  lemma SegMember(log: seq<Entry>, from: Instant, hi: nat, e: Event)
    requires Sorted(log) && e in Out(Seg(log, First(log, from), hi))
    ensures exists i :: 0 <= i < |log| && log[i].time >= from && e in log[i].outputs
  {
    FirstSplits(log, from);
    var lo := First(log, from);
    var seg := Seg(log, lo, hi);
    OutMember(seg, e);
    var i :| 0 <= i < |seg| && e in seg[i].outputs;
    assert log[lo + i] == seg[i];
  }

  /** Mid-cycle: LatestEventSeen is the maximum of StartAt and the times of the records the cycle has
      returned so far, and it was returned for one of its records when it has moved. */
  lemma LatestIsCycleMaximum(place: string -> nat, s0: State, steps: seq<Step>, s: State)
    requires Reachable(place, s0, steps, s)
    ensures s.origin <= s.start <= s.latest
    ensures var lo, p := First(s.log, s.start), Position(place, s);
      && lo <= p <= |s.log|
      && (forall i :: lo <= i < p && Stamped(s.log[i]) ==> s.log[i].time <= s.latest)
      && (s.latest == s.start || exists i :: lo <= i < p && Stamped(s.log[i]) && s.log[i].time == s.latest)
    ensures s.key == "" ==> s.latest == s.start
  {
    ReachableInv(place, s0, steps, s);
    HandOverIsSeen(s.log, s.start, First(s.log, s.start), Position(place, s));
    if s.key == "" {
      assert Seg(s.log, First(s.log, s.start), Position(place, s)) == [];
    }
  }

  lemma StartStep(place: string -> nat, s: State, step: Step)
    requires Inv(place, s) && Enabled(place, s, step)
    ensures s.start <= Next(place, s, step).start
    ensures !EndsCycle(step) ==> Next(place, s, step).start == s.start
  {
    if EndsCycle(step) {
      var p, q := Position(place, s), PageEnd(place, s, step.to, "");
      CoveredGrows(place, s, step.to, "", p, q);
      LatestIsMaximum(s.start, Seg(s.log, First(s.log, s.start), q));
    }
  }

  /** StartAt never decreases, and moves only when a last page is stored. */
  lemma {:induction false} StartNeverDecreases(place: string -> nat, s: State, steps: seq<Step>)
    requires Inv(place, s) && Legal(place, s, steps)
    ensures s.start <= Run(place, s, steps).start
    ensures NoneEnds(steps) ==> Run(place, s, steps).start == s.start
    decreases steps
  {
    if steps != [] {
      StartStep(place, s, steps[0]);
      NextInv(place, s, steps[0]);
      StartNeverDecreases(place, Next(place, s, steps[0]), steps[1..]);
    }
  }

  predicate EndsCycle(step: Step) {
    step.Page? && step.next == "" && step.fate == Stored
  }

  predicate NoneEnds(steps: seq<Step>) {
    steps == [] || (!EndsCycle(steps[0]) && NoneEnds(steps[1..]))
  }

  predicate NoneSyncs(steps: seq<Step>) {
    steps == [] || (!steps[0].FullSync? && NoneSyncs(steps[1..]))
  }

  /** Catch-up: whatever was appended, failed, lost, replayed or synced before, a stored last page
      leaves the view equal to one pass over the converted log, from some position no later than the
      last full sync began at, through everything the clock has reached, on top of that sync. */
  lemma CompletedCycleViewIsOnePass(place: string -> nat, s0: State, steps: seq<Step>, s: State, to: Instant)
    requires Reachable(place, s0, steps, s) && Enabled(place, s, Page(to, "", Stored))
    ensures var t := Next(place, s, Page(to, "", Stored));
      && Floor(s) <= Max(Position(place, s), First(s.log, s.origin))
      && t.view == Apply(t.base, Out(Seg(t.log, Floor(s), Upper(t.log, to))))
  {
    ReachableInv(place, s0, steps, s);
    var p, q := Position(place, s), PageEnd(place, s, to, "");
    var d := Deliver(s.(now := to), p, q);
    PageBounds(place, s, to, "");
    LastPageCatchesUp(place, s, d, to, p, q);
    if d.high != Upper(s.log, to) {
      assert Seg(s.log, Floor(s), d.high) == [] == Seg(s.log, Floor(s), Upper(s.log, to));
    }
  }

  /** ... and everything the clock has reached since the origin was delivered. */
  lemma CompletedCycleDeliveredAll(place: string -> nat, s0: State, steps: seq<Step>, s: State, to: Instant)
    requires Reachable(place, s0, steps, s) && Enabled(place, s, Page(to, "", Stored))
    ensures var t := Next(place, s, Page(to, "", Stored));
      forall e :: e in t.delivered <==> e in Out(Seg(t.log, First(t.log, t.origin), Upper(t.log, to)))
  {
    ReachableInv(place, s0, steps, s);
    var p, q := Position(place, s), PageEnd(place, s, to, "");
    PageBounds(place, s, to, "");
    DeliverDelivered(place, s, to, "", p, q);
    var d := Deliver(s.(now := to), p, q);
    var b := First(s.log, s.origin);
    if d.high != Upper(s.log, to) {
      assert Seg(s.log, b, d.high) == [] == Seg(s.log, b, Upper(s.log, to));
    }
  }

  lemma SyncedStep(place: string -> nat, s: State, step: Step)
    requires s.syncedAt <= |s.log|
    ensures var t := Next(place, s, step); s.syncedAt <= t.syncedAt <= |t.log| && s.log <= t.log && t.origin == s.origin
  {
  }

  /** The log only grows, and the last full sync only moves forward in it. */
  lemma {:induction false} SyncedGrows(place: string -> nat, s: State, steps: seq<Step>)
    requires s.syncedAt <= |s.log|
    ensures var t := Run(place, s, steps); s.syncedAt <= t.syncedAt <= |t.log| && s.log <= t.log && t.origin == s.origin
    decreases steps
  {
    if steps != [] {
      SyncedStep(place, s, steps[0]);
      SyncedGrows(place, Next(place, s, steps[0]), steps[1..]);
    }
  }

  lemma AppendLow(place: string -> nat, s: State, e: Entry)
    requires CursorOk(place, s) && s.low <= Position(place, s) && Enabled(place, s, Append(e))
    ensures s.low <= Position(place, s.(log := s.log + [e]))
  {
    AppendWindows(place, s, e);
  }

  lemma StoreLow(place: string -> nat, s: State, to: Instant, next: string, p: nat, q: nat)
    requires CursorOk(place, s) && s.low <= Position(place, s) && PageAt(place, s, to, next, p, q)
    ensures var t := Store(Deliver(s.(now := to), p, q), p, q, next); t.low == Min(s.low, Position(place, t))
  {
  }

  /** `low` is the lowest position a call could resume at since the last full sync. */
  lemma LowStep(place: string -> nat, s: State, step: Step)
    requires CursorOk(place, s) && s.low <= Position(place, s) && Enabled(place, s, step)
    ensures var t := Next(place, s, step);
      t.low == if step.FullSync? then Position(place, s) else Min(s.low, Position(place, t))
  {
    match step
    case Append(e) => AppendLow(place, s, e);
    case Page(to, next, fate) => StoreLow(place, s, to, next, Position(place, s), PageEnd(place, s, to, next));
    case FailedCall(to) => assert Position(place, s.(now := to)) == Position(place, s);
    case FullSync(_) =>
  }

  lemma StepWithoutSync(place: string -> nat, s: State, step: Step)
    requires !step.FullSync? && s.low == 0
    ensures var t := Next(place, s, step); t.origin == s.origin && t.base == s.base && t.low == 0
  {
  }

  /** Without a full sync in the run, the pass starts at the origin, on top of the initial view. */
  lemma {:induction false} FloorWithoutSync(place: string -> nat, s: State, steps: seq<Step>)
    requires s.low == 0 && NoneSyncs(steps)
    ensures var t := Run(place, s, steps);
      Floor(t) == First(t.log, t.origin) && t.origin == s.origin && t.base == s.base && t.low == 0
    decreases steps
  {
    if steps != [] {
      StepWithoutSync(place, s, steps[0]);
      FloorWithoutSync(place, Next(place, s, steps[0]), steps[1..]);
    }
  }

  /** Every interleaving without a sync: the view at a completed cycle is one fold over the converted
      log from the initial start. */
  lemma CompletedCycleFromOrigin(place: string -> nat, s0: State, steps: seq<Step>, s: State, to: Instant)
    requires Reachable(place, s0, steps, s) && Enabled(place, s, Page(to, "", Stored))
    requires NoneSyncs(steps)
    ensures var t := Next(place, s, Page(to, "", Stored));
      t.view == Apply(s0.view, Out(Seg(t.log, First(t.log, s0.origin), Upper(t.log, to))))
  {
    CompletedCycleViewIsOnePass(place, s0, steps, s, to);
    FloorWithoutSync(place, s0, steps);
  }

  // ---- cycles ----

  /** A finished cycle emitted exactly the conversion of its whole window in log order, for any page
      boundaries, with records appended between its pages included. */
  lemma {:induction false} ChainedWindow(log: seq<Entry>, cycles: seq<Cycle>, origin: Instant, start: Instant, i: nat)
    requires Clean(log) && Chain(log, cycles, origin, start) && i < |cycles|
    ensures WindowOk(log, cycles[i])
    ensures cycles[i].start <= HandOver(log, cycles[i]) <= start
    ensures HandOver(log, cycles[i]) == if i + 1 < |cycles| then cycles[i + 1].start else start
    decreases cycles
  {
    var n := |cycles| - 1;
    var c := cycles[n];
    LatestIsMaximum(c.start, Seg(log, c.lo, c.end));
    if i < n {
      ChainedWindow(log, cycles[..n], origin, c.start, i);
    }
  }

  lemma {:induction false} ChainedStarts(log: seq<Entry>, cycles: seq<Cycle>, origin: Instant, start: Instant,
      i: nat, j: nat)
    requires Clean(log) && Chain(log, cycles, origin, start) && i < j < |cycles|
    ensures HandOver(log, cycles[i]) <= cycles[j].start
    decreases cycles
  {
    var n := |cycles| - 1;
    assert cycles[..n][i] == cycles[i];
    ChainedWindow(log, cycles[..n], origin, cycles[n].start, i);
    if j < n {
      assert cycles[..n][j] == cycles[j];
      ChainedStarts(log, cycles[..n], origin, cycles[n].start, i, j);
    }
  }

  /** The pages of a cycle, put together, are the conversion of its whole window in log order, up to the
      clock of the last page; and StartAt moves to the latest time in it. Neither keys, page sizes,
      failures nor appends between pages have a say. */
  lemma CycleIsWholeWindow(place: string -> nat, s0: State, steps: seq<Step>, s: State, to: Instant)
    requires Reachable(place, s0, steps, s) && Enabled(place, s, Page(to, "", Stored))
    ensures var t := Next(place, s, Page(to, "", Stored));
      var window := Seg(s.log, First(s.log, s.start), Upper(s.log, to));
      && |t.cycles| == |s.cycles| + 1
      && t.cycles[|s.cycles|].events == Out(window)
      && t.start == Latest(s.start, window) && t.key == ""
  {
    ReachableInv(place, s0, steps, s);
    LastPageEndsWindow(place, s, to);
  }

  lemma LastPageEndsWindow(place: string -> nat, s: State, to: Instant)
    requires CursorOk(place, s) && CycleOk(place, s) && Enabled(place, s, Page(to, "", Stored))
    ensures var t := Next(place, s, Page(to, "", Stored));
      var window := Seg(s.log, First(s.log, s.start), Upper(s.log, to));
      && |t.cycles| == |s.cycles| + 1
      && t.cycles[|s.cycles|].events == Out(window)
      && t.start == Latest(s.start, window) && t.key == ""
  {
    var p, q := Position(place, s), PageEnd(place, s, to, "");
    var b := First(s.log, s.start);
    PageBounds(place, s, to, "");
    CoveredGrows(place, s, to, "", p, q);
    if q != Upper(s.log, to) {
      assert Seg(s.log, b, q) == [] == Seg(s.log, b, Upper(s.log, to));
    }
  }

  /** So two runs of different servers, paged and interrupted in any way, that finish a cycle over the same
      log from the same StartAt at the same clock have emitted the same cycle and hold the same cursor. */
  lemma PagesDoNotMatter(placeA: string -> nat, a0: State, stepsA: seq<Step>, a: State,
      placeB: string -> nat, b0: State, stepsB: seq<Step>, b: State, to: Instant)
    requires Reachable(placeA, a0, stepsA, a) && Enabled(placeA, a, Page(to, "", Stored))
    requires Reachable(placeB, b0, stepsB, b) && Enabled(placeB, b, Page(to, "", Stored))
    requires a.log == b.log && a.start == b.start
    ensures var x, y := Next(placeA, a, Page(to, "", Stored)), Next(placeB, b, Page(to, "", Stored));
      && x.cycles[|a.cycles|].events == y.cycles[|b.cycles|].events
      && x.start == y.start && x.latest == y.latest && x.key == y.key
  {
    CycleIsWholeWindow(placeA, a0, stepsA, a, to);
    CycleIsWholeWindow(placeB, b0, stepsB, b, to);
  }

  /** Duplication is confined to the boundary: a stamped record two finished cycles both emitted has
      exactly the later cycle's StartAt as its time. */
  lemma DuplicatesOnlyAtBoundary(place: string -> nat, s0: State, steps: seq<Step>, s: State, i: nat, j: nat, k: nat)
    requires Reachable(place, s0, steps, s) && i < j < |s.cycles|
    requires s.cycles[i].lo <= k < s.cycles[i].end && s.cycles[j].lo <= k < s.cycles[j].end
    requires k < |s.log| && Stamped(s.log[k])
    ensures s.log[k].time == s.cycles[j].start
  {
    ReachableInv(place, s0, steps, s);
    var c := s.cycles[i];
    ChainedWindow(s.log, s.cycles, s.origin, s.start, i);
    ChainedWindow(s.log, s.cycles, s.origin, s.start, j);
    ChainedStarts(s.log, s.cycles, s.origin, s.start, i, j);
    HandOverIsSeen(s.log, c.start, c.lo, c.end);
  }

  lemma SameWindow(log: seq<Entry>, c: Cycle, d: Cycle)
    requires WindowOk(log, c) && WindowOk(log, d) && c.start == d.start && c.end == d.end
    ensures c.events == d.events && HandOver(log, c) == HandOver(log, d)
  {
    assert c.lo < c.end ==> log[c.lo].time >= c.start;
    assert d.lo < d.end ==> log[d.lo].time >= d.start;
  }

  /** Page-size independence: two histories over one log that start together and finish their cycles
      at the same places emitted the same events cycle by cycle and agree on every StartAt, whatever
      the servers' page sizes, keys, appends between pages, failures and lost responses. */
  lemma {:induction false} PageSizeIndependence(log: seq<Entry>, origin: Instant,
      a: seq<Cycle>, startA: Instant, b: seq<Cycle>, startB: Instant)
    requires Chain(log, a, origin, startA) && Chain(log, b, origin, startB)
    requires |a| == |b| && forall i :: 0 <= i < |a| ==> a[i].end == b[i].end
    ensures startA == startB
    ensures forall i :: 0 <= i < |a| ==> a[i].start == b[i].start && a[i].events == b[i].events
    decreases a
  {
    if a != [] {
      var n := |a| - 1;
      PageSizeIndependence(log, origin, a[..n], a[n].start, b[..n], b[n].start);
      SameWindow(log, a[n], b[n]);
      forall i | 0 <= i < |a| ensures a[i].start == b[i].start && a[i].events == b[i].events {
        if i < n {
          assert a[..n][i] == a[i] && b[..n][i] == b[i];
        }
      }
    }
  }

  /** Silent records return no time and emit nothing: what every converter does for events whose own
      time is not zero. */
  ghost predicate Silent(log: seq<Entry>) {
    forall i :: 0 <= i < |log| && !Stamped(log[i]) ==> log[i].outputs == []
  }

  function At(log: seq<Entry>, t: Instant): seq<Entry> {
    if log == [] then []
    else if log[0].time == t then [log[0]] + At(log[1..], t)
    else At(log[1..], t)
  }

  lemma {:induction false} OutOfBoundary(es: seq<Entry>, t: Instant)
    requires Clean(es) && Silent(es) && forall i :: 0 <= i < |es| && Stamped(es[i]) ==> es[i].time == t
    ensures Out(es) == Out(At(es, t))
  {
    if es != [] {
      OutOfBoundary(es[1..], t);
      if es[0].time == t {
        OutConcat([es[0]], At(es[1..], t));
        assert Out([es[0]]) == es[0].outputs + Out([]);
      }
    }
  }

  /** A cycle that starts where `b` handed over and reaches no further sees only boundary records. */
  lemma QuietWindow(log: seq<Entry>, b: Cycle, c: Cycle)
    requires Clean(log) && WindowOk(log, b) && WindowOk(log, c)
    requires HandOver(log, b) == c.start && b.start <= c.start && c.end == b.end
    ensures b.lo <= c.lo
    ensures forall k :: c.lo <= k < c.end && Stamped(log[k]) ==> log[k].time == c.start
  {
    assert c.lo < c.end ==> log[c.lo].time >= c.start;
    HandOverIsSeen(log, b.start, b.lo, b.end);
  }

  /** Quiescence: a finished cycle that reached no further than the one before leaves StartAt where it
      was and re-emits exactly the converted records whose time equals StartAt, in log order. */
  lemma Quiescence(place: string -> nat, s0: State, steps: seq<Step>, s: State, i: nat)
    requires Reachable(place, s0, steps, s) && Silent(s.log)
    requires i + 1 < |s.cycles| && s.cycles[i + 1].end == s.cycles[i].end
    ensures var c := s.cycles[i + 1];
      && HandOver(s.log, c) == c.start
      && c.lo <= c.end <= |s.log|
      && c.events == Out(At(s.log[c.lo..c.end], c.start))
  {
    ReachableInv(place, s0, steps, s);
    var b, c := s.cycles[i], s.cycles[i + 1];
    ChainedWindow(s.log, s.cycles, s.origin, s.start, i);
    ChainedWindow(s.log, s.cycles, s.origin, s.start, i + 1);
    QuietWindow(s.log, b, c);
    QuietReplay(s.log, c);
  }

  /** Quiescence across runs: after a cycle, any further steps that finish no cycle, and a last page whose
      window ends where the first one's did, the cursor is back where it was, and the second cycle was
      exactly the converted records whose time equals StartAt, in log order. */
  lemma QuietCycle(place: string -> nat, s: State, to: Instant, steps: seq<Step>, to': Instant)
    requires Inv(place, s) && Enabled(place, s, Page(to, "", Stored))
    requires var t := Next(place, s, Page(to, "", Stored)); Legal(place, t, steps) && NoneEnds(steps)
    requires var u := Run(place, Next(place, s, Page(to, "", Stored)), steps);
      && Enabled(place, u, Page(to', "", Stored))
      && Upper(u.log, to') == Upper(s.log, to)
      && Silent(Seg(u.log, First(u.log, u.start), Upper(u.log, to')))
    ensures var t := Next(place, s, Page(to, "", Stored)); var u := Run(place, t, steps);
      var v := Next(place, u, Page(to', "", Stored));
      && Inv(place, u)
      && v.start == t.start == u.start && v.key == t.key == ""
      && |v.cycles| == |u.cycles| + 1
      && v.cycles[|u.cycles|].events == Out(At(Seg(u.log, First(u.log, t.start), Upper(u.log, to')), t.start))
  {
    var t := Next(place, s, Page(to, "", Stored));
    var u := Run(place, t, steps);
    LastPageEndsWindow(place, s, to);
    NextInv(place, s, Page(to, "", Stored));
    RunInv(place, t, steps);
    StartStep(place, s, Page(to, "", Stored));
    StartNeverDecreases(place, t, steps);
    SyncedGrows(place, t, steps);
    LastPageEndsWindow(place, u, to');
    QuietStretch(s.log, u.log, s.start, Upper(s.log, to), t.start);
  }

  /** Of the first window, only records at the StartAt it led to are in the second. */
  lemma QuietStretch(log: seq<Entry>, longer: seq<Entry>, start: Instant, hi: nat, next: Instant)
    requires Clean(log) && Clean(longer) && log <= longer && hi <= |log|
    requires next == Latest(start, Seg(log, First(log, start), hi))
    requires Silent(Seg(longer, First(longer, next), hi))
    ensures var window := Seg(longer, First(longer, next), hi);
      Latest(next, window) == next && Out(window) == Out(At(window, next))
  {
    var window := Seg(longer, First(longer, next), hi);
    forall i | 0 <= i < |window| && Stamped(window[i]) ensures window[i].time == next {
      QuietRecord(log, longer, start, hi, next, First(longer, next) + i);
    }
    CleanSeg(longer, First(longer, next), hi);
    QuietSegment(window, next);
    OutOfBoundary(window, next);
  }

  lemma CleanSeg(log: seq<Entry>, lo: nat, hi: nat)
    requires Clean(log)
    ensures Clean(Seg(log, lo, hi))
  {
  }

  lemma QuietRecord(log: seq<Entry>, longer: seq<Entry>, start: Instant, hi: nat, next: Instant, k: nat)
    requires Clean(log) && Clean(longer) && log <= longer && hi <= |log|
    requires next == Latest(start, Seg(log, First(log, start), hi))
    requires First(longer, next) <= k < hi && Stamped(longer[k])
    ensures longer[k].time == next
  {
    FirstSplits(longer, next);
    FirstSplits(log, start);
    LatestIsMaximum(start, Seg(log, First(log, start), hi));
    assert longer[k] == log[k];
    HandOverIsSeen(log, start, First(log, start), hi);
  }

  lemma QuietSegment(seg: seq<Entry>, start: Instant)
    requires Clean(seg) && forall i :: 0 <= i < |seg| && Stamped(seg[i]) ==> seg[i].time == start
    ensures Latest(start, seg) == start
  {
    LatestIsMaximum(start, seg);
    if i :| 0 <= i < |seg| && Stamped(seg[i]) && seg[i].at == Latest(start, seg) {
      assert Honest(seg[i]);
    }
  }

  lemma QuietReplay(log: seq<Entry>, c: Cycle)
    requires Clean(log) && Silent(log) && WindowOk(log, c)
    requires forall k :: c.lo <= k < c.end && Stamped(log[k]) ==> log[k].time == c.start
    ensures HandOver(log, c) == c.start
    ensures c.events == Out(At(log[c.lo..c.end], c.start))
  {
    var seg := log[c.lo..c.end];
    assert forall i :: 0 <= i < |seg| ==> seg[i] == log[c.lo + i];
    QuietSegment(seg, c.start);
    OutOfBoundary(seg, c.start);
  }

  // ---- termination of a cycle ----

  function Continuing(steps: seq<Step>): nat {
    if steps == [] then 0
    else Weight(steps[0]) + Continuing(steps[1..])
  }

  function Appends(steps: seq<Step>): nat {
    if steps == [] then 0 else (if steps[0].Append? then 1 else 0) + Appends(steps[1..])
  }

  function Weight(step: Step): nat {
    if step.Page? && step.next != "" && step.fate == Stored then 1 else 0
  }

  lemma PositionMoves(place: string -> nat, s: State, step: Step)
    requires CursorOk(place, s) && Enabled(place, s, step) && !EndsCycle(step)
    ensures var t := Next(place, s, step);
      && Position(place, t) >= Position(place, s) + Weight(step)
      && |t.log| == |s.log| + if step.Append? then 1 else 0
  {
    if step.Append? {
      AppendWindows(place, s, step.entry);
    }
  }

  /** Cycle termination: stored pages that ask for more are bounded by the log still ahead plus the
      records appended meanwhile, so following HasMore reaches an empty key. */
  lemma {:induction false} CycleTerminates(place: string -> nat, s: State, steps: seq<Step>)
    requires Inv(place, s) && Legal(place, s, steps) && NoneEnds(steps)
    ensures Position(place, s) <= |s.log|
    ensures Continuing(steps) <= |s.log| - Position(place, s) + Appends(steps)
    decreases steps
  {
    if steps != [] {
      NextInv(place, s, steps[0]);
      PositionMoves(place, s, steps[0]);
      CycleTerminates(place, Next(place, s, steps[0]), steps[1..]);
    }
  }
}

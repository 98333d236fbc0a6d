/** Every step of the protocol keeps its invariant. */
module ProtocolProofs {
  import opened Events
  import opened EventLog
  import opened Protocol

  lemma InitialInv(place: string -> nat, s: State)
    requires Initial(s) && Clean(s.log)
    ensures Inv(place, s)
  {
  }

  // ---- appending to the log ----

  /** An append leaves the windows of both the cursor and the origin alone, or lands before them all,
      when nothing has been delivered yet. */
  lemma AppendWindows(place: string -> nat, s: State, e: Entry)
    requires CursorOk(place, s) && Enabled(place, s, Append(e))
    ensures Clean(s.log + [e])
    ensures var log := s.log + [e];
      || (First(log, s.start) == First(s.log, s.start) && First(log, s.origin) == First(s.log, s.origin))
      || (s.key == "" && s.start == s.origin && First(s.log, s.start) == |s.log| && First(log, s.start) == |s.log| + 1)
  {
    var log := s.log + [e];
    forall i, j | 0 <= i < j < |log| ensures log[i].time <= log[j].time {
      if j == |s.log| && i < |s.log| - 1 {
        assert s.log[i].time <= s.log[|s.log| - 1].time;
      }
    }
    FirstAppend(s.log, e, s.start);
    FirstAppend(s.log, e, s.origin);
    FirstSplits(s.log, s.start);
    FirstMonotone(s.log, s.origin, s.start);
  }

  lemma AppendCursor(place: string -> nat, s: State, e: Entry)
    requires CursorOk(place, s) && Enabled(place, s, Append(e))
    ensures CursorOk(place, s.(log := s.log + [e]))
  {
    var t := s.(log := s.log + [e]);
    AppendWindows(place, s, e);
    FirstAppend(s.log, e, s.now + 1);
    if s.start != s.origin {
      var i :| 0 <= i < s.high && s.log[i].time == s.start;
      assert t.log[i].time == t.start;
    }
  }

  lemma AppendCycle(place: string -> nat, s: State, e: Entry)
    requires CursorOk(place, s) && CycleOk(place, s) && Enabled(place, s, Append(e))
    ensures CycleOk(place, s.(log := s.log + [e]))
  {
    var t := s.(log := s.log + [e]);
    AppendWindows(place, s, e);
    if s.key != "" {
      SegAppend(s.log, e, First(s.log, s.start), Position(place, s));
    } else {
      assert Seg(t.log, First(t.log, t.start), Position(place, t)) == [];
      assert Seg(s.log, First(s.log, s.start), Position(place, s)) == [];
    }
  }

  lemma AppendDelivered(place: string -> nat, s: State, e: Entry)
    requires CursorOk(place, s) && DeliveredOk(s) && Enabled(place, s, Append(e))
    ensures DeliveredOk(s.(log := s.log + [e]))
  {
    var t := s.(log := s.log + [e]);
    AppendWindows(place, s, e);
    if First(t.log, t.origin) == First(s.log, s.origin) {
      SegAppend(s.log, e, First(s.log, s.origin), s.high);
    } else {
      assert Seg(t.log, First(t.log, t.origin), t.high) == [] == Seg(s.log, First(s.log, s.origin), s.high);
    }
  }

  lemma AppendView(place: string -> nat, s: State, e: Entry)
    requires CursorOk(place, s) && ViewOk(place, s) && Enabled(place, s, Append(e))
    ensures ViewOk(place, s.(log := s.log + [e]))
  {
    var t := s.(log := s.log + [e]);
    AppendWindows(place, s, e);
    SegAppend(s.log, e, Position(place, s), s.high);
    SegAppend(s.log, e, Floor(s), s.high);
    if First(t.log, t.start) != First(s.log, s.start) {
      assert Seg(t.log, Position(place, t), t.high) == [] == Seg(s.log, Position(place, s), s.high);
      assert Seg(t.log, Floor(t), t.high) == [] == Seg(s.log, Floor(s), s.high);
    }
  }

  lemma AppendInv(place: string -> nat, s: State, e: Entry)
    requires Inv(place, s) && Enabled(place, s, Append(e))
    ensures Inv(place, Next(place, s, Append(e)))
  {
    AppendCursor(place, s, e);
    AppendCycle(place, s, e);
    AppendDelivered(place, s, e);
    AppendView(place, s, e);
    ChainAppend(s.log, e, s.cycles, s.origin, s.start);
  }

  lemma {:induction false} ChainAppend(log: seq<Entry>, e: Entry, cycles: seq<Cycle>, origin: Instant, start: Instant)
    requires Chain(log, cycles, origin, start)
    ensures Chain(log + [e], cycles, origin, start)
    decreases cycles
  {
    if cycles != [] {
      var c := cycles[|cycles| - 1];
      assert (log + [e])[c.lo..c.end] == log[c.lo..c.end];
      SegAppend(log, e, c.lo, c.end);
      ChainAppend(log, e, cycles[..|cycles| - 1], origin, c.start);
    }
  }

  // ---- delivering a page ----

  /** A page begins inside the window, and at or before `high` unless nothing was fetched yet. */
  lemma PageBounds(place: string -> nat, s: State, to: Instant, next: string)
    requires CursorOk(place, s) && Enabled(place, s, Page(to, next, Stored))
    ensures var p, q := Position(place, s), PageEnd(place, s, to, next);
      && First(s.log, s.origin) <= First(s.log, s.start) <= p <= q <= |s.log|
      && (p < q ==> q <= Upper(s.log, to))
      && s.high <= Upper(s.log, s.now) <= Upper(s.log, to)
      && (p <= s.high || (s.key == "" && s.start == s.origin && p == First(s.log, s.origin)))
      && (next == "" ==> s.high <= q)
  {
    FirstMonotone(s.log, s.origin, s.start);
    FirstMonotone(s.log, s.now + 1, to + 1);
    FirstSplits(s.log, s.start);
  }

  ghost predicate PageAt(place: string -> nat, s: State, to: Instant, next: string, p: nat, q: nat) {
    && Enabled(place, s, Page(to, next, Stored))
    && p == Position(place, s) && q == PageEnd(place, s, to, next)
  }

  lemma DeliverCursor(place: string -> nat, s: State, to: Instant, next: string, p: nat, q: nat)
    requires CursorOk(place, s) && PageAt(place, s, to, next, p, q)
    ensures CursorOk(place, Deliver(s.(now := to), p, q))
  {
    PageBounds(place, s, to, next);
    var d := Deliver(s.(now := to), p, q);
    if s.start != s.origin {
      var i :| 0 <= i < s.high && s.log[i].time == s.start;
      assert d.log[i].time == d.start && i < d.high;
    }
  }

  lemma DeliverDelivered(place: string -> nat, s: State, to: Instant, next: string, p: nat, q: nat)
    requires CursorOk(place, s) && DeliveredOk(s) && PageAt(place, s, to, next, p, q)
    ensures DeliveredOk(Deliver(s.(now := to), p, q))
  {
    PageBounds(place, s, to, next);
    var b := First(s.log, s.origin);
    if p < q <= s.high {
      SegSplit(s.log, b, p, q);
      SegSplit(s.log, b, q, s.high);
    } else if p < q && p <= s.high {
      SegSplit(s.log, p, s.high, q);
      SegSplit(s.log, b, p, s.high);
      SegSplit(s.log, b, s.high, q);
    }
  }

  /** The catch-up equation survives a delivery whether or not the cursor then moves past the page. */
  lemma DeliverView(place: string -> nat, s: State, to: Instant, next: string, p: nat, q: nat)
    requires CursorOk(place, s) && ViewOk(place, s) && PageAt(place, s, to, next, p, q)
    ensures var d := Deliver(s.(now := to), p, q); var whole := Apply(d.base, Out(Seg(d.log, Floor(d), d.high)));
      && Apply(d.view, Out(Seg(d.log, p, d.high))) == whole
      && Apply(d.view, Out(Seg(d.log, q, d.high))) == whole
  {
    PageBounds(place, s, to, next);
    var log, high := s.log, s.high;
    if p == q {
      assert Out(Seg(log, p, q)) == [];
    } else if q <= high {
      SegSplit(log, p, q, high);
      ReplayAbsorbed(s.view, Out(Seg(log, p, q)), Out(Seg(log, q, high)));
      ApplyConcat(s.view, Out(Seg(log, p, q)), Out(Seg(log, q, high)));
    } else {
      var page := Out(Seg(log, p, q));
      assert Apply(s.view, page) == Apply(s.base, Out(Seg(log, Floor(s), q))) by {
        if p <= high {
          SegSplit(log, p, high, q);
          ApplyConcat(s.view, Out(Seg(log, p, high)), Out(Seg(log, high, q)));
          SegSplit(log, Floor(s), high, q);
          ApplyConcat(s.base, Out(Seg(log, Floor(s), high)), Out(Seg(log, high, q)));
        }
      }
      ReplayAbsorbed(s.view, page, []);
      assert page + [] == page;
      assert Seg(log, q, q) == [];
    }
  }

  // ---- storing the cursor ----

  /** After the page, LatestEventSeen and the pending output still describe one stretch of the log. */
  lemma CoveredGrows(place: string -> nat, s: State, to: Instant, next: string, p: nat, q: nat)
    requires CursorOk(place, s) && CycleOk(place, s) && PageAt(place, s, to, next, p, q)
    ensures var b := First(s.log, s.start);
      && b <= p <= q <= |s.log|
      && Latest(s.latest, Seg(s.log, p, q)) == Latest(s.start, Seg(s.log, b, q))
      && s.pending + Out(Seg(s.log, p, q)) == Out(Seg(s.log, b, q))
  {
    PageBounds(place, s, to, next);
    var b := First(s.log, s.start);
    SegSplit(s.log, b, p, q);
    LatestConcat(s.start, Seg(s.log, b, p), Seg(s.log, p, q));
  }

  /** The StartAt of the next cycle is the old one or the time of a record of the finished cycle. */
  lemma HandOverIsSeen(log: seq<Entry>, start: Instant, lo: nat, hi: nat)
    requires Clean(log) && lo <= hi <= |log|
    ensures start <= Latest(start, Seg(log, lo, hi))
    ensures Latest(start, Seg(log, lo, hi)) == start
      || exists i :: lo <= i < hi && Stamped(log[i]) && log[i].time == Latest(start, Seg(log, lo, hi))
    ensures forall i :: lo <= i < hi && Stamped(log[i]) ==> log[i].time <= Latest(start, Seg(log, lo, hi))
  {
    var seg := Seg(log, lo, hi);
    LatestIsMaximum(start, seg);
    forall i | lo <= i < hi && Stamped(log[i]) ensures log[i].time <= Latest(start, seg) {
      assert seg[i - lo] == log[i] && log[i] in seg;
    }
    if Latest(start, seg) != start {
      var i :| 0 <= i < |seg| && Stamped(seg[i]) && seg[i].at == Latest(start, seg);
      assert log[lo + i] == seg[i] && Honest(log[lo + i]);
    }
  }

  ghost predicate AfterPage(place: string -> nat, s: State, d: State, to: Instant, next: string, p: nat, q: nat) {
    && CursorOk(place, s) && CycleOk(place, s) && PageAt(place, s, to, next, p, q)
    && d == Deliver(s.(now := to), p, q)
  }

  lemma StoreCursor(place: string -> nat, s: State, d: State, to: Instant, next: string, p: nat, q: nat)
    requires AfterPage(place, s, d, to, next, p, q)
    ensures CursorOk(place, Store(d, p, q, next))
  {
    PageBounds(place, s, to, next);
    DeliverCursor(place, s, to, next, p, q);
    if next == "" {
      CoveredGrows(place, s, to, next, p, q);
      var t := Store(d, p, q, next);
      HandOverIsSeen(s.log, s.start, First(s.log, s.start), q);
      if t.start == s.start {
        if t.start != t.origin {
          var i :| 0 <= i < d.high && d.log[i].time == d.start;
          assert t.log[i].time == t.start;
        }
      } else {
        var i :| First(s.log, s.start) <= i < q && s.log[i].time == t.start;
        assert p < q || s.key != "";
        assert i < t.high && t.log[i].time == t.start;
      }
    }
  }

  lemma StoreCycle(place: string -> nat, s: State, d: State, to: Instant, next: string, p: nat, q: nat)
    requires AfterPage(place, s, d, to, next, p, q)
    ensures CycleOk(place, Store(d, p, q, next))
  {
    CoveredGrows(place, s, to, next, p, q);
    var t := Store(d, p, q, next);
    if next == "" {
      assert Seg(t.log, First(t.log, t.start), Position(place, t)) == [];
    }
  }

  /** Going back to an earlier position after catching up replays only what is already in the view. */
  lemma DropBack(log: seq<Entry>, base: View, floor: nat, back: nat, high: nat)
    requires high <= |log|
    ensures Apply(Apply(base, Out(Seg(log, floor, high))), Out(Seg(log, back, high)))
      == Apply(base, Out(Seg(log, Min(floor, back), high)))
  {
    if back > high {
      assert Seg(log, back, high) == [];
    } else if floor <= back {
      SegSplit(log, floor, back, high);
      ReplayAbsorbed(base, Out(Seg(log, floor, back)), Out(Seg(log, back, high)));
    } else if floor <= high {
      SegSplit(log, back, floor, high);
      ReplayAbsorbed(base, Out(Seg(log, back, floor)), Out(Seg(log, floor, high)));
    } else {
      assert Seg(log, floor, high) == [];
    }
  }

  /** A last page leaves the view exactly one pass over the log up to `high`. */
  lemma LastPageCatchesUp(place: string -> nat, s: State, d: State, to: Instant, p: nat, q: nat)
    requires AfterPage(place, s, d, to, "", p, q) && ViewOk(place, s)
    ensures d.high <= |d.log| && Floor(s) == Floor(d)
    ensures d.view == Apply(s.base, Out(Seg(s.log, Floor(s), d.high)))
  {
    PageBounds(place, s, to, "");
    DeliverView(place, s, to, "", p, q);
    assert Seg(d.log, q, d.high) == [];
  }

  lemma StoreView(place: string -> nat, s: State, d: State, to: Instant, next: string, p: nat, q: nat)
    requires AfterPage(place, s, d, to, next, p, q) && ViewOk(place, s)
    ensures ViewOk(place, Store(d, p, q, next))
  {
    PageBounds(place, s, to, next);
    DeliverView(place, s, to, next, p, q);
    if next == "" {
      LastPageCatchesUp(place, s, d, to, p, q);
      LastPagePosition(place, s, d, to, p, q);
      DropBack(d.log, d.base, Floor(d), Position(place, Store(d, p, q, "")), d.high);
    }
  }

  /** The position of the next cycle is no earlier than the origin, and the floor drops to it. */
  lemma LastPagePosition(place: string -> nat, s: State, d: State, to: Instant, p: nat, q: nat)
    requires AfterPage(place, s, d, to, "", p, q)
    ensures var t := Store(d, p, q, ""); Floor(t) == Min(Floor(d), Position(place, t)) && t.low <= Position(place, t)
  {
    CoveredGrows(place, s, to, "", p, q);
    HandOverIsSeen(s.log, s.start, First(s.log, s.start), q);
    var t := Store(d, p, q, "");
    FirstMonotone(t.log, t.origin, t.start);
  }

  lemma StoreHistory(place: string -> nat, s: State, d: State, to: Instant, next: string, p: nat, q: nat)
    requires AfterPage(place, s, d, to, next, p, q) && HistoryOk(s)
    ensures HistoryOk(Store(d, p, q, next))
  {
    if next == "" {
      var t := Store(d, p, q, next);
      CoveredGrows(place, s, to, next, p, q);
      FirstSplits(s.log, s.start);
      var c := Cycle(s.start, First(s.log, s.start), q, t.cycles[|s.cycles|].events);
      assert t.cycles == s.cycles + [c];
      assert WindowOk(s.log, c) && HandOver(s.log, c) == t.start;
      assert t.cycles[..|s.cycles|] == s.cycles;
    }
  }

  // ---- every step, every run ----

  lemma DeliveredInv(place: string -> nat, s: State, to: Instant, next: string, p: nat, q: nat)
    requires Inv(place, s) && PageAt(place, s, to, next, p, q)
    ensures Inv(place, Deliver(s.(now := to), p, q))
  {
    DeliverCursor(place, s, to, next, p, q);
    DeliverDelivered(place, s, to, next, p, q);
    DeliverView(place, s, to, next, p, q);
  }

  lemma StoredInv(place: string -> nat, s: State, to: Instant, next: string, p: nat, q: nat)
    requires Inv(place, s) && PageAt(place, s, to, next, p, q)
    ensures Inv(place, Store(Deliver(s.(now := to), p, q), p, q, next))
  {
    var d := Deliver(s.(now := to), p, q);
    DeliverDelivered(place, s, to, next, p, q);
    StoreCursor(place, s, d, to, next, p, q);
    StoreCycle(place, s, d, to, next, p, q);
    StoreView(place, s, d, to, next, p, q);
    StoreHistory(place, s, d, to, next, p, q);
  }

  lemma ClockInv(place: string -> nat, s: State, to: Instant)
    requires Inv(place, s) && s.now <= to
    ensures Inv(place, s.(now := to))
  {
    FirstMonotone(s.log, s.now + 1, to + 1);
  }

  lemma PageInv(place: string -> nat, s: State, to: Instant, next: string, fate: Fate)
    requires Inv(place, s) && Enabled(place, s, Page(to, next, fate))
    ensures Inv(place, Next(place, s, Page(to, next, fate)))
  {
    var p, q := Position(place, s), PageEnd(place, s, to, next);
    match fate
    case ResponseLost => ClockInv(place, s, to);
    case CursorLost => DeliveredInv(place, s, to, next, p, q);
    case Stored => StoredInv(place, s, to, next, p, q);
  }

  lemma NextInv(place: string -> nat, s: State, step: Step)
    requires Inv(place, s) && Enabled(place, s, step)
    ensures Inv(place, Next(place, s, step))
  {
    match step
    case Append(e) => AppendInv(place, s, e);
    case Page(to, next, fate) => PageInv(place, s, to, next, fate);
    case FailedCall(to) => ClockInv(place, s, to);
    case FullSync(truth) =>
      FirstMonotone(s.log, s.origin, s.start);
      FirstSplits(s.log, s.start);
      var t := Next(place, s, step);
      assert Floor(t) == Position(place, t);
  }

  lemma {:induction false} RunInv(place: string -> nat, s: State, steps: seq<Step>)
    requires Inv(place, s) && Legal(place, s, steps)
    ensures Inv(place, Run(place, s, steps))
    decreases steps
  {
    if steps != [] {
      NextInv(place, s, steps[0]);
      RunInv(place, Next(place, s, steps[0]), steps[1..]);
    }
  }
}

/** Which records are delivered again, exactly, and a run in which one is. */
module Repeats {
  import opened Events
  import opened EventLog
  import opened Protocol
  import opened ProtocolProofs
  import opened ProtocolTheorems

  predicate NonEmpty(c: Cycle) {
    c.lo < c.end
  }

  /** Cycles that covered anything reach no further than what was delivered, and later cycles at least
      as far. */
  ghost predicate EndsOk(s: State) {
    && (forall i :: 0 <= i < |s.cycles| && NonEmpty(s.cycles[i]) ==> s.cycles[i].end <= s.high)
    && (forall i, j :: 0 <= i < j < |s.cycles| && NonEmpty(s.cycles[i]) ==> s.cycles[i].end <= s.cycles[j].end)
  }

  lemma EndsStep(place: string -> nat, s: State, step: Step)
    requires CursorOk(place, s) && EndsOk(s) && Enabled(place, s, step)
    ensures EndsOk(Next(place, s, step))
  {
    if EndsCycle(step) {
      var p, q := Position(place, s), PageEnd(place, s, step.to, "");
      PageBounds(place, s, step.to, "");
      NewestEnd(s, Next(place, s, step), p, q);
    }
  }

  /** A last page ends no earlier than anything delivered before it. */
  lemma NewestEnd(s: State, t: State, p: nat, q: nat)
    requires EndsOk(s) && p <= q && s.high <= q && t.high == (if p < q then Max(s.high, q) else s.high)
    requires |t.cycles| == |s.cycles| + 1 && t.cycles[..|s.cycles|] == s.cycles
    requires var c := t.cycles[|s.cycles|]; c.end == q && (NonEmpty(c) && p == q ==> q <= s.high)
    ensures EndsOk(t)
  {
    assert forall i :: 0 <= i < |s.cycles| ==> t.cycles[i] == s.cycles[i];
  }

  lemma {:induction false} EndsRun(place: string -> nat, s: State, steps: seq<Step>)
    requires Inv(place, s) && EndsOk(s) && Legal(place, s, steps)
    ensures EndsOk(Run(place, s, steps))
    decreases steps
  {
    if steps != [] {
      EndsStep(place, s, steps[0]);
      NextInv(place, s, steps[0]);
      EndsRun(place, Next(place, s, steps[0]), steps[1..]);
    }
  }

  /** The exact repeats: of the records a finished cycle covered, a later finished cycle covers again
      those not before its StartAt, and no others; of the ones that returned a time, those at its StartAt. */
  lemma DuplicatesExactly(place: string -> nat, s0: State, steps: seq<Step>, s: State, i: nat, j: nat, k: nat)
    requires Reachable(place, s0, steps, s) && i < j < |s.cycles|
    requires s.cycles[i].lo <= k < s.cycles[i].end
    ensures k < |s.log|
    ensures s.cycles[j].lo <= k < s.cycles[j].end <==> s.log[k].time >= s.cycles[j].start
    ensures Stamped(s.log[k]) ==>
      (s.cycles[j].lo <= k < s.cycles[j].end <==> s.log[k].time == s.cycles[j].start)
  {
    ReachableInv(place, s0, steps, s);
    InitialInv(place, s0);
    EndsRun(place, s0, steps);
    ChainedWindow(s.log, s.cycles, s.origin, s.start, i);
    ChainedWindow(s.log, s.cycles, s.origin, s.start, j);
    assert NonEmpty(s.cycles[i]);
    if Stamped(s.log[k]) && s.cycles[j].lo <= k < s.cycles[j].end {
      DuplicatesOnlyAtBoundary(place, s0, steps, s, i, j, k);
    }
  }

  // ---- exactly-once delivery does not hold ----

  /** One record, a feed that starts at its time, and two calls that both go through. */
  lemma DeliveredTwice(place: string -> nat, e: Event, view: View)
    ensures var s0 := OneRecord(e, view); var steps := [Page(2, "", Stored), Page(3, "", Stored)];
      var s := Run(place, s0, steps);
      Reachable(place, s0, steps, s) && s.delivered == [e, e] && s.cycles[0].events == s.cycles[1].events == [e]
  {
    var s0 := OneRecord(e, view);
    var steps := [Page(2, "", Stored), Page(3, "", Stored)];
    assert steps[1..] == [Page(3, "", Stored)] && steps[1..][1..] == [];
    WholeLogPage(place, s0, 2, e);
    var s1 := Next(place, s0, steps[0]);
    WholeLogPage(place, s1, 3, e);
    assert Run(place, s0, steps) == Run(place, s1, steps[1..]) == Next(place, s1, steps[1]);
    assert [] + [e] == [e];
  }

  function OneRecord(e: Event, view: View): State {
    State([Entry(1, 1, [e])], 0, 1, 1, "", [], view, 1, 0, [], [], view, 1, 0)
  }

  lemma WholeLogPage(place: string -> nat, s: State, to: Instant, e: Event)
    requires s.log == [Entry(1, 1, [e])] && s.start == s.latest == 1 && s.key == "" && s.pending == []
    requires s.now <= to && 1 <= to
    ensures Enabled(place, s, Page(to, "", Stored))
    ensures var t := Next(place, s, Page(to, "", Stored));
      && t.log == s.log && t.now == to && t.start == t.latest == 1 && t.key == "" && t.pending == []
      && t.delivered == s.delivered + [e] && t.cycles == s.cycles + [Cycle(1, 0, 1, [e])]
  {
    var log := s.log;
    assert First(log[..0], 1) == 0 && First(log, 1) == 0 && Upper(log, to) == 1;
    assert Seg(log, 0, 1) == log;
    assert Out(log[1..]) == [] && Out(log) == [e] + [] == [e];
    assert [] + [e] == [e];
    assert Latest(1, log) == Latest(Later(1, 1), log[1..]) == 1;
  }
}

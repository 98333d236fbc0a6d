/** Redelivery is harmless to a consumer that drops event ids it has seen. */
module ExactlyOnce {
  import opened Events
  import opened EventLog
  import opened Protocol
  import opened ProtocolProofs
  import opened ProtocolTheorems

  ghost predicate Distinct(es: seq<Event>) {
    forall i, j :: 0 <= i < j < |es| ==> es[i].id != es[j].id
  }

  predicate Known(es: seq<Event>, id: string) {
    exists i :: 0 <= i < |es| && es[i].id == id
  }

  /** Keeps the first event of every id. */
  function Dedup(es: seq<Event>): seq<Event> {
    if es == [] then []
    else
      var front := Dedup(es[..|es| - 1]);
      if Known(front, es[|es| - 1].id) then front else front + [es[|es| - 1]]
  }

  lemma {:induction false} DropKnown(es: seq<Event>, xs: seq<Event>)
    requires forall x :: x in xs ==> Known(Dedup(es), x.id)
    ensures Dedup(es + xs) == Dedup(es)
  {
    if xs == [] {
      assert es + xs == es;
    } else {
      var n := |xs| - 1;
      assert (es + xs)[..|es + xs| - 1] == es + xs[..n];
      assert xs[n] in xs;
      DropKnown(es, xs[..n]);
    }
  }

  lemma {:induction false} KeepNew(es: seq<Event>, xs: seq<Event>)
    requires Distinct(Dedup(es) + xs)
    ensures Dedup(es + xs) == Dedup(es) + xs
  {
    if xs == [] {
      assert es + xs == es;
    } else {
      var n := |xs| - 1;
      var d := Dedup(es) + xs[..n];
      assert (es + xs)[..|es + xs| - 1] == es + xs[..n];
      assert Dedup(es) + xs == d + [xs[n]];
      forall i, j | 0 <= i < j < |d| ensures d[i].id != d[j].id {
        assert d[i] == (Dedup(es) + xs)[i] && d[j] == (Dedup(es) + xs)[j];
      }
      KeepNew(es, xs[..n]);
      forall i | 0 <= i < |d| ensures d[i].id != xs[n].id {
        assert (Dedup(es) + xs)[i] == d[i] && (Dedup(es) + xs)[|d|] == xs[n];
      }
    }
  }

  lemma DistinctParts(a: seq<Event>, b: seq<Event>)
    requires Distinct(a + b)
    ensures Distinct(a) && Distinct(b)
  {
    forall i, j | 0 <= i < j < |a| ensures a[i].id != a[j].id {
      assert (a + b)[i] == a[i] && (a + b)[j] == a[j];
    }
    forall i, j | 0 <= i < j < |b| ensures b[i].id != b[j].id {
      assert (a + b)[|a| + i] == b[i] && (a + b)[|a| + j] == b[j];
    }
  }

  /** The events of a stretch of a log with distinct event ids are distinct. */
  lemma DistinctSeg(log: seq<Entry>, lo: nat, hi: nat)
    requires Distinct(Out(log)) && lo <= hi <= |log|
    ensures Distinct(Out(Seg(log, lo, hi)))
  {
    SegSplit(log, 0, hi, |log|);
    SegSplit(log, 0, lo, hi);
    assert Seg(log, 0, |log|) == log;
    DistinctParts(Out(Seg(log, 0, hi)), Out(Seg(log, hi, |log|)));
    DistinctParts(Out(Seg(log, 0, lo)), Out(Seg(log, lo, hi)));
  }

  /** Without repeated ids, what was delivered is one pass over the log from the origin to `high`. */
  predicate OnceOk(s: State) {
    Dedup(s.delivered) == Out(Seg(s.log, First(s.log, s.origin), s.high))
  }

  lemma AllKnown(es: seq<Event>, a: seq<Event>, b: seq<Event>, c: seq<Event>)
    requires Dedup(es) == a + b + c
    ensures forall x :: x in b ==> Known(Dedup(es), x.id)
  {
    forall x | x in b ensures Known(Dedup(es), x.id) {
      var i :| 0 <= i < |b| && b[i] == x;
      assert Dedup(es)[|a| + i] == x;
    }
  }

  lemma DeliverOnce(place: string -> nat, s: State, to: Instant, next: string, p: nat, q: nat)
    requires CursorOk(place, s) && OnceOk(s) && PageAt(place, s, to, next, p, q) && Distinct(Out(s.log))
    ensures OnceOk(Deliver(s.(now := to), p, q))
  {
    PageBounds(place, s, to, next);
    var b := First(s.log, s.origin);
    if p == q {
      assert Out(Seg(s.log, p, q)) == [];
      assert s.delivered + [] == s.delivered;
    } else {
      OnceAt(s.log, s.delivered, b, s.high, p, q);
    }
  }

  lemma OnceAt(log: seq<Entry>, delivered: seq<Event>, b: nat, high: nat, p: nat, q: nat)
    requires Distinct(Out(log)) && Dedup(delivered) == Out(Seg(log, b, high))
    requires b <= p < q <= |log| && high <= |log| && (p <= high || p == b)
    ensures Dedup(delivered + Out(Seg(log, p, q))) == Out(Seg(log, b, Max(high, q)))
  {
    if q <= high {
      Replayed(log, delivered, b, high, p, q);
    } else if p <= high {
      Advances(log, delivered, b, high, p, q);
    } else {
      assert Seg(log, b, high) == [];
      DistinctSeg(log, p, q);
      FirstPage(delivered, Out(Seg(log, p, q)));
    }
  }

  lemma Advances(log: seq<Entry>, delivered: seq<Event>, b: nat, high: nat, p: nat, q: nat)
    requires Distinct(Out(log)) && Dedup(delivered) == Out(Seg(log, b, high))
    requires b <= p <= high <= q <= |log|
    ensures Dedup(delivered + Out(Seg(log, p, q))) == Out(Seg(log, b, q))
  {
    var old', new' := Out(Seg(log, p, high)), Out(Seg(log, high, q));
    Replayed(log, delivered, b, high, p, high);
    DistinctSeg(log, b, q);
    SegSplit(log, b, high, q);
    SegSplit(log, p, high, q);
    ReplayedThenNew(delivered, old', new');
  }

  lemma ReplayedThenNew(delivered: seq<Event>, again: seq<Event>, fresh': seq<Event>)
    requires Dedup(delivered + again) == Dedup(delivered) && Distinct(Dedup(delivered) + fresh')
    ensures Dedup(delivered + (again + fresh')) == Dedup(delivered) + fresh'
  {
    KeepNew(delivered + again, fresh');
    assert delivered + (again + fresh') == delivered + again + fresh';
  }

  lemma FirstPage(delivered: seq<Event>, page: seq<Event>)
    requires Dedup(delivered) == [] && Distinct(page)
    ensures Dedup(delivered + page) == page
  {
    assert Dedup(delivered) + page == page;
    KeepNew(delivered, page);
  }

  lemma Replayed(log: seq<Entry>, delivered: seq<Event>, b: nat, high: nat, p: nat, q: nat)
    requires Dedup(delivered) == Out(Seg(log, b, high)) && b <= p <= q <= high <= |log|
    ensures Dedup(delivered + Out(Seg(log, p, q))) == Dedup(delivered)
  {
    SegSplit(log, b, p, high);
    SegSplit(log, p, q, high);
    DropMiddle(delivered, Out(Seg(log, b, p)), Out(Seg(log, p, q)), Out(Seg(log, q, high)));
  }

  lemma DropMiddle(delivered: seq<Event>, a: seq<Event>, page: seq<Event>, c: seq<Event>)
    requires Dedup(delivered) == a + (page + c)
    ensures Dedup(delivered + page) == Dedup(delivered)
  {
    assert a + (page + c) == a + page + c;
    AllKnown(delivered, a, page, c);
    DropKnown(delivered, page);
  }

  lemma PageOnce(place: string -> nat, s: State, to: Instant, next: string, fate: Fate)
    requires CursorOk(place, s) && OnceOk(s) && Enabled(place, s, Page(to, next, fate)) && Distinct(Out(s.log))
    ensures OnceOk(Next(place, s, Page(to, next, fate)))
  {
    var p, q := Position(place, s), PageEnd(place, s, to, next);
    var d := Deliver(s.(now := to), p, q);
    DeliverOnce(place, s, to, next, p, q);
    match fate
    case ResponseLost =>
    case CursorLost =>
    case Stored => StoreSame(d, p, q, next);
  }

  lemma StoreSame(d: State, p: nat, q: nat, next: string)
    requires OnceOk(d) && p <= q <= |d.log|
    ensures OnceOk(Store(d, p, q, next))
  {
    var t := Store(d, p, q, next);
    assert t.delivered == d.delivered && t.log == d.log && t.origin == d.origin && t.high == d.high;
  }

  lemma OnceStep(place: string -> nat, s: State, step: Step)
    requires CursorOk(place, s) && OnceOk(s) && Enabled(place, s, step) && Distinct(Out(s.log))
    ensures OnceOk(Next(place, s, step))
  {
    if step.Append? {
      AppendOnce(place, s, step.entry);
    } else if step.Page? {
      PageOnce(place, s, step.to, step.next, step.fate);
    }
  }

  lemma AppendOnce(place: string -> nat, s: State, e: Entry)
    requires CursorOk(place, s) && OnceOk(s) && Enabled(place, s, Append(e))
    ensures OnceOk(s.(log := s.log + [e]))
  {
    AppendWindows(place, s, e);
    var log := s.log + [e];
    if First(log, s.origin) == First(s.log, s.origin) {
      SegAppend(s.log, e, First(s.log, s.origin), s.high);
    } else {
      assert Seg(log, First(log, s.origin), s.high) == [] == Seg(s.log, First(s.log, s.origin), s.high);
    }
  }

  lemma DistinctPrefix(log: seq<Entry>, longer: seq<Entry>)
    requires log <= longer && Distinct(Out(longer))
    ensures Distinct(Out(log))
  {
    DistinctSeg(longer, 0, |log|);
    assert Seg(longer, 0, |log|) == log;
  }

  /** Exactly once: over every run, dropping repeated ids from what was delivered leaves exactly the
      converted log from the origin up to the furthest delivery, in log order. */
  lemma {:induction false} ExactlyOnceAfterDedup(place: string -> nat, s: State, steps: seq<Step>)
    requires Inv(place, s) && OnceOk(s) && Legal(place, s, steps) && Distinct(Out(Run(place, s, steps).log))
    ensures OnceOk(Run(place, s, steps))
    decreases steps
  {
    if steps != [] {
      SyncedGrows(place, s, steps);
      DistinctPrefix(s.log, Run(place, s, steps).log);
      OnceStep(place, s, steps[0]);
      NextInv(place, s, steps[0]);
      ExactlyOnceAfterDedup(place, Next(place, s, steps[0]), steps[1..]);
    }
  }

  lemma ReachableOnce(place: string -> nat, s0: State, steps: seq<Step>, s: State)
    requires Reachable(place, s0, steps, s) && Distinct(Out(s.log))
    ensures OnceOk(s)
  {
    InitialInv(place, s0);
    assert Out(Seg(s0.log, First(s0.log, s0.origin), 0)) == [];
    ExactlyOnceAfterDedup(place, s0, steps);
  }

  /** At a completed cycle that is everything the clock has reached. */
  lemma CompletedCycleOnce(place: string -> nat, s0: State, steps: seq<Step>, s: State, to: Instant)
    requires Reachable(place, s0, steps, s) && Enabled(place, s, Page(to, "", Stored)) && Distinct(Out(s.log))
    ensures var t := Next(place, s, Page(to, "", Stored));
      Dedup(t.delivered) == Out(Seg(t.log, First(t.log, t.origin), Upper(t.log, to)))
  {
    ReachableOnce(place, s0, steps, s);
    ReachableInv(place, s0, steps, s);
    var p, q := Position(place, s), PageEnd(place, s, to, "");
    PageBounds(place, s, to, "");
    DeliverOnce(place, s, to, "", p, q);
    var d := Deliver(s.(now := to), p, q);
    var b := First(s.log, s.origin);
    if d.high != Upper(s.log, to) {
      assert Seg(s.log, b, d.high) == [] == Seg(s.log, b, Upper(s.log, to));
    }
  }
}

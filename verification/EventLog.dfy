/** The audit log as the feeds see it, and the time windows SearchEvents cuts out of it. */
module EventLog {
  import opened Events

  /** A log record after conversion: when it happened, the time the converter returned for it
      (ZERO_TIME when it returned none), and the events it turned into. A record the feed's type
      filter excludes is an entry that returns no time and no events. */
  datatype Entry = Entry(time: Instant, at: Instant, outputs: seq<Event>)

  /** A converter returns either no time or the record's own time. */
  predicate Honest(e: Entry) {
    e.at == ZERO_TIME || e.at == e.time
  }

  predicate Stamped(e: Entry) {
    e.at != ZERO_TIME
  }

  ghost predicate Sorted(log: seq<Entry>) {
    forall i, j :: 0 <= i < j < |log| ==> log[i].time <= log[j].time
  }

  ghost predicate Clean(log: seq<Entry>) {
    Sorted(log) && forall i :: 0 <= i < |log| ==> Honest(log[i])
  }

  /** The position of the first record not earlier than `from`. */
  function First(log: seq<Entry>, from: Instant): (k: nat)
    ensures k <= |log|
  {
    if log == [] then 0
    else if log[|log| - 1].time < from then |log|
    else First(log[..|log| - 1], from)
  }

  /** The position after the last record not later than `to`. */
  function Upper(log: seq<Entry>, to: Instant): (k: nat)
    ensures k <= |log|
  {
    First(log, to + 1)
  }

  function Out(es: seq<Entry>): seq<Event> {
    if es == [] then [] else es[0].outputs + Out(es[1..])
  }

  /** updateLatestEvent on instants: zero times are ignored, later ones win. */
  function Later(latest: Instant, t: Instant): Instant {
    if t == ZERO_TIME || t <= latest then latest else t
  }

  function Latest(latest: Instant, es: seq<Entry>): Instant
    decreases es
  {
    if es == [] then latest else Latest(Later(latest, es[0].at), es[1..])
  }

  function Seg(log: seq<Entry>, lo: nat, hi: nat): seq<Entry> {
    if lo <= hi <= |log| then log[lo..hi] else []
  }

  function Max(a: int, b: int): int { if a < b then b else a }
  function Min(a: int, b: int): int { if a < b then a else b }

  lemma {:induction false} FirstSplits(log: seq<Entry>, from: Instant)
    requires Sorted(log)
    ensures forall i :: 0 <= i < First(log, from) ==> log[i].time < from
    ensures forall i :: First(log, from) <= i < |log| ==> log[i].time >= from
  {
    if log != [] && log[|log| - 1].time >= from {
      FirstSplits(log[..|log| - 1], from);
    }
  }

  lemma FirstMonotone(log: seq<Entry>, a: Instant, b: Instant)
    requires Sorted(log) && a <= b
    ensures First(log, a) <= First(log, b)
  {
    FirstSplits(log, a);
    FirstSplits(log, b);
  }

  /** Appending a record moves the start of a window only past the end of the old log. */
  lemma FirstAppend(log: seq<Entry>, e: Entry, from: Instant)
    requires Sorted(log + [e])
    ensures e.time >= from ==> First(log + [e], from) == First(log, from)
    ensures e.time < from ==> First(log, from) == |log| && First(log + [e], from) == |log| + 1
  {
    var more := log + [e];
    assert more[..|more| - 1] == log;
    assert log == [] || (more[|log| - 1] == log[|log| - 1] && more[|log| - 1].time <= more[|log|].time);
  }

  lemma {:induction false} OutConcat(a: seq<Entry>, b: seq<Entry>)
    ensures Out(a + b) == Out(a) + Out(b)
  {
    if a == [] {
      assert a + b == b;
    } else {
      assert (a + b)[1..] == a[1..] + b;
      OutConcat(a[1..], b);
    }
  }

  lemma {:induction false} LatestConcat(latest: Instant, a: seq<Entry>, b: seq<Entry>)
    ensures Latest(latest, a + b) == Latest(Latest(latest, a), b)
    decreases a
  {
    if a == [] {
      assert a + b == b;
    } else {
      assert (a + b)[1..] == a[1..] + b;
      LatestConcat(Later(latest, a[0].at), a[1..], b);
    }
  }

  lemma Snoc(latest: Instant, es: seq<Entry>, e: Entry)
    ensures Out(es + [e]) == Out(es) + e.outputs
    ensures Latest(latest, es + [e]) == Later(Latest(latest, es), e.at)
  {
    OutConcat(es, [e]);
    LatestConcat(latest, es, [e]);
    assert [e][1..] == [];
  }

  /** `Latest` is the maximum of the start and the returned times. */
  lemma {:induction false} LatestIsMaximum(latest: Instant, es: seq<Entry>)
    ensures latest <= Latest(latest, es)
    ensures forall e :: e in es && Stamped(e) ==> e.at <= Latest(latest, es)
    ensures Latest(latest, es) == latest
      || exists i :: 0 <= i < |es| && Stamped(es[i]) && es[i].at == Latest(latest, es)
    decreases es
  {
    if es != [] {
      LatestIsMaximum(Later(latest, es[0].at), es[1..]);
      var m := Latest(latest, es);
      if m != latest && m != es[0].at {
        var i :| 0 <= i < |es[1..]| && Stamped(es[1..][i]) && es[1..][i].at == m;
        assert es[i + 1] == es[1..][i];
      } else if m != latest {
        assert Stamped(es[0]);
      }
    }
  }

  lemma SegSplit(log: seq<Entry>, a: nat, b: nat, c: nat)
    requires a <= b <= c <= |log|
    ensures Seg(log, a, c) == Seg(log, a, b) + Seg(log, b, c)
    ensures Out(Seg(log, a, c)) == Out(Seg(log, a, b)) + Out(Seg(log, b, c))
  {
    OutConcat(Seg(log, a, b), Seg(log, b, c));
  }

  lemma SegAppend(log: seq<Entry>, e: Entry, lo: nat, hi: nat)
    requires hi <= |log|
    ensures Seg(log + [e], lo, hi) == Seg(log, lo, hi)
  {
  }

  /** An event is in a stretch of output exactly when some record of the stretch produced it. */
  lemma {:induction false} OutMember(es: seq<Entry>, e: Event)
    ensures e in Out(es) <==> exists i :: 0 <= i < |es| && e in es[i].outputs
  {
    if es != [] {
      OutMember(es[1..], e);
      if e in Out(es[1..]) {
        var i :| 0 <= i < |es[1..]| && e in es[1..][i].outputs;
        assert e in es[i + 1].outputs;
      }
      if i :| 0 <= i < |es| && e in es[i].outputs {
        assert i == 0 || e in es[1..][i - 1].outputs;
      }
    }
  }
}

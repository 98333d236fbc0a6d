/** What a sequence of records does to one (user, role) pair, in truth and in the consumer's view. */
module Marks {

  /** Assigned: a user record that lists the role. Removed: a user record that does not, or the user's
      deletion. Approved and Expired: a temporary request for the pair. */
  datatype Mark = Assigned | Removed | Approved | Expired | Silent

  /** Whether the user really holds the role: only the user's own records count. */
  function Holds(before: bool, ms: seq<Mark>): bool {
    if ms == [] then before
    else
      match ms[|ms| - 1]
      case Assigned => true
      case Removed => false
      case _ => Holds(before, ms[..|ms| - 1])
  }

  /** Whether the consumer sees the pair: removals emit nothing, requests do. */
  function Seen(before: bool, ms: seq<Mark>): bool {
    if ms == [] then before
    else
      match ms[|ms| - 1]
      case Assigned => true
      case Approved => true
      case Expired => false
      case _ => Seen(before, ms[..|ms| - 1])
  }

  predicate Gives(m: Mark) { m.Assigned? || m.Approved? }
  predicate Own(m: Mark) { m.Assigned? || m.Removed? }
  predicate Loud(m: Mark) { Gives(m) || m.Expired? }

  /** The request for the pair expired at `i` and nothing gave the pair again. */
  predicate ExpiredAt(ms: seq<Mark>, i: nat) {
    i < |ms| && ms[i].Expired? && forall j :: i < j < |ms| ==> !Gives(ms[j])
  }

  /** The last user record, at `i`, took the role away or deleted the user. */
  predicate RemovedAt(ms: seq<Mark>, i: nat) {
    i < |ms| && ms[i].Removed? && forall j :: i < j < |ms| ==> !Own(ms[j])
  }

  /** A temporary request was approved at `i` and has not expired since. */
  predicate TemporaryAt(ms: seq<Mark>, i: nat) {
    i < |ms| && ms[i].Approved? && forall j :: i < j < |ms| ==> !ms[j].Expired?
  }

  /** The pair was given at `i` and not revoked since. */
  predicate GivenAt(ms: seq<Mark>, i: nat) {
    i < |ms| && Gives(ms[i]) && forall j :: i < j < |ms| ==> !ms[j].Expired?
  }

  predicate Quiet(ms: seq<Mark>) {
    forall i :: 0 <= i < |ms| ==> !Loud(ms[i])
  }

  lemma {:induction false} SeenFalse(before: bool, ms: seq<Mark>)
    ensures !Seen(before, ms) <==> (exists i: nat :: ExpiredAt(ms, i)) || (!before && Quiet(ms))
  {
    if ms != [] {
      var n := |ms| - 1;
      var front := ms[..n];
      SeenFalse(before, front);
      if ms[n].Expired? {
        assert ExpiredAt(ms, n);
      } else if Gives(ms[n]) {
        assert forall i: nat :: ExpiredAt(ms, i) ==> i < n;
      } else {
        if i: nat :| ExpiredAt(front, i) {
          assert ExpiredAt(ms, i);
        }
        if i: nat :| ExpiredAt(ms, i) {
          assert ExpiredAt(front, i);
        }
        assert Quiet(ms) <==> Quiet(front);
      }
    }
  }

  lemma {:induction false} SeenTrue(before: bool, ms: seq<Mark>)
    ensures Seen(before, ms) <==> (exists i: nat :: GivenAt(ms, i)) || (before && Quiet(ms))
  {
    if ms != [] {
      var n := |ms| - 1;
      var front := ms[..n];
      SeenTrue(before, front);
      if Gives(ms[n]) {
        assert GivenAt(ms, n);
      } else if ms[n].Expired? {
        assert forall i: nat :: GivenAt(ms, i) ==> i < n;
      } else {
        if i: nat :| GivenAt(front, i) {
          assert GivenAt(ms, i);
        }
        if i: nat :| GivenAt(ms, i) {
          assert GivenAt(front, i);
        }
        assert Quiet(ms) <==> Quiet(front);
      }
    }
  }

  predicate LastOwnAt(ms: seq<Mark>, i: nat) {
    i < |ms| && Own(ms[i]) && forall j :: i < j < |ms| ==> !Own(ms[j])
  }

  /** The last user record decides who holds the role; without one nothing changed. */
  lemma {:induction false} HoldsByLastOwn(before: bool, ms: seq<Mark>)
    ensures (exists i: nat :: LastOwnAt(ms, i))
      || (Holds(before, ms) == before && forall i :: 0 <= i < |ms| ==> !Own(ms[i]))
    ensures forall i: nat :: LastOwnAt(ms, i) ==> Holds(before, ms) == ms[i].Assigned?
  {
    if ms != [] {
      var n := |ms| - 1;
      HoldsByLastOwn(before, ms[..n]);
      if Own(ms[n]) {
        assert LastOwnAt(ms, n);
      } else {
        forall i: nat | LastOwnAt(ms, i) ensures LastOwnAt(ms[..n], i) {
        }
        if i: nat :| LastOwnAt(ms[..n], i) {
          assert LastOwnAt(ms, i);
        }
      }
    }
  }

  lemma {:induction false} HoldsConcat(before: bool, a: seq<Mark>, b: seq<Mark>)
    ensures Holds(before, a + b) == Holds(Holds(before, a), b)
  {
    if b == [] {
      assert a + b == a;
    } else {
      assert (a + b)[..|a + b| - 1] == a + b[..|b| - 1];
      HoldsConcat(before, a, b[..|b| - 1]);
    }
  }

  /** Without a user record after `a`, the truth is still what it was there; with one, it decides. */
  lemma TailDecides(before: bool, a: seq<Mark>, b: seq<Mark>)
    ensures Holds(before, a + b) == Holds(before, a) || exists i: nat :: LastOwnAt(a + b, i) && |a| <= i
  {
    HoldsConcat(before, a, b);
    HoldsByLastOwn(Holds(before, a), b);
    if i: nat :| LastOwnAt(b, i) {
      assert (a + b)[|a| + i] == b[i];
      assert LastOwnAt(a + b, |a| + i);
    }
  }

  /** The sync saw the truth after `a`; the feed then replayed `a` and went on through `b`. A role the
      user holds is missing exactly when a request for it expired and nothing gave it again; that
      expiry then follows the user's last own record. */
  lemma Missing(before: bool, a: seq<Mark>, b: seq<Mark>)
    requires Holds(before, a + b)
    ensures !Seen(Holds(before, a), a + b) <==> exists i: nat :: ExpiredAt(a + b, i)
    ensures forall i: nat :: ExpiredAt(a + b, i) ==> forall j: nat :: i < j < |a + b| ==> !Own((a + b)[j])
  {
    var ms := a + b;
    SeenFalse(Holds(before, a), ms);
    HoldsByLastOwn(before, ms);
    TailDecides(before, a, b);
    forall i: nat, j: nat | ExpiredAt(ms, i) && i < j < |ms| ensures !Own(ms[j]) {
      if k: nat :| LastOwnAt(ms, k) {
        assert ms[k].Assigned?;
        assert k < i;
      }
    }
  }

  /** A role the user does not hold is seen exactly when it was given and not revoked since, or nothing
      was said about it and the sync had it. */
  lemma ExtraIff(before: bool, a: seq<Mark>, b: seq<Mark>)
    requires !Holds(before, a + b)
    ensures Seen(Holds(before, a), a + b) <==>
      (exists i: nat :: GivenAt(a + b, i)) || (Holds(before, a) && Quiet(a + b))
  {
    SeenTrue(Holds(before, a), a + b);
  }

  /** ... and the cause is a later removal or deletion, or an approved temporary request. */
  lemma ExtraCause(before: bool, a: seq<Mark>, b: seq<Mark>)
    requires !Holds(before, a + b) && Seen(Holds(before, a), a + b)
    ensures exists i: nat :: RemovedAt(a + b, i) || TemporaryAt(a + b, i)
  {
    var ms := a + b;
    SeenTrue(Holds(before, a), ms);
    HoldsByLastOwn(before, ms);
    TailDecides(before, a, b);
    if i: nat :| LastOwnAt(ms, i) {
      assert RemovedAt(ms, i);
    } else if i: nat :| GivenAt(ms, i) {
      assert TemporaryAt(ms, i);
    }
  }
}

/** Runs in which the view of a caught-up feed is not the truth. */
module Counterexamples {
  import opened Wrappers
  import opened Events
  import opened EventLog
  import opened EventPagination
  import opened AuditRecords
  import opened FeedPage
  import opened FeedRefinement
  import opened Protocol
  import opened Membership
  import opened FeedSystem
  import opened FeedSimulation
  import opened Divergence
  import opened EndToEnd
  import Marks

  const DEV := Pair("bob", "dev")

  /** Bob's user is created with the role. */
  const CREATED := AuditRecord("1", 10, "user.create", UserCreate("bob", ["dev"]))

  /** A temporary request of Bob's for the same role expires. */
  const EXPIRED := AuditRecord("2", 20, "access_request.expire", AccessRequest("", "r", "EXPIRED"))

  /** Bob's user is updated and no longer has the role. */
  const REMOVED := AuditRecord("2", 20, "user.update", UserUpdate("bob", []))

  function BobsRequests(): Requests {
    _ => Request("bob", ["dev"])
  }

  /** An audit feed from time 10 on, whose consumer has just synced. */
  function Synced(log: seq<AuditRecord>): System {
    System(Audits, log, 0, 10, "", [], Truth(log))
  }

  /** One answered call at time 30. */
  function Poll(): Action {
    Call(30, "", false, BobsRequests(), Stored)
  }

  /** The call completes a cycle and replays the two records. */
  lemma PollReplays(place: string -> nat, r: AuditRecord)
    requires r.time == 20
    ensures var sys0 := Synced([CREATED, r]);
      && Fresh(sys0) && Completes(place, BobsRequests(), sys0, Poll())
      && SystemNext(place, sys0, Poll()).log == sys0.log
      && SystemNext(place, sys0, Poll()).view == Apply(Truth(sys0.log), Out(Entries(Audits, BobsRequests(), sys0.log)))
  {
    var log := [CREATED, r];
    var sys0 := Synced(log);
    PollWindow(r);
    SyncedIsFresh(r);
    FreshIsReachable(place, BobsRequests(), sys0);
    NeverStuck(place, BobsRequests(), sys0, [], sys0, 30);
    CompletedCycleFromStart(place, BobsRequests(), sys0, [], sys0, Poll());
    LogStays(place, sys0, Poll());
  }

  lemma PollWindow(r: AuditRecord)
    requires r.time == 20
    ensures var log := [CREATED, r];
      FirstRecord(log, 10) == 0 && WindowEnd(log, 30) == 2 && Stretch(log, 0, 2) == log
  {
    var log := [CREATED, r];
    assert log[..1] == [CREATED] && [CREATED][..0] == [];
  }

  lemma SyncedIsFresh(r: AuditRecord)
    requires r.time == 20
    ensures Fresh(Synced([CREATED, r]))
  {
  }

  lemma FreshIsReachable(place: string -> nat, requests: Requests, sys0: System)
    requires Fresh(sys0)
    ensures SystemReachable(place, requests, sys0, [], sys0)
  {
  }

  lemma LogStays(place: string -> nat, sys: System, a: Action)
    requires a.Call?
    ensures SystemNext(place, sys, a).log == sys.log
  {
  }

  /** An expiry hides a role the user permanently holds. */
  lemma ExpiryHidesRole(place: string -> nat)
    ensures var sys0 := Synced([CREATED, EXPIRED]);
      var sys := SystemRun(place, sys0, [Poll()]);
      && Fresh(sys0) && PossibleRun(place, BobsRequests(), sys0, [Poll()])
      && Completes(place, BobsRequests(), sys0, Poll())
      && DEV in Truth(sys.log) && DEV !in sys.view
  {
    PollReplays(place, EXPIRED);
    OneAction(place, BobsRequests(), Synced([CREATED, EXPIRED]), Poll());
    ExpiredPair();
  }

  lemma ExpiredPair()
    ensures var log := [CREATED, EXPIRED];
      DEV in Truth(log) && DEV !in Apply(Truth(log), Out(Entries(Audits, BobsRequests(), log)))
  {
    var log := [CREATED, EXPIRED];
    ExpiredMarks();
    TruthByMarks(BobsRequests(), log, DEV);
    ViewByMarks(BobsRequests(), Truth(log), log, DEV);
  }

  lemma ExpiredMarks()
    ensures var ms := MarksOf(BobsRequests(), [CREATED, EXPIRED], DEV);
      Marks.Holds(false, ms) && forall before :: !Marks.Seen(before, ms)
  {
    assert BobsRequests()("r") == Request("bob", ["dev"]);
    var ms := MarksOf(BobsRequests(), [CREATED, EXPIRED], DEV);
    assert ms[1] == MarkOf(BobsRequests(), EXPIRED, DEV) == Marks.Expired;
    assert ms == [Marks.Assigned, Marks.Expired] && ms[..1] == [Marks.Assigned];
  }

  /** A user update that drops a role leaves it in the view, even of a consumer that synced after it. */
  lemma RemovalLeavesRole(place: string -> nat)
    ensures var sys0 := Synced([CREATED, REMOVED]);
      var sys := SystemRun(place, sys0, [Poll()]);
      && Fresh(sys0) && PossibleRun(place, BobsRequests(), sys0, [Poll()])
      && Completes(place, BobsRequests(), sys0, Poll())
      && DEV !in Truth(sys.log) && DEV in sys.view
  {
    PollReplays(place, REMOVED);
    OneAction(place, BobsRequests(), Synced([CREATED, REMOVED]), Poll());
    RemovedPair();
  }

  lemma RemovedPair()
    ensures var log := [CREATED, REMOVED];
      DEV !in Truth(log) && DEV in Apply(Truth(log), Out(Entries(Audits, BobsRequests(), log)))
  {
    var log := [CREATED, REMOVED];
    RemovedMarks();
    TruthByMarks(BobsRequests(), log, DEV);
    ViewByMarks(BobsRequests(), Truth(log), log, DEV);
  }

  lemma RemovedMarks()
    ensures var ms := MarksOf(BobsRequests(), [CREATED, REMOVED], DEV);
      !Marks.Holds(false, ms) && forall before :: Marks.Seen(before, ms)
  {
    var ms := MarksOf(BobsRequests(), [CREATED, REMOVED], DEV);
    assert ms == [Marks.Assigned, Marks.Removed] && ms[..1] == [Marks.Assigned];
  }

  lemma OneAction(place: string -> nat, requests: Requests, sys: System, a: Action)
    requires Possible(place, requests, sys, a)
    ensures PossibleRun(place, requests, sys, [a]) && SystemRun(place, sys, [a]) == SystemNext(place, sys, a)
  {
    assert [a][1..] == [];
  }
}

/** The incremental feed as a state machine: an append-only log, a server that answers with a page
    and an opaque next key, the stored cursor, and a consumer that folds what it receives.

    `place` is the server's own reading of its opaque keys: the log position a key resumes at. */
module Protocol {
  import opened Events
  import opened EventLog

  /** One cycle the consumer has seen through to its last page. */
  datatype Cycle = Cycle(start: Instant, lo: nat, end: nat, events: seq<Event>)

  datatype State = State(
    log: seq<Entry>,
    now: Instant,
    // the stored cursor: StartAt, LatestEventSeen (refilled from StartAt) and LastKey
    start: Instant,
    latest: Instant,
    key: string,
    // the consumer
    delivered: seq<Event>,
    view: View,
    // history: where the feed began, the end of what was ever delivered, the pages of the running
    // cycle, the finished cycles, and the last full sync with the lowest position replayed since
    origin: Instant,
    high: nat,
    pending: seq<Event>,
    cycles: seq<Cycle>,
    base: View,
    syncedAt: nat,
    low: nat)

  /** What becomes of a page: stored with its cursor; applied but the cursor lost before it was
      stored; or the response lost altogether. */
  datatype Fate = Stored | CursorLost | ResponseLost

  datatype Step =
    | Append(entry: Entry)
    | Page(to: Instant, next: string, fate: Fate)
    | FailedCall(to: Instant)
    | FullSync(truth: View)

  predicate Initial(s: State) {
    && s.start == s.latest == s.origin && s.key == "" && s.delivered == [] && s.pending == []
    && s.cycles == [] && s.high == 0 && s.low == 0 && s.view == s.base && s.syncedAt <= |s.log|
  }

  function Position(place: string -> nat, s: State): nat {
    if s.key == "" then First(s.log, s.start) else place(s.key)
  }

  /** Where a page that starts at `Position` ends: a last page takes all the window still holds. */
  function PageEnd(place: string -> nat, s: State, to: Instant, next: string): nat {
    if next != "" then place(next) else Max(Position(place, s), Upper(s.log, to))
  }

  /** The assumptions: the log grows in time order and converters are honest; the clock does not
      run backwards; a non-empty key makes progress inside the window. */
  predicate Enabled(place: string -> nat, s: State, step: Step) {
    match step
    case Append(e) => Honest(e) && (s.log == [] || s.log[|s.log| - 1].time <= e.time)
    case Page(to, next, _) =>
      && s.now <= to
      && (next != "" ==> Position(place, s) < place(next) <= Upper(s.log, to))
    case FailedCall(to) => s.now <= to
    case FullSync(_) => true
  }

  /** The page reaches the consumer; the cursor is not yet touched. */
  function Deliver(s: State, p: nat, q: nat): State {
    var page := Out(Seg(s.log, p, q));
    s.(delivered := s.delivered + page,
       view := Apply(s.view, page),
       high := if p < q then Max(s.high, q) else s.high)
  }

  /** prepareNextSync after a last page, otherwise LastKey moves on; the consumer stores the result. */
  function Store(s: State, p: nat, q: nat, next: string): State {
    var page := Seg(s.log, p, q);
    var latest := Latest(s.latest, page);
    var pending := s.pending + Out(page);
    if next != "" then
      s.(latest := latest, key := next, pending := pending)
    else
      s.(start := latest, latest := latest, key := "", pending := [],
         cycles := s.cycles + [Cycle(s.start, First(s.log, s.start), q, pending)],
         low := Min(s.low, First(s.log, latest)))
  }

  function Next(place: string -> nat, s: State, step: Step): State {
    match step
    case Append(e) => s.(log := s.log + [e])
    case FailedCall(to) => s.(now := to)
    case FullSync(truth) =>
      s.(view := truth, base := truth, syncedAt := |s.log|, low := Position(place, s))
    case Page(to, next, fate) =>
      var p, q := Position(place, s), PageEnd(place, s, to, next);
      var s := s.(now := to);
      match fate
      case ResponseLost => s
      case CursorLost => Deliver(s, p, q)
      case Stored => Store(Deliver(s, p, q), p, q, next)
  }

  predicate Legal(place: string -> nat, s: State, steps: seq<Step>)
    decreases steps
  {
    steps == [] || (Enabled(place, s, steps[0]) && Legal(place, Next(place, s, steps[0]), steps[1..]))
  }

  function Run(place: string -> nat, s: State, steps: seq<Step>): State
    decreases steps
  {
    if steps == [] then s else Run(place, Next(place, s, steps[0]), steps[1..])
  }

  // ---- what every step keeps ----

  /** The cursor: StartAt is the origin or the time of a delivered record, and a key points inside
      the cycle's window, behind everything it has covered. */
  ghost predicate CursorOk(place: string -> nat, s: State) {
    && Clean(s.log)
    && s.origin <= s.start
    && (s.key != "" ==> First(s.log, s.start) < place(s.key) <= s.high)
    && s.high <= Upper(s.log, s.now)
    && (s.start != s.origin ==> exists i :: 0 <= i < s.high && s.log[i].time == s.start)
  }

  /** LatestEventSeen is the maximum over the running cycle, whose pages are a stretch of the log. */
  ghost predicate CycleOk(place: string -> nat, s: State) {
    var covered := Seg(s.log, First(s.log, s.start), Position(place, s));
    s.latest == Latest(s.start, covered) && s.pending == Out(covered)
  }

  /** What was delivered is what the log up to `high` converts to, from the origin on. */
  ghost predicate DeliveredOk(s: State) {
    forall e :: e in s.delivered <==> e in Out(Seg(s.log, First(s.log, s.origin), s.high))
  }

  function Floor(s: State): nat {
    Max(s.low, First(s.log, s.origin))
  }

  /** Finishing the replay from the stored cursor would make the view one pass over the log. */
  ghost predicate ViewOk(place: string -> nat, s: State) {
    && s.low <= Position(place, s)
    && s.low <= s.syncedAt <= |s.log|
    && Apply(s.view, Out(Seg(s.log, Position(place, s), s.high))) == Apply(s.base, Out(Seg(s.log, Floor(s), s.high)))
  }

  ghost predicate WindowOk(log: seq<Entry>, c: Cycle) {
    && c.lo <= c.end <= |log|
    && c.events == Out(log[c.lo..c.end])
    && (forall k :: 0 <= k < c.lo ==> log[k].time < c.start)
    && (forall k :: c.lo <= k < c.end ==> log[k].time >= c.start)
  }

  /** Where the next cycle after `c` starts. */
  function HandOver(log: seq<Entry>, c: Cycle): Instant {
    Latest(c.start, Seg(log, c.lo, c.end))
  }

  /** Finished cycles hand over to one another, from the origin to the current StartAt. */
  ghost predicate Chain(log: seq<Entry>, cycles: seq<Cycle>, origin: Instant, start: Instant)
    decreases cycles
  {
    if cycles == [] then start == origin
    else
      var c := cycles[|cycles| - 1];
      WindowOk(log, c) && HandOver(log, c) == start && Chain(log, cycles[..|cycles| - 1], origin, c.start)
  }

  ghost predicate HistoryOk(s: State) {
    Chain(s.log, s.cycles, s.origin, s.start)
  }

  ghost predicate Inv(place: string -> nat, s: State) {
    CursorOk(place, s) && CycleOk(place, s) && DeliveredOk(s) && ViewOk(place, s) && HistoryOk(s)
  }
}

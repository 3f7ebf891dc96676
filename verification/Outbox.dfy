/**
 One outbox event as a state machine: the emitters that fetch, claim, publish and mark it,
 and the watchdog that returns orphans to the queue. A claim is a read followed by an
 unconditional write, and so are the failure mark and the watchdog's reset: nothing in the
 store ties the write to what was read. Workers interleave freely, may crash anywhere (a
 crashed worker makes no further call), and every call may fail or lose its answer.
 */
module Outbox {
  import opened Wrappers

  datatype Status = Pending | Processing | Delivered | Failed

  datatype Row = Row(status: Status, retryCount: nat, retryAt: int, claimedAt: int)

  /// The call that a worker makes next.
  datatype Worker =
    | Listed                        // emitter: read the status again
    | Admitted                      // emitter: write PROCESSING
    | Hydrating                     // emitter: read the claimed event
    | Publishing                    // emitter: send it to the bus
    | MarkingDelivered              // emitter: write DELIVERED
    | Recounting                    // emitter: read the retry count
    | MarkingFailed(count: nat)     // emitter: write FAILED with the next count
    | Orphaned                      // watchdog: write PENDING
    | Done

  /// The stored row, with what has happened to the event so far: calls to the bus, messages
  /// the bus took, failure marks and resets that were applied.
  datatype Event = Event(row: Row, attempts: nat, published: nat, failures: nat, resets: nat, workers: seq<Worker>)

  datatype Step =
    | Fetch(now: int)
    | Watch(cutoff: int)
    | Call(j: nat, fault: Fault, now: int)

  /// How the calls of a worker fare, and what its clock shows.
  datatype World = World(faults: nat -> Fault, clock: nat -> int) {
    function At(j: nat, n: nat): Step { Call(j, faults(n), clock(n)) }
  }

  const MAX_RETRIES: nat := 5
  const BASE_DELAY: nat := 30_000
  const MAX_DELAY: nat := 1_800_000

  function Pow2(n: nat): nat {
    if n == 0 then 1 else 2 * Pow2(n - 1)
  }

  /// The wait after the failure that follows `count` earlier ones.
  function Delay(count: nat): nat {
    if count + 1 >= MAX_RETRIES then 0
    else if Pow2(count) * BASE_DELAY < MAX_DELAY then Pow2(count) * BASE_DELAY
    else MAX_DELAY
  }

  /// The fetcher returns the event.
  predicate Due(row: Row, now: int) {
    || row.status.Pending?
    || (row.status.Failed? && row.retryCount < MAX_RETRIES && row.retryAt <= now)
  }

  predicate Exhausted(row: Row) {
    row.status.Failed? && row.retryCount >= MAX_RETRIES
  }

  function Move(e: Event, j: nat, w: Worker): Event
    requires j < |e.workers|
  {
    e.(workers := e.workers[j := w])
  }

  /// The effect of worker j's call on the event, and where the worker goes next.
  function CallStep(e: Event, j: nat, fault: Fault, now: int): Event
    requires j < |e.workers|
  {
    var applied := !fault.NotApplied?;
    var ok := fault.Fine?;
    match e.workers[j]
    case Listed =>
      Move(e, j, if ok && (e.row.status.Pending? || e.row.status.Failed?) then Admitted else Done)
    case Admitted =>
      var row := if applied then e.row.(status := Processing, claimedAt := now) else e.row;
      Move(e.(row := row), j, if ok then Hydrating else Done)
    case Hydrating =>
      Move(e, j, if ok then Publishing else Done)
    case Publishing =>
      Move(e.(attempts := e.attempts + 1, published := e.published + if applied then 1 else 0), j,
           if ok then MarkingDelivered else Recounting)
    case MarkingDelivered =>
      Move(if applied then e.(row := e.row.(status := Delivered)) else e, j, Done)
    case Recounting =>
      Move(e, j, if ok then MarkingFailed(e.row.retryCount) else Done)
    case MarkingFailed(count) =>
      var row := e.row.(status := Failed, retryCount := count + 1, retryAt := now + Delay(count));
      Move(if applied then e.(row := row, failures := e.failures + 1) else e, j, Done)
    case Orphaned =>
      Move(if applied then e.(row := e.row.(status := Pending), resets := e.resets + 1) else e, j, Done)
    case Done => e
  }

  function Apply(e: Event, step: Step): Event {
    match step
    case Fetch(now) =>
      if Due(e.row, now) then e.(workers := e.workers + [Listed]) else e
    case Watch(cutoff) =>
      if e.row.status.Processing? && e.row.claimedAt <= cutoff then e.(workers := e.workers + [Orphaned]) else e
    case Call(j, fault, now) =>
      if j < |e.workers| then CallStep(e, j, fault, now) else e
  }

  /// An event as the write path stores it.
  const NEW: Event := Event(Row(Pending, 0, 0, 0), 0, 0, 0, 0, [])

  function Run(steps: seq<Step>): Event {
    if steps == [] then NEW else Apply(Run(steps[..|steps| - 1]), steps[|steps| - 1])
  }

  /// The state after more steps.
  function RunFrom(e: Event, steps: seq<Step>): Event
    decreases |steps|
  {
    if steps == [] then e else RunFrom(Apply(e, steps[0]), steps[1..])
  }

  lemma Appended(steps: seq<Step>, step: Step)
    ensures Run(steps + [step]) == Apply(Run(steps), step)
  {
    assert (steps + [step])[..|steps|] == steps;
  }

  // ---------------------------------------------------------------------------
  // What holds of every interleaving
  // ---------------------------------------------------------------------------

  ghost predicate Basic(e: Event) {
    && (e.row.status.Delivered? ==> e.published > 0)
    && (forall j :: 0 <= j < |e.workers| && e.workers[j].MarkingDelivered? ==> e.published > 0)
    && e.row.retryCount <= e.failures
    && (forall j :: 0 <= j < |e.workers| && e.workers[j].MarkingFailed? ==> e.workers[j].count <= e.failures)
    && e.published <= e.attempts
  }

  lemma {:induction false} StepKeepsBasic(e: Event, step: Step)
    requires Basic(e)
    ensures Basic(Apply(e, step))
  {
    var e' := Apply(e, step);
    forall j | 0 <= j < |e'.workers|
      ensures e'.workers[j].MarkingDelivered? ==> e'.published > 0
      ensures e'.workers[j].MarkingFailed? ==> e'.workers[j].count <= e'.failures
    {
      if j < |e.workers| && e'.workers[j] == e.workers[j] {
        assert e.workers[j].MarkingDelivered? ==> e.published > 0;
        assert e.workers[j].MarkingFailed? ==> e.workers[j].count <= e.failures;
      }
    }
  }

  /// However workers interleave, crash or lose answers: an event marked DELIVERED has been
  /// taken by the bus, and its retry count never exceeds the failures recorded.
  lemma {:induction false} DeliveredWasPublished(steps: seq<Step>)
    ensures Basic(Run(steps))
    ensures Run(steps).row.status.Delivered? ==> 0 < Run(steps).published <= Run(steps).attempts
    ensures Run(steps).row.retryCount <= Run(steps).failures
  {
    if steps != [] {
      DeliveredWasPublished(steps[..|steps| - 1]);
      StepKeepsBasic(Run(steps[..|steps| - 1]), steps[|steps| - 1]);
    }
  }

  /// DELIVERED and the exhausted FAILED are meant to be the ends of an event.
  predicate Terminal(row: Row) {
    row.status.Delivered? || Exhausted(row)
  }

  predicate SameEnd(row: Row, after: Row) {
    if row.status.Delivered? then after.status.Delivered? else Exhausted(after)
  }

  /// A worker that can do a terminal event no harm any more. Delivered: it reads the status
  /// before it writes, or it writes DELIVERED. Exhausted: it records a failure that is the
  /// fifth or later, or is about to read the count for one. Claims do not look at the count,
  /// so that a listed worker is none of these.
  predicate Harmless(row: Row, w: Worker) {
    match w
    case Done => true
    case Listed => row.status.Delivered?
    case MarkingDelivered => row.status.Delivered?
    case Recounting => !row.status.Delivered?
    case MarkingFailed(count) => !row.status.Delivered? && count + 1 >= MAX_RETRIES
    case _ => false
  }

  ghost predicate Quiet(e: Event, callers: set<nat>) {
    forall j :: j in callers && j < |e.workers| ==> Harmless(e.row, e.workers[j])
  }

  /// Of the workers that e has, only the given ones make calls.
  ghost predicate OnlyBy(e: Event, more: seq<Step>, callers: set<nat>) {
    forall n :: 0 <= n < |more| && more[n].Call? && more[n].j < |e.workers| ==> more[n].j in callers
  }

  lemma {:induction false} QuietStays(e: Event, step: Step, callers: set<nat>)
    requires Terminal(e.row) && Quiet(e, callers) && OnlyBy(e, [step], callers)
    ensures var e' := Apply(e, step);
            SameEnd(e.row, e'.row) && Quiet(e', callers) && |e'.workers| == |e.workers|
  {
    var e' := Apply(e, step);
    assert [step][0] == step;
    if step.Call? && step.j < |e.workers| {
      assert Harmless(e.row, e.workers[step.j]);
    }
    forall j | j in callers && j < |e'.workers| ensures Harmless(e'.row, e'.workers[j]) {
      assert Harmless(e.row, e.workers[j]);
    }
  }

  lemma {:induction false} QuietKeepsTheEnd(e: Event, more: seq<Step>, callers: set<nat>)
    requires Terminal(e.row) && Quiet(e, callers) && OnlyBy(e, more, callers)
    ensures SameEnd(e.row, RunFrom(e, more).row)
    decreases |more|
  {
    if more != [] {
      hide Quiet, Harmless;
      assert OnlyBy(e, [more[0]], callers);
      QuietStays(e, more[0], callers);
      QuietKeepsTheEnd(Apply(e, more[0]), more[1..], callers);
    }
  }

  ghost predicate CallsOf(more: seq<Step>, j: nat) {
    forall n :: 0 <= n < |more| ==> more[n].Call? && more[n].j == j
  }

  /// Calls of one worker that take it to its next harmful write.
  lemma {:induction false} WorkerCanLeave(e: Event, j: nat) returns (more: seq<Step>)
    requires Terminal(e.row) && j < |e.workers| && !Harmless(e.row, e.workers[j])
    ensures !SameEnd(e.row, RunFrom(e, more).row) && CallsOf(more, j)
    decreases match e.workers[j] case Hydrating => 3 case Publishing => 2 case Recounting => 1 case Listed => 1 case _ => 0
  {
    var call := Call(j, if e.workers[j].Publishing? && e.row.status.Delivered? then NotApplied else Fine, 0);
    var next := Apply(e, call);
    if e.workers[j].Hydrating? || e.workers[j].Publishing? || e.workers[j].Recounting? || e.workers[j].Listed? {
      assert next.workers[j] == match e.workers[j]
                                case Listed => Admitted
                                case Hydrating => Publishing
                                case Publishing => if e.row.status.Delivered? then Recounting else MarkingDelivered
                                case _ => MarkingFailed(e.row.retryCount);
      more := WorkerCanLeave(next, j);
    } else {
      more := [];
    }
    assert ([call] + more)[1..] == more;
    more := [call] + more;
  }

  /// If only some workers make calls from now on, a terminal event stays as it is, whatever
  /// happens, exactly when none of them can do harm.
  lemma TerminalStaysTerminal(e: Event, callers: set<nat>)
    requires Terminal(e.row)
    ensures (forall more :: OnlyBy(e, more, callers) ==> SameEnd(e.row, RunFrom(e, more).row)) <==> Quiet(e, callers)
  {
    hide Harmless, Apply;
    if Quiet(e, callers) {
      forall more | OnlyBy(e, more, callers) ensures SameEnd(e.row, RunFrom(e, more).row) {
        QuietKeepsTheEnd(e, more, callers);
      }
    } else {
      var j :| j in callers && j < |e.workers| && !Harmless(e.row, e.workers[j]);
      var more := WorkerCanLeave(e, j);
      assert OnlyBy(e, more, callers);
    }
  }

  /// A delivered event stays delivered, whatever happens next, exactly when no worker is left
  /// that read the row before it was delivered and has a blind write ahead of it.
  lemma DeliveredIsFinalExactly(e: Event)
    requires e.row.status.Delivered?
    ensures (forall more :: RunFrom(e, more).row.status.Delivered?) <==>
            forall j :: 0 <= j < |e.workers| ==> e.workers[j].Listed? || e.workers[j].MarkingDelivered? || e.workers[j].Done?
  {
    hide RunFrom;
    EndIsFinal(e);
  }

  /// An exhausted event stays exhausted, whatever happens next, exactly when every worker is
  /// done or about to record one more failure.
  lemma ExhaustedIsFinalExactly(e: Event)
    requires Exhausted(e.row)
    ensures (forall more :: Exhausted(RunFrom(e, more).row)) <==>
            forall j :: 0 <= j < |e.workers| ==>
              || e.workers[j].Done? || e.workers[j].Recounting?
              || (e.workers[j].MarkingFailed? && e.workers[j].count + 1 >= MAX_RETRIES)
  {
    hide RunFrom;
    EndIsFinal(e);
  }

  function UpTo(n: nat): (all: set<nat>)
    ensures forall j: nat :: j in all <==> j < n
  {
    if n == 0 then {} else UpTo(n - 1) + {n - 1}
  }

  lemma EndIsFinal(e: Event)
    requires Terminal(e.row)
    ensures (forall more :: SameEnd(e.row, RunFrom(e, more).row)) <==>
            forall j :: 0 <= j < |e.workers| ==> Harmless(e.row, e.workers[j])
  {
    hide Harmless, RunFrom;
    var all := UpTo(|e.workers|);
    TerminalStaysTerminal(e, all);
    assert forall more :: OnlyBy(e, more, all);
  }

  // ---------------------------------------------------------------------------
  // One emitter at a time
  // ---------------------------------------------------------------------------

  /// The emitter that fetched the event last.
  function LastEmitter(steps: seq<Step>): nat {
    if steps == [] then 0
    else
      var before, step := steps[..|steps| - 1], steps[|steps| - 1];
      if step.Fetch? && Due(Run(before).row, step.now) then |Run(before).workers| else LastEmitter(before)
  }

  predicate CallsAsEmitter(e: Event, step: Step) {
    step.Call? && step.j < |e.workers| && !e.workers[step.j].Orphaned?
  }

  /// An emitter makes no call once another one has fetched the event. Watchdogs call at will.
  ghost predicate OneEmitter(steps: seq<Step>) {
    forall n :: 0 <= n < |steps| && CallsAsEmitter(Run(steps[..n]), steps[n]) ==>
                  steps[n].j == LastEmitter(steps[..n])
  }

  function WorkerAt(e: Event, j: nat): Worker {
    if j < |e.workers| then e.workers[j] else Done
  }

  /// Attempts that can still be made without a reset when no emitter is at work.
  function Left(row: Row): nat {
    match row.status
    case Pending => if row.retryCount < MAX_RETRIES then MAX_RETRIES - row.retryCount else 1
    case Failed => if row.retryCount < MAX_RETRIES then MAX_RETRIES - row.retryCount else 0
    case _ => if row.retryCount + 1 < MAX_RETRIES then MAX_RETRIES - 1 - row.retryCount else 0
  }

  /// The same with an emitter at work: once it has the event claimed it sends it come what may.
  function LeftWith(row: Row, emitter: Worker): nat {
    match emitter
    case Listed => if row.status.Failed? then Left(row.(status := Pending)) else Left(row)
    case Admitted => Left(row.(status := Pending))
    case Hydrating => Left(row) + 1
    case Publishing => Left(row) + 1
    case _ => Left(row)
  }

  /// What every run with one emitter at a time keeps.
  ghost predicate Accounted(e: Event, j: nat) {
    && e.attempts + LeftWith(e.row, WorkerAt(e, j)) <= MAX_RETRIES + e.resets
    && e.row.retryCount == e.failures <= e.attempts
    && (WorkerAt(e, j).Recounting? ==> e.failures < e.attempts)
    && (WorkerAt(e, j).MarkingFailed? ==> WorkerAt(e, j).count == e.failures < e.attempts)
  }

  lemma {:induction false} CallKeepsAccount(e: Event, j: nat, fault: Fault, now: int)
    requires Accounted(e, j) && j < |e.workers|
    ensures Accounted(Apply(e, Call(j, fault, now)), j)
  {
  }

  lemma {:induction false} ResetKeepsAccount(e: Event, j: nat, w: nat, fault: Fault, now: int)
    requires Accounted(e, j) && w < |e.workers| && e.workers[w].Orphaned?
    ensures Accounted(Apply(e, Call(w, fault, now)), j)
  {
  }

  lemma {:induction false} FetchKeepsAccount(e: Event, j: nat, now: int)
    requires Accounted(e, j) && Due(e.row, now)
    ensures Accounted(Apply(e, Fetch(now)), |e.workers|)
  {
  }

  lemma {:induction false} RunIsAccounted(steps: seq<Step>)
    requires OneEmitter(steps)
    ensures Accounted(Run(steps), LastEmitter(steps))
  {
    if steps != [] {
      var before, step := steps[..|steps| - 1], steps[|steps| - 1];
      assert forall n :: 0 <= n < |before| ==> before[..n] == steps[..n];
      assert OneEmitter(before);
      RunIsAccounted(before);
      var e, j := Run(before), LastEmitter(before);
      match step
      case Fetch(now) =>
        if Due(e.row, now) {
          FetchKeepsAccount(e, j, now);
        }
      case Watch(_) =>
      case Call(w, fault, now) =>
        if w < |e.workers| {
          if e.workers[w].Orphaned? {
            ResetKeepsAccount(e, j, w, fault, now);
          } else {
            CallKeepsAccount(e, j, fault, now);
          }
        }
    }
  }

  /// Bounded retries: with one emitter at a time, and watchdogs that reset whenever they like,
  /// even under an emitter that is merely slow, an event is sent at most five times plus once
  /// per reset, and its retry count is exactly the number of failures recorded.
  lemma {:induction false} AttemptsAreBounded(steps: seq<Step>)
    requires OneEmitter(steps)
    ensures Run(steps).attempts <= 5 + Run(steps).resets
    ensures Run(steps).row.retryCount == Run(steps).failures <= Run(steps).attempts
  {
    RunIsAccounted(steps);
  }

  // ---------------------------------------------------------------------------
  // One worker at a time
  // ---------------------------------------------------------------------------

  /// Only the worker that started last makes calls: every earlier one is done or dead.
  ghost predicate OneAtATime(steps: seq<Step>) {
    forall n :: 0 <= n < |steps| && steps[n].Call? ==> steps[n].j == |Run(steps[..n]).workers| - 1
  }

  function Last(e: Event): Worker {
    if e.workers == [] then Done else e.workers[|e.workers| - 1]
  }

  /// Attempts that neither a failure mark nor a reset has accounted for.
  function InFlight(e: Event): nat {
    if e.row.status.Delivered? then 1
    else if e.row.status.Processing? && !Last(e).Hydrating? && !Last(e).Publishing? then 1
    else 0
  }

  ghost predicate Orderly(e: Event) {
    && e.row.retryCount == e.failures <= MAX_RETRIES
    && (!e.row.status.Failed? ==> e.row.retryCount < MAX_RETRIES)
    && e.attempts <= e.row.retryCount + e.resets + InFlight(e)
    && match Last(e)
       case Listed => (e.row.status.Pending? || e.row.status.Failed?) && e.row.retryCount < MAX_RETRIES
       case Admitted => (e.row.status.Pending? || e.row.status.Failed?) && e.row.retryCount < MAX_RETRIES
       case MarkingFailed(count) => e.row.status.Processing? && count == e.row.retryCount
       case Done => true
       case _ => e.row.status.Processing?
  }

  lemma {:induction false} StepKeepsOrder(e: Event, step: Step)
    requires Orderly(e) && (step.Call? ==> step.j == |e.workers| - 1)
    ensures Orderly(Apply(e, step))
    ensures e.row.status.Delivered? ==> Apply(e, step).row == e.row
    ensures Exhausted(e.row) ==> Apply(e, step).row == e.row
  {
  }

  lemma {:induction false} RunIsOrderly(steps: seq<Step>)
    requires OneAtATime(steps)
    ensures Orderly(Run(steps))
  {
    if steps != [] {
      var before := steps[..|steps| - 1];
      assert forall n :: 0 <= n < |before| ==> before[..n] == steps[..n];
      assert OneAtATime(before);
      RunIsOrderly(before);
      StepKeepsOrder(Run(before), steps[|steps| - 1]);
    }
  }

  /// If watchdogs wait for the emitter too, the retry count never passes five.
  lemma {:induction false} RetriesAreBounded(steps: seq<Step>)
    requires OneAtATime(steps)
    ensures Run(steps).row.retryCount == Run(steps).failures <= 5
  {
    RunIsOrderly(steps);
  }

  /// One at a time, the row of a terminal event is not written again.
  lemma {:induction false} TerminalRowStays(steps: seq<Step>, more: seq<Step>)
    requires OneAtATime(steps + more)
    requires Run(steps).row.status.Delivered? || Exhausted(Run(steps).row)
    ensures Run(steps + more).row == Run(steps).row
    decreases |more|
  {
    hide Apply, Orderly;
    if more == [] {
      assert steps + more == steps;
    } else {
      var all, init := steps + more, steps + more[..|more| - 1];
      assert all[..|all| - 1] == init;
      assert forall n :: 0 <= n < |init| ==> init[..n] == all[..n];
      assert OneAtATime(init);
      TerminalRowStays(steps, more[..|more| - 1]);
      RunIsOrderly(init);
      StepKeepsOrder(Run(init), all[|all| - 1]);
    }
  }

  // ---------------------------------------------------------------------------
  // Progress
  // ---------------------------------------------------------------------------

  /// The six calls of an emitter for one fetched event, from the n-th call of its world on.
  function Visit(e: Event, j: nat, world: World, n: nat): Event {
    var e2 := Apply(Apply(Apply(e, world.At(j, n)), world.At(j, n + 1)), world.At(j, n + 2));
    Apply(Apply(Apply(e2, world.At(j, n + 3)), world.At(j, n + 4)), world.At(j, n + 5))
  }

  /// One emit pass over the event: no store call fails, the bus fares as given.
  function Pass(e: Event, bus: Fault, now: int): Event {
    var world := World((n: nat) => if n == 3 then bus else Fine, (n: nat) => now);
    Visit(Apply(e, Fetch(now)), |e.workers|, world, 0)
  }

  /// A pass over a due event delivers it, or records one failure and its waiting time.
  lemma PassDecides(e: Event, bus: Fault, now: int)
    requires Due(e.row, now)
    ensures Pass(e, bus, now).row ==
              if bus.Fine? then Row(Delivered, e.row.retryCount, e.row.retryAt, now)
              else Row(Failed, e.row.retryCount + 1, now + Delay(e.row.retryCount), now)
  {
    var j := |e.workers|;
    var e1 := Apply(e, Fetch(now));
    assert e1.workers[j] == Listed;
    var e2 := Apply(e1, Call(j, Fine, now));
    assert e2.workers[j] == Admitted;
    var e3 := Apply(e2, Call(j, Fine, now));
    assert e3.workers[j] == Hydrating;
    var e4 := Apply(e3, Call(j, Fine, now));
    assert e4.workers[j] == Publishing;
    var e5 := Apply(e4, Call(j, bus, now));
    assert e5.workers[j] == if bus.Fine? then MarkingDelivered else Recounting;
    var e6 := Apply(e5, Call(j, Fine, now));
    assert e6.workers[j] == if bus.Fine? then Done else MarkingFailed(e.row.retryCount);
  }

  /// A fetch takes up pending events, and failed ones with retries left that have waited;
  /// every other event it leaves exactly as it was.
  lemma FetchedExactlyWhenDue(e: Event, now: int)
    ensures Apply(e, Fetch(now)) != e <==>
            || e.row.status.Pending?
            || (e.row.status.Failed? && e.row.retryCount < 5 && e.row.retryAt <= now)
  {
    assert |e.workers + [Listed]| != |e.workers|;
  }

  /// The backoff restrains: after a failure that leaves retries, a fetch takes the event up
  /// again exactly when half a minute has passed, twice that after the second failure, and so
  /// on; after the fifth failure it never does.
  lemma WaitIsKept(e: Event, bus: Fault, now: int, later: int)
    requires Due(e.row, now) && !bus.Fine?
    ensures var failed := Pass(e, bus, now);
            Apply(failed, Fetch(later)) != failed <==>
            e.row.retryCount < 4 && later >= now + [30_000, 60_000, 120_000, 240_000][e.row.retryCount]
  {
    hide Pass;
    PassDecides(e, bus, now);
    FetchedExactlyWhenDue(Pass(e, bus, now), later);
    assert Pow2(1) == 2 && Pow2(2) == 4 && Pow2(3) == 8;
  }

  /// Passes at times when the event is due, with any answers of the bus.
  function Passes(e: Event, buses: seq<Fault>, nows: seq<int>): Event
    requires |buses| == |nows|
  {
    if buses == [] then e
    else
      var before := Passes(e, buses[..|buses| - 1], nows[..|nows| - 1]);
      if Due(before.row, nows[|nows| - 1]) then Pass(before, buses[|buses| - 1], nows[|nows| - 1]) else before
  }

  ghost predicate NeverEarly(e: Event, buses: seq<Fault>, nows: seq<int>)
    requires |buses| == |nows|
  {
    forall n :: 0 <= n < |nows| ==> Passes(e, buses[..n], nows[..n]).row.retryAt <= nows[n]
  }

  /// A pass that comes when it may: the row afterwards is never pending.
  lemma PassMovesOn(e: Event, bus: Fault, now: int)
    requires !e.row.status.Processing? && e.row.retryAt <= now
    ensures var row := (if Due(e.row, now) then Pass(e, bus, now) else e).row;
            && (row.status.Delivered? || row.status.Failed?)
            && (Terminal(row) || row.retryCount == e.row.retryCount + 1)
            && (Terminal(e.row) ==> row == e.row)
  {
    hide Pass;
    if Due(e.row, now) {
      PassDecides(e, bus, now);
    }
  }

  lemma {:induction false} PassesDecide(e: Event, buses: seq<Fault>, nows: seq<int>)
    requires !e.row.status.Processing? && |buses| == |nows| && NeverEarly(e, buses, nows)
    ensures var row := Passes(e, buses, nows).row;
            && !row.status.Processing? && (buses != [] ==> !row.status.Pending?)
            && (row.status.Delivered? || Exhausted(row) || row.retryCount >= e.row.retryCount + |buses|)
  {
    hide Pass, Due;
    if buses != [] {
      var n := |buses| - 1;
      assert forall m :: 0 <= m < n ==> buses[..n][..m] == buses[..m] && nows[..n][..m] == nows[..m];
      assert NeverEarly(e, buses[..n], nows[..n]);
      PassesDecide(e, buses[..n], nows[..n]);
      PassMovesOn(Passes(e, buses[..n], nows[..n]), buses[n], nows[n]);
    }
  }

  /// The watchdog's reset of an event left in PROCESSING.
  function Recovered(e: Event, now: int): Event {
    if e.row.status.Processing? then RunFrom(e, [Watch(now), Call(|e.workers|, Fine, now)]) else e
  }

  lemma RecoveredRow(e: Event, now: int)
    requires e.row.claimedAt <= now
    ensures Recovered(e, now).row == if e.row.status.Processing? then e.row.(status := Pending) else e.row
  {
    if e.row.status.Processing? {
      var reset := Call(|e.workers|, Fine, now);
      var e1 := Apply(e, Watch(now));
      assert e1.workers[|e.workers|] == Orphaned;
      assert [Watch(now), reset][1..] == [reset];
      assert RunFrom(e1, [reset]) == RunFrom(Apply(e1, reset), [reset][1..]);
    }
  }

  /// Without further crashes every event settles, from whatever state crashes and overlapping
  /// workers have left it in: once the watchdog has put back what was being processed, five
  /// passes that come when due end in DELIVERED or in the exhausted FAILED.
  lemma EventsSettle(e: Event, now: int, buses: seq<Fault>, nows: seq<int>)
    requires e.row.claimedAt <= now
    requires |buses| == |nows| >= MAX_RETRIES && NeverEarly(Recovered(e, now), buses, nows)
    ensures var row := Passes(Recovered(e, now), buses, nows).row;
            row.status.Delivered? || Exhausted(row)
  {
    RecoveredRow(e, now);
    PassesDecide(Recovered(e, now), buses, nows);
  }

  /// No event is ever lost: from every state, an event that is neither delivered nor exhausted
  /// can still be delivered, if need be after a reset.
  lemma UndeliveredCanBeDelivered(e: Event)
    requires !e.row.status.Delivered? && !Exhausted(e.row)
    ensures var now := if e.row.retryAt < e.row.claimedAt then e.row.claimedAt else e.row.retryAt;
            Pass(Recovered(e, now), Fine, now).row.status.Delivered?
  {
    var now := if e.row.retryAt < e.row.claimedAt then e.row.claimedAt else e.row.retryAt;
    RecoveredRow(e, now);
    PassDecides(Recovered(e, now), Fine, now);
  }

  /// The waits between attempts double from half a minute, and with five attempts the cap
  /// of half an hour is never reached.
  lemma BackoffDoubles(count: nat)
    ensures count + 1 >= MAX_RETRIES <==> Delay(count) == 0
    ensures count + 2 < MAX_RETRIES ==> Delay(count + 1) == 2 * Delay(count)
    ensures Delay(0) == 30_000 && Delay(count) < MAX_DELAY
  {
    assert Pow2(1) == 2 && Pow2(2) == 4 && Pow2(3) == 8;
  }

  // ---------------------------------------------------------------------------
  // Why one worker at a time
  // ---------------------------------------------------------------------------

  /// Two emitters read a pending event before either writes: the second claims it after it
  /// was delivered, and sends it again.
  lemma OverlappingClaimsLeaveDelivered()
    ensures var a, b := Call(0, Fine, 0), Call(1, Fine, 0);
            var delivered := RunFrom(NEW, [Fetch(0), Fetch(0), a, b, a, a, a, a]);
            var after := RunFrom(delivered, [b, b, b]);
            && delivered.row.status.Delivered? && delivered.published == 1
            && after.row.status.Processing? && after.published == 2
  {
    var a, b := Call(0, Fine, 0), Call(1, Fine, 0);
    var e2 := Apply(Apply(NEW, Fetch(0)), Fetch(0));
    assert e2.workers == [Listed, Listed];
    var e4 := Apply(Apply(e2, a), b);
    assert e4.workers == [Admitted, Admitted];
    var e6 := Apply(Apply(e4, a), a);
    assert e6.workers == [Publishing, Admitted];
    var e8 := Apply(Apply(e6, a), a);
    assert e8.workers == [Done, Admitted] && e8.row.status.Delivered?;
    Unroll(NEW, Fetch(0), Fetch(0), a, b, [a, a, a, a]);
    Unroll(e4, a, a, a, a, []);
    assert [Fetch(0), Fetch(0), a, b, a, a, a, a] == [Fetch(0), Fetch(0), a, b] + [a, a, a, a];
    assert [a, a, a, a] == [a, a, a, a] + [];
    assert RunFrom(e8, []) == e8;
    var e10 := Apply(Apply(e8, b), b);
    assert e10.workers == [Done, Publishing];
    assert [b, b, b][1..] == [b, b] && [b, b][1..] == [b] && [b][1..] == [];
    assert RunFrom(e8, [b, b, b]) == RunFrom(Apply(e8, b), [b, b]);
    assert RunFrom(Apply(e8, b), [b, b]) == RunFrom(e10, [b]);
    assert RunFrom(e10, [b]) == RunFrom(Apply(e10, b), []);
  }

  lemma Unroll(e: Event, a: Step, b: Step, c: Step, d: Step, rest: seq<Step>)
    ensures RunFrom(e, [a, b, c, d] + rest) == RunFrom(Apply(Apply(Apply(Apply(e, a), b), c), d), rest)
  {
    var s0 := [a, b, c, d] + rest;
    var s1, s2, s3 := [b, c, d] + rest, [c, d] + rest, [d] + rest;
    assert s0[1..] == s1 && s1[1..] == s2 && s2[1..] == s3 && s3[1..] == rest;
    var e1 := Apply(e, a);
    assert RunFrom(e, s0) == RunFrom(e1, s1);
    var e2 := Apply(e1, b);
    assert RunFrom(e1, s1) == RunFrom(e2, s2);
    var e3 := Apply(e2, c);
    assert RunFrom(e2, s2) == RunFrom(e3, s3);
  }

  /// A claim looks at the status and not at the retry count: an emitter that fetched an
  /// event before another one exhausted it still sends it, a sixth time.
  lemma StaleFetchExceedsRetries(e: Event, now: int)
    requires e.row.status.Failed? && e.row.retryCount == MAX_RETRIES - 1 && e.row.retryAt <= now
    ensures var j := |e.workers|;
            var world := World((n: nat) => if n == 3 then NotApplied else Fine, (n: nat) => now);
            var both := Apply(Apply(e, Fetch(now)), Fetch(now));
            var first := Visit(both, j + 1, world, 0);
            var second := Visit(first, j, world, 0);
            && Exhausted(first.row) && first.row.retryCount == MAX_RETRIES
            && second.row.retryCount == MAX_RETRIES + 1 && second.attempts == e.attempts + 2
  {
    var j := |e.workers|;
    var world := World((n: nat) => if n == 3 then NotApplied else Fine, (n: nat) => now);
    var both := Apply(Apply(e, Fetch(now)), Fetch(now));
    FailingVisit(both, j + 1, world, now);
    var first := Visit(both, j + 1, world, 0);
    FailingVisit(first, j, world, now);
  }

  lemma FailingVisit(e: Event, j: nat, world: World, now: int)
    requires j < |e.workers| && e.workers[j].Listed? && e.row.status.Failed?
    requires forall n: nat :: world.At(j, n) == Call(j, if n == 3 then NotApplied else Fine, now)
    ensures var v := Visit(e, j, world, 0);
            && v.row.status.Failed? && v.row.retryCount == e.row.retryCount + 1 && v.attempts == e.attempts + 1
            && v.workers == e.workers[j := Done]
  {
    var fine, fails := Call(j, Fine, now), Call(j, NotApplied, now);
    assert world.At(j, 0) == world.At(j, 1) == world.At(j, 2) == fine;
    assert world.At(j, 3) == fails && world.At(j, 4) == world.At(j, 5) == fine;
    var e1 := Apply(e, fine);
    assert e1.workers[j] == Admitted;
    var e3 := Apply(Apply(e1, fine), fine);
    assert e3.workers[j] == Publishing;
    var e4 := Apply(e3, fails);
    assert e4.workers[j] == Recounting;
    var e5 := Apply(e4, fine);
    assert e5.workers[j] == MarkingFailed(e.row.retryCount);
  }
}

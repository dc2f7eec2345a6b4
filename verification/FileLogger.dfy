/**
 file-logger: the bounded queue between request threads and the writer thread, its bounded drain at shutdown, and the
 body buffers. A write that fails is reported and skipped by the program; here every write counts as made.
 */
module FileLogger {
  import opened Arithmetic

  const LOG_QUEUE_CAPACITY: nat := 1_024
  const SHUTDOWN_DRAIN_BUDGET: nat := 256

  type Line = seq<char>

  // ----- the writer thread on its own -----

  /**
   The writer's loop. `lines` is everything the channel ever delivers, `closing[i]` what the flag reads after line i
   has been written.
   */
  method RunWriter(lines: seq<Line>, closing: seq<bool>) returns (file: seq<Line>, abandoned: nat)
    requires |closing| == |lines|
    ensures abandoned <= |lines| && file == lines[..|lines| - abandoned]
    ensures forall c :: 0 <= c < |lines| && closing[c] && (forall i :: 0 <= i < c ==> !closing[i]) ==>
              |file| == Min(|lines|, c + SHUTDOWN_DRAIN_BUDGET)
    ensures (forall i :: 0 <= i < |lines| ==> !closing[i]) ==> abandoned == 0
  {
    file, abandoned := [], 0;
    var closingSeen, drainedAfterClose := false, 0;
    ghost var first := 0;  // the line after which the flag was first seen
    while |file| < |lines|
      invariant abandoned == 0 && |file| <= |lines| && file == lines[..|file|]
      invariant 0 <= first <= |file|
      invariant closingSeen ==> first < |file| && closing[first] && drainedAfterClose == |file| - first
      invariant !closingSeen ==> first == |file| && drainedAfterClose == 0
      invariant forall i :: 0 <= i < first ==> !closing[i]
      invariant drainedAfterClose < SHUTDOWN_DRAIN_BUDGET
    {
      file := file + [lines[|file|]];
      if !closingSeen {
        closingSeen := closing[|file| - 1];
        first := if closingSeen then |file| - 1 else |file|;
      }
      if closingSeen {
        drainedAfterClose := drainedAfterClose + 1;
        if drainedAfterClose >= SHUTDOWN_DRAIN_BUDGET {
          abandoned := |lines| - |file|;
          break;
        }
      }
    }
  }

  // ----- the writer thread beside its producers and its owner's drop -----

  datatype Worker = Receiving | Writing(line: Line) | Loading | Finished

  /** `writtenAtClose` remembers how many lines had been written when the closing flag was set. */
  datatype Sys = Sys(queue: seq<Line>, accepted: seq<Line>, written: seq<Line>, dropped: nat, closing: bool,
                     connected: bool, worker: Worker, closingSeen: bool, drained: nat,
                     abandoned: seq<Line>, writtenAtClose: nat)

  datatype Event =
    | WriteLine(line: Line)  // a request thread offers a line; never once the owner is being dropped
    | SetClosing             // drop: store the flag
    | Disconnect             // drop: release the sender
    | WorkerStep

  predicate Enabled(sys: Sys, e: Event) {
    match e
    case WriteLine(_) => !sys.closing
    case SetClosing => !sys.closing
    case Disconnect => sys.closing && sys.connected
    case WorkerStep => !sys.worker.Finished? && (sys.worker.Receiving? ==> sys.queue != [] || !sys.connected)
  }

  function Next(sys: Sys, e: Event): Sys
    requires Enabled(sys, e)
  {
    match e
    case WriteLine(line) =>
      if sys.worker.Finished? then sys  // disconnected: lost without being counted
      else if |sys.queue| < LOG_QUEUE_CAPACITY
      then sys.(queue := sys.queue + [line], accepted := sys.accepted + [line])
      else sys.(dropped := sys.dropped + 1)
    case SetClosing => sys.(closing := true, writtenAtClose := |sys.written|)
    case Disconnect => sys.(connected := false)
    case WorkerStep =>
      match sys.worker
      case Receiving =>
        if sys.queue == [] then sys.(worker := Finished)
        else sys.(worker := Writing(sys.queue[0]), queue := sys.queue[1..])
      case Writing(line) => sys.(worker := Loading, written := sys.written + [line])
      case Loading =>
        var seen := sys.closingSeen || sys.closing;
        if !seen then sys.(worker := Receiving)
        else if sys.drained + 1 >= SHUTDOWN_DRAIN_BUDGET
        then sys.(worker := Finished, closingSeen := true, drained := sys.drained + 1,
                  abandoned := sys.queue, queue := [])
        else sys.(worker := Receiving, closingSeen := true, drained := sys.drained + 1)
  }

  function Run(events: seq<Event>): Sys {
    if events == [] then Sys([], [], [], 0, false, true, Receiving, false, 0, [], 0)
    else
      var sys, e := Run(events[..|events| - 1]), events[|events| - 1];
      if Enabled(sys, e) then Next(sys, e) else sys
  }

  /** The line taken out but not yet written. */
  function InHand(sys: Sys): seq<Line> {
    if sys.worker.Writing? then [sys.worker.line] else []
  }

  function Everything(written: seq<Line>, inHand: seq<Line>, queue: seq<Line>, abandoned: seq<Line>): seq<Line> {
    written + inHand + queue + abandoned
  }

  /** The ways in which one step moves a line on. */
  lemma {:induction false} Moves(w: seq<Line>, line: Line, q: seq<Line>, a: seq<Line>)
    ensures Everything(w, [], [line] + q, a) == Everything(w, [line], q, a) == Everything(w + [line], [], q, a)
    ensures Everything(w, [], q, []) == Everything(w, [], [], q) == w + q
    ensures Everything(w, [], q + [line], []) == Everything(w, [], q, []) + [line]
    ensures Everything(w, a, q + [line], []) == Everything(w, a, q, []) + [line]
  {
  }

  ghost predicate Conserves(sys: Sys) {
    && sys.accepted == Everything(sys.written, InHand(sys), sys.queue, sys.abandoned)
    && |sys.queue| <= LOG_QUEUE_CAPACITY
    && (sys.abandoned != [] ==> sys.worker.Finished? && sys.drained == SHUTDOWN_DRAIN_BUDGET)
    && (sys.worker.Finished? ==> sys.queue == [] && sys.closing)
  }

  /** Between setting the flag and finishing, each write is paid for out of the budget. */
  ghost predicate WithinBudget(sys: Sys) {
    && (!sys.connected ==> sys.closing)
    && (sys.closingSeen ==> sys.closing)
    && (!sys.closingSeen ==> sys.drained == 0)
    && (!sys.worker.Finished? ==> sys.drained < SHUTDOWN_DRAIN_BUDGET)
    && sys.drained <= SHUTDOWN_DRAIN_BUDGET
    && (sys.closing ==> sys.writtenAtClose <= |sys.written|)
    && (sys.closing ==>
          var unpaid := if sys.worker.Loading? then 1 else 0;
          |sys.written| <= sys.writtenAtClose + sys.drained + unpaid <= |sys.written| + 1)
  }

  lemma {:induction false} KeepsConserves(sys: Sys, e: Event)
    requires Conserves(sys) && WithinBudget(sys) && Enabled(sys, e)
    ensures Conserves(Next(sys, e))
  {
    var sys' := Next(sys, e);
    if e.WriteLine? {
      Moves(sys.written, e.line, sys.queue, InHand(sys));
    } else if e.WorkerStep? && sys.worker.Receiving? && sys.queue != [] {
      assert sys.queue == [sys.queue[0]] + sys.queue[1..];
      Moves(sys.written, sys.queue[0], sys.queue[1..], sys.abandoned);
    } else if e.WorkerStep? && sys.worker.Writing? {
      Moves(sys.written, sys.worker.line, sys.queue, sys.abandoned);
    } else if e.WorkerStep? && sys.worker.Loading? {
      Moves(sys.written, "", sys.queue, sys.abandoned);
    }
  }

  lemma {:induction false} KeepsWithinBudget(sys: Sys, e: Event)
    requires Conserves(sys) && WithinBudget(sys) && Enabled(sys, e)
    ensures WithinBudget(Next(sys, e))
  {
  }

  lemma {:induction false} RunKeepsInvariant(events: seq<Event>)
    ensures Conserves(Run(events)) && WithinBudget(Run(events))
  {
    if events != [] {
      var sys, e := Run(events[..|events| - 1]), events[|events| - 1];
      RunKeepsInvariant(events[..|events| - 1]);
      if Enabled(sys, e) {
        KeepsConserves(sys, e);
        KeepsWithinBudget(sys, e);
      }
    }
  }

  /** Main result: the file is an in-order prefix of the accepted lines, at all times. */
  lemma {:induction false} WritesAPrefix(events: seq<Event>)
    ensures Run(events).written <= Run(events).accepted
  {
    RunKeepsInvariant(events);
    var sys := Run(events);
    assert sys.accepted == sys.written + (InHand(sys) + sys.queue + sys.abandoned);
  }

  /** The lines offered before the owner was dropped. */
  function Offered(events: seq<Event>): seq<Line> {
    if events == [] then []
    else
      var init, e := events[..|events| - 1], events[|events| - 1];
      Offered(init) + if e.WriteLine? && SetClosing !in init then [e.line] else []
  }

  /** Lines are offered until the owner is dropped; the sender goes after that. */
  lemma {:induction false} ClosingIffDropped(events: seq<Event>)
    ensures Run(events).closing <==> SetClosing in events
  {
    if events != [] {
      var init := events[..|events| - 1];
      ClosingIffDropped(init);
      assert events == init + [events[|events| - 1]];
    }
  }

  /** Event `i`, if it offers a line, finds the queue full. */
  predicate FindsFull(events: seq<Event>, i: int)
    requires 0 <= i < |events|
  {
    events[i].WriteLine? && SetClosing !in events[..i] && |Run(events[..i]).queue| == LOG_QUEUE_CAPACITY
  }

  /** How many lines find it full. */
  function Overflows(events: seq<Event>): nat {
    if events == [] then 0
    else Overflows(events[..|events| - 1]) + if FindsFull(events, |events| - 1) then 1 else 0
  }

  /**
   Main result on acceptance: every offered line is accepted or counted as dropped, and those dropped are exactly the
   ones that find the queue full; as long as none does, what is accepted is what was offered, in order.
   */
  lemma {:induction false} DroppedIffFull(events: seq<Event>)
    ensures |Run(events).accepted| + Run(events).dropped == |Offered(events)|
    ensures Run(events).dropped == Overflows(events)
    ensures Overflows(events) == 0 ==> Run(events).accepted == Offered(events)
  {
    if events != [] {
      DroppedIffFull(events[..|events| - 1]);
      RunKeepsInvariant(events[..|events| - 1]);
      ClosingIffDropped(events[..|events| - 1]);
    }
  }

  lemma {:induction false} OverflowsIff(events: seq<Event>)
    ensures Overflows(events) == 0 <==> forall i :: 0 <= i < |events| ==> !FindsFull(events, i)
  {
    if events != [] {
      var init := events[..|events| - 1];
      OverflowsIff(init);
      forall i | 0 <= i < |init| ensures FindsFull(init, i) == FindsFull(events, i) {
        assert init[..i] == events[..i];
      }
    }
  }

  /** The turns the worker takes to write what it has, while it is not told to close. */
  function TurnsBehind(sys: Sys): nat {
    3 * |sys.queue| + match sys.worker
                      case Writing(_) => 2
                      case Loading => 1
                      case _ => 0
  }

  /** A writer that is open stays so, and each of its turns brings it nearer. */
  lemma {:induction false} TurnCatchesUp(sys: Sys)
    requires Conserves(sys) && WithinBudget(sys) && !sys.closing
    ensures TurnsBehind(sys) == 0 <==> !Enabled(sys, WorkerStep)
    ensures TurnsBehind(sys) == 0 ==> sys.written == sys.accepted && sys.worker.Receiving?
    ensures Enabled(sys, WorkerStep) ==>
              TurnsBehind(Next(sys, WorkerStep)) == TurnsBehind(sys) - 1
              && Next(sys, WorkerStep).accepted == sys.accepted
  {
  }

  /** Main result on an open writer: left alone it writes all it has accepted, in order, and waits for more. */
  lemma {:induction false} WriterCatchesUp(events: seq<Event>, turns: seq<Event>)
    requires SetClosing !in events && forall i :: 0 <= i < |turns| ==> turns[i].WorkerStep?
    ensures Run(events + turns).accepted == Run(events).accepted && SetClosing !in events + turns
    ensures TurnsBehind(Run(events + turns)) == TurnsBehind(Run(events)) - Min(TurnsBehind(Run(events)), |turns|)
    ensures |turns| >= TurnsBehind(Run(events)) ==>
              Run(events + turns).written == Run(events).accepted && Run(events + turns).worker.Receiving?
  {
    if turns == [] {
      assert events + turns == events;
    } else {
      var init := turns[..|turns| - 1];
      assert (events + turns)[..|events + turns| - 1] == events + init;
      WriterCatchesUp(events, init);
      RunKeepsInvariant(events + init);
      ClosingIffDropped(events + init);
      TurnCatchesUp(Run(events + init));
    }
    RunKeepsInvariant(events + turns);
    ClosingIffDropped(events + turns);
    TurnCatchesUp(Run(events + turns));
  }

  /** When the writer ends, what it wrote and what it gave up are all that was accepted. */
  lemma {:induction false} WrittenAndAbandonedAreAll(events: seq<Event>)
    requires Run(events).worker.Finished?
    ensures Run(events).accepted == Run(events).written + Run(events).abandoned
    ensures Run(events).abandoned != [] ==>
              |Run(events).written| >= Run(events).writtenAtClose + SHUTDOWN_DRAIN_BUDGET - 1
  {
    RunKeepsInvariant(events);
  }

  /** However slow the disk, dropping the owner waits for at most the budget's worth of writes. */
  lemma {:induction false} DropWaitsForAtMostTheBudget(events: seq<Event>)
    requires Run(events).closing
    ensures Run(events).writtenAtClose <= |Run(events).written| <= Run(events).writtenAtClose + SHUTDOWN_DRAIN_BUDGET
  {
    RunKeepsInvariant(events);
  }

  /** An upper bound on the worker's remaining steps once the sender is gone. */
  function StepsLeft(sys: Sys): int {
    match sys.worker
    case Receiving => 3 * (SHUTDOWN_DRAIN_BUDGET - sys.drained)
    case Writing(_) => 3 * (SHUTDOWN_DRAIN_BUDGET - sys.drained) - 1
    case Loading => 3 * (SHUTDOWN_DRAIN_BUDGET - sys.drained) - 2
    case Finished => 0
  }

  /** Then joining the worker cannot hang: it can always step, and each step brings the end nearer. */
  lemma {:induction false} JoinReturns(events: seq<Event>, e: Event)
    requires !Run(events).connected
    ensures StepsLeft(Run(events)) >= 0
    ensures !Run(events).worker.Finished? ==> Enabled(Run(events), WorkerStep)
    ensures Enabled(Run(events), e) ==> StepsLeft(Next(Run(events), e)) < StepsLeft(Run(events))
  {
    RunKeepsInvariant(events);
  }

  function WorkerSteps(events: seq<Event>): nat {
    if events == [] then 0
    else WorkerSteps(events[..|events| - 1]) + if events[|events| - 1].WorkerStep? then 1 else 0
  }

  /** Each turn the worker gets, once the sender is gone, uses up one of the steps left. */
  lemma {:induction false} StepsRunOut(events: seq<Event>, more: seq<Event>)
    requires !Run(events).connected
    ensures !Run(events + more).connected
    ensures Run(events + more).worker.Finished?
            || WorkerSteps(more) + StepsLeft(Run(events + more)) <= StepsLeft(Run(events))
  {
    if more == [] {
      assert events + more == events;
    } else {
      var init, e := more[..|more| - 1], more[|more| - 1];
      assert (events + more)[..|events + more| - 1] == events + init;
      StepsRunOut(events, init);
      JoinReturns(events + init, e);
    }
  }

  /**
   Main result on dropping the owner: from any state, once it has set the flag and released the sender, a bounded number
   of turns ends the worker, whatever else is tried meanwhile.
   */
  lemma {:induction false} DropReturns(events: seq<Event>, more: seq<Event>)
    requires WorkerSteps(more) >= 3 * SHUTDOWN_DRAIN_BUDGET
    ensures Run(events + [SetClosing, Disconnect] + more).worker.Finished?
  {
    var drop := events + [SetClosing, Disconnect];
    RunKeepsInvariant(events);
    assert drop[..|drop| - 1] == events + [SetClosing];
    assert (events + [SetClosing])[..|events|] == events;
    RunKeepsInvariant(drop);
    RunKeepsInvariant(drop + more);
    StepsRunOut(drop, more);
    assert StepsLeft(Run(drop)) <= 3 * SHUTDOWN_DRAIN_BUDGET;
  }

  // ----- body buffers -----

  datatype Body = Body(bytes: seq<int>, exceeded: bool)

  function Append(body: Body, chunk: seq<int>, max: nat): Body {
    if body.exceeded then body
    else
      var remaining := if |body.bytes| < max then max - |body.bytes| else 0;
      var accepted := Min(remaining, |chunk|);
      Body(body.bytes + chunk[..accepted], accepted < |chunk|)
  }

  class BodyBuffer {
    var bytes: seq<int>
    var exceeded: bool

    function View(): Body
      reads this
    {
      Body(bytes, exceeded)
    }

    constructor ()
      ensures View() == Body([], false)
    {
      bytes, exceeded := [], false;
    }

    method AppendChunk(chunk: seq<int>, max: nat)
      modifies this
      ensures View() == Append(old(View()), chunk, max)
    {
      if exceeded {
        return;
      }
      var capacity := max;
      var remaining := if |bytes| <= capacity then capacity - |bytes| else 0;
      var accepted := Min(remaining, |chunk|);
      bytes := bytes + chunk[..accepted];
      exceeded := accepted < |chunk|;
    }
  }

  function AppendAll(chunks: seq<seq<int>>, max: nat): Body {
    if chunks == [] then Body([], false)
    else Append(AppendAll(chunks[..|chunks| - 1], max), chunks[|chunks| - 1], max)
  }

  function Concat(chunks: seq<seq<int>>): seq<int> {
    if chunks == [] then [] else Concat(chunks[..|chunks| - 1]) + chunks[|chunks| - 1]
  }

  /** However the body is cut into chunks, the buffer holds its first `max` bytes and says whether there were more. */
  lemma {:induction false} BufferHoldsTheFirstBytes(chunks: seq<seq<int>>, max: nat)
    ensures var whole := Concat(chunks);
            AppendAll(chunks, max) == Body(whole[..Min(max, |whole|)], |whole| > max)
  {
    if chunks != [] {
      BufferHoldsTheFirstBytes(chunks[..|chunks| - 1], max);
      var before, chunk := Concat(chunks[..|chunks| - 1]), chunks[|chunks| - 1];
      if |before| <= max {
        assert before[..|before|] == before;
        assert before + chunk[..Min(max - |before|, |chunk|)] == (before + chunk)[..Min(max, |before| + |chunk|)];
      } else {
        assert before[..max] == (before + chunk)[..max];
      }
    }
  }

  /** Two ways of cutting one body leave the same buffer. */
  lemma {:induction false} ChunkingDoesNotShow(a: seq<seq<int>>, b: seq<seq<int>>, max: nat)
    requires Concat(a) == Concat(b)
    ensures AppendAll(a, max) == AppendAll(b, max)
  {
    BufferHoldsTheFirstBytes(a, max);
    BufferHoldsTheFirstBytes(b, max);
  }
}

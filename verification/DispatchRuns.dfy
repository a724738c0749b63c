/**
 What callers can rely on over runs of the dispatcher: the result they get is that of their own function, queues are
 served in order, and a queued task can always be reached by the loop that runs.
 */
module DispatchRuns {
  import opened Dispatcher
  import opened Options

  lemma LinkedAt(states: seq<State>, steps: seq<Step>, i: nat)
    requires Linked(states, steps) && i < |steps|
    ensures Enabled(states[i], steps[i]) && states[i + 1] == Next(states[i], steps[i])
  {
    hide Enabled, Next;
  }

  // ---------- the result of a call is that of its own function

  /** The step that ends the function of `c` with outcome `b`. */
  ghost predicate Ends(states: seq<State>, steps: seq<Step>, k: nat, c: Call) {
    k < |steps| && k < |states| && steps[k].Finish? && states[k].executing == Some(c)
  }

  lemma ResultStep(s: State, step: Step, c: Call)
    requires Inv(s) && Enabled(s, step) && c in s.callers
    ensures c in Next(s, step).callers
    ensures Next(s, step).callers[c].result
         == if step.Finish? && s.executing == Some(c) then Some(step.b) else s.callers[c].result
    ensures step.Finish? && s.executing == Some(c) ==> s.callers[c].result == None
  {
    assert CallerOk(s, c);
    if step.Take? || step.Reject? {
      var h := DequeueFrame(s, step);
    }
  }

  /** The result in the first `j` steps: the outcome of the only step that ended the function, or none. */
  ghost predicate Traced(states: seq<State>, steps: seq<Step>, j: nat, c: Call, result: Option<Behaviour>, k: nat) {
    if result == None then forall m :: 0 <= m < j ==> !Ends(states, steps, m, c)
    else k < j && Ends(states, steps, k, c) && result == Some(steps[k].b)
         && forall m :: 0 <= m < j && m != k ==> !Ends(states, steps, m, c)
  }

  lemma TraceStep(states: seq<State>, steps: seq<Step>, j: nat, c: Call, result: Option<Behaviour>, k: nat)
    requires Traced(states, steps, j, c, result, k) && j < |steps| && j < |states|
    ensures !Ends(states, steps, j, c) ==> Traced(states, steps, j + 1, c, result, k)
    ensures Ends(states, steps, j, c) && result == None ==> Traced(states, steps, j + 1, c, Some(steps[j].b), j)
  {
    hide Ends;
    EndsFinish(states, steps, j, c);
  }

  lemma EndsFinish(states: seq<State>, steps: seq<Step>, j: nat, c: Call)
    requires j < |steps|
    ensures Ends(states, steps, j, c) ==> steps[j].Finish?
  {
  }

  /**
   A call has a result exactly if its function was run to its end, by one step of the run; the result is the outcome
   of that step.
   */
  lemma {:induction false} ResultIsOutcome(states: seq<State>, steps: seq<Step>, j: nat, c: Call) returns (k: nat)
    requires IsRun(states, steps) && j < |states| && c in states[j].callers
    ensures Traced(states, steps, j, c, states[j].callers[c].result, k)
  {
    k := 0;
    if j > 0 {
      hide Next, Enabled, Inv, CoverOk, MissedOk, PriorityInv, Linked, Traced;
      var s, step := states[j - 1], steps[j - 1];
      RunLength(states, steps);
      RunInv(states, steps, j - 1);
      LinkedAt(states, steps, j - 1);
      if c in s.callers {
        k := ResultIsOutcome(states, steps, j - 1, c);
        ResultStep(s, step, c);
        TraceStep(states, steps, j - 1, c, s.callers[c].result, k);
        if step.Finish? && s.executing == Some(c) { k := j - 1; }
      } else {
        NotYetCalled(states, steps, j - 1, c);
        NewCallHasNoResult(s, step, c);
        TraceStep(states, steps, j - 1, c, None, 0);
      }
    } else {
      NoCallsYet(states, steps);
    }
  }

  lemma RunLength(states: seq<State>, steps: seq<Step>)
    requires IsRun(states, steps)
    ensures |states| == |steps| + 1
  {
  }

  lemma NoCallsYet(states: seq<State>, steps: seq<Step>)
    requires IsRun(states, steps)
    ensures states[0].callers == map[]
  {
  }

  lemma NewCallHasNoResult(s: State, step: Step, c: Call)
    requires Inv(s) && Enabled(s, step) && c !in s.callers && c in Next(s, step).callers
    ensures Next(s, step).callers[c].result == None && s.executing != Some(c)
  {
    if step.Take? || step.Reject? {
      var h := DequeueFrame(s, step);
    }
  }

  lemma {:induction false} NotYetCalled(states: seq<State>, steps: seq<Step>, j: nat, c: Call)
    requires IsRun(states, steps) && j < |states| && c !in states[j].callers
    ensures Traced(states, steps, j, c, None, 0)
  {
    if j > 0 {
      hide Next, Enabled, Inv, CoverOk, MissedOk, PriorityInv;
      var s, step := states[j - 1], steps[j - 1];
      RunInv(states, steps, j - 1);
      assert Enabled(s, step) && states[j] == Next(s, step);
      CallsStay(s, step, c);
      NotYetCalled(states, steps, j - 1, c);
    }
  }

  lemma CallsStay(s: State, step: Step, c: Call)
    requires Inv(s) && Enabled(s, step) && c !in Next(s, step).callers
    ensures c !in s.callers && s.executing != Some(c)
  {
  }

  // ---------- nobody is turned away before the context is cancelled

  ghost predicate CancelOk(k: Control) {
    && (k.signalled ==> k.cancelled)
    && (k.loop.Woken? && k.loop.shutdown ==> k.cancelled)
    && (k.loop.Draining? || k.loop.Uninstall? || k.loop.Closing? || k.loop.Stopped? ==> k.cancelled)
  }

  ghost predicate TurnedAway(caller: Caller) {
    caller.done == Some(ErrShutdown) || caller.pc == Returned(ErrShutdown)
  }

  ghost predicate AnswersOk(s: State) {
    CancelOk(s.control) && forall c :: c in s.callers && TurnedAway(s.callers[c]) ==> s.control.cancelled
  }

  lemma CancelMove(k: Control, noFast: bool, noTask: bool, move: Move)
    requires CancelOk(k) && MoveEnabled(k, noFast, noTask, move)
    ensures CancelOk(Moved(k, noFast, noTask, move)) && Moved(k, noFast, noTask, move).cancelled == k.cancelled
  {
  }

  lemma AnswersStep(s: State, step: Step)
    requires Inv(s) && AnswersOk(s) && Enabled(s, step)
    ensures AnswersOk(Next(s, step))
  {
    match step
    case ByCaller(c, _) => assert CallerOk(s, c);
    case Take(_) => var h := DequeueFrame(s, step); assert CallerOk(s, h);
    case Reject(_) => var h := DequeueFrame(s, step); assert CallerOk(s, h);
    case Moves(move) => CancelMove(s.control, s.fastQ == [], s.taskQ == [], move); hide Moved, MoveEnabled;
    case _ =>
  }

  /** In every run, a call gets ErrShutdown only after the context was cancelled. */
  lemma {:induction false} NoEarlyShutdown(states: seq<State>, steps: seq<Step>, i: nat)
    requires IsRun(states, steps) && i < |states|
    ensures AnswersOk(states[i])
    ensures forall c :: c in states[i].callers && states[i].callers[c].pc == Returned(ErrShutdown) ==>
              states[i].control.cancelled
  {
    if i > 0 {
      hide Next, Enabled, Inv, CoverOk, MissedOk, PriorityInv, CancelOk;
      assert Enabled(states[i - 1], steps[i - 1]) && states[i] == Next(states[i - 1], steps[i - 1]);
      NoEarlyShutdown(states, steps, i - 1);
      RunInv(states, steps, i - 1);
      AnswersStep(states[i - 1], steps[i - 1]);
    }
  }

  // ---------- queues are first in, first out

  /** What a step does to a queue: a call enters at the end, and the call at the head leaves. */
  lemma FifoStep(s: State, step: Step, fast: bool)
    requires Inv(s) && Enabled(s, step)
    ensures var s', q, q' := Next(s, step), Queue(s, fast), Queue(Next(s, step), fast);
            if step.ByCaller? && step.act.Send? && s.callers[step.c].fast == fast then q' == q + [step.c]
            else if step.Take? && step.fast == fast
            then s'.executing.Some? && q == [s'.executing.value] + q'
                 && s'.callers[s'.executing.value].starts == s.callers[s'.executing.value].starts + 1
            else if step.Reject? && step.fast == fast
            then q != [] && q == [q[0]] + q' && s'.callers[q[0]].done == Some(ErrShutdown)
            else q' == q
  {
    if step.Take? || step.Reject? {
      var h := DequeueFrame(s, step);
    }
  }

  /** The call that a step adds to a queue, and the one that it takes away. */
  ghost function Entering(s: State, step: Step, fast: bool): seq<Call>
    requires Enabled(s, step)
  {
    if step.ByCaller? && step.act.Send? && s.callers[step.c].fast == fast then [step.c] else []
  }

  ghost function Leaving(s: State, step: Step, s': State, fast: bool): seq<Call> {
    if step.Take? && step.fast == fast && s'.executing.Some? then [s'.executing.value]
    else if step.Reject? && step.fast == fast && Queue(s, fast) != [] then [Queue(s, fast)[0]] else []
  }

  lemma FifoJoin(entered: seq<Call>, left: seq<Call>, s: State, step: Step, s': State, fast: bool)
    requires Inv(s) && Enabled(s, step) && s' == Next(s, step) && entered == left + Queue(s, fast)
    ensures entered + Entering(s, step, fast) == left + Leaving(s, step, s', fast) + Queue(s', fast)
  {
    FifoStep(s, step, fast);
    hide Next, Enabled, Inv, Queue;
    var q, q' := Queue(s, fast), Queue(s', fast);
    if q != [] { JoinQueue(entered, left, q, q[0], q'); }
    if step.ByCaller? { JoinQueue(entered, left, q, step.c, q'); }
  }

  /** The calls that entered a queue in the first `i` steps, in order. */
  ghost function Entered(states: seq<State>, steps: seq<Step>, i: nat, fast: bool): seq<Call>
    requires Linked(states, steps) && i < |states|
  {
    if i == 0 then [] else
    Entered(states, steps, i - 1, fast) + Entering(states[i - 1], steps[i - 1], fast)
  }

  /** The calls that left it: those whose function was started, and those that were rejected. */
  ghost function Left(states: seq<State>, steps: seq<Step>, i: nat, fast: bool): seq<Call>
    requires Linked(states, steps) && i < |states|
  {
    if i == 0 then [] else
    Left(states, steps, i - 1, fast) + Leaving(states[i - 1], steps[i - 1], states[i], fast)
  }

  lemma JoinQueue(entered: seq<Call>, left: seq<Call>, q: seq<Call>, c: Call, q': seq<Call>)
    requires entered == left + q
    ensures q' == q + [c] ==> entered + [c] == left + q'
    ensures q == [c] + q' ==> entered == (left + [c]) + q'
  {
    if q' == q + [c] { assert entered + [c] == left + (q + [c]); }
    if q == [c] + q' { assert left + ([c] + q') == (left + [c]) + q'; }
  }

  /** In every run each queue is first in, first out: calls are started, or rejected, in the order they were sent. */
  lemma {:induction false} QueuesAreFifo(states: seq<State>, steps: seq<Step>, i: nat, fast: bool)
    requires IsRun(states, steps) && i < |states|
    ensures Entered(states, steps, i, fast) == Left(states, steps, i, fast) + Queue(states[i], fast)
  {
    hide Next, Enabled, Inv, CoverOk, MissedOk, PriorityInv, Entering, Leaving;
    if i > 0 {
      hide Queue;
      QueuesAreFifo(states, steps, i - 1, fast);
      RunInv(states, steps, i - 1);
      LinkedAt(states, steps, i - 1);
      FifoJoin(Entered(states, steps, i - 1, fast), Left(states, steps, i - 1, fast), states[i - 1], steps[i - 1],
               states[i], fast);
    }
  }

  // ---------- calls

  /** A call waits for nothing but room in its queue, or its result; a stopped dispatcher holds up no call. */
  lemma CallBlockedIff(s: State, c: Call)
    requires c in s.callers
    ensures var caller, room := s.callers[c], if s.callers[c].fast then 64 - |s.fastQ| else 256 - |s.taskQ|;
            (forall act :: !Enabled(s, ByCaller(c, act))) <==>
              || (caller.pc == Sending && room <= 0 && !s.control.stopped)
              || (caller.pc == Waiting && caller.done == None && !s.control.stopped)
              || caller.pc.Returned?
  {
    var caller := s.callers[c];
    match caller.pc
    case Sending =>
      assert Enabled(s, ByCaller(c, Send)) <==> |Queue(s, caller.fast)| < Capacity(caller.fast);
      assert Enabled(s, ByCaller(c, SendStopped)) <==> s.control.stopped;
    case ReadingWakeup => assert Enabled(s, ByCaller(c, ReadWakeup));
    case WritingWakeup => assert Enabled(s, ByCaller(c, WriteWakeup));
    case Waiting =>
      assert Enabled(s, ByCaller(c, Receive)) <==> caller.done.Some?;
      assert Enabled(s, ByCaller(c, SeeStopped)) <==> s.control.stopped;
    case Rechecking => assert Enabled(s, ByCaller(c, Recheck));
    case Returned(_) =>
  }

  lemma KindStep(s: State, step: Step, c: Call)
    requires Inv(s) && Enabled(s, step) && c in Next(s, step).callers
    ensures Next(s, step).callers[c].fast == if c in s.callers then s.callers[c].fast else step.Arrive? && step.fast
    ensures c !in s.callers ==> step.Arrive? && step.c == c
  {
    if step.Take? || step.Reject? {
      var h := DequeueFrame(s, step);
    }
  }

  /** A call is fast exactly if it was made as a fast one. */
  lemma {:induction false} KindIsKept(states: seq<State>, steps: seq<Step>, i: nat, c: Call) returns (k: nat)
    requires IsRun(states, steps) && i < |states| && c in states[i].callers
    ensures k < i && steps[k] == Arrive(c, states[i].callers[c].fast)
  {
    hide Next, Enabled, Inv, CoverOk, MissedOk, PriorityInv;
    k := 0;
    if i > 0 {
      RunInv(states, steps, i - 1);
      LinkedAt(states, steps, i - 1);
      KindStep(states[i - 1], steps[i - 1], c);
      if c in states[i - 1].callers {
        k := KindIsKept(states, steps, i - 1, c);
      } else {
        k := i - 1;
      }
    }
  }

  // ---------- a queued task is within reach

  /** The loop has begun, and is not asked to stop. */
  predicate Serving(k: Control) {
    && !k.cancelled && !k.signalled
    && (k.loop.RunTop? || k.loop.RunFast? || k.loop.RunSelect? || k.loop.Install? || k.loop.EpollWait?
        || k.loop.SweepFast? || k.loop.SweepTask? || (k.loop.Woken? && !k.loop.shutdown))
  }

  /** Moves until the loop may take a task, if there is one. */
  function Distance(loop: Loop, noFast: bool, noTask: bool): nat {
    match loop
    case RunTop => if noFast then 2 else 1
    case RunFast(drained) => if !noFast then 0 else if drained then 3 else 1
    case Install => 5
    case EpollWait => 4
    case Woken(task, heartbeat, _) => if task || heartbeat then 3 else 5
    case SweepFast(_, again) => if !noFast then 0 else if again then 1 else 2
    case SweepTask(_) => if !noTask then 0 else 5
    case _ => 0
  }

  /** The consumer is one move closer to a task, or it may take one. */
  lemma Approach(k: Control, noFast: bool, noTask: bool) returns (move: Move)
    requires Serving(k) && !(noFast && noTask) && Distance(k.loop, noFast, noTask) > 0
    ensures MoveEnabled(k, noFast, noTask, move)
    ensures var k' := Moved(k, noFast, noTask, move);
            Serving(k') && Distance(k'.loop, noFast, noTask) < Distance(k.loop, noFast, noTask)
  {
    move := match k.loop
      case RunTop => TopContinue
      case RunFast(_) => FastEmpty
      case Install => InstallWakeup
      case EpollWait => Wake(false, true, false)
      case Woken(_, _, _) => Classify
      case SweepFast(_, _) => FastEmpty
      case _ => TaskEmpty;
  }

  lemma Arrived(s: State) returns (fast: bool)
    requires Serving(s.control) && s.executing == None && (s.fastQ != [] || s.taskQ != [])
    requires Distance(s.control.loop, s.fastQ == [], s.taskQ == []) == 0
    ensures Enabled(s, Take(fast))
  {
    fast := s.fastQ != [] && MayTake(s.control.loop, true);
  }

  /**
   As long as the loop serves, no queued task is out of reach: moves of the consumer alone, and at most five of them,
   lead to the start of a queued function.
   */
  lemma {:induction false} TasksAreReached(s: State) returns (moves: seq<Move>, states: seq<State>, fast: bool)
    requires Serving(s.control) && s.executing == None && (s.fastQ != [] || s.taskQ != [])
    ensures |states| == |moves| + 1 && states[0] == s && |moves| <= 5
    ensures forall i {:trigger moves[i]} :: 0 <= i < |moves| ==>
              Enabled(states[i], Moves(moves[i])) && states[i + 1] == Next(states[i], Moves(moves[i]))
    ensures Enabled(states[|moves|], Take(fast))
    ensures states[|moves|].fastQ == s.fastQ && states[|moves|].taskQ == s.taskQ
  {
    moves, states, fast := Path(s, Distance(s.control.loop, s.fastQ == [], s.taskQ == []));
  }

  lemma {:induction false} Path(s: State, d: nat) returns (moves: seq<Move>, states: seq<State>, fast: bool)
    requires Serving(s.control) && s.executing == None && (s.fastQ != [] || s.taskQ != [])
    requires Distance(s.control.loop, s.fastQ == [], s.taskQ == []) <= d
    ensures |states| == |moves| + 1 && states[0] == s && |moves| <= d
    ensures forall i {:trigger moves[i]} :: 0 <= i < |moves| ==>
              Enabled(states[i], Moves(moves[i])) && states[i + 1] == Next(states[i], Moves(moves[i]))
    ensures Enabled(states[|moves|], Take(fast))
    ensures states[|moves|].fastQ == s.fastQ && states[|moves|].taskQ == s.taskQ
    decreases d
  {
    if Distance(s.control.loop, s.fastQ == [], s.taskQ == []) == 0 {
      moves, states := [], [s];
      fast := Arrived(s);
    } else {
      hide Serving, Distance, MoveEnabled, Moved, MayTake;
      var move := Approach(s.control, s.fastQ == [], s.taskQ == []);
      var s' := Next(s, Moves(move));
      var rest, later;
      rest, later, fast := Path(s', d - 1);
      moves, states := [move] + rest, [s] + later;
    }
  }
}

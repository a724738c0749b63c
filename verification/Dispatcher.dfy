/**
 The Golden Thread dispatcher as a transition system. Callers of RunOnMain and RunOnMainFast and one
 consumer loop (Run or RunEpoll) take turns; each step is one atomic action of the program.
 */
module Dispatcher {
  import opened Channels
  import opened Options
  import opened Sequences

  /** One call of RunOnMain or RunOnMainFast, with its own function and done channel. */
  type Call = nat

  datatype Behaviour = Returns(err: Option<string>) | Panics(value: string)

  datatype Answer = FromFn(err: Option<string>) | FromPanic(value: string) | ErrShutdown

  /** Running the function with panic recovery. */
  function SafeExec(b: Behaviour): Answer {
    match b
    case Returns(err) => FromFn(err)
    case Panics(value) => FromPanic(value)
  }

  /** Where a call stands: at its first select, in wakeup, at its second select, or back. */
  datatype Pc = Sending | ReadingWakeup | WritingWakeup | Waiting | Rechecking | Returned(answer: Answer)

  /**
   `done` is the buffered result channel. The rest is history: how often and with what result the
   function ran, whether wakeup found no function installed, and, for fast calls, how many normal
   tasks had started when the call was queued and how many overtook it.
   */
  datatype Caller = Caller(fast: bool, pc: Pc, done: Option<Answer>,
                           starts: nat, result: Option<Behaviour>, missed: bool,
                           queuedAt: nat, overtaken: nat)

  /** Which of the two queue sweeps of an epoll round is in progress. */
  datatype Sweep = TaskSweep(heartbeatToo: bool) | HeartbeatSweep

  /** The program counter of the consumer, between the tasks it executes. */
  datatype Loop =
    | NotStarted
    | RunTop
    | RunFast(drained: bool)
    | RunSelect
    | Install
    | EpollWait
    | Woken(task: bool, heartbeat: bool, shutdown: bool)
    | SweepFast(sweep: Sweep, again: bool)
    | SweepTask(sweep: Sweep)
    | Draining(epoll: bool)
    | Uninstall
    | Closing
    | Stopped

  /** The consumer's control state and the flags and counters it shares with everyone else. */
  datatype Control = Control(loop: Loop, ran: bool, cancelled: bool, signalled: bool, stopped: bool,
                             installed: bool, eventfd: nat, sweeps: nat)

  /** `executing` is the call whose function the consumer is running, if any. */
  datatype State = State(callers: map<Call, Caller>, fastQ: seq<Call>, taskQ: seq<Call>,
                         executing: Option<Call>, normalStarts: nat, control: Control)

  const INIT := State(map[], [], [], None, 0, Control(NotStarted, false, false, false, false, false, 0, 0))

  /** Atomic actions of one call. */
  datatype CallerAct =
    | Send          // the first select: the function enters its channel
    | SendStopped   // the first select: the dispatcher has stopped
    | ReadWakeup    // wakeup reads the installed function, if any
    | WriteWakeup   // the function adds to the eventfd
    | Receive       // the second select: a result is there
    | SeeStopped    // the second select: the dispatcher has stopped
    | Recheck       // the inner select after a stop

  /** Consumer actions that touch neither queues nor callers. */
  datatype Move =
    | BeginRun(epoll: bool)
    | TopCancelled
    | TopContinue
    | FastEmpty
    | TaskEmpty
    | Tick
    | SelectCancelled
    | InstallWakeup
    | Wake(task: bool, heartbeat: bool, shutdown: bool)
    | Classify
    | DrainEmpty
    | UninstallWakeup
    | Close

  datatype Step =
    | Arrive(c: Call, fast: bool)
    | ByCaller(c: Call, act: CallerAct)
    | Take(fast: bool)        // the consumer takes the oldest task of a queue and starts its function
    | Reject(fast: bool)      // the consumer, shutting down, rejects the oldest task of a queue
    | Finish(b: Behaviour)    // the running function ends
    | Moves(move: Move)
    | Cancel                  // the context is cancelled
    | SignalShutdown          // the watcher of the context writes the shutdown eventfd

  function Queue(s: State, fast: bool): seq<Call> {
    if fast then s.fastQ else s.taskQ
  }

  function Capacity(fast: bool): nat {
    if fast then FAST_CAPACITY else TASK_CAPACITY
  }

  predicate ActEnabled(s: State, caller: Caller, act: CallerAct) {
    match act
    case Send => caller.pc == Sending && |Queue(s, caller.fast)| < Capacity(caller.fast)
    case SendStopped => caller.pc == Sending && s.control.stopped
    case ReadWakeup => caller.pc == ReadingWakeup
    case WriteWakeup => caller.pc == WritingWakeup
    case Receive => caller.pc == Waiting && caller.done.Some?
    case SeeStopped => caller.pc == Waiting && s.control.stopped
    case Recheck => caller.pc == Rechecking
  }

  predicate MoveEnabled(k: Control, noFast: bool, noTask: bool, move: Move) {
    match move
    case BeginRun(_) => k.loop == NotStarted && !k.ran
    case TopCancelled => k.loop == RunTop && k.cancelled
    case TopContinue => k.loop == RunTop && !k.cancelled
    case FastEmpty => (k.loop.RunFast? || k.loop.SweepFast?) && noFast
    case TaskEmpty => k.loop.SweepTask? && noTask
    case Tick => k.loop == RunSelect
    case SelectCancelled => k.loop == RunSelect && k.cancelled
    case InstallWakeup => k.loop == Install
    case Wake(task, _, shutdown) => k.loop == EpollWait && (task ==> k.eventfd > 0) && (shutdown <==> k.signalled)
    case Classify => k.loop.Woken?
    case DrainEmpty => k.loop.Draining? && noFast && noTask
    case UninstallWakeup => k.loop == Uninstall
    case Close => k.loop == Closing
  }

  /** Positions of the consumer at which it may receive from the fast, or from the normal, channel. */
  predicate MayTake(loop: Loop, fast: bool) {
    loop.RunSelect? || (if fast then loop.RunFast? || loop.SweepFast? else loop.SweepTask?)
  }

  predicate Enabled(s: State, step: Step) {
    match step
    case Arrive(c, _) => c !in s.callers
    case ByCaller(c, act) => c in s.callers && ActEnabled(s, s.callers[c], act)
    case Take(fast) => s.executing == None && MayTake(s.control.loop, fast) && Queue(s, fast) != []
    case Reject(fast) => s.control.loop.Draining? && Queue(s, fast) != []
    case Finish(_) => s.executing.Some?
    case Cancel => true
    case SignalShutdown => s.control.cancelled && s.control.ran
    case Moves(move) => s.executing == None && MoveEnabled(s.control, s.fastQ == [], s.taskQ == [], move)
  }

  /** The caller after one of its actions. */
  function Acted(s: State, caller: Caller, act: CallerAct): Caller
    requires ActEnabled(s, caller, act)
  {
    match act
    case Send => caller.(pc := ReadingWakeup, queuedAt := s.normalStarts)
    case SendStopped => caller.(pc := Returned(ErrShutdown))
    case ReadWakeup =>
      if s.control.installed then caller.(pc := WritingWakeup) else caller.(pc := Waiting, missed := true)
    case WriteWakeup => caller.(pc := Waiting)
    case Receive => caller.(pc := Returned(caller.done.value), done := None)
    case SeeStopped => caller.(pc := Rechecking)
    case Recheck => caller.(pc := Returned(if caller.done.Some? then caller.done.value else ErrShutdown), done := None)
  }

  /** What the consumer does after the function it is about to run. */
  function AfterTask(loop: Loop): Loop {
    match loop
    case RunFast(_) => RunFast(true)
    case SweepFast(_, _) => loop
    case SweepTask(sweep) => SweepFast(sweep, true)
    case _ => RunTop
  }

  function WithQueue(s: State, fast: bool, q: seq<Call>): (s': State)
    ensures Queue(s', fast) == q && Queue(s', !fast) == Queue(s, !fast)
  {
    if fast then s.(fastQ := q) else s.(taskQ := q)
  }

  /** The caller whose function starts; queued calls are registered, so the fallback is never used. */
  function Started(s: State, c: Call): Caller {
    if c !in s.callers then NewCaller(true) else
    var caller := s.callers[c];
    caller.(starts := caller.starts + 1,
            overtaken := if caller.fast && caller.queuedAt <= s.normalStarts
                         then s.normalStarts - caller.queuedAt else 0)
  }

  function NewCaller(fast: bool): Caller {
    Caller(fast, Sending, None, 0, None, false, 0, 0)
  }

  function Answered(s: State, c: Call, result: Option<Behaviour>): Caller {
    if c !in s.callers then NewCaller(true) else
    match result
    case Some(b) => s.callers[c].(result := result, done := Some(SafeExec(b)))
    case None => s.callers[c].(done := Some(ErrShutdown))
  }

  function Moved(k: Control, noFast: bool, noTask: bool, move: Move): Control
    requires MoveEnabled(k, noFast, noTask, move)
  {
    match move
    case BeginRun(epoll) => k.(ran := true, loop := if epoll then Install else RunTop)
    case TopCancelled => k.(loop := Draining(false))
    case TopContinue => k.(loop := RunFast(false))
    case FastEmpty =>
      k.(loop := match k.loop
                 case RunFast(drained) => if drained then RunTop else RunSelect
                 case SweepFast(sweep, again) => if again then SweepTask(sweep) else SweepFast(sweep, true))
    case TaskEmpty =>
      k.(sweeps := k.sweeps + 1,
         loop := match k.loop.sweep
                 case TaskSweep(true) => SweepFast(HeartbeatSweep, false)
                 case _ => EpollWait)
    case Tick => k.(loop := RunTop)
    case SelectCancelled => k.(loop := Draining(false))
    case InstallWakeup => k.(installed := true, loop := EpollWait)
    case Wake(task, heartbeat, shutdown) => k.(loop := Woken(task, heartbeat, shutdown))
    case Classify =>
      k.(eventfd := if k.loop.task then 0 else k.eventfd,
         loop := if k.loop.shutdown then Draining(true)
                 else if k.loop.task then SweepFast(TaskSweep(k.loop.heartbeat), false)
                 else if k.loop.heartbeat then SweepFast(HeartbeatSweep, false)
                 else EpollWait)
    case DrainEmpty => k.(loop := if k.loop.epoll then Uninstall else Closing)
    case UninstallWakeup => k.(installed := false, loop := Closing)
    case Close => k.(stopped := true, loop := Stopped)
  }

  function Next(s: State, step: Step): State
    requires Enabled(s, step)
  {
    match step
    case Arrive(c, fast) => s.(callers := s.callers[c := NewCaller(fast)])
    case ByCaller(c, act) =>
      var caller := s.callers[c];
      var s' := s.(callers := s.callers[c := Acted(s, caller, act)]);
      if act.Send? then WithQueue(s', caller.fast, Queue(s, caller.fast) + [c])
      else if act.WriteWakeup? then s'.(control := s.control.(eventfd := s.control.eventfd + 1))
      else s'
    case Take(fast) =>
      var c := Queue(s, fast)[0];
      WithQueue(s, fast, Queue(s, fast)[1..]).(
        callers := s.callers[c := Started(s, c)],
        control := s.control.(loop := AfterTask(s.control.loop)), executing := Some(c),
        normalStarts := if fast then s.normalStarts else s.normalStarts + 1)
    case Reject(fast) =>
      var c := Queue(s, fast)[0];
      WithQueue(s, fast, Queue(s, fast)[1..]).(callers := s.callers[c := Answered(s, c, None)])
    case Finish(b) =>
      var c := s.executing.value;
      s.(callers := s.callers[c := Answered(s, c, Some(b))], executing := None)
    case Moves(move) => s.(control := Moved(s.control, s.fastQ == [], s.taskQ == [], move))
    case Cancel => s.(control := s.control.(cancelled := true))
    case SignalShutdown => s.(control := s.control.(signalled := true))
  }

  // ---------- exactly once

  ghost predicate Queued(s: State, c: Call) {
    c in s.fastQ || c in s.taskQ
  }

  ghost predicate Running(s: State, c: Call) {
    s.executing == Some(c)
  }

  /** The two ways a call may end: one run and its outcome, or no run and ErrShutdown. */
  ghost predicate Legitimate(caller: Caller, answer: Answer) {
    || (caller.starts == 1 && caller.result.Some? && answer == SafeExec(caller.result.value))
    || (caller.starts == 0 && answer == ErrShutdown)
  }

  ghost predicate Untouched(caller: Caller) {
    caller.starts == 0 && caller.result == None && caller.done == None
  }

  ghost predicate Settled(s: State, c: Call)
    requires c in s.callers
  {
    !Queued(s, c) && !Running(s, c) && s.callers[c].done.Some? && Legitimate(s.callers[c], s.callers[c].done.value)
  }

  ghost predicate InFlight(s: State, c: Call)
    requires c in s.callers
  {
    && !Queued(s, c) && Running(s, c)
    && s.callers[c].starts == 1 && s.callers[c].result == None && s.callers[c].done == None
  }

  ghost predicate CallerOk(s: State, c: Call)
    requires c in s.callers
  {
    var caller := s.callers[c];
    match caller.pc
    case Sending => !Queued(s, c) && !Running(s, c) && Untouched(caller)
    case Returned(answer) =>
      !Running(s, c) && Legitimate(caller, answer) && (Queued(s, c) ==> s.control.stopped && Untouched(caller))
    case _ =>
      && (caller.pc == Rechecking ==> s.control.stopped)
      && ((Queued(s, c) && !Running(s, c) && Untouched(caller)) || InFlight(s, c) || Settled(s, c))
  }

  ghost predicate QueuesOk(s: State) {
    && Distinct(s.fastQ) && Distinct(s.taskQ)
    && |s.fastQ| <= FAST_CAPACITY && |s.taskQ| <= TASK_CAPACITY
    && (forall c :: c in s.fastQ ==> c in s.callers && s.callers[c].fast)
    && (forall c :: c in s.taskQ ==> c in s.callers && !s.callers[c].fast)
  }

  ghost predicate ControlOk(k: Control) {
    (k.stopped <==> k.loop == Stopped) && (k.ran <==> k.loop != NotStarted)
  }

  ghost predicate LoopOk(s: State) {
    && ControlOk(s.control)
    && (s.executing.Some? ==> s.executing.value in s.callers
                              && (s.control.loop.RunTop? || s.control.loop.RunFast? || s.control.loop.SweepFast?))
  }

  ghost predicate Inv(s: State) {
    && QueuesOk(s)
    && LoopOk(s)
    && forall c :: c in s.callers ==> CallerOk(s, c)
  }

  lemma InitInv()
    ensures AllInv(INIT)
  {
  }

  lemma ArriveInv(s: State, step: Step)
    requires Inv(s) && Enabled(s, step) && step.Arrive?
    ensures Inv(Next(s, step))
  {
    var s' := Next(s, step);
    forall c | c in s'.callers ensures CallerOk(s', c) {
      if c != step.c { assert CallerOk(s, c); }
    }
  }

  lemma ActFrame(s: State, step: Step)
    requires Enabled(s, step) && step.ByCaller? && !step.act.Send?
    ensures var s' := Next(s, step);
            && s'.callers == s.callers[step.c := Acted(s, s.callers[step.c], step.act)]
            && s' == s.(callers := s'.callers, control := s'.control)
            && s'.control == s.control.(eventfd := s.control.eventfd + if step.act.WriteWakeup? then 1 else 0)
  {
  }

  /** The caller that acts stays consistent. */
  lemma ActCallerOk(s: State, step: Step)
    requires LoopOk(s) && Enabled(s, step) && step.ByCaller? && !step.act.Send? && CallerOk(s, step.c)
    ensures CallerOk(Next(s, step), step.c)
  {
    var s' := Next(s, step);
    ActFrame(s, step);
    assert Queued(s', step.c) <==> Queued(s, step.c);
    assert Running(s', step.c) <==> Running(s, step.c);
    hide Next, Queued, Running;
  }

  lemma ActInv(s: State, step: Step)
    requires Inv(s) && Enabled(s, step) && step.ByCaller? && !step.act.Send?
    ensures Inv(Next(s, step))
  {
    var s' := Next(s, step);
    hide Next, Enabled, Acted, CallerOk, LoopOk, QueuesOk;
    ActFrame(s, step);
    ActCallerOk(s, step);
    ActKeepsRest(s, step);
    forall c | c in s'.callers ensures CallerOk(s', c) {
      if c != step.c { OtherCallerOk(s, s', c); }
    }
  }

  lemma ActKeepsRest(s: State, step: Step)
    requires QueuesOk(s) && LoopOk(s) && Enabled(s, step) && step.ByCaller? && !step.act.Send?
    ensures QueuesOk(Next(s, step)) && LoopOk(Next(s, step))
  {
    ActFrame(s, step);
    hide Next;
  }

  /** A call that does not act, and whose task is where it was. */
  lemma OtherCallerOk(s: State, s': State, c: Call)
    requires c in s.callers && CallerOk(s, c) && c in s'.callers && s'.callers[c] == s.callers[c]
    requires s'.fastQ == s.fastQ && s'.taskQ == s.taskQ && s'.executing == s.executing
    requires s'.control.stopped == s.control.stopped
    ensures CallerOk(s', c)
  {
    assert Queued(s', c) == Queued(s, c) && Running(s', c) == Running(s, c);
    hide Queued, Running;
  }

  lemma SendFrame(s: State, step: Step)
    requires QueuesOk(s) && Enabled(s, step) && step.ByCaller? && step.act.Send? && !Queued(s, step.c)
    ensures var s' := Next(s, step);
            && QueuesOk(s')
            && (forall c :: Queued(s', c) <==> Queued(s, c) || c == step.c)
            && (forall c :: c in s'.fastQ ==> c in s.fastQ || c == step.c)
            && (forall c :: c in s'.taskQ ==> c in s.taskQ || c == step.c)
            && s'.callers == s.callers[step.c := s.callers[step.c].(pc := ReadingWakeup, queuedAt := s.normalStarts)]
            && s' == s.(callers := s'.callers, fastQ := s'.fastQ, taskQ := s'.taskQ)
  {
  }

  lemma SendInv(s: State, step: Step)
    requires Inv(s) && Enabled(s, step) && step.ByCaller? && step.act.Send?
    ensures Inv(Next(s, step))
  {
    var s' := Next(s, step);
    assert CallerOk(s, step.c);
    SendFrame(s, step);
    hide Next, Enabled, QueuesOk, Queued;
    forall c | c in s'.callers ensures CallerOk(s', c) {
      assert CallerOk(s, c);
    }
  }

  /** Taking a task from either queue leaves every other call where it was. */
  lemma DequeueFrame(s: State, step: Step) returns (h: Call)
    requires QueuesOk(s) && Enabled(s, step) && (step.Take? || step.Reject?)
    ensures h == Queue(s, step.fast)[0] && h in s.callers && Queued(s, h)
    ensures var s' := Next(s, step);
            && QueuesOk(s') && !Queued(s', h)
            && (forall c :: c != h ==> (Queued(s', c) <==> Queued(s, c)))
            && s'.callers == s.callers[h := s'.callers[h]]
            && s'.control.stopped == s.control.stopped && s'.control.ran == s.control.ran
  {
    h := Queue(s, step.fast)[0];
    HeadLeaves(Queue(s, step.fast));
  }

  lemma DequeueInv(s: State, step: Step)
    requires Inv(s) && Enabled(s, step) && (step.Take? || step.Reject?)
    ensures Inv(Next(s, step))
  {
    var s' := Next(s, step);
    var h := DequeueFrame(s, step);
    assert CallerOk(s, h);
    hide QueuesOk, Queued;
    forall c | c in s'.callers ensures CallerOk(s', c) {
      assert CallerOk(s, c);
    }
  }

  lemma FinishInv(s: State, step: Step)
    requires Inv(s) && Enabled(s, step) && step.Finish?
    ensures Inv(Next(s, step))
  {
    var s' := Next(s, step);
    var h := s.executing.value;
    assert CallerOk(s, h) && Running(s, h);
    forall c | c in s'.callers ensures CallerOk(s', c) {
      assert CallerOk(s, c);
      assert Queued(s', c) <==> Queued(s, c);
    }
  }

  lemma ControlMove(k: Control, noFast: bool, noTask: bool, move: Move)
    requires ControlOk(k) && MoveEnabled(k, noFast, noTask, move)
    ensures var k' := Moved(k, noFast, noTask, move);
            ControlOk(k') && (k.stopped ==> k'.stopped)
  {
  }

  lemma MoveInv(s: State, step: Step)
    requires Inv(s) && Enabled(s, step) && step.Moves?
    ensures Inv(Next(s, step))
  {
    var s' := Next(s, step);
    ControlMove(s.control, s.fastQ == [], s.taskQ == [], step.move);
    hide Moved, MoveEnabled;
    forall c | c in s'.callers ensures CallerOk(s', c) {
      assert CallerOk(s, c);
    }
  }

  lemma ContextInv(s: State, step: Step)
    requires Inv(s) && Enabled(s, step) && (step.Cancel? || step.SignalShutdown?)
    ensures Inv(Next(s, step))
  {
    var s' := Next(s, step);
    forall c | c in s'.callers ensures CallerOk(s', c) {
      assert CallerOk(s, c);
    }
  }

  lemma StepInv(s: State, step: Step)
    requires Inv(s) && Enabled(s, step)
    ensures Inv(Next(s, step))
  {
    hide Inv, Next, Enabled;
    match step
    case Arrive(_, _) => ArriveInv(s, step);
    case ByCaller(_, act) => if act.Send? { SendInv(s, step); } else { ActInv(s, step); }
    case Take(_) => DequeueInv(s, step);
    case Reject(_) => DequeueInv(s, step);
    case Finish(_) => FinishInv(s, step);
    case Moves(_) => MoveInv(s, step);
    case Cancel => ContextInv(s, step);
    case SignalShutdown => ContextInv(s, step);
  }

  // ---------- wakeups of the epoll loop

  /** The caller has not finished signalling, or the signal is still pending, or it found no wakeup function. */
  ghost predicate Covered(s: State, c: Call)
    requires c in s.callers
  {
    s.callers[c].pc == ReadingWakeup || s.callers[c].pc == WritingWakeup || s.control.eventfd > 0 || s.callers[c].missed
  }

  ghost predicate AllCovered(s: State, q: seq<Call>) {
    forall c :: c in q && c in s.callers ==> Covered(s, c)
  }

  ghost predicate NoneMissed(s: State, q: seq<Call>) {
    forall c :: c in q && c in s.callers ==> !s.callers[c].missed
  }

  /** A sweep started by the eventfd owes a visit to the queues it has not found empty: 0, 1 or 2 are done. */
  ghost function CoverLevel(loop: Loop): nat {
    match loop
    case SweepFast(TaskSweep(_), _) => 0
    case SweepTask(TaskSweep(_)) => 1
    case Draining(_) => 0
    case Uninstall => 0
    case Closing => 0
    case Stopped => 0
    case _ => 2
  }

  ghost predicate CoverOk(s: State) {
    && (CoverLevel(s.control.loop) >= 1 ==> AllCovered(s, s.fastQ))
    && (CoverLevel(s.control.loop) >= 2 ==> AllCovered(s, s.taskQ))
  }

  ghost predicate InEpollRound(loop: Loop) {
    loop.EpollWait? || loop.Woken? || loop.SweepFast? || loop.SweepTask?
  }

  /** How many queues are known to hold no task whose caller found no wakeup function. */
  ghost function MissedLevel(k: Control): nat {
    if !InEpollRound(k.loop) then 0 else if k.sweeps > 0 then 2 else if k.loop.SweepTask? then 1 else 0
  }

  ghost predicate EpollOk(k: Control) {
    && (InEpollRound(k.loop) ==> k.installed)
    && (k.loop.NotStarted? || k.loop.RunTop? || k.loop.RunFast? || k.loop.RunSelect? || k.loop.Install? ==>
          k.sweeps == 0)
  }

  ghost predicate MissedOk(s: State) {
    && EpollOk(s.control)
    && (MissedLevel(s.control) >= 1 ==> NoneMissed(s, s.fastQ))
    && (MissedLevel(s.control) >= 2 ==> NoneMissed(s, s.taskQ))
    && (forall c :: c in s.callers && s.callers[c].pc == Sending ==> !s.callers[c].missed)
  }

  /** A move raises the level of a queue only when it has found that queue empty. */
  ghost predicate LevelStep(level: nat, level': nat, noFast: bool, noTask: bool) {
    level' <= level || (level' == 1 && noFast) || (level' == 2 && level == 1 && noTask)
  }

  lemma MoveCoverLevel(k: Control, noFast: bool, noTask: bool, move: Move)
    requires MoveEnabled(k, noFast, noTask, move)
    ensures LevelStep(CoverLevel(k.loop), CoverLevel(Moved(k, noFast, noTask, move).loop), noFast, noTask)
  {
  }

  lemma OnlyClassifyDrains(k: Control, noFast: bool, noTask: bool, move: Move)
    requires MoveEnabled(k, noFast, noTask, move) && !move.Classify?
    ensures Moved(k, noFast, noTask, move).eventfd == k.eventfd
  {
    hide MoveEnabled;
  }

  lemma MoveEventfd(k: Control, noFast: bool, noTask: bool, move: Move)
    requires MoveEnabled(k, noFast, noTask, move)
    ensures var k' := Moved(k, noFast, noTask, move); k'.eventfd == k.eventfd || CoverLevel(k'.loop) == 0
  {
    if !move.Classify? {
      hide Moved, MoveEnabled, CoverLevel;
      OnlyClassifyDrains(k, noFast, noTask, move);
    }
  }

  lemma MoveMissedLevel(k: Control, noFast: bool, noTask: bool, move: Move)
    requires EpollOk(k) && MoveEnabled(k, noFast, noTask, move)
    ensures var k' := Moved(k, noFast, noTask, move);
            EpollOk(k') && LevelStep(MissedLevel(k), MissedLevel(k'), noFast, noTask)
  {
  }

  lemma CoverAct(s: State, step: Step)
    requires Inv(s) && CoverOk(s) && Enabled(s, step) && step.ByCaller? && !step.act.Send?
    ensures CoverOk(Next(s, step))
  {
    assert CallerOk(s, step.c);
    ActFrame(s, step);
    hide Next, CallerOk, QueuesOk;
  }

  lemma CoverSend(s: State, step: Step)
    requires Inv(s) && CoverOk(s) && Enabled(s, step) && step.ByCaller? && step.act.Send?
    ensures CoverOk(Next(s, step))
  {
    assert CallerOk(s, step.c);
    SendFrame(s, step);
    hide Next, CallerOk, QueuesOk, Queued;
  }

  lemma CoverDequeue(s: State, step: Step)
    requires Inv(s) && CoverOk(s) && Enabled(s, step) && (step.Take? || step.Reject?)
    ensures CoverOk(Next(s, step))
  {
    var h := DequeueFrame(s, step);
    assert CallerOk(s, h);
    hide CallerOk, QueuesOk, Queued;
  }

  lemma CoverStep(s: State, step: Step)
    requires Inv(s) && CoverOk(s) && Enabled(s, step)
    ensures CoverOk(Next(s, step))
  {
    match step
    case ByCaller(_, act) =>
      hide *;
      if act.Send? { CoverSend(s, step); } else { CoverAct(s, step); }
    case Take(_) => hide *; CoverDequeue(s, step);
    case Reject(_) => hide *; CoverDequeue(s, step);
    case Moves(move) =>
      MoveCoverLevel(s.control, s.fastQ == [], s.taskQ == [], move);
      MoveEventfd(s.control, s.fastQ == [], s.taskQ == [], move);
      hide Moved, MoveEnabled, CoverLevel, MissedLevel;
    case Arrive(_, _) =>
    case Finish(_) => assert CallerOk(s, s.executing.value);
    case _ =>
  }

  lemma MissedAct(s: State, step: Step)
    requires Inv(s) && MissedOk(s) && Enabled(s, step) && step.ByCaller? && !step.act.Send?
    ensures MissedOk(Next(s, step))
  {
    assert CallerOk(s, step.c);
    ActFrame(s, step);
    hide Next, CallerOk, QueuesOk;
  }

  lemma MissedSend(s: State, step: Step)
    requires Inv(s) && MissedOk(s) && Enabled(s, step) && step.ByCaller? && step.act.Send?
    ensures MissedOk(Next(s, step))
  {
    assert CallerOk(s, step.c);
    SendFrame(s, step);
    hide Next, CallerOk, QueuesOk, Queued;
  }

  lemma MissedDequeue(s: State, step: Step)
    requires Inv(s) && MissedOk(s) && Enabled(s, step) && (step.Take? || step.Reject?)
    ensures MissedOk(Next(s, step))
  {
    var h := DequeueFrame(s, step);
    assert CallerOk(s, h);
    hide CallerOk, QueuesOk, Queued;
  }

  lemma MissedStep(s: State, step: Step)
    requires Inv(s) && MissedOk(s) && Enabled(s, step)
    ensures MissedOk(Next(s, step))
  {
    match step
    case ByCaller(_, act) =>
      hide *;
      if act.Send? { MissedSend(s, step); } else { MissedAct(s, step); }
    case Take(_) => hide *; MissedDequeue(s, step);
    case Reject(_) => hide *; MissedDequeue(s, step);
    case Moves(move) =>
      MoveMissedLevel(s.control, s.fastQ == [], s.taskQ == [], move);
      hide Moved, MoveEnabled, CoverLevel, MissedLevel;
    case Arrive(_, _) =>
    case Finish(_) => assert CallerOk(s, s.executing.value);
    case _ =>
  }

  // ---------- priority

  /** How many normal tasks started since the queued fast call entered the fast channel. */
  ghost predicate NotOvertakenTwice(s: State, c: Call)
    requires c in s.callers
  {
    && s.callers[c].queuedAt <= s.normalStarts <= s.callers[c].queuedAt + 1
    && (s.control.loop.RunSelect? || s.control.loop.SweepTask? ==> s.normalStarts == s.callers[c].queuedAt)
  }

  ghost predicate PriorityInv(s: State) {
    && (forall c :: c in s.fastQ && c in s.callers ==> NotOvertakenTwice(s, c))
    && (forall c :: c in s.callers ==> s.callers[c].overtaken <= 1)
  }

  lemma PriorityAct(s: State, step: Step)
    requires Inv(s) && PriorityInv(s) && Enabled(s, step) && step.ByCaller? && !step.act.Send?
    ensures PriorityInv(Next(s, step))
  {
    assert CallerOk(s, step.c);
    ActFrame(s, step);
    hide Next, CallerOk, QueuesOk;
  }

  lemma PrioritySend(s: State, step: Step)
    requires Inv(s) && PriorityInv(s) && Enabled(s, step) && step.ByCaller? && step.act.Send?
    ensures PriorityInv(Next(s, step))
  {
    assert CallerOk(s, step.c);
    SendFrame(s, step);
    hide Next, CallerOk, QueuesOk, Queued;
  }

  lemma PriorityDequeue(s: State, step: Step)
    requires Inv(s) && PriorityInv(s) && Enabled(s, step) && (step.Take? || step.Reject?)
    ensures PriorityInv(Next(s, step))
  {
    var h := DequeueFrame(s, step);
    assert CallerOk(s, h);
    hide CallerOk, QueuesOk, Queued;
  }

  lemma PriorityOther(s: State, step: Step)
    requires QueuesOk(s) && LoopOk(s) && PriorityInv(s) && Enabled(s, step) && (step.Arrive? || step.Finish?)
    ensures PriorityInv(Next(s, step))
  {
  }

  /** The consumer reaches a point where it may take a normal task only with an empty fast channel. */
  lemma MoveToNormal(k: Control, noFast: bool, noTask: bool, move: Move)
    requires MoveEnabled(k, noFast, noTask, move)
    ensures var loop' := Moved(k, noFast, noTask, move).loop;
            loop'.RunSelect? || loop'.SweepTask? ==> noFast
  {
  }

  lemma PriorityMove(s: State, step: Step)
    requires PriorityInv(s) && Enabled(s, step) && step.Moves?
    ensures PriorityInv(Next(s, step))
  {
    MoveToNormal(s.control, s.fastQ == [], s.taskQ == [], step.move);
    hide Moved, MoveEnabled;
  }

  lemma PriorityContext(s: State, step: Step)
    requires PriorityInv(s) && Enabled(s, step) && (step.Cancel? || step.SignalShutdown?)
    ensures PriorityInv(Next(s, step))
  {
  }

  lemma PriorityStep(s: State, step: Step)
    requires Inv(s) && PriorityInv(s) && Enabled(s, step)
    ensures PriorityInv(Next(s, step))
  {
    match step
    case ByCaller(_, act) =>
      hide *;
      if act.Send? { PrioritySend(s, step); } else { PriorityAct(s, step); }
    case Take(_) => hide *; PriorityDequeue(s, step);
    case Reject(_) => hide *; PriorityDequeue(s, step);
    case Moves(_) => hide *; PriorityMove(s, step);
    case Arrive(_, _) => hide CallerOk, Next, PriorityInv; PriorityOther(s, step);
    case Finish(_) => hide CallerOk, Next, PriorityInv; PriorityOther(s, step);
    case Cancel => hide *; PriorityContext(s, step);
    case SignalShutdown => hide *; PriorityContext(s, step);
  }

  // ---------- whole runs

  /** States linked by enabled steps. */
  ghost predicate Linked(states: seq<State>, steps: seq<Step>) {
    && |states| == |steps| + 1
    && forall i {:trigger steps[i]} :: 0 <= i < |steps| ==>
         Enabled(states[i], steps[i]) && states[i + 1] == Next(states[i], steps[i])
  }

  /** A run from the initial state. */
  ghost predicate IsRun(states: seq<State>, steps: seq<Step>) {
    Linked(states, steps) && states[0] == INIT
  }

  ghost predicate AllInv(s: State) {
    Inv(s) && CoverOk(s) && MissedOk(s) && PriorityInv(s)
  }

  lemma {:induction false} RunInv(states: seq<State>, steps: seq<Step>, i: nat)
    requires IsRun(states, steps) && i < |states|
    ensures AllInv(states[i])
  {
    if i == 0 {
      InitInv();
    } else {
      RunInv(states, steps, i - 1);
      var s, step := states[i - 1], steps[i - 1];
      assert Enabled(s, step) && states[i] == Next(s, step);
      hide Next, Enabled, Inv, CoverOk, MissedOk, PriorityInv;
      StepInv(s, step);
      CoverStep(s, step);
      MissedStep(s, step);
      PriorityStep(s, step);
    }
  }

  /** Once a call has returned, neither its answer nor the run count of its function changes. */
  lemma ReturnedStep(s: State, step: Step, c: Call)
    requires Inv(s) && Enabled(s, step) && c in s.callers && s.callers[c].pc.Returned?
    ensures c in Next(s, step).callers && Next(s, step).callers[c].pc == s.callers[c].pc
    ensures Next(s, step).callers[c].starts == s.callers[c].starts
  {
    assert CallerOk(s, c);
    if step.Take? || step.Reject? {
      var h := DequeueFrame(s, step);
    }
  }

  lemma {:induction false} ReturnedStays(states: seq<State>, steps: seq<Step>, i: nat, j: nat, c: Call)
    requires IsRun(states, steps) && i <= j < |states|
    requires c in states[i].callers && states[i].callers[c].pc.Returned?
    ensures c in states[j].callers && states[j].callers[c].pc == states[i].callers[c].pc
    ensures states[j].callers[c].starts == states[i].callers[c].starts
  {
    if i < j {
      hide Next, Enabled, Inv, CoverOk, MissedOk, PriorityInv;
      ReturnedStays(states, steps, i, j - 1, c);
      RunInv(states, steps, j - 1);
      ReturnedStep(states[j - 1], steps[j - 1], c);
    }
  }

  /**
   Exactly once: in every run, a call that has returned did so in one of two ways. Either its function ran
   once, now and for the rest of the run, and the answer is what the function returned, or the value it
   panicked with; or the answer is ErrShutdown and the function never runs, before or after.
   */
  lemma ExactlyOnce(states: seq<State>, steps: seq<Step>, i: nat, j: nat, c: Call)
    requires IsRun(states, steps) && i <= j < |states|
    requires c in states[i].callers && states[i].callers[c].pc.Returned?
    ensures c in states[j].callers
    ensures var answer, later := states[i].callers[c].pc.answer, states[j].callers[c];
            if answer == ErrShutdown then later.starts == 0 && later.result == None
            else later.starts == 1 && later.result.Some?
                 && match later.result.value
                    case Returns(err) => answer == FromFn(err)
                    case Panics(value) => answer == FromPanic(value)
  {
    ReturnedStays(states, steps, i, j, c);
    RunInv(states, steps, j);
    assert CallerOk(states[j], c);
    ResultMeansStart(states, steps, j, c);
  }

  /** A function without a start has no result. */
  lemma {:induction false} ResultMeansStart(states: seq<State>, steps: seq<Step>, i: nat, c: Call)
    requires IsRun(states, steps) && i < |states| && c in states[i].callers
    ensures states[i].callers[c].starts == 0 ==> states[i].callers[c].result == None
  {
    if i > 0 {
      RunInv(states, steps, i - 1);
      var s, step := states[i - 1], steps[i - 1];
      assert Enabled(s, step) && states[i] == Next(s, step);
      if c in s.callers { ResultMeansStart(states, steps, i - 1, c); }
      StartStep(s, step, c);
      hide Next, Enabled, Inv, CoverOk, MissedOk, PriorityInv;
    }
  }

  lemma StartStep(s: State, step: Step, c: Call)
    requires Inv(s) && Enabled(s, step) && c in Next(s, step).callers
    requires c in s.callers && s.callers[c].starts == 0 ==> s.callers[c].result == None
    ensures Next(s, step).callers[c].starts == 0 ==> Next(s, step).callers[c].result == None
  {
    if c in s.callers { assert CallerOk(s, c); }
    if step.Take? || step.Reject? {
      var h := DequeueFrame(s, step);
      assert CallerOk(s, h);
    }
  }

  /**
   No lost wakeup: whenever the epoll loop is about to block, the caller of every queued task is still on its
   way to signal, or the eventfd is readable, or the call was queued before the wakeup function was
   installed and no queue sweep has been completed since.
   */
  lemma NoLostWakeup(states: seq<State>, steps: seq<Step>, i: nat, c: Call)
    requires IsRun(states, steps) && i < |states| && states[i].control.loop == EpollWait && Queued(states[i], c)
    ensures c in states[i].callers
    ensures var s, caller := states[i], states[i].callers[c];
            || caller.pc == ReadingWakeup || caller.pc == WritingWakeup
            || s.control.eventfd > 0
            || (caller.missed && s.control.sweeps == 0)
  {
    RunInv(states, steps, i);
    assert c in states[i].callers;
  }

  /** At most one normal task starts between the queueing of a fast call and its own start. */
  lemma BoundedInversion(states: seq<State>, steps: seq<Step>, i: nat, c: Call)
    requires IsRun(states, steps) && i < |states| && c in states[i].callers
    ensures states[i].callers[c].overtaken <= 1
    ensures c in states[i].fastQ ==> states[i].normalStarts - states[i].callers[c].queuedAt <= 1
  {
    RunInv(states, steps, i);
  }

  // ---------- nobody is left behind

  /** While the consumer runs it always has a step, so no call ever blocks it. */
  lemma ConsumerMoves(s: State)
    requires Inv(s) && s.control.ran && !s.control.stopped
    ensures exists step :: Enabled(s, step) && (step.Take? || step.Reject? || step.Finish? || step.Moves?)
  {
    if s.executing.Some? {
      assert Enabled(s, Finish(Returns(None)));
    } else {
      match s.control.loop
      case RunTop => assert Enabled(s, Moves(if s.control.cancelled then TopCancelled else TopContinue));
      case RunFast(_) =>
        assert s.fastQ == [] ==> Enabled(s, Moves(FastEmpty));
        assert s.fastQ != [] ==> Enabled(s, Take(true));
      case RunSelect => assert Enabled(s, Moves(Tick));
      case Install => assert Enabled(s, Moves(InstallWakeup));
      case EpollWait => assert Enabled(s, Moves(Wake(false, true, s.control.signalled)));
      case Woken(_, _, _) => assert Enabled(s, Moves(Classify));
      case SweepFast(_, _) =>
        assert s.fastQ == [] ==> Enabled(s, Moves(FastEmpty));
        assert s.fastQ != [] ==> Enabled(s, Take(true));
      case SweepTask(_) =>
        assert s.taskQ == [] ==> Enabled(s, Moves(TaskEmpty));
        assert s.taskQ != [] ==> Enabled(s, Take(false));
      case Draining(_) =>
        assert s.fastQ != [] ==> Enabled(s, Reject(true));
        assert s.taskQ != [] ==> Enabled(s, Reject(false));
        assert s.fastQ == [] && s.taskQ == [] ==> Enabled(s, Moves(DrainEmpty));
      case Uninstall => assert Enabled(s, Moves(UninstallWakeup));
      case Closing => assert Enabled(s, Moves(Close));
    }
  }

  /** Own steps a call still needs to return once the dispatcher has stopped. */
  function Remaining(pc: Pc): nat {
    match pc
    case Sending => 1
    case ReadingWakeup => 4
    case WritingWakeup => 3
    case Waiting => 2
    case Rechecking => 1
    case Returned(_) => 0
  }

  /** After a stop every call still under way has a step of its own that brings its return closer. */
  lemma StopUnblocks(s: State, c: Call) returns (act: CallerAct)
    requires Inv(s) && s.control.stopped && c in s.callers && !s.callers[c].pc.Returned?
    ensures Enabled(s, ByCaller(c, act))
    ensures Remaining(Next(s, ByCaller(c, act)).callers[c].pc) < Remaining(s.callers[c].pc)
  {
    act := match s.callers[c].pc
      case Sending => SendStopped
      case ReadingWakeup => ReadWakeup
      case WritingWakeup => WriteWakeup
      case Waiting => SeeStopped
      case _ => Recheck;
  }

  /** And no step of anybody else sets it back. */
  lemma OthersDoNotDelay(s: State, step: Step, c: Call)
    requires Inv(s) && s.control.stopped && c in s.callers && Enabled(s, step)
    requires !(step.ByCaller? && step.c == c)
    ensures c in Next(s, step).callers && Next(s, step).callers[c].pc == s.callers[c].pc
    ensures Next(s, step).control.stopped
  {
    if step.Take? || step.Reject? {
      var h := DequeueFrame(s, step);
    }
  }

  // ---------- a cancelled dispatcher stops

  /** A step of a call that is there, of the consumer, or of the function it runs. */
  predicate Internal(step: Step) {
    !step.Arrive? && !step.Cancel? && !step.SignalShutdown?
  }

  /** The context is cancelled, and its watcher has signalled the epoll loop. */
  predicate ShuttingDown(k: Control) {
    k.ran && k.cancelled && k.signalled
  }

  /** Moves the consumer still needs to stop if it takes no more tasks. */
  function LoopRank(loop: Loop): nat {
    match loop
    case Stopped => 0
    case Closing => 1
    case Uninstall => 2
    case Draining(_) => 3
    case RunTop => 4
    case RunSelect => 5
    case RunFast(drained) => if drained then 5 else 6
    case Woken(_, _, shutdown) => if shutdown then 4 else 12
    case EpollWait => 5
    case Install => 6
    case SweepTask(TaskSweep(true)) => 9
    case SweepFast(TaskSweep(true), again) => if again then 10 else 11
    case SweepTask(_) => 6
    case SweepFast(_, again) => if again then 7 else 8
    case NotStarted => 13
  }

  function CallRank(pc: Pc): nat {
    if pc == Sending then 8 else Remaining(pc)
  }

  ghost function CallRanks(callers: map<Call, Caller>, cs: set<Call>): nat
    requires cs <= callers.Keys
  {
    if cs == {} then 0 else
    var c :| c in cs;
    CallRank(callers[c].pc) + CallRanks(callers, cs - {c})
  }

  lemma {:induction false} RanksWithout(callers: map<Call, Caller>, cs: set<Call>, c: Call)
    requires cs <= callers.Keys && c in cs
    ensures CallRanks(callers, cs) == CallRank(callers[c].pc) + CallRanks(callers, cs - {c})
    decreases cs
  {
    var d :| d in cs && CallRanks(callers, cs) == CallRank(callers[d].pc) + CallRanks(callers, cs - {d});
    if d != c {
      RanksWithout(callers, cs - {d}, c);
      RanksWithout(callers, cs - {c}, d);
      assert cs - {d} - {c} == cs - {c} - {d};
    }
  }

  lemma {:induction false} RanksSame(a: map<Call, Caller>, b: map<Call, Caller>, cs: set<Call>)
    requires cs <= a.Keys && cs <= b.Keys && forall c :: c in cs ==> a[c].pc == b[c].pc
    ensures CallRanks(a, cs) == CallRanks(b, cs)
    decreases cs
  {
    if cs != {} {
      var c :| c in cs;
      RanksWithout(a, cs, c);
      RanksWithout(b, cs, c);
      RanksSame(a, b, cs - {c});
    }
  }

  /** What one call contributes is all that changes when it moves. */
  lemma RanksUpdate(callers: map<Call, Caller>, c: Call, caller: Caller)
    requires c in callers
    ensures CallRanks(callers[c := caller], callers.Keys) + CallRank(callers[c].pc)
         == CallRanks(callers, callers.Keys) + CallRank(caller.pc)
  {
    var after := callers[c := caller];
    RanksWithout(callers, callers.Keys, c);
    RanksWithout(after, callers.Keys, c);
    RanksSame(callers, after, callers.Keys - {c});
  }

  /** A bound on the internal steps to come once the dispatcher is shutting down. */
  ghost function StepsLeft(s: State): nat {
    CallRanks(s.callers, s.callers.Keys) + 3 * (|s.fastQ| + |s.taskQ|) + (if s.executing.Some? then 1 else 0)
    + LoopRank(s.control.loop)
  }

  lemma MoveLowersRank(k: Control, noFast: bool, noTask: bool, move: Move)
    requires ControlOk(k) && ShuttingDown(k) && MoveEnabled(k, noFast, noTask, move)
    ensures LoopRank(Moved(k, noFast, noTask, move).loop) < LoopRank(k.loop)
    ensures ShuttingDown(Moved(k, noFast, noTask, move))
  {
  }

  lemma ActedRank(s: State, caller: Caller, act: CallerAct)
    requires ActEnabled(s, caller, act)
    ensures CallRank(Acted(s, caller, act).pc) + (if act.Send? then 4 else 1) <= CallRank(caller.pc)
  {
  }

  lemma ActLowersRank(s: State, step: Step)
    requires Inv(s) && Enabled(s, step) && step.ByCaller?
    ensures StepsLeft(Next(s, step)) < StepsLeft(s)
  {
    var caller := s.callers[step.c];
    hide Inv, CallRanks, LoopRank, Acted, CallRank;
    ActedRank(s, caller, step.act);
    RanksUpdate(s.callers, step.c, Acted(s, caller, step.act));
    ActShape(s, step);
    hide Next;
  }

  /** Sending adds a task to one queue; nothing else does. */
  lemma ActShape(s: State, step: Step)
    requires Enabled(s, step) && step.ByCaller?
    ensures var s' := Next(s, step);
            && s'.callers == s.callers[step.c := Acted(s, s.callers[step.c], step.act)]
            && s'.callers.Keys == s.callers.Keys
            && |s'.fastQ| + |s'.taskQ| == |s.fastQ| + |s.taskQ| + (if step.act.Send? then 1 else 0)
            && s'.executing == s.executing && s'.control.loop == s.control.loop
  {
    hide Acted, ActEnabled;
  }

  lemma DequeueLowersRank(s: State, step: Step)
    requires Inv(s) && Enabled(s, step) && (step.Take? || step.Reject?)
    ensures StepsLeft(Next(s, step)) < StepsLeft(s)
  {
    var h := DequeueFrame(s, step);
    RanksUpdate(s.callers, h, Next(s, step).callers[h]);
    assert Next(s, step).callers.Keys == s.callers.Keys;
    hide Inv, CallRanks, Queued, QueuesOk;
  }

  lemma FinishLowersRank(s: State, step: Step)
    requires Inv(s) && Enabled(s, step) && step.Finish?
    ensures StepsLeft(Next(s, step)) < StepsLeft(s)
  {
    var h := s.executing.value;
    RanksUpdate(s.callers, h, Next(s, step).callers[h]);
    assert Next(s, step).callers.Keys == s.callers.Keys;
    hide CallRanks, LoopRank;
  }

  /** Every internal step of a dispatcher that is shutting down lowers the bound. */
  lemma ShutdownProgress(s: State, step: Step)
    requires Inv(s) && ShuttingDown(s.control) && Enabled(s, step) && Internal(step)
    ensures StepsLeft(Next(s, step)) < StepsLeft(s) && ShuttingDown(Next(s, step).control)
  {
    match step
    case ByCaller(_, _) => ActLowersRank(s, step); hide StepsLeft;
    case Take(_) => DequeueLowersRank(s, step); hide StepsLeft;
    case Reject(_) => DequeueLowersRank(s, step); hide StepsLeft;
    case Finish(_) => FinishLowersRank(s, step); hide StepsLeft;
    case Moves(move) =>
      MoveLowersRank(s.control, s.fastQ == [], s.taskQ == [], move);
      hide Moved, MoveEnabled, CallRanks, LoopRank;
  }

  lemma {:induction false} ShutdownBounded(states: seq<State>, steps: seq<Step>, i: nat)
    requires Linked(states, steps) && i < |states| && Inv(states[0]) && ShuttingDown(states[0].control)
    requires forall step :: step in steps ==> Internal(step)
    ensures Inv(states[i]) && ShuttingDown(states[i].control) && StepsLeft(states[i]) + i <= StepsLeft(states[0])
  {
    if i > 0 {
      hide Inv, Next, Enabled, StepsLeft, ShuttingDown;
      ShutdownBounded(states, steps, i - 1);
      var s, step := states[i - 1], steps[i - 1];
      assert Enabled(s, step) && states[i] == Next(s, step) && step in steps;
      StepInv(s, step);
      ShutdownProgress(s, step);
    }
  }

  lemma CallMoves(s: State, c: Call)
    requires Inv(s) && s.control.stopped && c in s.callers && !s.callers[c].pc.Returned?
    ensures exists step :: Internal(step) && Enabled(s, step)
  {
    var act := StopUnblocks(s, c);
    assert Internal(ByCaller(c, act));
  }

  /**
   Shutdown comes to an end: once the context is cancelled and the loop signalled, and without new calls, every run
   is bounded; when nobody can move any more the consumer has stopped and every call has returned.
   */
  lemma ShutdownTerminates(states: seq<State>, steps: seq<Step>)
    requires Linked(states, steps) && Inv(states[0]) && ShuttingDown(states[0].control)
    requires forall step :: step in steps ==> Internal(step)
    ensures |steps| <= StepsLeft(states[0])
    ensures var last := states[|steps|];
            (forall step :: Internal(step) ==> !Enabled(last, step)) ==>
              last.control.stopped && forall c :: c in last.callers ==> last.callers[c].pc.Returned?
  {
    ShutdownBounded(states, steps, |steps|);
    var last := states[|steps|];
    hide Inv, Enabled, StepsLeft, Next;
    if forall step :: Internal(step) ==> !Enabled(last, step) {
      if !last.control.stopped {
        ConsumerMoves(last);
      }
      forall c | c in last.callers ensures last.callers[c].pc.Returned? {
        if !last.callers[c].pc.Returned? { CallMoves(last, c); }
      }
    }
  }
}

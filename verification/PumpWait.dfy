/**
 Waiting for spawned work on the Golden Thread. The waiting thread services the calls that workers marshal
 back to it (PumpUntil); workers make finitely many such calls, whose callbacks may spawn further workers.
 */
module PumpWait {
  import opened Channels
  import opened Sequences

  /** What a worker will do: its marshaled calls in order, each with the workers its callback spawns. */
  datatype Program = Program(calls: seq<MarshaledCall>)
  datatype MarshaledCall = MarshaledCall(fast: bool, spawns: seq<Program>)

  datatype WorkerPc =
    | Working(calls: seq<MarshaledCall>)
    | Sending(call: MarshaledCall, rest: seq<MarshaledCall>)
    | InQueue(call: MarshaledCall, rest: seq<MarshaledCall>)
    | BeingServed(call: MarshaledCall, rest: seq<MarshaledCall>)
    | Answered(rest: seq<MarshaledCall>)
    | Stored      // completeSpawn has stored result and error
    | Closed      // and closed the handle's done channel
    | Finished    // and left the wait group

  datatype Golden = Checking | Selecting | Serving(worker: nat) | Resumed

  /** What is waited for: one spawn handle, or the group of all spawns. */
  datatype Target = OnHandle(worker: nat) | OnGroup

  /** `workers` is the list of spawns; `groupClosed` is the channel closed after the group's Wait. */
  datatype State = State(target: Target, golden: Golden, workers: seq<WorkerPc>,
                         fastQ: seq<nat>, taskQ: seq<nat>, group: nat, groupClosed: bool)

  datatype Step =
    | Work(w: nat)        // a worker that has not finished does its next action
    | JoinGroup           // the helper goroutine sees the group empty and closes its channel
    | CheckDone           // the non-blocking first select
    | SelectDone          // the blocking select: done is closed
    | Take(fast: bool)    // the blocking select: a task
    | Serve               // the callback ends, having spawned its workers

  predicate DoneClosed(s: State) {
    match s.target
    case OnHandle(w) => w < |s.workers| && (s.workers[w].Closed? || s.workers[w].Finished?)
    case OnGroup => s.groupClosed
  }

  predicate Enabled(s: State, step: Step) {
    match step
    case Work(w) =>
      w < |s.workers| &&
      (match s.workers[w]
       case Sending(call, _) => if call.fast then |s.fastQ| < FAST_CAPACITY else |s.taskQ| < TASK_CAPACITY
       case InQueue(_, _) => false
       case BeingServed(_, _) => false
       case Closed => s.group > 0
       case Finished => false
       case _ => true)
    case JoinGroup => s.target.OnGroup? && !s.groupClosed && s.group == 0
    case CheckDone => s.golden == Checking
    case SelectDone => s.golden == Selecting && DoneClosed(s)
    case Take(fast) => s.golden == Selecting && (if fast then s.fastQ != [] else s.taskQ != [])
    case Serve => s.golden.Serving?
  }

  function SetWorker(s: State, w: nat, pc: WorkerPc): State {
    if w < |s.workers| then s.(workers := s.workers[w := pc]) else s
  }

  function Spawned(ps: seq<Program>): (ws: seq<WorkerPc>)
    ensures |ws| == |ps|
  {
    seq(|ps|, i requires 0 <= i < |ps| => Working(ps[i].calls))
  }

  function WorkerStep(s: State, w: nat): State
    requires Enabled(s, Work(w))
  {
    match s.workers[w]
    case Working(calls) =>
      if calls == [] then SetWorker(s, w, Stored) else SetWorker(s, w, Sending(calls[0], calls[1..]))
    case Sending(call, rest) =>
      var s' := SetWorker(s, w, InQueue(call, rest));
      if call.fast then s'.(fastQ := s.fastQ + [w]) else s'.(taskQ := s.taskQ + [w])
    case Answered(rest) => SetWorker(s, w, Working(rest))
    case Stored => SetWorker(s, w, Closed)
    case Closed => SetWorker(s, w, Finished).(group := s.group - 1)
  }

  /** The waiting thread takes the oldest task of a queue. */
  function Taken(s: State, fast: bool): State
    requires if fast then s.fastQ != [] else s.taskQ != []
  {
    var w := if fast then s.fastQ[0] else s.taskQ[0];
    var s' := if fast then s.(fastQ := s.fastQ[1..]) else s.(taskQ := s.taskQ[1..]);
    if w < |s.workers| && s.workers[w].InQueue?
    then SetWorker(s', w, BeingServed(s.workers[w].call, s.workers[w].rest)).(golden := Serving(w))
    else s'
  }

  /** The callback has run on the waiting thread: its spawns are registered, its caller is answered. */
  function Served(s: State): State
    requires s.golden.Serving?
  {
    var w := s.golden.worker;
    if w < |s.workers| && s.workers[w].BeingServed?
    then
      var spawns := s.workers[w].call.spawns;
      s.(golden := Checking, workers := s.workers[w := Answered(s.workers[w].rest)] + Spawned(spawns),
         group := s.group + |spawns|)
    else s
  }

  function Next(s: State, step: Step): State
    requires Enabled(s, step)
  {
    match step
    case Work(w) => WorkerStep(s, w)
    case JoinGroup => s.(groupClosed := true)
    case CheckDone => s.(golden := if DoneClosed(s) then Resumed else Selecting)
    case SelectDone => s.(golden := Resumed)
    case Take(fast) => Taken(s, fast)
    case Serve => Served(s)
  }

  // ---------- invariant

  ghost predicate Active(pc: WorkerPc) { !pc.Finished? }

  ghost function CountActive(ws: seq<WorkerPc>): nat {
    if ws == [] then 0 else CountActive(ws[..|ws| - 1]) + if Active(ws[|ws| - 1]) then 1 else 0
  }

  /** A channel holds, once each, exactly the workers that wait in it. */
  ghost predicate QueueOk(s: State, q: seq<nat>, fast: bool) {
    && Distinct(q) && |q| <= (if fast then FAST_CAPACITY else TASK_CAPACITY)
    && (forall w :: w in q ==> InChannel(s.workers, w, fast))
    && (forall w :: InChannel(s.workers, w, fast) ==> w in q)
  }

  ghost predicate InChannel(ws: seq<WorkerPc>, w: nat, fast: bool) {
    w < |ws| && ws[w].InQueue? && ws[w].call.fast == fast
  }

  ghost predicate InvQueues(s: State) {
    QueueOk(s, s.fastQ, true) && QueueOk(s, s.taskQ, false)
  }

  ghost predicate InvGolden(s: State) {
    && (forall w :: 0 <= w < |s.workers| && s.workers[w].BeingServed? ==> s.golden == Serving(w))
    && (s.golden.Serving? ==> s.golden.worker < |s.workers| && s.workers[s.golden.worker].BeingServed?)
    && (s.golden == Resumed ==> DoneClosed(s))
  }

  ghost predicate InvGroup(s: State) {
    && s.group == CountActive(s.workers)
    && (s.groupClosed ==> s.group == 0)
    && (s.target.OnHandle? ==> s.target.worker < |s.workers|)
  }

  ghost predicate Inv(s: State) {
    InvQueues(s) && InvGolden(s) && InvGroup(s)
  }

  /** The state in which a wait begins: some workers have been spawned, nothing has been queued yet. */
  ghost predicate Starts(s: State, programs: seq<Program>, target: Target) {
    && s == State(target, Checking, Spawned(programs), [], [], |programs|, false)
    && (target.OnHandle? ==> target.worker < |programs|)
  }

  lemma {:induction false} CountAll(ws: seq<WorkerPc>)
    requires forall i :: 0 <= i < |ws| ==> Active(ws[i])
    ensures CountActive(ws) == |ws|
  {
    if ws != [] { CountAll(ws[..|ws| - 1]); }
  }

  lemma {:induction false} CountConcat(a: seq<WorkerPc>, b: seq<WorkerPc>)
    ensures CountActive(a + b) == CountActive(a) + CountActive(b)
  {
    if b == [] {
      assert a + b == a;
    } else {
      assert (a + b)[..|a + b| - 1] == a + b[..|b| - 1];
      CountConcat(a, b[..|b| - 1]);
    }
  }

  lemma {:induction false} CountUpdate(ws: seq<WorkerPc>, i: nat, pc: WorkerPc)
    requires i < |ws|
    ensures CountActive(ws[i := pc])
         == CountActive(ws) + (if Active(pc) then 1 else 0) - (if Active(ws[i]) then 1 else 0)
  {
    var a, b := ws[..i], ws[i + 1..];
    assert ws == a + [ws[i]] + b && ws[i := pc] == a + [pc] + b;
    CountConcat(a + [ws[i]], b);
    CountConcat(a + [pc], b);
    CountConcat(a, [ws[i]]);
    CountConcat(a, [pc]);
    assert [pc][..0] == [] && [ws[i]][..0] == [];
  }

  lemma {:induction false} CountZero(ws: seq<WorkerPc>, i: nat)
    requires i < |ws| && CountActive(ws) == 0
    ensures ws[i].Finished?
  {
    if i < |ws| - 1 { CountZero(ws[..|ws| - 1], i); }
  }

  lemma StartsInv(s: State, programs: seq<Program>, target: Target)
    requires Starts(s, programs, target)
    ensures Inv(s)
  {
    CountAll(s.workers);
  }

  function Channel(s: State, fast: bool): seq<nat> {
    if fast then s.fastQ else s.taskQ
  }

  /** An action of a worker changes a channel only by entering it. */
  lemma WorkQueue(s: State, w: nat, fast: bool)
    requires QueueOk(s, Channel(s, fast), fast) && Enabled(s, Work(w))
    ensures var s' := Next(s, Work(w)); QueueOk(s', Channel(s', fast), fast)
  {
    var s' := Next(s, Work(w));
    var q, q' := Channel(s, fast), Channel(s', fast);
    if s.workers[w].Sending? && s.workers[w].call.fast == fast {
      assert w !in q;
      DistinctSnoc(q, w);
      assert forall v :: InChannel(s'.workers, v, fast) <==> InChannel(s.workers, v, fast) || v == w;
    } else {
      assert forall v :: InChannel(s'.workers, v, fast) <==> InChannel(s.workers, v, fast);
    }
    hide InChannel, Distinct;
  }

  lemma WorkGolden(s: State, w: nat)
    requires InvGolden(s) && Enabled(s, Work(w))
    ensures InvGolden(Next(s, Work(w)))
  {
  }

  lemma WorkGroup(s: State, w: nat)
    requires InvGroup(s) && Enabled(s, Work(w))
    ensures InvGroup(Next(s, Work(w)))
  {
    var s' := Next(s, Work(w));
    CountUpdate(s.workers, w, s'.workers[w]);
    assert s'.workers == s.workers[w := s'.workers[w]];
  }

  lemma WorkInv(s: State, w: nat)
    requires Inv(s) && Enabled(s, Work(w))
    ensures Inv(Next(s, Work(w)))
  {
    hide Next, Enabled, QueueOk, InvGolden, InvGroup;
    WorkQueue(s, w, true);
    WorkQueue(s, w, false);
    WorkGolden(s, w);
    WorkGroup(s, w);
  }

  lemma HeadIsQueued(s: State, fast: bool)
    requires QueueOk(s, Channel(s, fast), fast) && Enabled(s, Take(fast))
    ensures InChannel(s.workers, Channel(s, fast)[0], fast)
    ensures var w, s' := Channel(s, fast)[0], Next(s, Take(fast));
            && s'.workers == s.workers[w := BeingServed(s.workers[w].call, s.workers[w].rest)]
              && s'.golden == Serving(w)
            && Channel(s', fast) == Channel(s, fast)[1..] && Channel(s', !fast) == Channel(s, !fast)
            && s' == s.(workers := s'.workers, golden := s'.golden, fastQ := s'.fastQ, taskQ := s'.taskQ)
  {
    assert Channel(s, fast)[0] in Channel(s, fast);
  }

  lemma TakeQueue(s: State, s': State, w: nat, pc: WorkerPc, q: seq<nat>, fast: bool)
    requires QueueOk(s, q, fast) && w < |s.workers| && s'.workers == s.workers[w := pc] && !pc.InQueue?
    ensures q != [] && q[0] == w ==> QueueOk(s', q[1..], fast)
    ensures !InChannel(s.workers, w, fast) ==> QueueOk(s', q, fast)
  {
    assert forall v :: InChannel(s'.workers, v, fast) <==> v != w && InChannel(s.workers, v, fast);
    if q != [] && q[0] == w { HeadLeaves(q); }
    hide InChannel, Distinct;
  }

  lemma TakeInv(s: State, fast: bool)
    requires Inv(s) && Enabled(s, Take(fast))
    ensures Inv(Next(s, Take(fast)))
  {
    var w, s' := Channel(s, fast)[0], Next(s, Take(fast));
    HeadIsQueued(s, fast);
    hide Next, QueueOk, CountActive;
    TakeQueue(s, s', w, s'.workers[w], Channel(s, fast), fast);
    TakeQueue(s, s', w, s'.workers[w], Channel(s, !fast), !fast);
    CountUpdate(s.workers, w, s'.workers[w]);
  }

  lemma ServedShape(s: State)
    requires InvGolden(s) && Enabled(s, Serve)
    ensures var w, s' := s.golden.worker, Next(s, Serve);
            && w < |s.workers| && s.workers[w].BeingServed?
            && var spawns := s.workers[w].call.spawns;
            && s'.workers == s.workers[w := Answered(s.workers[w].rest)] + Spawned(spawns)
            && s' == s.(golden := Checking, workers := s'.workers, group := s.group + |spawns|)
  {
  }

  lemma ServeQueue(s: State, s': State, w: nat, pc: WorkerPc, ws: seq<WorkerPc>, q: seq<nat>, fast: bool)
    requires QueueOk(s, q, fast) && w < |s.workers| && s'.workers == s.workers[w := pc] + ws
    requires !s.workers[w].InQueue? && !pc.InQueue? && forall i :: 0 <= i < |ws| ==> !ws[i].InQueue?
    ensures QueueOk(s', q, fast)
  {
    assert forall v :: InChannel(s'.workers, v, fast) <==> InChannel(s.workers, v, fast);
    hide InChannel, Distinct;
  }

  lemma ServeGolden(s: State)
    requires InvGolden(s) && Enabled(s, Serve)
    ensures InvGolden(Next(s, Serve))
  {
  }

  lemma ServeGroup(s: State)
    requires InvGolden(s) && InvGroup(s) && Enabled(s, Serve)
    ensures InvGroup(Next(s, Serve))
  {
    ServedShape(s);
    var w := s.golden.worker;
    var spawns := s.workers[w].call.spawns;
    var updated := s.workers[w := Answered(s.workers[w].rest)];
    hide Next, InvGolden;
    CountUpdate(s.workers, w, updated[w]);
    CountConcat(updated, Spawned(spawns));
    CountAll(Spawned(spawns));
    if s.group == 0 { CountZero(s.workers, w); }
    hide CountActive;
  }

  lemma ServeInv(s: State)
    requires Inv(s) && Enabled(s, Serve)
    ensures Inv(Next(s, Serve))
  {
    ServedShape(s);
    var s', w := Next(s, Serve), s.golden.worker;
    var spawns := s.workers[w].call.spawns;
    hide Next, QueueOk, InvGolden, InvGroup;
    ServeQueue(s, s', w, Answered(s.workers[w].rest), Spawned(spawns), s.fastQ, true);
    ServeQueue(s, s', w, Answered(s.workers[w].rest), Spawned(spawns), s.taskQ, false);
    ServeGolden(s);
    ServeGroup(s);
  }

  lemma StepInv(s: State, step: Step)
    requires Inv(s) && Enabled(s, step)
    ensures Inv(Next(s, step))
  {
    match step
    case Work(w) => WorkInv(s, w);
    case Take(fast) => TakeInv(s, fast);
    case Serve => ServeInv(s);
    case _ =>
  }

  // ---------- progress

  /** An upper bound on the steps a program, or a worker, still takes part in. */
  function ProgramWeight(p: Program): nat {
    4 + CallsWeight(p.calls)
  }

  function CallsWeight(calls: seq<MarshaledCall>): nat {
    if calls == [] then 0 else 6 + ProgramsWeight(calls[0].spawns) + CallsWeight(calls[1..])
  }

  function ProgramsWeight(ps: seq<Program>): nat {
    if ps == [] then 0 else ProgramWeight(ps[0]) + ProgramsWeight(ps[1..])
  }

  function WorkerWeight(pc: WorkerPc): nat {
    match pc
    case Working(calls) => 4 + CallsWeight(calls)
    case Sending(call, rest) => 5 + ProgramsWeight(call.spawns) + 4 + CallsWeight(rest)
    case InQueue(call, rest) => 4 + ProgramsWeight(call.spawns) + 4 + CallsWeight(rest)
    case BeingServed(call, rest) => 3 + ProgramsWeight(call.spawns) + 4 + CallsWeight(rest)
    case Answered(rest) => 1 + 4 + CallsWeight(rest)
    case Stored => 3
    case Closed => 2
    case Finished => 1
  }

  function WorkersWeight(ws: seq<WorkerPc>): nat {
    if ws == [] then 0 else WorkerWeight(ws[0]) + WorkersWeight(ws[1..])
  }

  function GoldenWeight(g: Golden): nat {
    match g
    case Checking => 2
    case Selecting => 1
    case Serving(_) => 1
    case Resumed => 0
  }

  function Measure(s: State): nat {
    WorkersWeight(s.workers) + GoldenWeight(s.golden) + if s.groupClosed then 0 else 1
  }

  lemma {:induction false} WeightConcat(a: seq<WorkerPc>, b: seq<WorkerPc>)
    ensures WorkersWeight(a + b) == WorkersWeight(a) + WorkersWeight(b)
  {
    if a == [] {
      assert a + b == b;
    } else {
      assert (a + b)[1..] == a[1..] + b;
      WeightConcat(a[1..], b);
    }
  }

  lemma {:induction false} WeightUpdate(ws: seq<WorkerPc>, i: nat, pc: WorkerPc)
    requires i < |ws|
    ensures WorkersWeight(ws[i := pc]) == WorkersWeight(ws) - WorkerWeight(ws[i]) + WorkerWeight(pc)
  {
    if i == 0 {
      assert ws[0 := pc][1..] == ws[1..];
    } else {
      assert ws[i := pc][1..] == ws[1..][i - 1 := pc];
      WeightUpdate(ws[1..], i - 1, pc);
    }
  }

  lemma {:induction false} SpawnedWeight(ps: seq<Program>)
    ensures WorkersWeight(Spawned(ps)) == ProgramsWeight(ps)
  {
    if ps != [] {
      assert Spawned(ps)[1..] == Spawned(ps[1..]);
      SpawnedWeight(ps[1..]);
    }
  }

  lemma WorkProgress(s: State, w: nat)
    requires Enabled(s, Work(w))
    ensures Measure(Next(s, Work(w))) < Measure(s)
  {
    var s' := Next(s, Work(w));
    assert s'.workers == s.workers[w := s'.workers[w]];
    WeightUpdate(s.workers, w, s'.workers[w]);
  }

  lemma TakeProgress(s: State, fast: bool)
    requires InvQueues(s) && Enabled(s, Take(fast))
    ensures Measure(Next(s, Take(fast))) < Measure(s)
  {
    var w := if fast then s.fastQ[0] else s.taskQ[0];
    assert w in (if fast then s.fastQ else s.taskQ);
    WeightUpdate(s.workers, w, BeingServed(s.workers[w].call, s.workers[w].rest));
  }

  lemma ServeProgress(s: State)
    requires InvGolden(s) && Enabled(s, Serve)
    ensures Measure(Next(s, Serve)) < Measure(s)
  {
    var w := s.golden.worker;
    var spawns, answered := s.workers[w].call.spawns, Answered(s.workers[w].rest);
    WeightUpdate(s.workers, w, answered);
    WeightConcat(s.workers[w := answered], Spawned(spawns));
    SpawnedWeight(spawns);
  }

  /** Every step of anybody brings the whole system closer to the end. */
  lemma StepProgress(s: State, step: Step)
    requires Inv(s) && Enabled(s, step)
    ensures Measure(Next(s, step)) < Measure(s)
  {
    match step
    case Work(w) => WorkProgress(s, w);
    case Take(fast) => TakeProgress(s, fast);
    case Serve => ServeProgress(s);
    case _ =>
  }

  /** As long as the wait has not returned, somebody can move: no state of the wait is deadlocked. */
  lemma NoDeadlock(s: State) returns (step: Step)
    requires Inv(s) && s.golden != Resumed
    ensures Enabled(s, step)
  {
    if s.golden == Checking {
      step := CheckDone;
    } else if s.golden.Serving? {
      step := Serve;
    } else if DoneClosed(s) {
      step := SelectDone;
    } else if s.fastQ != [] {
      step := Take(true);
    } else if s.taskQ != [] {
      step := Take(false);
    } else if w :| 0 <= w < |s.workers| && Active(s.workers[w]) {
      if s.workers[w].Closed? && s.group == 0 { CountZero(s.workers, w); }
      if s.workers[w].InQueue? { assert InChannel(s.workers, w, s.workers[w].call.fast); }
      step := Work(w);
    } else {
      AllFinished(s.workers);
      step := JoinGroup;
    }
  }

  lemma {:induction false} AllFinished(ws: seq<WorkerPc>)
    requires forall w :: 0 <= w < |ws| ==> !Active(ws[w])
    ensures CountActive(ws) == 0
  {
    if ws != [] { AllFinished(ws[..|ws| - 1]); }
  }

  ghost predicate IsRun(states: seq<State>, steps: seq<Step>) {
    && |states| == |steps| + 1
    && forall i {:trigger steps[i]} :: 0 <= i < |steps| ==>
      Enabled(states[i], steps[i]) && states[i + 1] == Next(states[i], steps[i])
  }

  lemma {:induction false} RunBounded(states: seq<State>, steps: seq<Step>, i: nat)
    requires IsRun(states, steps) && Inv(states[0]) && i < |states|
    ensures Inv(states[i]) && Measure(states[i]) + i <= Measure(states[0])
  {
    if i > 0 {
      RunBounded(states, steps, i - 1);
      StepInv(states[i - 1], steps[i - 1]);
      StepProgress(states[i - 1], steps[i - 1]);
    }
  }

  /** What is waited for has come about: the spawn has stored its result and closed its channel, or all are done. */
  ghost predicate Awaited(s: State) {
    match s.target
    case OnHandle(w) => w < |s.workers| && (s.workers[w].Closed? || s.workers[w].Finished?)
    case OnGroup => forall w :: 0 <= w < |s.workers| ==> s.workers[w].Finished?
  }

  /** A wait has not returned before: not in any state that it can be in. */
  lemma ResumedIsAwaited(s: State)
    requires Inv(s) && s.golden == Resumed
    ensures Awaited(s)
  {
    if s.target == OnGroup {
      forall w | 0 <= w < |s.workers| ensures s.workers[w].Finished? {
        CountZero(s.workers, w);
      }
    }
  }

  /**
   The wait returns. From any state, with tasks queued and workers half way, no run is longer than the measure of
   that state, and a run that cannot be continued has the waiting thread back from its wait, with the awaited
   channel closed: what it waits for has come about.
   */
  lemma WaitReturns(states: seq<State>, steps: seq<Step>)
    requires IsRun(states, steps) && Inv(states[0])
    ensures |steps| <= Measure(states[0])
    ensures var last := states[|steps|];
            (forall step :: !Enabled(last, step)) ==> last.golden == Resumed && Awaited(last)
  {
    RunBounded(states, steps, |steps|);
    var last := states[|steps|];
    if last.golden != Resumed {
      var step := NoDeadlock(last);
    } else {
      ResumedIsAwaited(last);
    }
  }

  /** The next wait of the same thread, for another handle or for the group, with a channel of its own. */
  function WaitAgain(s: State, target: Target): State {
    s.(golden := Checking, target := target, groupClosed := false)
  }

  lemma WaitAgainInv(s: State, target: Target)
    requires Inv(s) && s.golden == Resumed && (target.OnHandle? ==> target.worker < |s.workers|)
    ensures Inv(WaitAgain(s, target))
  {
    hide Distinct;
    var s' := WaitAgain(s, target);
    forall w, fast ensures InChannel(s'.workers, w, fast) == InChannel(s.workers, w, fast) {}
  }

  lemma {:induction false} StoredStays(states: seq<State>, steps: seq<Step>, i: nat, w: nat)
    requires IsRun(states, steps) && i < |states| && w < |states[0].workers|
    requires states[0].workers[w].Closed? || states[0].workers[w].Finished?
    ensures w < |states[i].workers| && (states[i].workers[w].Closed? || states[i].workers[w].Finished?)
  {
    if i > 0 {
      StoredStays(states, steps, i - 1, w);
      assert Enabled(states[i - 1], steps[i - 1]);
    }
  }

  /**
   Waiting for one handle after another: after a wait has returned, the next one begins in a state from which it
   returns as well, and the handles waited for before are still done when it does.
   */
  lemma NextWaitReturns(s: State, target: Target, states: seq<State>, steps: seq<Step>, w: nat)
    requires Inv(s) && s.golden == Resumed && (target.OnHandle? ==> target.worker < |s.workers|)
    requires IsRun(states, steps) && states[0] == WaitAgain(s, target)
    requires w < |s.workers| && (s.workers[w].Closed? || s.workers[w].Finished?)
    ensures |steps| <= Measure(WaitAgain(s, target))
    ensures var last := states[|steps|];
            (forall step :: !Enabled(last, step)) ==>
              && Inv(last) && last.golden == Resumed && Awaited(last)
              && w < |last.workers| && (last.workers[w].Closed? || last.workers[w].Finished?)
  {
    WaitAgainInv(s, target);
    WaitReturns(states, steps);
    RunBounded(states, steps, |steps|);
    StoredStays(states, steps, |steps|, w);
  }

  /** The first wait begins with spawned programs of which none has acted. */
  lemma FirstWaitReturns(programs: seq<Program>, target: Target, states: seq<State>, steps: seq<Step>)
    requires IsRun(states, steps) && Starts(states[0], programs, target)
    ensures |steps| <= Measure(states[0])
    ensures var last := states[|steps|];
            (forall step :: !Enabled(last, step)) ==> last.golden == Resumed && Awaited(last)
  {
    StartsInv(states[0], programs, target);
    WaitReturns(states, steps);
  }

  /** When a wait on the group returns, every spawn, nested ones included, has stored its result and finished. */
  lemma GroupWaitIsComplete(s: State, w: nat)
    requires Inv(s) && s.target == OnGroup && s.golden == Resumed && w < |s.workers|
    ensures s.workers[w].Finished?
  {
    CountZero(s.workers, w);
  }
}

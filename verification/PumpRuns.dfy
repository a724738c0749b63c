/** What happens during a wait: every marshaled call is served once, in the order of its program. */
module PumpRuns {
  import opened PumpWait

  /** The calls that a worker still has to have served. */
  function RestOf(pc: WorkerPc): seq<MarshaledCall> {
    match pc
    case Working(calls) => calls
    case Sending(call, rest) => [call] + rest
    case InQueue(call, rest) => [call] + rest
    case BeingServed(call, rest) => [call] + rest
    case Answered(rest) => rest
    case _ => []
  }

  /**
   One step and one worker: the end of a callback takes the first of the remaining calls of the worker it served;
   nothing else touches a program. Results are stored when no call is left, and a channel is closed after that.
   */
  ghost predicate FollowsProgram(before: WorkerPc, after: WorkerPc, served: bool) {
    && (if served then RestOf(before) != [] && RestOf(after) == RestOf(before)[1..]
        else RestOf(after) == RestOf(before))
    && (after.Stored? && !before.Stored? ==> before == Working([]))
    && ((after.Closed? || after.Finished?) && !before.Closed? && !before.Finished? ==> before.Stored?)
  }

  lemma CallsStep(s: State, step: Step, w: nat)
    requires Inv(s) && Enabled(s, step) && w < |s.workers|
    ensures w < |Next(s, step).workers|
    ensures FollowsProgram(s.workers[w], Next(s, step).workers[w], step == Serve && s.golden == Serving(w))
  {
    hide FollowsProgram, InvQueues, InvGroup, InvGolden;
    match step
    case Work(v) => WorkerFollows(s, v, w);
    case Take(fast) => TakeFollows(s, fast, w);
    case Serve => ServeFollows(s, w);
    case _ => IdleFollows(s.workers[w]);
  }

  lemma IdleFollows(pc: WorkerPc)
    ensures FollowsProgram(pc, pc, false)
  {
  }

  lemma WorkerFollows(s: State, v: nat, w: nat)
    requires Enabled(s, Work(v)) && w < |s.workers|
    ensures w < |Next(s, Work(v)).workers| && FollowsProgram(s.workers[w], Next(s, Work(v)).workers[w], false)
  {
  }

  lemma TakeFollows(s: State, fast: bool, w: nat)
    requires InvQueues(s) && Enabled(s, Take(fast)) && w < |s.workers|
    ensures w < |Next(s, Take(fast)).workers| && FollowsProgram(s.workers[w], Next(s, Take(fast)).workers[w], false)
  {
    var q := Channel(s, fast);
    assert q[0] in q && InChannel(s.workers, q[0], fast);
  }

  lemma ServeFollows(s: State, w: nat)
    requires InvGolden(s) && Enabled(s, Serve) && w < |s.workers|
    ensures w < |Next(s, Serve).workers|
    ensures FollowsProgram(s.workers[w], Next(s, Serve).workers[w], s.golden == Serving(w))
  {
  }

  /** The workers that a step spawns. */
  lemma SpawnStep(s: State, step: Step)
    requires Inv(s) && Enabled(s, step)
    ensures var s' := Next(s, step);
            if step == Serve
            then && s.golden.Serving? && s.golden.worker < |s.workers| && RestOf(s.workers[s.golden.worker]) != []
                 && var spawns := RestOf(s.workers[s.golden.worker])[0].spawns;
                    && |s'.workers| == |s.workers| + |spawns|
                    && forall k :: 0 <= k < |spawns| ==> s'.workers[|s.workers| + k] == Working(spawns[k].calls)
            else |s'.workers| == |s.workers|
  {
    if step.Take? {
      var q := if step.fast then s.fastQ else s.taskQ;
      assert q[0] in q && InChannel(s.workers, q[0], step.fast);
    }
  }

  /** The two channels are first in, first out: a call enters at the end, and the waiting thread serves the head. */
  lemma FifoStep(s: State, step: Step, fast: bool)
    requires Inv(s) && Enabled(s, step)
    ensures var s', q, q' := Next(s, step), Channel(s, fast), Channel(Next(s, step), fast);
            if step.Work? && s.workers[step.w].Sending? && s.workers[step.w].call.fast == fast then q' == q + [step.w]
            else if step == Take(fast) then s'.golden.Serving? && q == [s'.golden.worker] + q'
            else q' == q
  {
    if step.Take? {
      var q := Channel(s, step.fast);
      assert q[0] in q && InChannel(s.workers, q[0], step.fast);
    }
  }

  // ---------- all calls are served

  /** The calls of a program, those of the workers it spawns included. */
  function CallsIn(calls: seq<MarshaledCall>): nat {
    if calls == [] then 0 else 1 + CallsOfAll(calls[0].spawns) + CallsIn(calls[1..])
  }

  function CallsOf(p: Program): nat {
    CallsIn(p.calls)
  }

  function CallsOfAll(ps: seq<Program>): nat {
    if ps == [] then 0 else CallsOf(ps[0]) + CallsOfAll(ps[1..])
  }

  function CallsLeft(ws: seq<WorkerPc>): nat {
    if ws == [] then 0 else CallsIn(RestOf(ws[0])) + CallsLeft(ws[1..])
  }

  lemma {:induction false} LeftConcat(a: seq<WorkerPc>, b: seq<WorkerPc>)
    ensures CallsLeft(a + b) == CallsLeft(a) + CallsLeft(b)
  {
    if a == [] {
      assert a + b == b;
    } else {
      assert (a + b)[1..] == a[1..] + b;
      LeftConcat(a[1..], b);
    }
  }

  lemma {:induction false} LeftUpdate(ws: seq<WorkerPc>, i: nat, pc: WorkerPc)
    requires i < |ws|
    ensures CallsLeft(ws[i := pc]) == CallsLeft(ws) - CallsIn(RestOf(ws[i])) + CallsIn(RestOf(pc))
  {
    if i == 0 {
      assert ws[0 := pc][1..] == ws[1..];
    } else {
      assert ws[i := pc][1..] == ws[1..][i - 1 := pc];
      LeftUpdate(ws[1..], i - 1, pc);
    }
  }

  lemma {:induction false} LeftSpawned(ws: seq<WorkerPc>, ps: seq<Program>)
    requires |ws| == |ps| && forall k :: 0 <= k < |ps| ==> ws[k] == Working(ps[k].calls)
    ensures CallsLeft(ws) == CallsOfAll(ps)
  {
    if ps != [] { LeftSpawned(ws[1..], ps[1..]); }
  }

  lemma {:induction false} LeftSame(a: seq<WorkerPc>, b: seq<WorkerPc>)
    requires |a| == |b| && forall w :: 0 <= w < |a| ==> RestOf(a[w]) == RestOf(b[w])
    ensures CallsLeft(a) == CallsLeft(b)
  {
    if a != [] { LeftSame(a[1..], b[1..]); }
  }

  /** Serving lowers the number of calls to come by one, and nothing else changes it. */
  lemma LeftStep(s: State, step: Step)
    requires Inv(s) && Enabled(s, step)
    ensures CallsLeft(s.workers) == CallsLeft(Next(s, step).workers) + if step == Serve then 1 else 0
  {
    var s' := Next(s, step);
    SpawnStep(s, step);
    forall w | 0 <= w < |s.workers|
      ensures step == Serve && s.golden == Serving(w) ==> RestOf(s'.workers[w]) == RestOf(s.workers[w])[1..]
      ensures step == Serve && s.golden == Serving(w) ==> RestOf(s.workers[w]) != []
      ensures !(step == Serve && s.golden == Serving(w)) ==> RestOf(s'.workers[w]) == RestOf(s.workers[w])
    {
      CallsStep(s, step, w);
    }
    hide Next, Enabled, Inv, RestOf;
    if step == Serve {
      var w := s.golden.worker;
      var old', new' := s'.workers[..|s.workers|], s'.workers[|s.workers|..];
      assert s'.workers == old' + new';
      LeftConcat(old', new');
      LeftSpawned(new', RestOf(s.workers[w])[0].spawns);
      LeftUpdate(s.workers, w, old'[w]);
      LeftSame(s.workers[w := old'[w]], old');
    } else {
      LeftSame(s.workers, s'.workers);
    }
  }

  function Serves(steps: seq<Step>): nat {
    if steps == [] then 0 else Serves(steps[..|steps| - 1]) + if steps[|steps| - 1] == Serve then 1 else 0
  }

  lemma {:induction false} ServesCount(states: seq<State>, steps: seq<Step>, i: nat)
    requires IsRun(states, steps) && Inv(states[0]) && i < |states|
    ensures CallsLeft(states[0].workers) == CallsLeft(states[i].workers) + Serves(steps[..i])
  {
    if i > 0 {
      hide Inv, Enabled, Next;
      ServesCount(states, steps, i - 1);
      RunBounded(states, steps, i - 1);
      assert Enabled(states[i - 1], steps[i - 1]) && states[i] == Next(states[i - 1], steps[i - 1]);
      LeftStep(states[i - 1], steps[i - 1]);
      assert steps[..i][..i - 1] == steps[..i - 1];
    }
  }

  lemma {:induction false} NoneLeft(ws: seq<WorkerPc>)
    requires forall w :: 0 <= w < |ws| ==> ws[w].Finished?
    ensures CallsLeft(ws) == 0
  {
    if ws != [] { NoneLeft(ws[1..]); }
  }

  /**
   During a wait for all spawns, the waiting thread serves exactly as many callbacks as the programs contain calls,
   those of nested spawns included.
   */
  lemma AllCallsAreServed(states: seq<State>, steps: seq<Step>)
    requires IsRun(states, steps) && Inv(states[0])
    requires states[|steps|].target == OnGroup && states[|steps|].golden == Resumed
    ensures Serves(steps) == CallsLeft(states[0].workers)
  {
    ServesCount(states, steps, |steps|);
    RunBounded(states, steps, |steps|);
    ResumedIsAwaited(states[|steps|]);
    NoneLeft(states[|steps|].workers);
    assert steps[..|steps|] == steps;
  }
}

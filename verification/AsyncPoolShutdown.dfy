/** Destroying the pool: it cannot deadlock, it comes to an end, and nothing accepted is lost on the way. */
module AsyncPoolShutdown {
  import opened AsyncPool
  import opened AsyncPoolSafety
  import CircularQ

  // ----- what joining means -----

  /** The destructor has nothing left to do and every worker has left its loop. */
  ghost predicate Joined(s: State) {
    && s.closing && s.toPost == 0 && |s.posters| > 0 && s.posters[0].Idle?
    && forall w :: 0 <= w < |s.workers| ==> s.workers[w].Done?
  }

  /** A running pool with nothing under way: every post is over and its message was taken from the queue. */
  ghost predicate Quiet(s: State) {
    !s.closing && s.queue == [] && forall t :: 0 <= t < |s.posters| ==> s.posters[t].Idle?
  }

  lemma {:induction false} AllDone(workers: seq<Worker>)
    ensures Sum(workers, DoneWorker) <= |workers|
    ensures Sum(workers, DoneWorker) == |workers| <==> forall w :: 0 <= w < |workers| ==> workers[w].Done?
  {
    if workers != [] {
      var front := workers[..|workers| - 1];
      AllDone(front);
      assert forall w :: 0 <= w < |front| ==> front[w] == workers[w];
    }
  }

  lemma {:induction false} HandledTerminates(entries: seq<Entry>)
    ensures Sum(entries, EndedWorker) <= Sum(entries, IsTerminate)
    ensures Sum(entries, EndedWorker) == Sum(entries, IsTerminate) ==>
      forall k :: 0 <= k < |entries| && entries[k].msg.kind.Terminate? ==> entries[k].fate.Handled?
    ensures Sum(entries, EndedWorker) > 0 ==>
      exists k :: 0 <= k < |entries| && entries[k].msg.kind.Terminate? && entries[k].fate.Handled?
  {
    if entries != [] {
      var front := entries[..|entries| - 1];
      HandledTerminates(front);
      assert forall k :: 0 <= k < |front| ==> front[k] == entries[k];
      if Sum(front, EndedWorker) > 0 {
        var k :| 0 <= k < |front| && front[k].msg.kind.Terminate? && front[k].fate.Handled?;
        assert entries[k].msg.kind.Terminate? && entries[k].fate.Handled?;
      } else if Sum(entries, EndedWorker) > 0 {
        assert entries[|entries| - 1].msg.kind.Terminate? && entries[|entries| - 1].fate.Handled?;
      }
    }
  }

  /**
    Graceful shutdown: after the join the queue is empty, nothing is in hand,
    and the sinks saw every accepted log message exactly once unless a later
    post overran it.
   */
  lemma JoinedIsDrained(s: State)
    requires Inv(s) && Joined(s) && |s.workers| >= 1
    ensures s.queue == []
    ensures forall k :: 0 <= k < |s.entries| ==> s.entries[k].fate.Handled? || s.entries[k].fate.Overrun?
    ensures forall k :: 0 <= k < |s.entries| && s.entries[k].msg.kind.Log? ==>
      (k in s.logged <==> !s.entries[k].fate.Overrun?)
    ensures forall i, j :: 0 <= i < j < |s.logged| ==> s.logged[i] != s.logged[j]
    ensures s.overruns == 0 ==> forall k :: 0 <= k < |s.entries| && s.entries[k].msg.kind.Log? ==> k in s.logged
  {
    AllDone(s.workers);
    HandledTerminates(s.entries);
    SumZero(s.entries, WasOverrun);
    var k :| 0 <= k < |s.entries| && s.entries[k].msg.kind.Terminate? && s.entries[k].fate.Handled?;
    hide Sum;
    NewestIsLast(s, k);
  }

  /** Behind a terminate message only terminate messages can be waiting. */
  lemma NewestIsLast(s: State, k: nat)
    requires Tickets(s) && TerminatesLast(s) && k < |s.entries|
    requires s.entries[k].msg.kind.Terminate? && s.entries[k].fate.Handled?
    ensures s.queue != [] ==>
      s.entries[|s.entries| - 1].fate.Queued? && s.entries[|s.entries| - 1].msg.kind.Terminate?
  {
  }

  // ----- no deadlock -----

  /**
    Steps that carry on what is under way: no new post, no start of the
    destruction, no time-out, no spurious wake-up.
   */
  predicate Productive(step: Step) {
    !step.WakeProducer? && !step.WakeConsumer? && !step.Enter? && !step.BeginClose?
  }

  /**
    In every state, of a running pool or of one being destroyed, some thread can
    carry on until all posts are through, or until the join is over, provided
    the queue can hold a message and there is a worker.
   */
  lemma NoDeadlock(s: State) returns (step: Step)
    requires Inv(s) && s.capacity >= 1 && |s.workers| >= 1 && !Joined(s) && !Quiet(s)
    ensures Enabled(s, step) && Productive(step)
  {
    if w :| 0 <= w < |s.workers| && !s.workers[w].SleepEmpty? && !s.workers[w].Done? {
      step := WorkerMove(s, w);
    } else if t :| 0 <= t < |s.posters| && !s.posters[t].SleepFull? && !s.posters[t].Idle? {
      step := PosterMove(s, t);
    } else if s.closing && s.posters[0].Idle? && s.toPost > 0 {
      step := PostTerminate;
    } else {
      Stuck(s);
      assert false;
      step := BeginClose;
    }
  }

  lemma WorkerMove(s: State, w: nat) returns (step: Step)
    requires Inv(s) && w < |s.workers| && !s.workers[w].SleepEmpty? && !s.workers[w].Done?
    ensures Enabled(s, step) && Productive(step)
  {
    match s.workers[w] {
      case NotifyPop(_) =>
        step := NotifyProducer(w, 0);
        if SomeSleepFull(s.posters) {
          var t :| 0 <= t < |s.posters| && s.posters[t].SleepFull?;
          step := NotifyProducer(w, t);
        }
      case Handling(_) =>
        step := Handle(w);
      case WokenEmpty(timedOut) =>
        step := if s.queue != [] then Pop(w) else if timedOut then GiveUp(w) else SleepOnEmpty(w);
      case Ready =>
        step := if s.queue != [] then Pop(w) else SleepOnEmpty(w);
    }
  }

  lemma PosterMove(s: State, t: nat) returns (step: Step)
    requires |s.queue| <= s.capacity && t < |s.posters| && !s.posters[t].SleepFull? && !s.posters[t].Idle?
    ensures Enabled(s, step) && Productive(step)
  {
    if s.posters[t].NotifyPush? {
      step := NotifyConsumer(t, 0);
      if SomeSleepEmpty(s.workers) {
        var w :| 0 <= w < |s.workers| && s.workers[w].SleepEmpty?;
        step := NotifyConsumer(t, w);
      }
    } else {
      step := if |s.queue| < s.capacity || !Blocks(s.posters[t]) then Push(t) else SleepOnFull(t);
    }
  }

  /** Why all threads cannot sleep at once: the wake-up invariants and the terminate tokens together. */
  lemma Stuck(s: State)
    requires Inv(s) && s.capacity >= 1 && |s.workers| >= 1
    requires forall w :: 0 <= w < |s.workers| ==> s.workers[w].SleepEmpty? || s.workers[w].Done?
    requires forall t :: 0 <= t < |s.posters| ==> s.posters[t].SleepFull? || s.posters[t].Idle?
    requires s.closing && s.posters[0].Idle? ==> s.toPost == 0
    ensures Joined(s) || Quiet(s)
  {
    SumZero(s.workers, PendingPop);
    SumZero(s.workers, WokenWorker);
    SumZero(s.posters, PendingPush);
    SumZero(s.posters, WokenPoster);
    AllDone(s.workers);
    HandledTerminates(s.entries);
    if SomeSleepEmpty(s.workers) {
      NothingLeft(s);
      TerminatesEnded(s.entries);
    }
    hide Sum;
  }

  /** With the queue empty and nothing in hand, everything was handled or overrun. */
  lemma NothingLeft(s: State)
    requires Tickets(s) && Hands(s) && s.queue == []
    requires forall w :: 0 <= w < |s.workers| ==> !Holds(s.workers[w])
    ensures forall k :: 0 <= k < |s.entries| ==> s.entries[k].fate.Handled? || s.entries[k].fate.Overrun?
  {
  }

  lemma {:induction false} TerminatesEnded(entries: seq<Entry>)
    requires forall k :: 0 <= k < |entries| && entries[k].msg.kind.Terminate? ==> entries[k].fate.Handled?
    ensures Sum(entries, EndedWorker) == Sum(entries, IsTerminate)
  {
    if entries != [] {
      var front := entries[..|entries| - 1];
      assert forall k :: 0 <= k < |front| ==> front[k] == entries[k];
      TerminatesEnded(front);
    }
  }

  // ----- termination -----

  function PosterWeight(p: Poster): nat {
    match p
    case Idle => 0
    case NotifyPush => 4
    case SleepFull(_) => 10
    case WokenFull(_) => 11
    case Posting(_, _) => 12
  }

  function WorkerWeight(w: Worker): nat {
    match w
    case SleepEmpty => 0
    case Done => 0
    case Ready => 1
    case WokenEmpty(_) => 2
    case Handling(_) => 2
    case NotifyPop(_) => 5
  }

  /** Work left to do: terminates to post, threads on their way, queued messages. */
  function Measure(s: State): nat {
    13 * s.toPost + Sum(s.posters, PosterWeight) + 5 * |s.queue| + Sum(s.workers, WorkerWeight)
  }

  lemma PosterWeighs(s: State, t: nat, p: Poster)
    requires t < |s.posters|
    ensures Sum(s.posters[t := p], PosterWeight) + PosterWeight(s.posters[t])
         == Sum(s.posters, PosterWeight) + PosterWeight(p)
  {
    SumUpdate(s.posters, t, p, PosterWeight);
  }

  lemma WorkerWeighs(s: State, w: nat, x: Worker)
    requires w < |s.workers|
    ensures Sum(s.workers[w := x], WorkerWeight) + WorkerWeight(s.workers[w])
         == Sum(s.workers, WorkerWeight) + WorkerWeight(x)
  {
    SumUpdate(s.workers, w, x, WorkerWeight);
  }

  /** How much work a step can add: a post, the terminate messages of the destructor, or a needless wake-up. */
  function Added(step: Step, workers: nat): nat {
    match step
    case Enter(_, _, _) => 12
    case BeginClose => 13 * workers
    case WakeProducer(_) => 1
    case WakeConsumer(_, _) => 2
    case _ => 0
  }

  /**
    Every productive step, on a running pool or during shutdown, reduces the
    measure; any other adds at most a fixed amount.
   */
  lemma MeasureFalls(s: State, step: Step)
    requires Inv(s) && Enabled(s, step)
    ensures Productive(step) ==> Measure(Apply(s, step)) < Measure(s)
    ensures Measure(Apply(s, step)) <= Measure(s) + Added(step, |s.workers|)
  {
    if step.Pop? || step.SleepOnEmpty? || step.GiveUp? || step.NotifyProducer? || step.WakeConsumer? || step.Handle? {
      WorkersAdvance(s, step);
    } else {
      PostersAdvance(s, step);
    }
    hide Measure, Enabled, Apply, Inv, Productive, Added;
  }

  lemma WorkersAdvance(s: State, step: Step)
    requires Enabled(s, step)
    requires step.Pop? || step.SleepOnEmpty? || step.GiveUp? || step.NotifyProducer? || step.WakeConsumer?
      || step.Handle?
    ensures Productive(step) ==> Measure(Apply(s, step)) < Measure(s)
    ensures Measure(Apply(s, step)) <= Measure(s) + Added(step, |s.workers|)
  {
    match step {
      case Pop(w) => WorkerWeighs(s, w, NotifyPop(s.queue[0]));
      case SleepOnEmpty(w) => WorkerWeighs(s, w, SleepEmpty);
      case GiveUp(w) => WorkerWeighs(s, w, Ready);
      case NotifyProducer(w, woken) =>
        WorkerWeighs(s, w, Handling(s.workers[w].ticket));
        if woken < |s.posters| && s.posters[woken].SleepFull? {
          PosterWeighs(s, woken, WokenFull(s.posters[woken].waiting));
        }
      case WakeConsumer(w, timeout) => WorkerWeighs(s, w, WokenEmpty(timeout));
      case Handle(w) =>
        WorkerWeighs(s, w, Done);
        WorkerWeighs(s, w, Ready);
    }
    hide Sum, SetFate, SomeSleepFull;
  }

  lemma PostersAdvance(s: State, step: Step)
    requires Inv(s) && Enabled(s, step)
    requires step.Enter? || step.Push? || step.SleepOnFull? || step.NotifyConsumer? || step.WakeProducer?
      || step.BeginClose? || step.PostTerminate?
    ensures Productive(step) ==> Measure(Apply(s, step)) < Measure(s)
    ensures Measure(Apply(s, step)) <= Measure(s) + Added(step, |s.workers|)
  {
    ThreadsMove(s, step);
    QueueMoves(s, step);
    ToPostMoves(s, step);
    match step {
      case Enter(t, msg, policy) => PosterWeighs(s, t, Posting(msg, policy));
      case Push(t) => PosterWeighs(s, t, NotifyPush);
      case SleepOnFull(t) => PosterWeighs(s, t, SleepFull(MsgOf(s.posters[t])));
      case NotifyConsumer(t, woken) =>
        PosterWeighs(s, t, Idle);
        WakingWeighs(s.workers, woken);
      case WakeProducer(t) => PosterWeighs(s, t, WokenFull(s.posters[t].waiting));
      case PostTerminate => PosterWeighs(s, 0, Posting(Msg(Terminate, 0), Block));
      case BeginClose =>
    }
    hide Sum, Hands, Delivery, SinkOrder, ProducersWoken, ConsumersWoken, TerminatesLast, Tokens, Counted, Gate;
    hide SomeSleepEmpty, SetFate, AfterPush, WakeWorker;
  }

  lemma ToPostMoves(s: State, step: Step)
    requires Enabled(s, step)
    ensures Apply(s, step).toPost ==
      if step.BeginClose? then |s.workers| else if step.PostTerminate? then s.toPost - 1 else s.toPost
    ensures step.NotifyConsumer? ==>
      Apply(s, step).posters == s.posters[step.t := Idle] && Apply(s, step).workers == WakeWorker(s.workers, step.woken)
    ensures step.WakeProducer? ==> Apply(s, step).posters == s.posters[step.t := WokenFull(s.posters[step.t].waiting)]
  {
  }

  lemma WakingWeighs(workers: seq<Worker>, woken: nat)
    ensures Sum(WakeWorker(workers, woken), WorkerWeight) <= Sum(workers, WorkerWeight) + 2
  {
    if woken < |workers| && workers[woken].SleepEmpty? {
      SumUpdate(workers, woken, WokenEmpty(false), WorkerWeight);
    }
    hide Sum;
  }

  function ProductiveSteps(steps: seq<Step>): nat {
    if steps == [] then 0
    else ProductiveSteps(steps[..|steps| - 1]) + (if Productive(steps[|steps| - 1]) then 1 else 0)
  }

  lemma {:induction false} InvAlong(states: seq<State>, steps: seq<Step>)
    requires IsRun(states, steps) && Inv(states[0])
    ensures Inv(states[|steps|])
  {
    if steps != [] {
      var n := |steps| - 1;
      InvAlong(states[..n + 1], steps[..n]);
      InvKept(states[n], steps[n]);
    }
    hide Inv, Apply, Enabled;
  }

  function AddedBy(steps: seq<Step>, workers: nat): nat {
    if steps == [] then 0 else AddedBy(steps[..|steps| - 1], workers) + Added(steps[|steps| - 1], workers)
  }

  /**
    Over any run the productive steps are paid for by the work there was and the
    work that was added: without new posts and needless wake-ups they come to an end.
   */
  lemma {:induction false} WorkIsBounded(states: seq<State>, steps: seq<Step>)
    requires IsRun(states, steps) && Inv(states[0])
    ensures Measure(states[|steps|]) + ProductiveSteps(steps)
      <= Measure(states[0]) + AddedBy(steps, |states[0].workers|)
  {
    if steps != [] {
      var n := |steps| - 1;
      WorkIsBounded(states[..n + 1], steps[..n]);
      InvAlong(states[..n + 1], steps[..n]);
      WorkersStay(states[..n + 1], steps[..n]);
      MeasureFalls(states[n], steps[n]);
      NothingAdded(steps[n], |states[0].workers|);
    }
    hide Inv, Apply, Enabled, Measure, Productive, Added;
  }

  lemma NothingAdded(step: Step, workers: nat)
    ensures Productive(step) ==> Added(step, workers) == 0
  {
  }

  /** Once begun, the destruction goes on, and nothing but needless wake-ups adds to its work. */
  lemma {:induction false} ShutdownIsBounded(states: seq<State>, steps: seq<Step>)
    requires IsRun(states, steps) && Inv(states[0]) && states[0].closing
    ensures states[|steps|].closing && ProductiveSteps(steps) <= |steps|
    ensures AddedBy(steps, |states[0].workers|) <= 2 * (|steps| - ProductiveSteps(steps))
    ensures Measure(states[|steps|]) + ProductiveSteps(steps)
      <= Measure(states[0]) + 2 * (|steps| - ProductiveSteps(steps))
  {
    if steps != [] {
      var n := |steps| - 1;
      ShutdownIsBounded(states[..n + 1], steps[..n]);
      ClosingStep(states[n], steps[n], |states[0].workers|);
    }
    WorkIsBounded(states, steps);
    hide Inv, Apply, Enabled, Measure, Productive, Added;
  }

  lemma ClosingStep(s: State, step: Step, workers: nat)
    requires s.closing && Enabled(s, step)
    ensures Apply(s, step).closing && Added(step, workers) <= if Productive(step) then 0 else 2
  {
  }

  /**
    From every state of the destruction a schedule finishes the join, and from
    every state of a running pool one gets all posts through and the queue emptied.
   */
  lemma {:induction false} CanFinish(s: State) returns (states: seq<State>, steps: seq<Step>)
    requires Inv(s) && s.capacity >= 1 && |s.workers| >= 1
    ensures IsRun(states, steps) && states[0] == s
    ensures if s.closing then Joined(states[|steps|]) else Quiet(states[|steps|])
    ensures forall i :: 0 <= i < |steps| ==> Productive(steps[i])
    decreases Measure(s)
  {
    if Joined(s) || Quiet(s) {
      states, steps := [s], [];
    } else {
      var step := NoDeadlock(s);
      MeasureFalls(s, step);
      InvKept(s, step);
      CapacityFixed(s, step);
      StaysClosing(s, step);
      var later, more := CanFinish(Apply(s, step));
      states, steps := [s] + later, [step] + more;
      hide Inv, Apply, Enabled, Measure, Productive;
    }
  }

  lemma StaysClosing(s: State, step: Step)
    requires Enabled(s, step) && Productive(step)
    ensures Apply(s, step).closing == s.closing
  {
  }

  lemma CapacityFixed(s: State, step: Step)
    requires Enabled(s, step)
    ensures Apply(s, step).capacity == s.capacity && |Apply(s, step).workers| == |s.workers|
  {
  }

  lemma {:induction false} WorkersStay(states: seq<State>, steps: seq<Step>)
    requires IsRun(states, steps)
    ensures |states[|steps|].workers| == |states[0].workers| && states[|steps|].capacity == states[0].capacity
  {
    if steps != [] {
      var n := |steps| - 1;
      WorkersStay(states[..n + 1], steps[..n]);
      CapacityFixed(states[n], steps[n]);
    }
    hide Apply, Enabled;
  }

  /**
    The condition is exact: on a queue of capacity zero the destructor waits for
    ever to post its first terminate message.
   */
  lemma {:induction false} ZeroCapacityNeverJoins(states: seq<State>, steps: seq<Step>)
    requires IsRun(states, steps) && Init(states[0]) && states[0].capacity == 0
    ensures !Joined(states[|steps|])
  {
    NoTerminateEnters(states, steps);
    Reachable(states, steps, |steps|);
    WorkersStay(states, steps);
    var s := states[|steps|];
    SumZero(s.entries, IsTerminate);
    hide Sum, IsRun;
  }

  lemma {:induction false} NoTerminateEnters(states: seq<State>, steps: seq<Step>)
    requires IsRun(states, steps) && Init(states[0]) && states[0].capacity == 0
    ensures forall k :: 0 <= k < |states[|steps|].entries| ==> !states[|steps|].entries[k].msg.kind.Terminate?
  {
    if steps != [] {
      var n := |steps| - 1;
      NoTerminateEnters(states[..n + 1], steps[..n]);
      WorkersStay(states[..n + 1], steps[..n]);
      Reachable(states, steps, n);
      NoTerminatePushed(states[n], steps[n]);
    }
    hide Apply, Enabled, Inv;
  }

  lemma NoTerminatePushed(s: State, step: Step)
    requires Inv(s) && s.capacity == 0 && Enabled(s, step)
    requires forall k :: 0 <= k < |s.entries| ==> !s.entries[k].msg.kind.Terminate?
    ensures forall k :: 0 <= k < |Apply(s, step).entries| ==> !Apply(s, step).entries[k].msg.kind.Terminate?
  {
    if step.Push? {
      assert MsgOf(s.posters[step.t]).kind == KindOf(s.posters[step.t]);
    }
  }

  // ----- the blocking policy -----

  ghost predicate OnlyBlocking(s: State) {
    s.overruns == 0 && forall t :: 0 <= t < |s.posters| && WantsPush(s.posters[t]) ==> Blocks(s.posters[t])
  }

  /** If every post blocks when the queue is full, nothing is ever overrun. */
  lemma {:induction false} BlockingNeverOverruns(states: seq<State>, steps: seq<Step>)
    requires IsRun(states, steps) && Init(states[0])
    requires forall i :: 0 <= i < |steps| && steps[i].Enter? ==> steps[i].policy == Block
    ensures OnlyBlocking(states[|steps|])
  {
    if steps != [] {
      var n := |steps| - 1;
      BlockingNeverOverruns(states[..n + 1], steps[..n]);
      assert OnlyBlocking(states[n]);
      BlockingStep(states[n], steps[n]);
    }
    hide Apply, Enabled;
  }

  lemma BlockingStep(s: State, step: Step)
    requires OnlyBlocking(s) && Enabled(s, step) && (step.Enter? ==> step.policy == Block)
    ensures OnlyBlocking(Apply(s, step))
  {
  }
}

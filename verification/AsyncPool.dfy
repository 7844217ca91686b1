/**
  The asynchronous logging protocol: posting threads, a bounded queue guarded by
  one mutex and two condition variables, a pool of workers, and the destructor
  that sends one terminate message per worker.  Every step below is one atomic
  action of one thread: a critical section of the queue, a notification after
  the mutex was released, a wake-up, or the handling of a message.
 */
module AsyncPool {
  import CircularQ

  datatype Kind = Log | Flush | Terminate

  datatype Policy = Block | OverrunOldest

  datatype Msg = Msg(kind: Kind, payload: nat)

  /** Where a posting thread stands in `post_async_msg_`. */
  datatype Poster =
    | Idle
    | Posting(msg: Msg, policy: Policy)  // about to lock the queue
    | SleepFull(waiting: Msg)            // waits on pop_cv_
    | WokenFull(waiting: Msg)            // notified or spuriously woken, about to lock again
    | NotifyPush                         // released the mutex, push_cv_.notify_one() is due

  /** Where a worker stands in `process_next_msg_`. */
  datatype Worker =
    | Ready
    | SleepEmpty                      // waits on push_cv_
    | WokenEmpty(timedOut: bool)
    | NotifyPop(ticket: nat)          // took a message, pop_cv_.notify_one() is due
    | Handling(ticket: nat)
    | Done

  /** What became of a message that entered the queue. */
  datatype Fate = Queued | InHand(worker: nat) | Handled | Overrun

  datatype Entry = Entry(msg: Msg, fate: Fate)

  /**
    Messages are known by their ticket, the position in the order of enqueueing;
    `entries` records them, and `queue` holds the tickets in the ring.
    posters[0] is the thread that destroys the pool.
   */
  datatype State = State(
    capacity: nat,
    queue: seq<nat>,
    posters: seq<Poster>,
    workers: seq<Worker>,
    closing: bool,
    toPost: nat,
    entries: seq<Entry>,
    logged: seq<nat>,
    overruns: nat)

  // ----- steps -----

  datatype Step =
    | Enter(t: nat, msg: Msg, policy: Policy)
    | Push(t: nat)
    | SleepOnFull(t: nat)
    | NotifyConsumer(t: nat, woken: nat)
    | WakeProducer(t: nat)                // spurious
    | Pop(w: nat)
    | SleepOnEmpty(w: nat)
    | GiveUp(w: nat)                      // dequeue_for timed out on an empty queue
    | NotifyProducer(w: nat, woken: nat)
    | WakeConsumer(w: nat, timeout: bool) // spurious or timed out
    | Handle(w: nat)
    | BeginClose
    | PostTerminate

  predicate WantsPush(p: Poster) {
    p.Posting? || p.WokenFull?
  }

  function MsgOf(p: Poster): Msg
    requires WantsPush(p)
  {
    if p.Posting? then p.msg else p.waiting
  }

  predicate Blocks(p: Poster)
    requires WantsPush(p)
  {
    p.Posting? ==> p.policy == Block
  }

  predicate WantsPop(w: Worker) {
    w.Ready? || w.WokenEmpty?
  }

  predicate Holds(w: Worker) {
    w.NotifyPop? || w.Handling?
  }

  predicate SomeSleepEmpty(workers: seq<Worker>) {
    exists w :: 0 <= w < |workers| && workers[w].SleepEmpty?
  }

  predicate SomeSleepFull(posters: seq<Poster>) {
    exists t :: 0 <= t < |posters| && posters[t].SleepFull?
  }

  predicate Enabled(s: State, step: Step) {
    match step
    case Enter(t, msg, policy) =>
      // the weak pointer can be locked, so the pool stays alive until this post is over
      !s.closing && 0 < t < |s.posters| && s.posters[t].Idle? && !msg.kind.Terminate?
    case Push(t) =>
      t < |s.posters| && WantsPush(s.posters[t]) && (Blocks(s.posters[t]) ==> |s.queue| < s.capacity)
    case SleepOnFull(t) =>
      t < |s.posters| && WantsPush(s.posters[t]) && Blocks(s.posters[t]) && |s.queue| == s.capacity
    case NotifyConsumer(t, woken) =>
      && t < |s.posters| && s.posters[t].NotifyPush?
      && (SomeSleepEmpty(s.workers) ==> woken < |s.workers| && s.workers[woken].SleepEmpty?)
    case WakeProducer(t) => t < |s.posters| && s.posters[t].SleepFull?
    case Pop(w) => w < |s.workers| && WantsPop(s.workers[w]) && s.queue != []
    case SleepOnEmpty(w) =>
      w < |s.workers| && (s.workers[w].Ready? || s.workers[w] == WokenEmpty(false)) && s.queue == []
    case GiveUp(w) => w < |s.workers| && s.workers[w] == WokenEmpty(true) && s.queue == []
    case NotifyProducer(w, woken) =>
      && w < |s.workers| && s.workers[w].NotifyPop?
      && (SomeSleepFull(s.posters) ==> woken < |s.posters| && s.posters[woken].SleepFull?)
    case WakeConsumer(w, _) => w < |s.workers| && s.workers[w].SleepEmpty?
    case Handle(w) => w < |s.workers| && s.workers[w].Handling? && s.workers[w].ticket < |s.entries|
    case BeginClose =>
      // the last shared pointer to the pool is gone: no post is under way
      !s.closing && forall t :: 0 <= t < |s.posters| ==> s.posters[t].Idle?
    case PostTerminate => s.closing && s.toPost > 0 && |s.posters| > 0 && s.posters[0].Idle?
  }

  function SetFate(entries: seq<Entry>, ticket: nat, fate: Fate): seq<Entry> {
    if ticket < |entries| then entries[ticket := entries[ticket].(fate := fate)] else entries
  }

  /** push_back under the mutex: a full ring gives up its oldest message, possibly the new one itself. */
  function AfterPush(s: State, t: nat): State
    requires t < |s.posters| && WantsPush(s.posters[t])
  {
    var ticket := |s.entries|;
    var entries := s.entries + [Entry(MsgOf(s.posters[t]), Queued)];
    var s' := s.(queue := CircularQ.Pushed(s.capacity, s.queue, ticket), posters := s.posters[t := NotifyPush]);
    if |s.queue| < s.capacity then s'.(entries := entries)
    else s'.(entries := SetFate(entries, (s.queue + [ticket])[0], Overrun), overruns := s.overruns + 1)
  }

  function WakeWorker(workers: seq<Worker>, w: nat): seq<Worker> {
    if w < |workers| && workers[w].SleepEmpty? then workers[w := WokenEmpty(false)] else workers
  }

  function WakePoster(posters: seq<Poster>, t: nat): seq<Poster> {
    if t < |posters| && posters[t].SleepFull? then posters[t := WokenFull(posters[t].waiting)] else posters
  }

  function AfterHandle(s: State, w: nat): State
    requires Enabled(s, Handle(w))
  {
    var ticket := s.workers[w].ticket;
    var kind := s.entries[ticket].msg.kind;
    s.(workers := s.workers[w := if kind.Terminate? then Done else Ready],
       entries := SetFate(s.entries, ticket, Handled),
       logged := if kind.Log? then s.logged + [ticket] else s.logged)
  }

  function Apply(s: State, step: Step): State
    requires Enabled(s, step)
  {
    match step
    case Enter(t, msg, policy) => s.(posters := s.posters[t := Posting(msg, policy)])
    case Push(t) => AfterPush(s, t)
    case SleepOnFull(t) => s.(posters := s.posters[t := SleepFull(MsgOf(s.posters[t]))])
    case NotifyConsumer(t, woken) => s.(posters := s.posters[t := Idle], workers := WakeWorker(s.workers, woken))
    case WakeProducer(t) => s.(posters := WakePoster(s.posters, t))
    case Pop(w) =>
      s.(queue := s.queue[1..], workers := s.workers[w := NotifyPop(s.queue[0])],
         entries := SetFate(s.entries, s.queue[0], InHand(w)))
    case SleepOnEmpty(w) => s.(workers := s.workers[w := SleepEmpty])
    case GiveUp(w) => s.(workers := s.workers[w := Ready])
    case NotifyProducer(w, woken) =>
      s.(workers := s.workers[w := Handling(s.workers[w].ticket)], posters := WakePoster(s.posters, woken))
    case WakeConsumer(w, timeout) => s.(workers := s.workers[w := WokenEmpty(timeout)])
    case Handle(w) => AfterHandle(s, w)
    case BeginClose => s.(closing := true, toPost := |s.workers|)
    case PostTerminate => s.(toPost := s.toPost - 1, posters := s.posters[0 := Posting(Msg(Terminate, 0), Block)])
  }

  /** The constructor refuses to start without workers or with more than a thousand. */
  ghost predicate Init(s: State) {
    && s.queue == [] && s.entries == [] && s.logged == [] && s.overruns == 0 && s.toPost == 0 && !s.closing
    && |s.posters| >= 1 && (forall t :: 0 <= t < |s.posters| ==> s.posters[t].Idle?)
    && 1 <= |s.workers| <= 1000 && (forall w :: 0 <= w < |s.workers| ==> s.workers[w].Ready?)
  }

  /** A run: consecutive states joined by enabled steps. */
  ghost predicate IsRun(states: seq<State>, steps: seq<Step>) {
    && |states| == |steps| + 1
    && forall i :: 0 <= i < |steps| ==> Enabled(states[i], steps[i]) && states[i + 1] == Apply(states[i], steps[i])
  }

  // ----- counting threads -----

  function Sum<T>(s: seq<T>, f: T -> nat): nat {
    if s == [] then 0 else Sum(s[..|s| - 1], f) + f(s[|s| - 1])
  }

  lemma {:induction false} SumUpdate<T>(s: seq<T>, i: nat, x: T, f: T -> nat)
    requires i < |s|
    ensures Sum(s[i := x], f) + f(s[i]) == Sum(s, f) + f(x)
  {
    var last := |s| - 1;
    if i < last {
      SumUpdate(s[..last], i, x, f);
      assert s[i := x][..last] == s[..last][i := x];
    } else {
      assert s[i := x][..last] == s[..last];
    }
  }

  lemma {:induction false} SumZero<T>(s: seq<T>, f: T -> nat)
    ensures Sum(s, f) == 0 <==> forall i :: 0 <= i < |s| ==> f(s[i]) == 0
  {
    if s != [] {
      var front := s[..|s| - 1];
      SumZero(front, f);
      assert forall i :: 0 <= i < |front| ==> front[i] == s[i];
    }
  }

  lemma SumAppend<T>(s: seq<T>, x: T, f: T -> nat)
    ensures Sum(s + [x], f) == Sum(s, f) + f(x)
  {
    assert (s + [x])[..|s|] == s;
  }

  function PendingPush(p: Poster): nat { if p.NotifyPush? then 1 else 0 }
  function WokenPoster(p: Poster): nat { if p.WokenFull? then 1 else 0 }
  function PendingPop(w: Worker): nat { if w.NotifyPop? then 1 else 0 }
  function WokenWorker(w: Worker): nat { if w.WokenEmpty? then 1 else 0 }
  function DoneWorker(w: Worker): nat { if w.Done? then 1 else 0 }
  function IsTerminate(e: Entry): nat { if e.msg.kind.Terminate? then 1 else 0 }
  function EndedWorker(e: Entry): nat { if e.msg.kind.Terminate? && e.fate.Handled? then 1 else 0 }
  function WasOverrun(e: Entry): nat { if e.fate.Overrun? then 1 else 0 }
}

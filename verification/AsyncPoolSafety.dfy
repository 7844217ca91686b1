/** What every reachable state of the asynchronous pool satisfies. */
module AsyncPoolSafety {
  import opened AsyncPool
  import CircularQ

  // ----- the invariant, part by part -----

  /** The ring holds consecutive tickets, the newest ones; everything older has left it. */
  ghost predicate Tickets(s: State) {
    && |s.queue| <= s.capacity && |s.queue| <= |s.entries|
    && (forall i :: 0 <= i < |s.queue| ==> s.queue[i] == |s.entries| - |s.queue| + i)
    && (forall k :: 0 <= k < |s.entries| ==> (s.entries[k].fate.Queued? <==> k >= |s.entries| - |s.queue|))
  }

  /** A message is in hand exactly with the worker that took it. */
  ghost predicate Hands(s: State) {
    && (forall w :: 0 <= w < |s.workers| && Holds(s.workers[w]) ==>
          s.workers[w].ticket < |s.entries| && s.entries[s.workers[w].ticket].fate == InHand(w))
    && (forall k :: 0 <= k < |s.entries| && s.entries[k].fate.InHand? ==>
          && s.entries[k].fate.worker < |s.workers| && Holds(s.workers[s.entries[k].fate.worker])
          && s.workers[s.entries[k].fate.worker].ticket == k)
  }

  /** The sinks saw every handled log message, once. */
  ghost predicate Delivery(s: State) {
    && (forall i :: 0 <= i < |s.logged| ==>
          && s.logged[i] < |s.entries|
          && s.entries[s.logged[i]].fate.Handled? && s.entries[s.logged[i]].msg.kind.Log?)
    && (forall i, j :: 0 <= i < j < |s.logged| ==> s.logged[i] != s.logged[j])
    && (forall k :: 0 <= k < |s.entries| && s.entries[k].fate.Handled? && s.entries[k].msg.kind.Log? ==> k in s.logged)
  }

  /** With one worker the sinks see tickets in increasing order. */
  ghost predicate SinkOrder(s: State) {
    |s.workers| == 1 ==>
      && (forall i, j :: 0 <= i < j < |s.logged| ==> s.logged[i] < s.logged[j])
      && (Holds(s.workers[0]) ==> forall i :: 0 <= i < |s.logged| ==> s.logged[i] < s.workers[0].ticket)
  }

  /** No lost wake-up of a producer: a sleeping one has fewer free slots than wake-ups are still under way. */
  ghost predicate ProducersWoken(s: State) {
    SomeSleepFull(s.posters) ==> s.capacity - |s.queue| <= Sum(s.workers, PendingPop) + Sum(s.posters, WokenPoster)
  }

  /** No lost wake-up of a consumer. */
  ghost predicate ConsumersWoken(s: State) {
    SomeSleepEmpty(s.workers) ==> |s.queue| <= Sum(s.posters, PendingPush) + Sum(s.workers, WokenWorker)
  }

  /** The gate: once the pool is being destroyed nobody else posts, and only the destructor sends terminates. */
  ghost predicate Gate(s: State) {
    && |s.posters| >= 1
    && (forall t :: 0 < t < |s.posters| ==>
          && (WantsPush(s.posters[t]) || s.posters[t].SleepFull? ==> !KindOf(s.posters[t]).Terminate?)
          && (s.closing ==> s.posters[t].Idle?))
    && (!s.closing ==> s.posters[0].Idle? && s.toPost == 0)
    && (WantsPush(s.posters[0]) || s.posters[0].SleepFull? ==> KindOf(s.posters[0]).Terminate?)
    && (WantsPush(s.posters[0]) ==> Blocks(s.posters[0]))
  }

  function KindOf(p: Poster): Kind
    requires WantsPush(p) || p.SleepFull?
  {
    if p.Posting? then p.msg.kind else p.waiting.kind
  }

  /** Terminate messages come last and are never overrun. */
  ghost predicate TerminatesLast(s: State) {
    && (forall k :: 0 <= k < |s.entries| && s.entries[k].msg.kind.Terminate? ==>
          s.closing && !s.entries[k].fate.Overrun?)
    && (forall i, j :: 0 <= i < j < |s.entries| && s.entries[i].msg.kind.Terminate? ==>
          s.entries[j].msg.kind.Terminate?)
  }

  function Pending(s: State): nat {
    if |s.posters| > 0 && (WantsPush(s.posters[0]) || s.posters[0].SleepFull?) then 1 else 0
  }

  /** Terminate tokens: one per worker, and a worker is done for each one handled. */
  ghost predicate Tokens(s: State) {
    && (s.closing ==> s.toPost + Pending(s) + Sum(s.entries, IsTerminate) == |s.workers|)
    && Sum(s.workers, DoneWorker) == Sum(s.entries, EndedWorker)
  }

  ghost predicate Counted(s: State) {
    Sum(s.entries, WasOverrun) == s.overruns
  }

  ghost predicate Inv(s: State) {
    && Tickets(s) && Hands(s) && Delivery(s) && SinkOrder(s) && ProducersWoken(s) && ConsumersWoken(s)
    && Gate(s) && TerminatesLast(s) && Tokens(s) && Counted(s)
  }

  // ----- every part is kept by every step -----

  lemma TicketsKept(s: State, step: Step)
    requires Tickets(s) && Hands(s) && Enabled(s, step)
    ensures Tickets(Apply(s, step))
  {
    var s' := Apply(s, step);
    match step {
      case Push(t) =>
        if |s.queue| == s.capacity {
          assert |s'.queue| == |s.queue|;
        }
      case Pop(w) =>
      case Handle(w) =>
      case _ =>
        assert s'.queue == s.queue && s'.entries == s.entries;
    }
  }

  lemma HandsKept(s: State, step: Step)
    requires Tickets(s) && Hands(s) && Enabled(s, step)
    ensures Hands(Apply(s, step))
  {
    match step {
      case Push(t) => HandsAfterPush(s, t);
      case Pop(w) => HandsAfterPop(s, w);
      case Handle(w) => HandsAfterHandle(s, w);
      case _ => OnlyThreadsMove(s, step);
    }
    hide Apply, Enabled;
  }

  lemma HandsAfterPush(s: State, t: nat)
    requires Tickets(s) && Hands(s) && Enabled(s, Push(t))
    ensures Hands(Apply(s, Push(t)))
  {
    var s' := AfterPush(s, t);
    var first := (s.queue + [|s.entries|])[0];
    assert forall k :: 0 <= k < |s.entries| ==>
      s'.entries[k] == s.entries[k] || (k == first && s'.entries[k].fate.Overrun?);
    assert s.queue != [] ==> s.entries[first].fate.Queued?;
  }

  lemma HandsAfterPop(s: State, w: nat)
    requires Tickets(s) && Hands(s) && Enabled(s, Pop(w))
    ensures Hands(Apply(s, Pop(w)))
  {
    assert s.entries[s.queue[0]].fate.Queued?;
  }

  lemma HandsAfterHandle(s: State, w: nat)
    requires Hands(s) && Enabled(s, Handle(w))
    ensures Hands(Apply(s, Handle(w)))
  {
  }

  /** Steps other than a push, a pop and the handling of a message leave the messages alone. */
  lemma OnlyThreadsMove(s: State, step: Step)
    requires Enabled(s, step) && !step.Push? && !step.Pop? && !step.Handle?
    ensures var s' := Apply(s, step);
      && s'.entries == s.entries && s'.logged == s.logged && s'.queue == s.queue && s'.capacity == s.capacity
      && |s'.workers| == |s.workers|
      && forall w :: 0 <= w < |s.workers| ==>
        && Holds(s.workers[w]) == Holds(s'.workers[w])
        && (Holds(s.workers[w]) ==> s.workers[w].ticket == s'.workers[w].ticket)
  {
  }

  lemma DeliveryKept(s: State, step: Step)
    requires Tickets(s) && Hands(s) && Delivery(s) && Enabled(s, step)
    ensures Delivery(Apply(s, step))
  {
    match step {
      case Push(t) => DeliveryAfterPush(s, t);
      case Pop(w) => assert s.entries[s.queue[0]].fate.Queued?;
      case Handle(w) => DeliveryAfterHandle(s, w);
      case _ => OnlyThreadsMove(s, step);
    }
    hide Apply;
  }

  lemma DeliveryAfterPush(s: State, t: nat)
    requires Tickets(s) && Delivery(s) && Enabled(s, Push(t))
    ensures Delivery(Apply(s, Push(t)))
  {
    var first := (s.queue + [|s.entries|])[0];
    assert s.queue != [] ==> s.entries[first].fate.Queued?;
  }

  lemma DeliveryAfterHandle(s: State, w: nat)
    requires Hands(s) && Delivery(s) && Enabled(s, Handle(w))
    ensures Delivery(Apply(s, Handle(w)))
  {
    var s' := AfterHandle(s, w);
    assert s.entries[s.workers[w].ticket].fate.InHand?;
    assert forall k :: k in s.logged ==> k in s'.logged;
    if |s'.logged| > |s.logged| {
      assert s'.logged[|s.logged|] == s.workers[w].ticket;
    }
  }

  lemma SinkOrderKept(s: State, step: Step)
    requires Tickets(s) && Hands(s) && Delivery(s) && SinkOrder(s) && Enabled(s, step)
    ensures SinkOrder(Apply(s, step))
  {
    match step {
      case Push(t) =>
        assert AfterPush(s, t).logged == s.logged && AfterPush(s, t).workers == s.workers;
      case Pop(w) =>
        assert forall i :: 0 <= i < |s.logged| ==> !s.entries[s.logged[i]].fate.Queued?;
        assert Apply(s, step).logged == s.logged && Apply(s, step).workers == s.workers[w := NotifyPop(s.queue[0])];
      case Handle(w) => SinkOrderAfterHandle(s, w);
      case _ => OnlyThreadsMove(s, step);
    }
    hide Apply, AfterPush, Enabled;
  }

  lemma SinkOrderAfterHandle(s: State, w: nat)
    requires SinkOrder(s) && Enabled(s, Handle(w))
    ensures SinkOrder(Apply(s, Handle(w)))
  {
  }

  lemma GateKept(s: State, step: Step)
    requires Gate(s) && Enabled(s, step)
    ensures Gate(Apply(s, step))
  {
  }

  lemma TerminatesLastKept(s: State, step: Step)
    requires Tickets(s) && Gate(s) && TerminatesLast(s) && Enabled(s, step)
    ensures TerminatesLast(Apply(s, step))
  {
    var s' := Apply(s, step);
    match step {
      case Push(t) => TerminatesAfterPush(s, t);
      case Pop(w) =>
        assert forall k :: 0 <= k < |s.entries| ==> s'.entries[k].msg == s.entries[k].msg;
      case Handle(w) =>
        assert forall k :: 0 <= k < |s.entries| ==> s'.entries[k].msg == s.entries[k].msg;
      case _ =>
        assert s'.entries == s.entries && (s.closing ==> s'.closing);
    }
  }

  lemma TerminatesAfterPush(s: State, t: nat)
    requires Tickets(s) && Gate(s) && TerminatesLast(s) && Enabled(s, Push(t))
    ensures TerminatesLast(Apply(s, Push(t)))
  {
    var s' := AfterPush(s, t);
    var n := |s.entries|;
    assert MsgOf(s.posters[t]).kind == KindOf(s.posters[t]);
    assert forall k :: 0 <= k < n ==> s'.entries[k].msg == s.entries[k].msg;
    assert s'.entries[n].msg == MsgOf(s.posters[t]);
    if s.closing {
      assert t == 0 && Blocks(s.posters[0]);
      assert forall k :: 0 <= k < n ==> s'.entries[k] == s.entries[k];
    } else {
      assert t > 0;
    }
  }

  // ----- no lost wake-ups -----

  /** Replacing one thread's state changes a count by the difference of the two weights. */
  lemma PosterMoves(s: State, t: nat, p: Poster)
    requires t < |s.posters|
    ensures Sum(s.posters[t := p], WokenPoster) + WokenPoster(s.posters[t])
         == Sum(s.posters, WokenPoster) + WokenPoster(p)
    ensures Sum(s.posters[t := p], PendingPush) + PendingPush(s.posters[t])
         == Sum(s.posters, PendingPush) + PendingPush(p)
    ensures !p.SleepFull? && SomeSleepFull(s.posters[t := p]) ==> SomeSleepFull(s.posters)
  {
    SumUpdate(s.posters, t, p, WokenPoster);
    SumUpdate(s.posters, t, p, PendingPush);
  }

  lemma WorkerMoves(s: State, w: nat, x: Worker)
    requires w < |s.workers|
    ensures Sum(s.workers[w := x], PendingPop) + PendingPop(s.workers[w])
         == Sum(s.workers, PendingPop) + PendingPop(x)
    ensures Sum(s.workers[w := x], WokenWorker) + WokenWorker(s.workers[w])
         == Sum(s.workers, WokenWorker) + WokenWorker(x)
    ensures Sum(s.workers[w := x], DoneWorker) + DoneWorker(s.workers[w])
         == Sum(s.workers, DoneWorker) + DoneWorker(x)
    ensures !x.SleepEmpty? && SomeSleepEmpty(s.workers[w := x]) ==> SomeSleepEmpty(s.workers)
  {
    SumUpdate(s.workers, w, x, PendingPop);
    SumUpdate(s.workers, w, x, WokenWorker);
    SumUpdate(s.workers, w, x, DoneWorker);
  }

  /** The one thread whose state a step changes on its own account, and its new state. */
  lemma ThreadsMove(s: State, step: Step)
    requires Enabled(s, step)
    ensures step.Enter? ==> Apply(s, step).posters == s.posters[step.t := Posting(step.msg, step.policy)]
    ensures step.Push? ==> Apply(s, step).posters == s.posters[step.t := NotifyPush]
    ensures step.SleepOnFull? ==> Apply(s, step).posters == s.posters[step.t := SleepFull(MsgOf(s.posters[step.t]))]
    ensures step.PostTerminate? ==> Apply(s, step).posters == s.posters[0 := Posting(Msg(Terminate, 0), Block)]
    ensures (step.Pop? || step.SleepOnEmpty? || step.GiveUp? || step.WakeConsumer? || step.Handle?
             || step.BeginClose?) ==>
      Apply(s, step).posters == s.posters
    ensures (step.Enter? || step.Push? || step.SleepOnFull? || step.WakeProducer? || step.BeginClose?
             || step.PostTerminate?) ==>
      Apply(s, step).workers == s.workers
    ensures step.Pop? ==> Apply(s, step).workers == s.workers[step.w := NotifyPop(s.queue[0])]
    ensures step.SleepOnEmpty? ==> Apply(s, step).workers == s.workers[step.w := SleepEmpty]
    ensures step.GiveUp? ==> Apply(s, step).workers == s.workers[step.w := Ready]
    ensures step.WakeConsumer? ==> Apply(s, step).workers == s.workers[step.w := WokenEmpty(step.timeout)]
    ensures step.Handle? ==>
      Apply(s, step).workers == s.workers[step.w := Done] || Apply(s, step).workers == s.workers[step.w := Ready]
  {
  }

  /** Free places and queue length after each step. */
  lemma QueueMoves(s: State, step: Step)
    requires |s.queue| <= s.capacity && Enabled(s, step)
    ensures Apply(s, step).capacity == s.capacity
    ensures step.Push? ==> |Apply(s, step).queue| == if |s.queue| < s.capacity then |s.queue| + 1 else s.capacity
    ensures step.Pop? ==> |Apply(s, step).queue| == |s.queue| - 1
    ensures !step.Push? && !step.Pop? ==> Apply(s, step).queue == s.queue
  {
  }

  lemma ProducersWokenKept(s: State, step: Step)
    requires Tickets(s) && ProducersWoken(s) && Enabled(s, step)
    ensures ProducersWoken(Apply(s, step))
  {
    ThreadsMove(s, step);
    QueueMoves(s, step);
    match step {
      case Enter(t, msg, policy) => PosterMoves(s, t, Posting(msg, policy));
      case Push(t) => PosterMoves(s, t, NotifyPush);
      case SleepOnFull(t) =>
      case NotifyConsumer(t, woken) =>
        PosterMoves(s, t, Idle);
        if woken < |s.workers| {
          WorkerMoves(s, woken, WokenEmpty(false));
        }
      case WakeProducer(t) => PosterMoves(s, t, WokenFull(s.posters[t].waiting));
      case Pop(w) => WorkerMoves(s, w, NotifyPop(s.queue[0]));
      case SleepOnEmpty(w) => WorkerMoves(s, w, SleepEmpty);
      case GiveUp(w) => WorkerMoves(s, w, Ready);
      case NotifyProducer(w, woken) =>
        WorkerMoves(s, w, Handling(s.workers[w].ticket));
        if woken < |s.posters| && s.posters[woken].SleepFull? {
          PosterMoves(s, woken, WokenFull(s.posters[woken].waiting));
        }
      case WakeConsumer(w, timeout) => WorkerMoves(s, w, WokenEmpty(timeout));
      case Handle(w) =>
        WorkerMoves(s, w, Done);
        WorkerMoves(s, w, Ready);
      case BeginClose =>
      case PostTerminate => PosterMoves(s, 0, Posting(Msg(Terminate, 0), Block));
    }
    hide Sum, SomeSleepFull, SomeSleepEmpty, Tickets;
  }

  lemma ConsumersWokenKept(s: State, step: Step)
    requires Tickets(s) && ConsumersWoken(s) && Enabled(s, step)
    ensures ConsumersWoken(Apply(s, step))
  {
    ThreadsMove(s, step);
    QueueMoves(s, step);
    match step {
      case Enter(t, msg, policy) => PosterMoves(s, t, Posting(msg, policy));
      case Push(t) => PosterMoves(s, t, NotifyPush);
      case SleepOnFull(t) => PosterMoves(s, t, SleepFull(MsgOf(s.posters[t])));
      case NotifyConsumer(t, woken) =>
        PosterMoves(s, t, Idle);
        if woken < |s.workers| && s.workers[woken].SleepEmpty? {
          WorkerMoves(s, woken, WokenEmpty(false));
        }
      case WakeProducer(t) => PosterMoves(s, t, WokenFull(s.posters[t].waiting));
      case Pop(w) => WorkerMoves(s, w, NotifyPop(s.queue[0]));
      case SleepOnEmpty(w) =>
      case GiveUp(w) =>
      case NotifyProducer(w, woken) =>
        WorkerMoves(s, w, Handling(s.workers[w].ticket));
        if woken < |s.posters| {
          PosterMoves(s, woken, WokenFull(Msg(Log, 0)));
          if s.posters[woken].SleepFull? {
            PosterMoves(s, woken, WokenFull(s.posters[woken].waiting));
          }
        }
      case WakeConsumer(w, timeout) => WorkerMoves(s, w, WokenEmpty(timeout));
      case Handle(w) =>
        WorkerMoves(s, w, Done);
        WorkerMoves(s, w, Ready);
      case BeginClose =>
      case PostTerminate => PosterMoves(s, 0, Posting(Msg(Terminate, 0), Block));
    }
    hide Sum, SomeSleepFull, SomeSleepEmpty, Tickets;
  }

  // ----- terminate tokens and overrun count -----

  lemma EntryMoves(entries: seq<Entry>, ticket: nat, fate: Fate)
    requires ticket < |entries|
    ensures Sum(SetFate(entries, ticket, fate), IsTerminate) == Sum(entries, IsTerminate)
    ensures Sum(SetFate(entries, ticket, fate), EndedWorker) + EndedWorker(entries[ticket])
         == Sum(entries, EndedWorker) + EndedWorker(entries[ticket].(fate := fate))
    ensures Sum(SetFate(entries, ticket, fate), WasOverrun) + WasOverrun(entries[ticket])
         == Sum(entries, WasOverrun) + WasOverrun(entries[ticket].(fate := fate))
  {
    var e := entries[ticket].(fate := fate);
    SumUpdate(entries, ticket, e, IsTerminate);
    SumUpdate(entries, ticket, e, EndedWorker);
    SumUpdate(entries, ticket, e, WasOverrun);
  }

  /** What a push does to the recorded messages. */
  lemma EntriesAfterPush(s: State, t: nat)
    requires Tickets(s) && Enabled(s, Push(t))
    ensures var s', msg := AfterPush(s, t), MsgOf(s.posters[t]);
      && Sum(s'.entries, IsTerminate) == Sum(s.entries, IsTerminate) + (if msg.kind.Terminate? then 1 else 0)
      && Sum(s'.entries, EndedWorker) == Sum(s.entries, EndedWorker)
      && Sum(s'.entries, WasOverrun) - s'.overruns == Sum(s.entries, WasOverrun) - s.overruns
      && (|s.queue| < s.capacity ==> s'.overruns == s.overruns)
  {
    var entry := Entry(MsgOf(s.posters[t]), Queued);
    SumAppend(s.entries, entry, IsTerminate);
    SumAppend(s.entries, entry, EndedWorker);
    SumAppend(s.entries, entry, WasOverrun);
    var entries := s.entries + [entry];
    var first := (s.queue + [|s.entries|])[0];
    assert first < |entries| && entries[first].fate.Queued?;
    EntryMoves(entries, first, Overrun);
    hide Sum, SetFate, Tickets;
  }

  lemma CountedKept(s: State, step: Step)
    requires Tickets(s) && Hands(s) && Counted(s) && Enabled(s, step)
    ensures Counted(Apply(s, step))
  {
    match step {
      case Push(t) => EntriesAfterPush(s, t);
      case Pop(w) => EntryMoves(s.entries, s.queue[0], InHand(w));
      case Handle(w) => EntryMoves(s.entries, s.workers[w].ticket, Handled);
      case _ =>
    }
    hide Sum, SetFate;
  }

  lemma TokensKept(s: State, step: Step)
    requires Tickets(s) && Hands(s) && Gate(s) && TerminatesLast(s) && Tokens(s) && Enabled(s, step)
    ensures Tokens(Apply(s, step))
  {
    match step {
      case Push(t) => TokensAfterPush(s, t);
      case Pop(w) => TokensAfterPop(s, w);
      case Handle(w) => TokensAfterHandle(s, w);
      case BeginClose => TokensAfterClose(s);
      case _ => TokensElsewhere(s, step);
    }
    hide *;
  }

  lemma TokensAfterPush(s: State, t: nat)
    requires Tickets(s) && Gate(s) && Tokens(s) && Enabled(s, Push(t))
    ensures Tokens(Apply(s, Push(t)))
  {
    EntriesAfterPush(s, t);
    assert MsgOf(s.posters[t]).kind == KindOf(s.posters[t]);
    hide Sum, SetFate;
  }

  lemma TokensAfterPop(s: State, w: nat)
    requires Tickets(s) && Tokens(s) && Enabled(s, Pop(w))
    ensures Tokens(Apply(s, Pop(w)))
  {
    EntryMoves(s.entries, s.queue[0], InHand(w));
    WorkerMoves(s, w, NotifyPop(s.queue[0]));
    assert s.entries[s.queue[0]].fate.Queued?;
    hide Sum, SetFate;
  }

  lemma TokensAfterHandle(s: State, w: nat)
    requires Hands(s) && Tokens(s) && Enabled(s, Handle(w))
    ensures Tokens(Apply(s, Handle(w)))
  {
    var ticket := s.workers[w].ticket;
    EntryMoves(s.entries, ticket, Handled);
    WorkerMoves(s, w, Done);
    WorkerMoves(s, w, Ready);
    assert s.entries[ticket].fate.InHand?;
    hide Sum, SetFate;
  }

  lemma TokensAfterClose(s: State)
    requires Gate(s) && TerminatesLast(s) && Tokens(s) && Enabled(s, BeginClose)
    ensures Tokens(Apply(s, BeginClose))
  {
    SumZero(s.entries, IsTerminate);
  }

  lemma TokensElsewhere(s: State, step: Step)
    requires Gate(s) && Tokens(s) && Enabled(s, step) && !step.Push? && !step.Pop? && !step.Handle? && !step.BeginClose?
    ensures Tokens(Apply(s, step))
  {
    ThreadsMove(s, step);
    OnlyThreadsMove(s, step);
    PendingSame(s, step);
    match step {
      case NotifyConsumer(t, woken) => NobodyEnds(s.workers, woken);
      case SleepOnEmpty(w) => WorkerMoves(s, w, SleepEmpty);
      case GiveUp(w) => WorkerMoves(s, w, Ready);
      case NotifyProducer(w, woken) => WorkerMoves(s, w, Handling(s.workers[w].ticket));
      case WakeConsumer(w, timeout) => WorkerMoves(s, w, WokenEmpty(timeout));
      case _ =>
    }
    hide Sum, Pending, Gate;
  }

  /** A terminate message to post, or being posted, stays one of the two until it is pushed. */
  lemma PendingSame(s: State, step: Step)
    requires Gate(s) && Enabled(s, step) && !step.Push? && !step.Pop? && !step.Handle? && !step.BeginClose?
    ensures var s' := Apply(s, step); s'.toPost + Pending(s') == s.toPost + Pending(s) && s'.closing == s.closing
  {
  }

  lemma NobodyEnds(workers: seq<Worker>, woken: nat)
    ensures Sum(WakeWorker(workers, woken), DoneWorker) == Sum(workers, DoneWorker)
  {
    if woken < |workers| && workers[woken].SleepEmpty? {
      SumUpdate(workers, woken, WokenEmpty(false), DoneWorker);
    }
    hide Sum;
  }

  // ----- the invariant over whole runs -----

  lemma InvKept(s: State, step: Step)
    requires Inv(s) && Enabled(s, step)
    ensures Inv(Apply(s, step))
  {
    TicketsKept(s, step);
    HandsKept(s, step);
    DeliveryKept(s, step);
    SinkOrderKept(s, step);
    ProducersWokenKept(s, step);
    ConsumersWokenKept(s, step);
    GateKept(s, step);
    TerminatesLastKept(s, step);
    TokensKept(s, step);
    CountedKept(s, step);
    hide Tickets, Hands, Delivery, SinkOrder, ProducersWoken, ConsumersWoken, Gate, TerminatesLast, Tokens, Counted;
    hide Apply, Enabled;
  }

  lemma InvInitially(s: State)
    requires Init(s)
    ensures Inv(s)
  {
    SumZero(s.workers, DoneWorker);
    SumZero(s.entries, EndedWorker);
    SumZero(s.entries, WasOverrun);
  }

  /** Every state of every run satisfies the invariant. */
  lemma {:induction false} Reachable(states: seq<State>, steps: seq<Step>, i: nat)
    requires IsRun(states, steps) && Init(states[0]) && i < |states|
    ensures Inv(states[i])
  {
    if i == 0 {
      InvInitially(states[0]);
    } else {
      Reachable(states, steps, i - 1);
      InvKept(states[i - 1], steps[i - 1]);
    }
    hide Inv, Apply, Enabled, Init;
  }

  // ----- what follows for every reachable state -----

  /** When no wake-up is under way, only a full queue keeps a producer asleep and only an empty one a consumer. */
  lemma NoLostWakeUp(s: State)
    requires Inv(s)
    requires forall t :: 0 <= t < |s.posters| ==> !s.posters[t].WokenFull? && !s.posters[t].NotifyPush?
    requires forall w :: 0 <= w < |s.workers| ==> !s.workers[w].WokenEmpty? && !s.workers[w].NotifyPop?
    ensures SomeSleepFull(s.posters) ==> |s.queue| == s.capacity
    ensures SomeSleepEmpty(s.workers) ==> s.queue == []
  {
    SumZero(s.workers, PendingPop);
    SumZero(s.workers, WokenWorker);
    SumZero(s.posters, PendingPush);
    SumZero(s.posters, WokenPoster);
    hide Sum;
  }

  /** Earlier log messages that were not overrun and have not reached the sinks. */
  ghost function Unlogged(s: State, ticket: nat): set<nat> {
    set k: nat |
      && k < ticket && k < |s.entries|
      && s.entries[k].msg.kind.Log? && !s.entries[k].fate.Overrun? && k !in s.logged
  }

  ghost function HeldBy(s: State, n: nat): set<nat>
    requires n <= |s.workers|
  {
    set w: nat | w < n && Holds(s.workers[w]) :: s.workers[w].ticket
  }

  lemma {:induction false} FewHeld(s: State, n: nat, except: nat)
    requires n <= |s.workers|
    requires except < |s.workers| && Holds(s.workers[except])
    ensures var held := HeldBy(s, n) - {s.workers[except].ticket};
      |held| <= if except < n then n - 1 else n
  {
    if n > 0 {
      FewHeld(s, n - 1, except);
      var mine := s.workers[except].ticket;
      var before, now := HeldBy(s, n - 1) - {mine}, HeldBy(s, n) - {mine};
      if n - 1 == except || !Holds(s.workers[n - 1]) {
        assert now <= before;
        Smaller(now, before);
      } else {
        assert now <= before + {s.workers[n - 1].ticket};
        Smaller(now, before + {s.workers[n - 1].ticket});
      }
    }
  }

  lemma {:induction false} Smaller(a: set<nat>, b: set<nat>)
    requires a <= b
    ensures |a| <= |b|
  {
    if a != {} {
      var x :| x in a;
      Smaller(a - {x}, b - {x});
    }
  }

  /**
    The flush barrier: while a worker has message `ticket` (a flush, say) in
    hand, at most one earlier message per other worker is still on its way.
   */
  lemma FlushBarrier(s: State, w: nat)
    requires Inv(s) && w < |s.workers| && Holds(s.workers[w])
    ensures |Unlogged(s, s.workers[w].ticket)| <= |s.workers| - 1
  {
    var ticket := s.workers[w].ticket;
    assert s.entries[ticket].fate == InHand(w);
    forall k | k in Unlogged(s, ticket)
      ensures k in HeldBy(s, |s.workers|) - {ticket}
    {
      assert !s.entries[k].fate.Queued? && s.entries[k].fate.InHand?;
      assert s.workers[s.entries[k].fate.worker].ticket == k;
    }
    FewHeld(s, |s.workers|, w);
    Smaller(Unlogged(s, ticket), HeldBy(s, |s.workers|) - {ticket});
  }

  /**
    With a single worker the sinks see the enqueueing order minus the overruns,
    all of it before a flush is handled.
   */
  lemma SingleWorkerOrder(s: State)
    requires Inv(s) && |s.workers| == 1
    ensures forall i, j :: 0 <= i < j < |s.logged| ==> s.logged[i] < s.logged[j]
    ensures Holds(s.workers[0]) ==> forall k :: 0 <= k < s.workers[0].ticket && s.entries[k].msg.kind.Log? ==>
      (k in s.logged <==> !s.entries[k].fate.Overrun?)
  {
    if Holds(s.workers[0]) {
      var ticket := s.workers[0].ticket;
      forall k | 0 <= k < ticket && s.entries[k].msg.kind.Log?
        ensures k in s.logged <==> !s.entries[k].fate.Overrun?
      {
        assert s.entries[ticket].fate == InHand(0);
        assert !s.entries[k].fate.Queued? && !s.entries[k].fate.InHand?;
      }
    }
  }
}

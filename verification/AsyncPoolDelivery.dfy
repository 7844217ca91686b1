/** Message by message: what was posted, what reached the sinks, what was overrun. */
module AsyncPoolDelivery {
  import opened AsyncPool
  import opened AsyncPoolSafety
  import opened AsyncPoolShutdown
  import CircularQ

  /** How often `m` was posted in a run. */
  function Posted(steps: seq<Step>, m: Msg): nat {
    Sum(steps, PostsMsg(m))
  }

  function PostsMsg(m: Msg): Step -> nat {
    (step: Step) => if step.Enter? && step.msg == m then 1 else 0
  }

  function EntryIs(m: Msg): Entry -> nat {
    (e: Entry) => if e.msg == m then 1 else 0
  }

  function HandledIs(m: Msg): Entry -> nat {
    (e: Entry) => if e.msg == m && e.fate.Handled? then 1 else 0
  }

  function OverrunIs(m: Msg): Entry -> nat {
    (e: Entry) => if e.msg == m && e.fate.Overrun? then 1 else 0
  }

  /** A posting thread that has not got `m` into the queue yet. */
  function StillPosting(m: Msg): Poster -> nat {
    (p: Poster) => if (WantsPush(p) && MsgOf(p) == m) || (p.SleepFull? && p.waiting == m) then 1 else 0
  }

  /** What the sinks were given, in order. */
  function SinkMessages(s: State): seq<Msg>
    requires forall i :: 0 <= i < |s.logged| ==> s.logged[i] < |s.entries|
  {
    seq(|s.logged|, i requires 0 <= i < |s.logged| => s.entries[s.logged[i]].msg)
  }

  function IsThe(m: Msg): Msg -> nat {
    (x: Msg) => if x == m then 1 else 0
  }

  /** Every posted message is in the queue's record or still with its thread. */
  ghost predicate Accounted(s: State, posted: nat, m: Msg) {
    posted == Sum(s.entries, EntryIs(m)) + Sum(s.posters, StillPosting(m))
  }

  ghost predicate SinksMatch(s: State, m: Msg) {
    && (forall i :: 0 <= i < |s.logged| ==> s.logged[i] < |s.entries|)
    && Sum(SinkMessages(s), IsThe(m)) == Sum(s.entries, HandledIs(m))
  }

  lemma FateMoves(entries: seq<Entry>, ticket: nat, fate: Fate, m: Msg)
    requires ticket < |entries|
    ensures Sum(SetFate(entries, ticket, fate), EntryIs(m)) == Sum(entries, EntryIs(m))
    ensures Sum(SetFate(entries, ticket, fate), HandledIs(m)) + HandledIs(m)(entries[ticket])
         == Sum(entries, HandledIs(m)) + HandledIs(m)(entries[ticket].(fate := fate))
  {
    SumUpdate(entries, ticket, entries[ticket].(fate := fate), EntryIs(m));
    SumUpdate(entries, ticket, entries[ticket].(fate := fate), HandledIs(m));
  }

  lemma AccountedAfterPush(s: State, t: nat, m: Msg)
    requires Tickets(s) && Enabled(s, Push(t))
    ensures var s' := AfterPush(s, t);
      && Sum(s'.entries, EntryIs(m)) == Sum(s.entries, EntryIs(m)) + (if MsgOf(s.posters[t]) == m then 1 else 0)
      && Sum(s'.entries, HandledIs(m)) == Sum(s.entries, HandledIs(m))
  {
    var entry := Entry(MsgOf(s.posters[t]), Queued);
    SumAppend(s.entries, entry, EntryIs(m));
    SumAppend(s.entries, entry, HandledIs(m));
    var first := (s.queue + [|s.entries|])[0];
    assert first < |s.entries| + 1 && (s.entries + [entry])[first].fate.Queued?;
    FateMoves(s.entries + [entry], first, Overrun, m);
    hide Sum, SetFate, Tickets;
  }

  /** The steps that change nothing but where a posting thread stands. */
  lemma PostersAccounted(s: State, step: Step, posted: nat, m: Msg)
    requires Enabled(s, step) && !m.kind.Terminate? && Accounted(s, posted, m)
    requires !step.Push? && !step.Pop? && !step.Handle?
    ensures Accounted(Apply(s, step), posted + PostsMsg(m)(step), m)
  {
    match step {
      case Enter(t, msg, policy) => SumUpdate(s.posters, t, Posting(msg, policy), StillPosting(m));
      case SleepOnFull(t) => SumUpdate(s.posters, t, SleepFull(MsgOf(s.posters[t])), StillPosting(m));
      case NotifyConsumer(t, woken) => SumUpdate(s.posters, t, Idle, StillPosting(m));
      case WakeProducer(t) => WakingAccounted(s.posters, t, m);
      case NotifyProducer(w, woken) => WakingAccounted(s.posters, woken, m);
      case PostTerminate => SumUpdate(s.posters, 0, Posting(Msg(Terminate, 0), Block), StillPosting(m));
      case _ =>
    }
    hide Sum, SetFate, SomeSleepFull, SomeSleepEmpty, WakePoster, WakeWorker;
  }

  lemma WakingAccounted(posters: seq<Poster>, t: nat, m: Msg)
    ensures Sum(WakePoster(posters, t), StillPosting(m)) == Sum(posters, StillPosting(m))
  {
    if t < |posters| && posters[t].SleepFull? {
      SumUpdate(posters, t, WokenFull(posters[t].waiting), StillPosting(m));
    }
    hide Sum;
  }

  lemma AccountedKept(s: State, step: Step, posted: nat, m: Msg)
    requires Inv(s) && Enabled(s, step) && !m.kind.Terminate? && Accounted(s, posted, m)
    ensures Accounted(Apply(s, step), posted + PostsMsg(m)(step), m)
  {
    hide *;
    match step {
      case Push(t) => PushAccounted(s, t, posted, m);
      case Pop(w) => FateAccounted(s, step, posted, m);
      case Handle(w) => FateAccounted(s, step, posted, m);
      case _ => PostersAccounted(s, step, posted, m);
    }
  }

  lemma PushAccounted(s: State, t: nat, posted: nat, m: Msg)
    requires Inv(s) && Enabled(s, Push(t)) && Accounted(s, posted, m)
    ensures Accounted(Apply(s, Push(t)), posted + PostsMsg(m)(Push(t)), m)
  {
    SumUpdate(s.posters, t, NotifyPush, StillPosting(m));
    AccountedAfterPush(s, t, m);
    hide Sum, SetFate, Tickets, Hands, Delivery, SinkOrder;
    hide ProducersWoken, ConsumersWoken, TerminatesLast, Tokens, Counted, Gate;
  }

  lemma FateAccounted(s: State, step: Step, posted: nat, m: Msg)
    requires Inv(s) && Enabled(s, step) && (step.Pop? || step.Handle?) && Accounted(s, posted, m)
    ensures Accounted(Apply(s, step), posted + PostsMsg(m)(step), m)
  {
    if step.Pop? {
      FateMoves(s.entries, s.queue[0], InHand(step.w), m);
    } else {
      FateMoves(s.entries, s.workers[step.w].ticket, Handled, m);
    }
    hide Sum, SetFate, Hands, Delivery, SinkOrder;
    hide ProducersWoken, ConsumersWoken, TerminatesLast, Tokens, Counted, Gate;
  }

  lemma SinkMessagesSame(s: State, s': State)
    requires s'.logged == s.logged && (forall i :: 0 <= i < |s.logged| ==> s.logged[i] < |s.entries|)
    requires |s.entries| <= |s'.entries| && forall k :: 0 <= k < |s.entries| ==> s'.entries[k].msg == s.entries[k].msg
    ensures (forall i :: 0 <= i < |s'.logged| ==> s'.logged[i] < |s'.entries|) && SinkMessages(s') == SinkMessages(s)
  {
  }

  lemma SinksMatchKept(s: State, step: Step, m: Msg)
    requires Inv(s) && Enabled(s, step) && m.kind.Log? && SinksMatch(s, m)
    ensures SinksMatch(Apply(s, step), m)
  {
    hide Sum, SinkMessages, SinksMatch, Apply, Enabled;
    hide Tickets, Hands, Delivery, SinkOrder, ProducersWoken, ConsumersWoken, TerminatesLast, Tokens, Counted, Gate;
    match step {
      case Push(t) => SinksMatchAfterPush(s, t, m);
      case Pop(w) => SinksMatchAfterPop(s, w, m);
      case Handle(w) => SinksMatchAfterHandle(s, w, m);
      case _ => SinksMatchOtherwise(s, step, m);
    }
  }

  lemma SinksMatchAfterPush(s: State, t: nat, m: Msg)
    requires Tickets(s) && Enabled(s, Push(t)) && SinksMatch(s, m)
    ensures SinksMatch(Apply(s, Push(t)), m)
  {
    AccountedAfterPush(s, t, m);
    SinkMessagesSame(s, AfterPush(s, t));
    hide Sum, SinkMessages, Tickets;
  }

  lemma SinksMatchAfterPop(s: State, w: nat, m: Msg)
    requires Tickets(s) && Enabled(s, Pop(w)) && SinksMatch(s, m)
    ensures SinksMatch(Apply(s, Pop(w)), m)
  {
    assert s.entries[s.queue[0]].fate.Queued?;
    FateMoves(s.entries, s.queue[0], InHand(w), m);
    SinkMessagesSame(s, Apply(s, Pop(w)));
    hide Sum, SinkMessages, Tickets;
  }

  lemma SinksMatchOtherwise(s: State, step: Step, m: Msg)
    requires Enabled(s, step) && SinksMatch(s, m) && !step.Push? && !step.Pop? && !step.Handle?
    ensures SinksMatch(Apply(s, step), m)
  {
    OnlyThreadsMove(s, step);
    SinkMessagesSame(s, Apply(s, step));
    hide Sum, SinkMessages, Apply, Enabled;
  }

  lemma SinksMatchAfterHandle(s: State, w: nat, m: Msg)
    requires Hands(s) && Enabled(s, Handle(w)) && m.kind.Log? && SinksMatch(s, m)
    ensures SinksMatch(Apply(s, Handle(w)), m)
  {
    var s', ticket := AfterHandle(s, w), s.workers[w].ticket;
    FateMoves(s.entries, ticket, Handled, m);
    assert s.entries[ticket].fate.InHand?;
    if s.entries[ticket].msg.kind.Log? {
      assert SinkMessages(s') == SinkMessages(s) + [s.entries[ticket].msg];
      SumAppend(SinkMessages(s), s.entries[ticket].msg, IsThe(m));
    } else {
      SinkMessagesSame(s, s');
    }
    hide Sum, SinkMessages;
  }

  lemma {:induction false} Conservation(states: seq<State>, steps: seq<Step>, m: Msg)
    requires IsRun(states, steps) && Init(states[0]) && !m.kind.Terminate?
    ensures Accounted(states[|steps|], Posted(steps, m), m)
    ensures m.kind.Log? ==> SinksMatch(states[|steps|], m)
  {
    if steps == [] {
      SumZero(states[0].posters, StillPosting(m));
    } else {
      var n := |steps| - 1;
      Conservation(states[..n + 1], steps[..n], m);
      Reachable(states, steps, n);
      AccountedKept(states[n], steps[n], Posted(steps[..n], m), m);
      if m.kind.Log? {
        SinksMatchKept(states[n], steps[n], m);
      }
      assert Posted(steps, m) == Posted(steps[..n], m) + PostsMsg(m)(steps[n]);
      hide Sum, Inv, Apply, Enabled, Accounted, SinksMatch;
    }
  }

  lemma {:induction false} AllLeft(entries: seq<Entry>, m: Msg)
    requires forall k :: 0 <= k < |entries| ==> entries[k].fate.Handled? || entries[k].fate.Overrun?
    ensures Sum(entries, EntryIs(m)) == Sum(entries, HandledIs(m)) + Sum(entries, OverrunIs(m))
  {
    if entries != [] {
      AllLeft(entries[..|entries| - 1], m);
    }
  }

  /**
    Exactly once, or overrun: when the destructor returns, each log message is
    in the sinks as often as it was posted, less the copies that were overrun.
   */
  lemma PostedIsLoggedOrOverrun(states: seq<State>, steps: seq<Step>, m: Msg)
    requires IsRun(states, steps) && Init(states[0]) && Joined(states[|steps|]) && m.kind.Log?
    ensures var s := states[|steps|];
      && (forall i :: 0 <= i < |s.logged| ==> s.logged[i] < |s.entries|)
      && Posted(steps, m) == Sum(SinkMessages(s), IsThe(m)) + Sum(s.entries, OverrunIs(m))
  {
    var s := states[|steps|];
    Conservation(states, steps, m);
    Reachable(states, steps, |steps|);
    WorkersStay(states, steps);
    JoinedIsDrained(s);
    AllLeft(s.entries, m);
    NobodyPosts(s, m);
    hide Sum, Inv, Joined, SinkMessages, IsRun;
  }

  lemma NobodyPosts(s: State, m: Msg)
    requires Inv(s) && Joined(s)
    ensures Sum(s.posters, StillPosting(m)) == 0
  {
    SumZero(s.posters, StillPosting(m));
    hide Sum;
  }

  /** The promise of the blocking policy: with it alone, each log message is logged exactly as often as posted. */
  lemma EverythingDelivered(states: seq<State>, steps: seq<Step>, m: Msg)
    requires IsRun(states, steps) && Init(states[0]) && Joined(states[|steps|]) && m.kind.Log?
    requires forall i :: 0 <= i < |steps| && steps[i].Enter? ==> steps[i].policy == Block
    ensures var s := states[|steps|];
      && (forall i :: 0 <= i < |s.logged| ==> s.logged[i] < |s.entries|)
      && Posted(steps, m) == Sum(SinkMessages(s), IsThe(m))
  {
    var s := states[|steps|];
    PostedIsLoggedOrOverrun(states, steps, m);
    BlockingNeverOverruns(states, steps);
    Reachable(states, steps, |steps|);
    SumZero(s.entries, WasOverrun);
    SumZero(s.entries, OverrunIs(m));
    hide Sum, SinkMessages, IsRun;
  }
}

/**
  Runs that exist: every sequence of posts gets through the pool into the sinks,
  and the pool can be destroyed afterwards.  The other modules speak of all runs;
  this one shows what they are about.
 */
module AsyncPoolRuns {
  import opened AsyncPool
  import opened AsyncPoolSafety
  import opened AsyncPoolShutdown
  import opened AsyncPoolDelivery
  import CircularQ

  /** One call of post_log or post_flush. */
  datatype Post = Post(t: nat, msg: Msg, policy: Policy)

  /** The calls a run begins, in order. */
  function PostsOf(steps: seq<Step>): seq<Post> {
    if steps == [] then []
    else
      var last := steps[|steps| - 1];
      PostsOf(steps[..|steps| - 1]) + (if last.Enter? then [Post(last.t, last.msg, last.policy)] else [])
  }

  /** The log messages among some posts. */
  function LogsOf(posts: seq<Post>): seq<Msg> {
    if posts == [] then []
    else
      var last := posts[|posts| - 1].msg;
      LogsOf(posts[..|posts| - 1]) + (if last.kind.Log? then [last] else [])
  }

  // ----- joining runs -----

  lemma RunsJoined(a: seq<State>, x: seq<Step>, b: seq<State>, y: seq<Step>)
    requires IsRun(a, x) && IsRun(b, y) && a[|x|] == b[0]
    ensures IsRun(a + b[1..], x + y) && (a + b[1..])[0] == a[0] && (a + b[1..])[|x + y|] == b[|y|]
  {
    var states, steps := a + b[1..], x + y;
    forall i | 0 <= i < |steps|
      ensures Enabled(states[i], steps[i]) && states[i + 1] == Apply(states[i], steps[i])
    {
      if i < |x| {
        assert states[i] == a[i] && states[i + 1] == a[i + 1];
      } else {
        assert states[i] == b[i - |x|] && states[i + 1] == b[i - |x| + 1];
      }
    }
    hide Enabled, Apply;
  }

  lemma {:induction false} PostsJoined(x: seq<Step>, y: seq<Step>)
    ensures PostsOf(x + y) == PostsOf(x) + PostsOf(y)
    decreases |y|
  {
    if y == [] {
      assert x + y == x;
    } else {
      var front := y[..|y| - 1];
      assert (x + y)[..|x + y| - 1] == x + front;
      PostsJoined(x, front);
    }
  }

  lemma OneStep(s: State, step: Step) returns (states: seq<State>)
    requires Enabled(s, step)
    ensures IsRun(states, [step]) && states[0] == s && states[1] == Apply(s, step)
  {
    states := [s, Apply(s, step)];
    hide Enabled, Apply;
  }

  // ----- one post after the other -----

  /** A running pool at rest, with all workers about to ask for a message. */
  ghost predicate AtRest(s: State) {
    && !s.closing && s.capacity >= 1 && s.queue == [] && |s.workers| >= 1 && |s.posters| >= 1
    && (forall t :: 0 <= t < |s.posters| ==> s.posters[t].Idle?)
    && (forall w :: 0 <= w < |s.workers| ==> s.workers[w].Ready?)
    && (forall i :: 0 <= i < |s.logged| ==> s.logged[i] < |s.entries|)
  }

  /** The post is in the queue, its thread is done, and the first worker has taken the message. */
  lemma PostIsTaken(s: State, post: Post) returns (states: seq<State>, steps: seq<Step>)
    requires AtRest(s) && 0 < post.t < |s.posters| && !post.msg.kind.Terminate?
    ensures IsRun(states, steps) && states[0] == s && PostsOf(steps) == [post]
    ensures states[|steps|] ==
      s.(entries := s.entries + [Entry(post.msg, InHand(0))], workers := s.workers[0 := NotifyPop(|s.entries|)])
  {
    var t, n := post.t, |s.entries|;
    var s1 := s.(posters := s.posters[t := Posting(post.msg, post.policy)]);
    var s2 := s.(posters := s.posters[t := NotifyPush], queue := [n], entries := s.entries + [Entry(post.msg, Queued)]);
    var s3 := s.(queue := [n], entries := s.entries + [Entry(post.msg, Queued)]);
    var s4 := s.(entries := s.entries + [Entry(post.msg, InHand(0))], workers := s.workers[0 := NotifyPop(n)]);
    states := [s, s1, s2, s3, s4];
    steps := [Enter(t, post.msg, post.policy), Push(t), NotifyConsumer(t, 0), Pop(0)];
    assert Enabled(s, steps[0]) && Apply(s, steps[0]) == s1;
    assert Enabled(s1, steps[1]) && Apply(s1, steps[1]) == s2;
    assert s.posters[t := Idle] == s.posters;
    assert Enabled(s2, steps[2]) && Apply(s2, steps[2]) == s3;
    assert SetFate(s3.entries, n, InHand(0)) == s4.entries;
    assert Enabled(s3, steps[3]) && Apply(s3, steps[3]) == s4;
    FourSteps(steps);
    hide Enabled, Apply, PostsOf;
  }

  lemma FourSteps(steps: seq<Step>)
    requires |steps| == 4 && steps[0].Enter? && !steps[1].Enter? && !steps[2].Enter? && !steps[3].Enter?
    ensures PostsOf(steps) == [Post(steps[0].t, steps[0].msg, steps[0].policy)]
  {
    assert steps[..3][..2][..1][..0] == [];
    assert PostsOf(steps[..3][..2][..1]) == [Post(steps[0].t, steps[0].msg, steps[0].policy)];
    assert PostsOf(steps[..3][..2]) == PostsOf(steps[..3][..2][..1]);
    assert PostsOf(steps[..3]) == PostsOf(steps[..3][..2]);
  }

  lemma TakenIsHandled(s: State, msg: Msg) returns (states: seq<State>, steps: seq<Step>)
    requires AtRest(s) && !msg.kind.Terminate?
    ensures IsRun(states, steps) && PostsOf(steps) == []
    ensures var n := |s.entries|;
      && states[0] == s.(entries := s.entries + [Entry(msg, InHand(0))], workers := s.workers[0 := NotifyPop(n)])
      && states[|steps|] == s.(entries := s.entries + [Entry(msg, Handled)],
                               logged := if msg.kind.Log? then s.logged + [n] else s.logged)
  {
    var n := |s.entries|;
    var s4 := s.(entries := s.entries + [Entry(msg, InHand(0))], workers := s.workers[0 := NotifyPop(n)]);
    var s5 := s4.(workers := s.workers[0 := Handling(n)]);
    var s6 := s.(entries := s.entries + [Entry(msg, Handled)],
                 logged := if msg.kind.Log? then s.logged + [n] else s.logged);
    states := [s4, s5, s6];
    steps := [NotifyProducer(0, 0), Handle(0)];
    assert Enabled(s4, steps[0]) && Apply(s4, steps[0]) == s5;
    assert SetFate(s5.entries, n, Handled) == s6.entries;
    assert s5.workers[0 := Ready] == s.workers;
    assert Enabled(s5, steps[1]) && Apply(s5, steps[1]) == s6;
    assert steps[..1][..0] == [];
    assert PostsOf(steps[..1]) == PostsOf(steps[..1][..0]);
    hide Enabled, Apply;
  }

  /** One post goes all the way, whoever makes it and with either policy, and leaves the pool at rest. */
  lemma PostGoesThrough(s: State, post: Post) returns (states: seq<State>, steps: seq<Step>)
    requires AtRest(s) && 0 < post.t < |s.posters| && !post.msg.kind.Terminate?
    ensures IsRun(states, steps) && states[0] == s && PostsOf(steps) == [post]
    ensures var s' := states[|steps|];
      && AtRest(s') && |s'.posters| == |s.posters|
      && SinkMessages(s') == SinkMessages(s) + (if post.msg.kind.Log? then [post.msg] else [])
  {
    var a, x := PostIsTaken(s, post);
    var b, y := TakenIsHandled(s, post.msg);
    RunsJoined(a, x, b, y);
    PostsJoined(x, y);
    states, steps := a + b[1..], x + y;
    SinksAfter(s, b[|y|], post.msg);
    hide IsRun, PostsOf, SinkMessages;
  }

  lemma SinksAfter(s: State, s': State, msg: Msg)
    requires AtRest(s)
    requires s' == s.(entries := s.entries + [Entry(msg, Handled)],
                      logged := if msg.kind.Log? then s.logged + [|s.entries|] else s.logged)
    ensures AtRest(s')
    ensures SinkMessages(s') == SinkMessages(s) + (if msg.kind.Log? then [msg] else [])
  {
  }

  ghost predicate ArePosts(posts: seq<Post>, threads: nat) {
    forall i :: 0 <= i < |posts| ==> 0 < posts[i].t < threads && !posts[i].msg.kind.Terminate?
  }

  lemma {:induction false} PostsGoThrough(s: State, posts: seq<Post>) returns (states: seq<State>, steps: seq<Step>)
    requires AtRest(s) && ArePosts(posts, |s.posters|)
    ensures IsRun(states, steps) && states[0] == s && PostsOf(steps) == posts
    ensures var s' := states[|steps|];
      AtRest(s') && |s'.posters| == |s.posters| && SinkMessages(s') == SinkMessages(s) + LogsOf(posts)
    decreases |posts|
  {
    if posts == [] {
      states, steps := [s], [];
    } else {
      hide *;
      LastPost(posts, |s.posters|);
      var front, last := posts[..|posts| - 1], posts[|posts| - 1];
      var a, x := PostsGoThrough(s, front);
      RunsHave(a, x);
      var b, y := PostGoesThrough(a[|x|], last);
      RunsHave(b, y);
      RunsJoined(a, x, b, y);
      PostsJoined(x, y);
      states, steps := a + b[1..], x + y;
      RunsHave(states, steps);
      SinksJoined(SinkMessages(s), LogsOf(front), if last.msg.kind.Log? then [last.msg] else []);
    }
  }

  lemma RunsHave(states: seq<State>, steps: seq<Step>)
    requires IsRun(states, steps)
    ensures |states| == |steps| + 1
  {
  }

  lemma LastPost(posts: seq<Post>, threads: nat)
    requires posts != [] && ArePosts(posts, threads)
    ensures var front, last := posts[..|posts| - 1], posts[|posts| - 1];
      && ArePosts(front, threads) && 0 < last.t < threads && !last.msg.kind.Terminate?
      && posts == front + [last]
      && LogsOf(posts) == LogsOf(front) + (if last.msg.kind.Log? then [last.msg] else [])
  {
  }

  lemma SinksJoined(a: seq<Msg>, b: seq<Msg>, c: seq<Msg>)
    ensures a + b + c == a + (b + c)
  {
  }

  /**
    A pool is for this: from every freshly constructed pool and for every
    sequence of log and flush calls, by any threads and with either policy, there
    is a run that makes exactly these calls in this order and ends quiet with
    exactly the log messages in the sinks, in order.
   */
  lemma EveryPostCanBeLogged(s: State, posts: seq<Post>) returns (states: seq<State>, steps: seq<Step>)
    requires Init(s) && s.capacity >= 1 && ArePosts(posts, |s.posters|)
    ensures IsRun(states, steps) && states[0] == s && PostsOf(steps) == posts
    ensures Inv(states[|steps|]) && Quiet(states[|steps|]) && SinkMessages(states[|steps|]) == LogsOf(posts)
  {
    assert SinkMessages(s) == [];
    assert [] + LogsOf(posts) == LogsOf(posts);
    states, steps := PostsGoThrough(s, posts);
    Reachable(states, steps, |steps|);
    hide IsRun, PostsOf, SinkMessages, LogsOf, Inv;
  }

  // ----- and then the destructor -----

  /** During the destruction, once every log message was handled or overrun, the sinks get nothing more. */
  ghost predicate LogsDone(s: State) {
    && s.closing
    && (forall k :: 0 <= k < |s.entries| && s.entries[k].msg.kind.Log? ==>
          s.entries[k].fate.Handled? || s.entries[k].fate.Overrun?)
  }

  lemma LogsStayDone(s: State, step: Step)
    requires Inv(s) && LogsDone(s) && Enabled(s, step)
    ensures var s' := Apply(s, step);
      && LogsDone(s') && s'.logged == s.logged && !step.Enter?
      && |s.entries| <= |s'.entries| && forall k :: 0 <= k < |s.entries| ==> s'.entries[k].msg == s.entries[k].msg
  {
    match step {
      case Push(t) => TerminatePushed(s, t);
      case Pop(w) => assert s.entries[s.queue[0]].fate.Queued?;
      case Handle(w) => assert s.entries[s.workers[w].ticket].fate == InHand(w);
      case Enter(_, _, _) =>
      case _ => OnlyThreadsMove(s, step);
    }
    hide Sum, SinkOrder, ProducersWoken, ConsumersWoken, TerminatesLast, Tokens, Counted, Delivery, Gate;
  }

  lemma TerminatePushed(s: State, t: nat)
    requires Inv(s) && LogsDone(s) && Enabled(s, Push(t))
    ensures var s' := AfterPush(s, t);
      && LogsDone(s') && s'.logged == s.logged
      && |s.entries| <= |s'.entries| && forall k :: 0 <= k < |s.entries| ==> s'.entries[k].msg == s.entries[k].msg
  {
    assert t == 0 && MsgOf(s.posters[t]).kind == KindOf(s.posters[t]);
    hide Sum, SinkOrder, ProducersWoken, ConsumersWoken, TerminatesLast, Tokens, Counted, Delivery;
  }

  lemma {:induction false} SinksStay(states: seq<State>, steps: seq<Step>)
    requires IsRun(states, steps) && Inv(states[0]) && LogsDone(states[0])
    ensures var s, s' := states[0], states[|steps|];
      && Inv(s') && LogsDone(s') && PostsOf(steps) == [] && s'.logged == s.logged
      && |s.entries| <= |s'.entries| && forall k :: 0 <= k < |s.entries| ==> s'.entries[k].msg == s.entries[k].msg
  {
    if steps != [] {
      var n := |steps| - 1;
      SinksStay(states[..n + 1], steps[..n]);
      InvKept(states[n], steps[n]);
      LogsStayDone(states[n], steps[n]);
    }
    hide Inv, LogsDone, Apply, Enabled;
  }

  /** Closing a quiet pool. */
  lemma CloseQuiet(s: State)
    requires Inv(s) && Quiet(s) && forall w :: 0 <= w < |s.workers| ==> !Holds(s.workers[w])
    ensures Enabled(s, BeginClose) && Apply(s, BeginClose).closing && LogsDone(Apply(s, BeginClose))
    ensures Apply(s, BeginClose).logged == s.logged && Apply(s, BeginClose).entries == s.entries
  {
    NothingLeft(s);
  }

  /**
    And the pool can be destroyed after that: the run goes on to a join with the
    same messages in the sinks, and no other call in between.
   */
  lemma EveryPostSurvivesTheJoin(s: State, posts: seq<Post>) returns (states: seq<State>, steps: seq<Step>)
    requires Init(s) && s.capacity >= 1 && ArePosts(posts, |s.posters|)
    ensures IsRun(states, steps) && states[0] == s && PostsOf(steps) == posts
    ensures Inv(states[|steps|]) && Joined(states[|steps|])
    ensures SinkMessages(states[|steps|]) == LogsOf(posts)
  {
    assert SinkMessages(s) == [] && [] + LogsOf(posts) == LogsOf(posts);
    var a, x := PostsGoThrough(s, posts);
    var rest := a[|x|];
    Reachable(a, x, |x|);
    assert Quiet(rest);
    CloseQuiet(rest);
    InvKept(rest, BeginClose);
    CapacityFixed(rest, BeginClose);
    var b := OneStep(rest, BeginClose);
    WorkersStay(a, x);
    var c, z := CanFinish(b[1]);
    SinksStay(c, z);
    SinkMessagesSame(rest, c[|z|]);
    RunsJoined(a, x, b, [BeginClose]);
    RunsJoined(a + b[1..], x + [BeginClose], c, z);
    states, steps := a + b[1..] + c[1..], x + [BeginClose] + z;
    assert PostsOf([BeginClose]) == [] by {
      assert [BeginClose][..0] == [];
    }
    PostsJoined(x, [BeginClose]);
    PostsJoined(x + [BeginClose], z);
    hide IsRun, PostsOf, SinkMessages, LogsOf, Inv, LogsDone, Apply, Enabled;
  }

  // ----- what a full queue does -----

  /** An overrun_oldest post never waits: on a full queue it drops exactly the oldest message and counts that. */
  lemma OverrunNeverSleeps(s: State, t: nat)
    requires Inv(s) && t < |s.posters| && s.posters[t].Posting? && s.posters[t].policy == OverrunOldest
    ensures Enabled(s, Push(t)) && !Enabled(s, SleepOnFull(t))
    ensures var s', n := Apply(s, Push(t)), |s.entries|;
      && |s'.entries| == n + 1 && s'.entries[n].msg == s.posters[t].msg
      && (|s.queue| < s.capacity ==>
            s'.queue == s.queue + [n] && s'.overruns == s.overruns && s'.entries[..n] == s.entries)
      && (|s.queue| == s.capacity ==> s'.overruns == s.overruns + 1)
      && (|s.queue| == s.capacity >= 1 ==>
            && s'.queue == s.queue[1..] + [n]
            && s'.entries[n].fate == Queued && s'.entries[s.queue[0]].fate == Overrun
            && forall k :: 0 <= k < n && k != s.queue[0] ==> s'.entries[k] == s.entries[k])
      && (s.capacity == 0 ==> s'.queue == [] && s'.entries[n].fate == Overrun && s'.entries[..n] == s.entries)
  {
    hide Sum, Hands, SinkOrder, ProducersWoken, ConsumersWoken, TerminatesLast, Tokens, Counted, Delivery, Gate;
  }

  /** A blocking post goes in exactly while there is room, and waits exactly on a full queue. */
  lemma BlockingWaitsWhenFull(s: State, t: nat)
    requires Inv(s) && t < |s.posters| && s.posters[t].Posting? && s.posters[t].policy == Block
    ensures Enabled(s, Push(t)) <==> |s.queue| < s.capacity
    ensures Enabled(s, SleepOnFull(t)) <==> |s.queue| == s.capacity
    ensures Enabled(s, SleepOnFull(t)) ==> Apply(s, SleepOnFull(t)).posters[t] == SleepFull(s.posters[t].msg)
    ensures Enabled(s, Push(t)) ==>
      Apply(s, Push(t)).queue == s.queue + [|s.entries|] && Apply(s, Push(t)).overruns == s.overruns
  {
    hide Sum, Hands, SinkOrder, ProducersWoken, ConsumersWoken, TerminatesLast, Tokens, Counted, Delivery, Gate;
  }

  /** Waiting threads may wake at any time; a worker whose time is up with the queue empty starts over. */
  lemma WaitersMayWake(s: State, i: nat)
    ensures i < |s.posters| && s.posters[i].SleepFull? ==>
      Enabled(s, WakeProducer(i)) && Apply(s, WakeProducer(i)).posters[i] == WokenFull(s.posters[i].waiting)
    ensures i < |s.workers| && s.workers[i].SleepEmpty? ==>
      forall timeout :: Enabled(s, WakeConsumer(i, timeout))
        && Apply(s, WakeConsumer(i, timeout)).workers[i] == WokenEmpty(timeout)
    ensures i < |s.workers| && s.workers[i] == WokenEmpty(true) && s.queue == [] ==>
      Enabled(s, GiveUp(i)) && Apply(s, GiveUp(i)).workers[i] == Ready && !Enabled(s, SleepOnEmpty(i))
    ensures i < |s.workers| && s.workers[i] == WokenEmpty(false) && s.queue == [] ==>
      Enabled(s, SleepOnEmpty(i)) && Apply(s, SleepOnEmpty(i)).workers[i] == SleepEmpty && !Enabled(s, GiveUp(i))
  {
  }
}

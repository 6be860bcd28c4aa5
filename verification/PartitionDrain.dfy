/** The partitioned joins get there: whatever has happened, the partitions' queues can be emptied, and then
    the joins hold the results. */
module PartitionDrain {
  import opened Wrappers
  import opened Streams
  import opened JoinSpec
  import opened PartitionBy
  import Q = ConcurrentQueue

  /** Queues notify and consumers go on; nothing is fed, pushed or stopped and no wake-up is spurious. */
  predicate ByItself<L, R>(a: Action<L, R>) {
    match a
    case LeftQueue(_, la) => !la.Push? && !la.Stop? && !la.Wake?
    case RightQueue(_, ra) => !ra.Push? && !ra.Stop? && !ra.Wake?
    case _ => false
  }

  predicate AllByItself<L, R>(more: seq<Action<L, R>>) {
    forall i :: 0 <= i < |more| ==> ByItself(more[i])
  }

  predicate LaneOpen<L, R>(lane: Lane<L, R>) { !lane.left.stopped && !lane.right.stopped }

  /** No queue of any partition is stopped. */
  predicate Open<L, R>(s: State<L, R>) {
    forall p :: 0 <= p < |s.lanes| ==> LaneOpen(s.lanes[p])
  }

  /** Only partition `p` has gone on. */
  ghost predicate OnlyLane<L, R>(s: State<L, R>, p: int, s': State<L, R>) {
    && s'.fedL == s.fedL && s'.fedR == s.fedR && |s'.lanes| == |s.lanes|
    && forall i :: 0 <= i < |s.lanes| && i != p ==> s'.lanes[i] == s.lanes[i]
  }

  lemma {:induction false} OnlyLaneTwice<L, R>(s: State<L, R>, p: int, s1: State<L, R>, s2: State<L, R>)
    requires OnlyLane(s, p, s1) && OnlyLane(s1, p, s2)
    ensures OnlyLane(s, p, s2)
  {}

  function Work<L, R>(lane: Lane<L, R>): nat { Q.Work(lane.left) + Q.Work(lane.right) }

  /** After `run`, the steps `more` lead to `s'`; all of them happen by themselves. */
  ghost predicate Reaches<L, R>(plan: Plan<L, R>, run: seq<Action<L, R>>, more: seq<Action<L, R>>, s': State<L, R>) {
    AllByItself(more) && Exec(plan, run + more) == Some(s')
  }

  lemma {:induction false} ReachesSame<L, R>(plan: Plan<L, R>, run: seq<Action<L, R>>, s: State<L, R>)
    requires Exec(plan, run) == Some(s)
    ensures Reaches(plan, run, [], s)
  {
    assert run + [] == run;
  }

  lemma {:induction false} ReachesNext<L, R>(plan: Plan<L, R>, run: seq<Action<L, R>>, s: State<L, R>, a: Action<L, R>,
      s': State<L, R>)
    requires Exec(plan, run) == Some(s) && Step(plan, s, a) == Some(s') && ByItself(a)
    ensures Reaches(plan, run, [a], s')
  {
    assert (run + [a])[..|run|] == run;
  }

  lemma {:induction false} ReachesThen<L, R>(plan: Plan<L, R>, run: seq<Action<L, R>>, first: seq<Action<L, R>>,
      last: seq<Action<L, R>>, s': State<L, R>)
    requires AllByItself(first) && Reaches(plan, run + first, last, s')
    ensures Reaches(plan, run, first + last, s')
  {
    assert (run + first) + last == run + (first + last);
  }

  /** Partition `p` is drained and goes on working; the others are as before. */
  ghost predicate LaneDone<L, R>(plan: Plan<L, R>, s: State<L, R>, p: int, s': State<L, R>) {
    Inv(plan, s') && OnlyLane(s, p, s') && 0 <= p < plan.n && LaneOpen(s'.lanes[p]) && Drained(s'.lanes[p])
  }

  lemma {:induction false} LaneDoneLater<L, R>(plan: Plan<L, R>, s: State<L, R>, p: int, s1: State<L, R>,
      s2: State<L, R>)
    requires OnlyLane(s, p, s1) && LaneDone(plan, s1, p, s2)
    ensures LaneDone(plan, s, p, s2)
  {
    OnlyLaneTwice(s, p, s1, s2);
  }

  lemma {:induction false} LeftOnward<L, R>(plan: Plan<L, R>, s: State<L, R>, p: int)
    returns (a: Action<L, R>, s': State<L, R>)
    requires |s.lanes| == plan.n && 0 <= p < plan.n && Q.Inv(s.lanes[p].left)
    requires LaneOpen(s.lanes[p]) && !Q.Idle(s.lanes[p].left)
    ensures (a.LeftQueue? || a.RightQueue?) && ByItself(a) && Step(plan, s, a) == Some(s') && OnlyLane(s, p, s')
    ensures LaneOpen(s'.lanes[p]) && Work(s'.lanes[p]) < Work(s.lanes[p])
  {
    var la, q := Q.Onward(s.lanes[p].left);
    assert !la.Push? && !la.Stop? && !la.Wake? by { assert [la][0] == la; }
    a := LeftQueue(p, la);
    s' := Step(plan, s, a).value;
  }

  lemma {:induction false} RightOnward<L, R>(plan: Plan<L, R>, s: State<L, R>, p: int)
    returns (a: Action<L, R>, s': State<L, R>)
    requires |s.lanes| == plan.n && 0 <= p < plan.n && Q.Inv(s.lanes[p].right)
    requires LaneOpen(s.lanes[p]) && !Q.Idle(s.lanes[p].right)
    ensures (a.LeftQueue? || a.RightQueue?) && ByItself(a) && Step(plan, s, a) == Some(s') && OnlyLane(s, p, s')
    ensures LaneOpen(s'.lanes[p]) && Work(s'.lanes[p]) < Work(s.lanes[p])
  {
    var ra, q := Q.Onward(s.lanes[p].right);
    assert !ra.Push? && !ra.Stop? && !ra.Wake? by { assert [ra][0] == ra; }
    a := RightQueue(p, ra);
    s' := Step(plan, s, a).value;
  }

  lemma {:induction false} LaneOnward<L, R>(plan: Plan<L, R>, s: State<L, R>, p: int)
    returns (a: Action<L, R>, s': State<L, R>)
    requires Inv(plan, s) && 0 <= p < plan.n && LaneOpen(s.lanes[p]) && !Drained(s.lanes[p])
    ensures (a.LeftQueue? || a.RightQueue?) && ByItself(a) && Step(plan, s, a) == Some(s') && OnlyLane(s, p, s')
    ensures LaneOpen(s'.lanes[p]) && Work(s'.lanes[p]) < Work(s.lanes[p])
  {
    assert LaneInv(plan, s, p, s.lanes[p]);
    if !Q.Idle(s.lanes[p].left) {
      a, s' := LeftOnward(plan, s, p);
    } else {
      a, s' := RightOnward(plan, s, p);
    }
  }

  lemma {:induction false} DrainLane<L, R>(plan: Plan<L, R>, run: seq<Action<L, R>>, s: State<L, R>, p: int)
    returns (more: seq<Action<L, R>>, s': State<L, R>)
    requires Exec(plan, run) == Some(s) && Inv(plan, s) && 0 <= p < plan.n && LaneOpen(s.lanes[p])
    ensures Reaches(plan, run, more, s') && LaneDone(plan, s, p, s')
    decreases Work(s.lanes[p])
  {
    if Drained(s.lanes[p]) {
      more, s' := [], s;
      ReachesSame(plan, run, s);
    } else {
      var a, s1 := LaneOnward(plan, s, p);
      ReachesNext(plan, run, s, a, s1);
      QueueInv(plan, s, a, s1);
      var rest;
      rest, s' := DrainLane(plan, run + [a], s1, p);
      more := [a] + rest;
      ReachesThen(plan, run, [a], rest, s');
      LaneDoneLater(plan, s, p, s1, s');
    }
  }

  /** The first `k` partitions are drained; nothing more has been fed. */
  ghost predicate LanesDone<L, R>(plan: Plan<L, R>, s: State<L, R>, k: nat, s': State<L, R>) {
    && Inv(plan, s') && Open(s') && s'.fedL == s.fedL && s'.fedR == s.fedR
    && forall p :: 0 <= p < k && p < plan.n ==> Drained(s'.lanes[p])
  }

  lemma {:induction false} LanesDoneNext<L, R>(plan: Plan<L, R>, s: State<L, R>, k: nat, s1: State<L, R>,
      s2: State<L, R>)
    requires LanesDone(plan, s, k, s1) && LaneDone(plan, s1, k, s2)
    ensures LanesDone(plan, s, k + 1, s2)
  {
    forall p | 0 <= p < k + 1 && p < plan.n ensures Drained(s2.lanes[p]) {
      assert p != k ==> s2.lanes[p] == s1.lanes[p];
    }
    forall p | 0 <= p < |s2.lanes| ensures LaneOpen(s2.lanes[p]) {
      assert p != k ==> s2.lanes[p] == s1.lanes[p];
    }
  }

  lemma {:induction false} DrainLanes<L, R>(plan: Plan<L, R>, run: seq<Action<L, R>>, s: State<L, R>, k: nat)
    returns (more: seq<Action<L, R>>, s': State<L, R>)
    requires Exec(plan, run) == Some(s) && Inv(plan, s) && Open(s) && k <= plan.n
    ensures Reaches(plan, run, more, s') && LanesDone(plan, s, k, s')
    decreases k
  {
    if k == 0 {
      more, s' := [], s;
      ReachesSame(plan, run, s);
    } else {
      var first, s1 := DrainLanes(plan, run, s, k - 1);
      var last;
      last, s' := DrainLane(plan, run + first, s1, k - 1);
      more := first + last;
      ReachesThen(plan, run, first, last, s');
      LanesDoneNext(plan, s, k - 1, s1, s');
    }
  }

  /** From every reachable state without a stopped queue, the queues and consumers by themselves reach a state in
      which all queues are drained; nothing more is fed. There the partitioned joins together hold every pair
      that meets in a registered partition as often as the join of the live elements, and no other. */
  lemma {:induction false} PartitionsDrain<K, L(!new), R(!new)>(q: Query<K, L, R>, plan: Plan<L, R>,
      run: seq<Action<L, R>>, s: State<L, R>)
    returns (more: seq<Action<L, R>>, s': State<L, R>)
    requires Exec(plan, run) == Some(s)
    requires forall p :: 0 <= p < plan.n ==> !s.lanes[p].left.stopped && !s.lanes[p].right.stopped
    ensures AllByItself(more) && Exec(plan, run + more) == Some(s') && s'.fedL == s.fedL && s'.fedR == s.fedR
    ensures forall p :: 0 <= p < plan.n ==> Drained(s'.lanes[p])
    ensures SingleExpiry(s.fedL) && SingleExpiry(s.fedR) ==>
              forall l, r ::
                NetOfLanes(q, s'.lanes, l, r)
                == if MeetIn(plan, l, r, plan.fL(l)) then JoinCount(q, Live(s.fedL), Live(s.fedR), l, r) else 0
  {
    ExecInv(plan, run, s);
    more, s' := DrainLanes(plan, run, s, plan.n);
    if SingleExpiry(s.fedL) && SingleExpiry(s.fedR) {
      forall l, r
        ensures NetOfLanes(q, s'.lanes, l, r)
             == if MeetIn(plan, l, r, plan.fL(l)) then JoinCount(q, Live(s.fedL), Live(s.fedR), l, r) else 0
      {
        PartitionedJoin(q, plan, run + more, s', l, r);
      }
    }
  }

  /** What a drained partition's join has seen is its part of both inputs, in order. */
  lemma {:induction false} DrainedSeesPart<L, R>(plan: Plan<L, R>, run: seq<Action<L, R>>, s: State<L, R>, p: int)
    requires Exec(plan, run) == Some(s) && 0 <= p < plan.n && Drained(s.lanes[p])
    ensures LeftOf(s.lanes[p].join) == if p in plan.regL then Part(plan.fL, s.fedL, p) else []
    ensures RightOf(s.lanes[p].join) == if p in plan.regR then Part(plan.fR, s.fedR, p) else []
  {
    ExecInv(plan, run, s);
    assert LaneInv(plan, s, p, s.lanes[p]);
    assert Q.Held(s.lanes[p].left) == [] && Q.Held(s.lanes[p].right) == [];
    assert s.lanes[p].left.published + [] + [] == s.lanes[p].left.published;
    assert s.lanes[p].right.published + [] + [] == s.lanes[p].right.published;
  }

  lemma {:induction false} Next<L, R>(plan: Plan<L, R>, run: seq<Action<L, R>>, s: State<L, R>, a: Action<L, R>,
      s': State<L, R>)
    requires Exec(plan, run) == Some(s) && Step(plan, s, a) == Some(s')
    ensures Exec(plan, run + [a]) == Some(s')
  {
    assert (run + [a])[..|run|] == run;
  }

  /** No queue was stopped. */
  ghost predicate StaysOpen<L, R>(s: State<L, R>, s': State<L, R>) {
    |s'.lanes| == |s.lanes| && forall p :: 0 <= p < |s.lanes| && LaneOpen(s.lanes[p]) ==> LaneOpen(s'.lanes[p])
  }

  lemma {:induction false} LeftFeeds<L, R>(plan: Plan<L, R>, s: State<L, R>, e: Event<L>) returns (s': State<L, R>)
    requires |s.lanes| == plan.n
    requires var p := plan.fL(e.data);
             Registered(plan.n, plan.regL, p) ==> !s.lanes[p].left.consumer.Blocking?
    ensures Step(plan, s, FeedLeft(e)) == Some(s') && s'.fedL == s.fedL + [e] && s'.fedR == s.fedR
    ensures StaysOpen(s, s')
  {
    s' := Step(plan, s, FeedLeft(e)).value;
  }

  lemma {:induction false} LeftSleeps<L, R>(plan: Plan<L, R>, s: State<L, R>, p: int) returns (s': State<L, R>)
    requires |s.lanes| == plan.n && 0 <= p < plan.n && s.lanes[p].left.consumer.Blocking?
    ensures Step(plan, s, LeftQueue(p, Q.Block)) == Some(s') && s'.lanes[p].left.consumer.Asleep?
    ensures s'.fedL == s.fedL && s'.fedR == s.fedR && |s'.lanes| == plan.n && StaysOpen(s, s')
  {
    s' := Step(plan, s, LeftQueue(p, Q.Block)).value;
  }

  /** An element can always be fed on the left: at once, or, if the consumer of its partition has just found the
      queue empty, as soon as it has fallen asleep. */
  lemma {:induction false} LeftCanBeFed<L, R>(plan: Plan<L, R>, run: seq<Action<L, R>>, s: State<L, R>, e: Event<L>)
    returns (s': State<L, R>)
    requires Exec(plan, run) == Some(s)
    ensures
      var p := plan.fL(e.data);
      var waits := Registered(plan.n, plan.regL, p) && s.lanes[p].left.consumer.Blocking?;
      Exec(plan, run + (if waits then [LeftQueue(p, Q.Block), FeedLeft(e)] else [FeedLeft(e)])) == Some(s')
    ensures s'.fedL == s.fedL + [e] && s'.fedR == s.fedR && StaysOpen(s, s')
  {
    var p := plan.fL(e.data);
    if Registered(plan.n, plan.regL, p) && s.lanes[p].left.consumer.Blocking? {
      var s1 := LeftSleeps(plan, s, p);
      Next(plan, run, s, LeftQueue(p, Q.Block), s1);
      s' := LeftFeeds(plan, s1, e);
      Next(plan, run + [LeftQueue(p, Q.Block)], s1, FeedLeft(e), s');
      assert (run + [LeftQueue(p, Q.Block)]) + [FeedLeft(e)] == run + [LeftQueue(p, Q.Block), FeedLeft(e)];
    } else {
      s' := LeftFeeds(plan, s, e);
      Next(plan, run, s, FeedLeft(e), s');
    }
  }

  lemma {:induction false} RightFeeds<L, R>(plan: Plan<L, R>, s: State<L, R>, e: Event<R>) returns (s': State<L, R>)
    requires |s.lanes| == plan.n
    requires var p := plan.fR(e.data);
             Registered(plan.n, plan.regR, p) ==> !s.lanes[p].right.consumer.Blocking?
    ensures Step(plan, s, FeedRight(e)) == Some(s') && s'.fedR == s.fedR + [e] && s'.fedL == s.fedL
    ensures StaysOpen(s, s')
  {
    s' := Step(plan, s, FeedRight(e)).value;
  }

  lemma {:induction false} RightSleeps<L, R>(plan: Plan<L, R>, s: State<L, R>, p: int) returns (s': State<L, R>)
    requires |s.lanes| == plan.n && 0 <= p < plan.n && s.lanes[p].right.consumer.Blocking?
    ensures Step(plan, s, RightQueue(p, Q.Block)) == Some(s') && s'.lanes[p].right.consumer.Asleep?
    ensures s'.fedR == s.fedR && s'.fedL == s.fedL && |s'.lanes| == plan.n && StaysOpen(s, s')
  {
    s' := Step(plan, s, RightQueue(p, Q.Block)).value;
  }

  /** The same on the right. */
  lemma {:induction false} RightCanBeFed<L, R>(plan: Plan<L, R>, run: seq<Action<L, R>>, s: State<L, R>, e: Event<R>)
    returns (s': State<L, R>)
    requires Exec(plan, run) == Some(s)
    ensures
      var p := plan.fR(e.data);
      var waits := Registered(plan.n, plan.regR, p) && s.lanes[p].right.consumer.Blocking?;
      Exec(plan, run + (if waits then [RightQueue(p, Q.Block), FeedRight(e)] else [FeedRight(e)])) == Some(s')
    ensures s'.fedR == s.fedR + [e] && s'.fedL == s.fedL && StaysOpen(s, s')
  {
    var p := plan.fR(e.data);
    if Registered(plan.n, plan.regR, p) && s.lanes[p].right.consumer.Blocking? {
      var s1 := RightSleeps(plan, s, p);
      Next(plan, run, s, RightQueue(p, Q.Block), s1);
      s' := RightFeeds(plan, s1, e);
      Next(plan, run + [RightQueue(p, Q.Block)], s1, FeedRight(e), s');
      assert (run + [RightQueue(p, Q.Block)]) + [FeedRight(e)] == run + [RightQueue(p, Q.Block), FeedRight(e)];
    } else {
      s' := RightFeeds(plan, s, e);
      Next(plan, run, s, FeedRight(e), s');
    }
  }
}

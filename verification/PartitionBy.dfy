/** PartitionBy on both inputs of a join: a function picks the partition of each element, every registered
    partition runs behind a queue of its own for each side and feeds a join of its own. */
module PartitionBy {
  import opened Wrappers
  import opened Streams
  import opened JoinSpec
  import Q = ConcurrentQueue

  /* ---- the operator ---- */

  /** Here a partition's queue is just the list of events pushed into it. */
  class PartitionBy<T(!new)> {
    const mFunc: T -> int
    const mNumPartitions: nat
    var mPartitions: map<int, seq<Event<T>>>
    ghost var fed: seq<Event<T>>
    ghost var since: map<int, nat>

    /** Every partition got, in order, its events since it was registered. */
    ghost predicate Valid()
      reads this
    {
      && mPartitions.Keys == since.Keys
      && (forall p :: p in mPartitions ==> 0 <= p < mNumPartitions && since[p] <= |fed|)
      && (forall p :: p in mPartitions ==> mPartitions[p] == Part(mFunc, fed[since[p]..], p))
    }

    constructor (pFun: T -> int, numPartitions: nat)
      ensures Valid() && mFunc == pFun && mNumPartitions == numPartitions && fed == [] && mPartitions == map[]
    {
      mFunc, mNumPartitions := pFun, numPartitions;
      mPartitions, fed, since := map[], [], map[];
    }

    /** A partition id that is registered already keeps its first queue. */
    method ConnectChannelsForPartition(id: int)
      requires Valid() && 0 <= id < mNumPartitions
      modifies this
      ensures Valid() && fed == old(fed) && mPartitions.Keys == old(mPartitions.Keys) + {id}
      ensures since == if id in old(since) then old(since) else old(since)[id := |fed|]
    {
      if id !in mPartitions {
        mPartitions, since := mPartitions[id := []], since[id := |fed|];
      }
    }

    method ProcessDataElement(data: T, outdated: bool)
      requires Valid()
      modifies this`mPartitions, this`fed
      ensures Valid() && fed == old(fed) + [Event(data, outdated)]
      ensures mPartitions.Keys == old(mPartitions.Keys)
      ensures forall p :: p in mPartitions && p != mFunc(data) ==> mPartitions[p] == old(mPartitions)[p]
    {
      var keyVal := mFunc(data);
      ghost var e := Event(data, outdated);
      forall p | p in mPartitions ensures Part(mFunc, (fed + [e])[since[p]..], p)
                                       == if keyVal == p then mPartitions[p] + [e] else mPartitions[p] {
        assert (fed + [e])[since[p]..] == fed[since[p]..] + [e];
        PartSnoc(mFunc, fed[since[p]..], e, p);
      }
      if keyVal in mPartitions {
        mPartitions := mPartitions[keyVal := mPartitions[keyVal] + [Event(data, outdated)]];
      }
      fed := fed + [e];
    }
  }

  /* ---- partitioned joins as interleaved steps ---- */

  /** The partition functions and the registered partitions of both inputs, ids from 0 to n - 1. */
  datatype Plan<!L, !R> = Plan(n: nat, fL: L -> int, fR: R -> int, regL: set<int>, regR: set<int>)

  /** The two queues of a partition and the events its join has processed. */
  datatype Lane<L, R> = Lane(left: Q.State<Event<L>>, right: Q.State<Event<R>>, join: seq<Input<L, R>>)

  datatype State<L, R> = State(lanes: seq<Lane<L, R>>, fedL: seq<Event<L>>, fedR: seq<Event<R>>)

  datatype Action<L, R> =
    | FeedLeft(l: Event<L>)
    | FeedRight(r: Event<R>)
    | LeftQueue(p: int, la: Q.Action<Event<L>>)
    | RightQueue(p: int, ra: Q.Action<Event<R>>)

  predicate Registered(n: nat, reg: set<int>, p: int) { 0 <= p < n && p in reg }

  function Start<L, R>(n: nat): (s: State<L, R>)
    ensures |s.lanes| == n
  {
    State(seq(n, _ => Lane(Q.Start(), Q.Start(), [])), [], [])
  }

  /** The consumer thread of a left queue calls the join with the item it publishes. */
  function LeftStep<L, R>(lane: Lane<L, R>, a: Q.Action<Event<L>>): Option<Lane<L, R>> {
    match Q.Step(lane.left, a)
    case None => None
    case Some(t) =>
      if a.Publish? then Some(Lane(t, lane.right, lane.join + [FromLeft(lane.left.consumer.item)]))
      else Some(lane.(left := t))
  }

  function RightStep<L, R>(lane: Lane<L, R>, a: Q.Action<Event<R>>): Option<Lane<L, R>> {
    match Q.Step(lane.right, a)
    case None => None
    case Some(t) =>
      if a.Publish? then Some(Lane(lane.left, t, lane.join + [FromRight(lane.right.consumer.item)]))
      else Some(lane.(right := t))
  }

  function WithLane<L, R>(s: State<L, R>, p: int, lane: Option<Lane<L, R>>): Option<State<L, R>>
    requires 0 <= p < |s.lanes|
  {
    match lane
    case None => None
    case Some(t) => Some(s.(lanes := s.lanes[p := t]))
  }

  function Step<L, R>(plan: Plan<L, R>, s: State<L, R>, a: Action<L, R>): Option<State<L, R>>
    requires |s.lanes| == plan.n
  {
    match a
    case FeedLeft(e) =>
      var p, fed := plan.fL(e.data), s.(fedL := s.fedL + [e]);
      if Registered(plan.n, plan.regL, p) then WithLane(fed, p, LeftStep(s.lanes[p], Q.Push(e))) else Some(fed)
    case FeedRight(e) =>
      var p, fed := plan.fR(e.data), s.(fedR := s.fedR + [e]);
      if Registered(plan.n, plan.regR, p) then WithLane(fed, p, RightStep(s.lanes[p], Q.Push(e))) else Some(fed)
    case LeftQueue(p, la) =>
      if 0 <= p < plan.n && !la.Push? then WithLane(s, p, LeftStep(s.lanes[p], la)) else None
    case RightQueue(p, ra) =>
      if 0 <= p < plan.n && !ra.Push? then WithLane(s, p, RightStep(s.lanes[p], ra)) else None
  }

  function Exec<L, R>(plan: Plan<L, R>, run: seq<Action<L, R>>): (r: Option<State<L, R>>)
    ensures r.Some? ==> |r.value.lanes| == plan.n
  {
    if run == [] then Some(Start(plan.n))
    else
      match Exec(plan, run[..|run| - 1])
      case None => None
      case Some(s) => Step(plan, s, run[|run| - 1])
  }

  /* ---- what every run keeps ---- */

  function Routed<T>(n: nat, f: T -> int, reg: set<int>, es: seq<Event<T>>, p: int): seq<Event<T>> {
    if Registered(n, reg, p) then Part(f, es, p) else []
  }

  /** Each queue was handed its partition of the input, in order, and passes it to the join in order. */
  ghost predicate LaneInv<L, R>(plan: Plan<L, R>, s: State<L, R>, p: int, lane: Lane<L, R>) {
    && Q.Inv(lane.left) && lane.left.pushed == Routed(plan.n, plan.fL, plan.regL, s.fedL, p)
    && Q.Inv(lane.right) && lane.right.pushed == Routed(plan.n, plan.fR, plan.regR, s.fedR, p)
    && LeftOf(lane.join) == lane.left.published && RightOf(lane.join) == lane.right.published
  }

  ghost predicate Inv<L, R>(plan: Plan<L, R>, s: State<L, R>) {
    && |s.lanes| == plan.n
    && forall p :: 0 <= p < plan.n ==> LaneInv(plan, s, p, s.lanes[p])
  }

  /** A step of a left queue other than a push. */
  lemma {:induction false} LeftLaneStep<L, R>(plan: Plan<L, R>, s: State<L, R>, p: int, lane: Lane<L, R>,
      a: Q.Action<Event<L>>, lane': Lane<L, R>)
    requires LaneInv(plan, s, p, lane) && !a.Push? && LeftStep(lane, a) == Some(lane')
    ensures LaneInv(plan, s, p, lane')
  {
    Q.StepInv(lane.left, a, lane'.left);
    if a.Publish? { SidesSnoc(lane.join, FromLeft(lane.left.consumer.item)); }
  }

  lemma {:induction false} RightLaneStep<L, R>(plan: Plan<L, R>, s: State<L, R>, p: int, lane: Lane<L, R>,
      a: Q.Action<Event<R>>, lane': Lane<L, R>)
    requires LaneInv(plan, s, p, lane) && !a.Push? && RightStep(lane, a) == Some(lane')
    ensures LaneInv(plan, s, p, lane')
  {
    Q.StepInv(lane.right, a, lane'.right);
    if a.Publish? { SidesSnoc(lane.join, FromRight(lane.right.consumer.item)); }
  }

  /** Feeding an element extends the input of its own partition only. */
  lemma {:induction false} FeedLeftInv<L, R>(plan: Plan<L, R>, s: State<L, R>, e: Event<L>, s': State<L, R>)
    requires Inv(plan, s) && Step(plan, s, FeedLeft(e)) == Some(s')
    ensures Inv(plan, s')
  {
    forall p | 0 <= p < plan.n ensures LaneInv(plan, s', p, s'.lanes[p]) {
      assert LaneInv(plan, s, p, s.lanes[p]);
      PartSnoc(plan.fL, s.fedL, e, p);
      if p == plan.fL(e.data) && p in plan.regL { Q.StepInv(s.lanes[p].left, Q.Push(e), s'.lanes[p].left); }
    }
  }

  lemma {:induction false} FeedRightInv<L, R>(plan: Plan<L, R>, s: State<L, R>, e: Event<R>, s': State<L, R>)
    requires Inv(plan, s) && Step(plan, s, FeedRight(e)) == Some(s')
    ensures Inv(plan, s')
  {
    forall p | 0 <= p < plan.n ensures LaneInv(plan, s', p, s'.lanes[p]) {
      assert LaneInv(plan, s, p, s.lanes[p]);
      PartSnoc(plan.fR, s.fedR, e, p);
      if p == plan.fR(e.data) && p in plan.regR { Q.StepInv(s.lanes[p].right, Q.Push(e), s'.lanes[p].right); }
    }
  }

  lemma {:induction false} QueueInv<L, R>(plan: Plan<L, R>, s: State<L, R>, a: Action<L, R>, s': State<L, R>)
    requires Inv(plan, s) && (a.LeftQueue? || a.RightQueue?) && Step(plan, s, a) == Some(s')
    ensures Inv(plan, s')
  {
    forall p | 0 <= p < plan.n ensures LaneInv(plan, s', p, s'.lanes[p]) {
      assert LaneInv(plan, s, p, s.lanes[p]);
      if p == a.p {
        match a
        case LeftQueue(_, la) => LeftLaneStep(plan, s, p, s.lanes[p], la, s'.lanes[p]);
        case RightQueue(_, ra) => RightLaneStep(plan, s, p, s.lanes[p], ra, s'.lanes[p]);
      }
    }
  }

  lemma {:induction false} ExecInv<L, R>(plan: Plan<L, R>, run: seq<Action<L, R>>, s: State<L, R>)
    requires Exec(plan, run) == Some(s)
    ensures Inv(plan, s)
  {
    if run == [] {
    } else {
      var before, a := Exec(plan, run[..|run| - 1]).value, run[|run| - 1];
      ExecInv(plan, run[..|run| - 1], before);
      match a
      case FeedLeft(e) => FeedLeftInv(plan, before, e, s);
      case FeedRight(e) => FeedRightInv(plan, before, e, s);
      case LeftQueue(_, _) => QueueInv(plan, before, a, s);
      case RightQueue(_, _) => QueueInv(plan, before, a, s);
    }
  }

  /* ---- the results of all partitions together ---- */

  predicate Drained<L, R>(lane: Lane<L, R>) {
    lane.left.queue == [] && !lane.left.consumer.Holding? && lane.right.queue == [] && !lane.right.consumer.Holding?
  }

  /** Signed results for (l, r) of the first `k` partitions together. */
  function NetOfLanes<K(==), L(==), R(==)>(q: Query<K, L, R>, lanes: seq<Lane<L, R>>, l: L, r: R): int {
    if lanes == [] then 0
    else NetOfLanes(q, lanes[..|lanes| - 1], l, r) + NetOf(q, lanes[|lanes| - 1].join, l, r)
  }

  /** The pair meets in partition `p`. */
  predicate MeetIn<L, R>(plan: Plan<L, R>, l: L, r: R, p: int) {
    plan.fL(l) == p && plan.fR(r) == p && Registered(plan.n, plan.regL, p) && Registered(plan.n, plan.regR, p)
  }

  lemma {:induction false} LiveOfRouted<T>(n: nat, f: T -> int, reg: set<int>, es: seq<Event<T>>, p: int, x: T)
    requires SingleExpiry(es)
    ensures SingleExpiry(Routed(n, f, reg, es, p))
    ensures Live(Routed(n, f, reg, es, p))[x] == if Registered(n, reg, p) && f(x) == p then Live(es)[x] else 0
  {
    LiveOfPart(f, es, p, x);
    PartExpiresOnce(f, es, p);
  }

  /** A drained partition holds the join of its part of both inputs. */
  lemma {:induction false} NetOfLane<K, L, R>(q: Query<K, L, R>, plan: Plan<L, R>, s: State<L, R>, p: int, l: L, r: R)
    requires Inv(plan, s) && 0 <= p < plan.n && Drained(s.lanes[p]) && SingleExpiry(s.fedL) && SingleExpiry(s.fedR)
    ensures NetOf(q, s.lanes[p].join, l, r)
        == if MeetIn(plan, l, r, p) then JoinCount(q, Live(s.fedL), Live(s.fedR), l, r) else 0
  {
    var lane := s.lanes[p];
    assert LaneInv(plan, s, p, lane);
    assert LeftOf(lane.join) == Routed(plan.n, plan.fL, plan.regL, s.fedL, p);
    assert RightOf(lane.join) == Routed(plan.n, plan.fR, plan.regR, s.fedR, p);
    LiveOfRouted(plan.n, plan.fL, plan.regL, s.fedL, p, l);
    LiveOfRouted(plan.n, plan.fR, plan.regR, s.fedR, p, r);
    NetIsJoinOfLive(q, lane.join, l, r);
  }

  lemma {:induction false} NetOfLanesStep<K, L, R>(q: Query<K, L, R>, lanes: seq<Lane<L, R>>, k: nat, l: L, r: R)
    requires 0 < k <= |lanes|
    ensures NetOfLanes(q, lanes[..k], l, r) == NetOfLanes(q, lanes[..k - 1], l, r) + NetOf(q, lanes[k - 1].join, l, r)
  {
    assert lanes[..k][..k - 1] == lanes[..k - 1];
  }

  lemma {:induction false} NetOfFirstLanes<K, L, R>(q: Query<K, L, R>, plan: Plan<L, R>, s: State<L, R>, k: nat, l: L,
      r: R)
    requires Inv(plan, s) && k <= plan.n && SingleExpiry(s.fedL) && SingleExpiry(s.fedR)
    requires forall p :: 0 <= p < plan.n ==> Drained(s.lanes[p])
    ensures NetOfLanes(q, s.lanes[..k], l, r)
         == if plan.fL(l) < k && MeetIn(plan, l, r, plan.fL(l))
            then JoinCount(q, Live(s.fedL), Live(s.fedR), l, r)
            else 0
  {
    if k == 0 {
    } else {
      NetOfFirstLanes(q, plan, s, k - 1, l, r);
      NetOfLane(q, plan, s, k - 1, l, r);
      NetOfLanesStep(q, s.lanes, k, l, r);
    }
  }

  /** Once all queues are drained, whatever the interleaving of the feeding threads and of the partitions'
      queues, the partitioned joins together hold, for every pair that meets in a registered partition, its
      count in the join of the live elements, and nothing for any other pair. */
  lemma {:induction false} PartitionedJoin<K, L, R>(q: Query<K, L, R>, plan: Plan<L, R>, run: seq<Action<L, R>>,
      s: State<L, R>, l: L, r: R)
    requires Exec(plan, run) == Some(s) && SingleExpiry(s.fedL) && SingleExpiry(s.fedR)
    requires forall p :: 0 <= p < plan.n ==> Drained(s.lanes[p])
    ensures NetOfLanes(q, s.lanes, l, r)
         == if MeetIn(plan, l, r, plan.fL(l)) then JoinCount(q, Live(s.fedL), Live(s.fedR), l, r) else 0
  {
    ExecInv(plan, run, s);
    NetOfFirstLanes(q, plan, s, plan.n, l, r);
    assert s.lanes[..plan.n] == s.lanes;
  }

  /** The partition functions depend on the join key only and pick registered partitions. */
  ghost predicate ByKey<K, L(!new), R(!new)>(q: Query<K, L, R>, plan: Plan<L, R>, g: K -> int) {
    && (forall l :: plan.fL(l) == g(q.lKey(l)) && Registered(plan.n, plan.regL, plan.fL(l)))
    && (forall r :: plan.fR(r) == g(q.rKey(r)) && Registered(plan.n, plan.regR, plan.fR(r)))
  }

  /** Partitioning by the join key is invisible: the partitioned joins have, pair by pair, the net output
      of one join that sees the same two streams in any interleaving `es`. */
  lemma {:induction false} PartitioningIsInvisible<K, L(!new), R(!new)>(q: Query<K, L, R>, plan: Plan<L, R>,
      g: K -> int, run: seq<Action<L, R>>, s: State<L, R>, es: seq<Input<L, R>>, l: L, r: R)
    requires ByKey(q, plan, g)
    requires Exec(plan, run) == Some(s) && SingleExpiry(s.fedL) && SingleExpiry(s.fedR)
    requires forall p :: 0 <= p < plan.n ==> Drained(s.lanes[p])
    requires LeftOf(es) == s.fedL && RightOf(es) == s.fedR
    ensures NetOfLanes(q, s.lanes, l, r) == NetOf(q, es, l, r)
  {
    PartitionedJoin(q, plan, run, s, l, r);
    NetIsJoinOfLive(q, es, l, r);
  }

  /** In general a pair is joined right exactly when it is not in the join or meets in a registered
      partition. */
  lemma {:induction false} PartitioningExact<K, L, R>(q: Query<K, L, R>, plan: Plan<L, R>, run: seq<Action<L, R>>,
      s: State<L, R>, es: seq<Input<L, R>>, l: L, r: R)
    requires Exec(plan, run) == Some(s) && SingleExpiry(s.fedL) && SingleExpiry(s.fedR)
    requires forall p :: 0 <= p < plan.n ==> Drained(s.lanes[p])
    requires LeftOf(es) == s.fedL && RightOf(es) == s.fedR
    ensures NetOfLanes(q, s.lanes, l, r) == NetOf(q, es, l, r) <==>
            MeetIn(plan, l, r, plan.fL(l)) || l !in Live(s.fedL) || r !in Live(s.fedR) || !Matches(q, l, r)
  {
    PartitionedJoin(q, plan, run, s, l, r);
    NetIsJoinOfLive(q, es, l, r);
    NoJoin(q, Live(s.fedL), Live(s.fedR), l, r);
  }

  lemma {:induction false} NoJoin<K, L, R>(q: Query<K, L, R>, ls: multiset<L>, rs: multiset<R>, l: L, r: R)
    ensures JoinCount(q, ls, rs, l, r) == 0 <==> l !in ls || r !in rs || !Matches(q, l, r)
  {
    NonZero(ls[l], rs[r]);
  }

  lemma {:induction false} NonZero(a: nat, b: nat)
    ensures a * b == 0 <==> a == 0 || b == 0
  {}
}

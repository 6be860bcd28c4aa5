/** Windows in front of joins and aggregates. */
module Pipeline {
  import opened Wrappers
  import opened Streams
  import opened JoinSpec
  import opened ScaleJoin
  import opened ScaleJoinResults
  import opened Windows
  import SlidingWindow
  import G = GroupedAggregation

  /* ---- the output of a window never expires equal tuples ---- */

  /** New tuples for a window of positive size whose function, if any, publishes the tuples that leave the
      window unchanged: exactly then its output is a FIFO stream. */
  ghost predicate Feeds<T>(c: Config<T>, es: seq<Event<T>>) {
    c.winSize > 0 && NewOnly(es) && SlidingWindow.LeavesUnchanged(c, es)
  }

  /** No two equal tuples are shown by the window at the same time. */
  ghost predicate NeverEqual<T>(c: Config<T>, es: seq<Event<T>>) {
    forall i :: 0 <= i <= |es| ==> Distinct(SlidingWindow.PublishedWindow(c, es[..i]))
  }

  lemma {:induction false} NeverEqualInit<T>(c: Config<T>, init: seq<Event<T>>, e: Event<T>)
    requires NeverEqual(c, init + [e])
    ensures NeverEqual(c, init) && Distinct(SlidingWindow.PublishedWindow(c, init))
  {
    var es := init + [e];
    forall i | 0 <= i <= |init| ensures Distinct(SlidingWindow.PublishedWindow(c, init[..i])) {
      assert init[..i] == es[..i];
    }
    assert init[..|init|] == init;
  }

  lemma {:induction false} UnchangedInit<T>(c: Config<T>, init: seq<Event<T>>, e: Event<T>, n: nat)
    requires n <= |init| && SlidingWindow.UnchangedUpTo(c, init + [e], n)
    ensures SlidingWindow.UnchangedUpTo(c, init, n)
  {
    var es := init + [e];
    forall i | 0 <= i < n ensures SlidingWindow.PublishedFor(c, init, i) == init[i].data {
      assert es[..i + 1] == init[..i + 1];
      assert SlidingWindow.PublishedFor(c, es, i) == es[i].data;
    }
  }

  /** What is known before the next tuple: the tuples that leave now are in front of the shown window. */
  lemma {:induction false} FeedsInit<T>(c: Config<T>, init: seq<Event<T>>, x: T)
    requires Feeds(c, init + [Event(x, false)]) && NewOnly(init)
    ensures Feeds(c, init)
    ensures SlidingWindow.Gone(c, SlidingWindow.Window(c, init) + [x]) <= SlidingWindow.PublishedWindow(c, init)
  {
    var w := SlidingWindow.Window(c, init);
    var gone := SlidingWindow.Gone(c, w + [x]);
    SlidingWindow.WindowSnoc(c, init, x);
    SlidingWindow.KeepsIncoming(c, w + [x]);
    assert gone <= w;
    UnchangedInit(c, init, Event(x, false), |init| - |w| + |gone|);
    SlidingWindow.ShownUnchanged(c, init, |gone|);
    SamePrefix(gone, w, SlidingWindow.PublishedWindow(c, init));
  }

  lemma {:induction false} SamePrefix<T>(xs: seq<T>, w: seq<T>, w': seq<T>)
    requires xs <= w && |w'| == |w| && w'[..|xs|] == w[..|xs|]
    ensures xs <= w'
  {}

  lemma {:induction false} DistinctOnce<T>(w: seq<T>, j: nat)
    requires Distinct(w) && j < |w|
    ensures multiset(w[j..])[w[j]] == 1
  {
    assert w[j..] == [w[j]] + w[j + 1..];
    assert w[j] !in w[j + 1..];
  }

  /** Outdating part of a window without equal tuples, in order. */
  lemma {:induction false} OutdateSingle<T>(out: seq<Event<T>>, w: seq<T>, xs: seq<T>)
    requires Fifo(out) && Expired(out) + w == Inserted(out) && Distinct(w) && xs <= w && SingleExpiry(out)
    ensures SingleExpiry(out + Outdate(xs))
  {
    if xs == [] {
      assert out + Outdate(xs) == out;
    } else {
      var init, x := xs[..|xs| - 1], xs[|xs| - 1];
      OutdateSingle(out, w, init);
      LiveAfterOutdates(out, w, init);
      DistinctOnce(w, |init|);
      SingleExpirySnoc(out + Outdate(init), Event(x, true));
      ConcatSnoc(out, Outdate(init), Event(x, true));
    }
  }

  lemma {:induction false} LiveAfterOutdates<T>(out: seq<Event<T>>, w: seq<T>, xs: seq<T>)
    requires Fifo(out) && Expired(out) + w == Inserted(out) && xs <= w
    ensures Live(out + Outdate(xs)) == multiset(w[|xs|..])
  {
    OutdateFifo(out, xs);
    OutdateRun(out, xs);
    FifoLive(out + Outdate(xs));
    assert Inserted(out)[|Expired(out) + xs|..] == w[|xs|..];
  }

  /** The output so far: FIFO, and followed by the shown window it is what was published. */
  lemma {:induction false} FedSoFar<T>(c: Config<T>, es: seq<Event<T>>)
    requires Feeds(c, es)
    ensures var out := SlidingWindow.Output(c, es);
            Fifo(out) && Expired(out) + SlidingWindow.PublishedWindow(c, es) == Inserted(out)
  {
    var out := SlidingWindow.Output(c, es);
    SlidingWindow.SlidingFifoExact(c, es);
    SlidingWindow.SlidingConserves(c, es);
    InsertedNew(es);
    SlidingWindow.PublishedTail(c, es, |Expired(out)|);
    FifoLength(out);
    Halves(Expired(out), Inserted(out), SlidingWindow.PublishedWindow(c, es));
  }

  lemma {:induction false} Halves<T>(front: seq<T>, all: seq<T>, tail: seq<T>)
    requires front <= all && all[|front|..] == tail
    ensures front + tail == all
  {}

  lemma {:induction false} SlidingExpiresSingly<T>(c: Config<T>, es: seq<Event<T>>)
    requires Feeds(c, es) && NeverEqual(c, es)
    ensures SingleExpiry(SlidingWindow.Output(c, es))
    decreases |es|
  {
    if es == [] {
    } else {
      var init, x := SnocOfNew(es);
      var out, buf := SlidingWindow.Output(c, init), SlidingWindow.Window(c, init) + [x];
      FeedsInit(c, init, x);
      NeverEqualInit(c, init, Event(x, false));
      SlidingExpiresSingly(c, init);
      FedSoFar(c, init);
      OutdateSingle(out, SlidingWindow.PublishedWindow(c, init), SlidingWindow.Gone(c, buf));
      SlidingWindow.WindowSnoc(c, init, x);
      SingleExpirySnoc(out + Outdate(SlidingWindow.Gone(c, buf)),
                       Event(Forwarded(c, SlidingWindow.Evict(c, buf), x), false));
    }
  }

  /** What a join may rely on when a sliding window feeds it. */
  lemma {:induction false} WindowFeedsJoin<T>(c: Config<T>, es: seq<Event<T>>)
    requires Feeds(c, es) && NeverEqual(c, es)
    ensures var out := SlidingWindow.Output(c, es);
            Fifo(out) && SingleExpiry(out) && Live(out) == multiset(SlidingWindow.PublishedWindow(c, es))
  {
    FedSoFar(c, es);
    SlidingExpiresSingly(c, es);
    SlidingWindow.SlidingLive(c, es);
  }

  /** Without a function, or with one that passes the tuples on, every input of new tuples feeds the join,
      and the window shows its content. */
  lemma {:induction false} PassedOnFeeds<T(!new)>(c: Config<T>, es: seq<Event<T>>)
    requires c.winSize > 0 && NewOnly(es) && PassesOn(c)
    ensures Feeds(c, es) && SlidingWindow.PublishedWindow(c, es) == SlidingWindow.Window(c, es)
  {
    SlidingWindow.PassedOn(c, es);
  }

  /* ---- how many elements of the output are live ---- */

  /** No window holds more than `b` tuples. */
  ghost predicate WindowsUpTo<T>(c: Config<T>, es: seq<Event<T>>, b: nat) {
    forall i :: 0 <= i <= |es| ==> |SlidingWindow.Window(c, es[..i])| <= b
  }

  lemma {:induction false} WindowsUpToInit<T>(c: Config<T>, init: seq<Event<T>>, e: Event<T>, b: nat)
    requires WindowsUpTo(c, init + [e], b)
    ensures WindowsUpTo(c, init, b)
    ensures |SlidingWindow.Window(c, init)| <= b && |SlidingWindow.Window(c, init + [e])| <= b
  {
    var es := init + [e];
    forall i | 0 <= i <= |init| ensures |SlidingWindow.Window(c, init[..i])| <= b {
      assert init[..i] == es[..i];
    }
    assert init[..|init|] == init && es[..|es|] == es;
  }

  /** A row window never holds more tuples than its size. */
  lemma {:induction false} RowWindowsUpTo<T>(c: Config<T>, es: seq<Event<T>>)
    requires c.winType.RowWindow?
    ensures WindowsUpTo(c, es, c.winSize)
  {
    forall i | 0 <= i <= |es| ensures |SlidingWindow.Window(c, es[..i])| <= c.winSize {
      RowWindowSize(c, es[..i]);
    }
  }

  lemma {:induction false} RowWindowSize<T>(c: Config<T>, es: seq<Event<T>>)
    requires c.winType.RowWindow?
    ensures |SlidingWindow.Window(c, es)| <= c.winSize
  {
    if es == [] {
    } else {
      RowWindowSize(c, es[..|es| - 1]);
    }
  }

  ghost predicate LiveUpTo<T>(es: seq<Event<T>>, b: nat) {
    forall i :: 0 <= i <= |es| ==> |Live(es[..i])| <= b
  }

  lemma {:induction false} LiveUpToSnoc<T>(es: seq<Event<T>>, e: Event<T>, b: nat)
    requires LiveUpTo(es, b) && |Live(es + [e])| <= b
    ensures LiveUpTo(es + [e], b)
  {
    var all := es + [e];
    forall i | 0 <= i <= |all| ensures |Live(all[..i])| <= b {
      assert all[..i] == if i == |all| then all else es[..i];
    }
  }

  /** While tuples leave the window, ever fewer elements are live. */
  lemma {:induction false} OutdateUpTo<T>(out: seq<Event<T>>, w: seq<T>, xs: seq<T>, b: nat)
    requires Fifo(out) && Expired(out) + w == Inserted(out) && xs <= w && |w| <= b && LiveUpTo(out, b)
    ensures LiveUpTo(out + Outdate(xs), b)
  {
    if xs == [] {
      assert out + Outdate(xs) == out;
    } else {
      var init, x := xs[..|xs| - 1], xs[|xs| - 1];
      assert init + [x] == xs;
      OutdateUpTo(out, w, init, b);
      LiveAfterOutdates(out, w, xs);
      OutdateSnoc(init, x);
      ConcatSnoc(out, Outdate(init), Event(x, true));
      LiveUpToSnoc(out + Outdate(init), Event(x, true), b);
    }
  }

  /** At no moment more elements of the output are live than the largest window holds. */
  lemma {:induction false} OutputUpTo<T>(c: Config<T>, es: seq<Event<T>>, b: nat)
    requires Feeds(c, es) && WindowsUpTo(c, es, b)
    ensures LiveUpTo(SlidingWindow.Output(c, es), b)
    decreases |es|
  {
    if es == [] {
    } else {
      var init, x := SnocOfNew(es);
      var out, buf := SlidingWindow.Output(c, init), SlidingWindow.Window(c, init) + [x];
      FeedsInit(c, init, x);
      WindowsUpToInit(c, init, Event(x, false), b);
      OutputUpTo(c, init, b);
      FedSoFar(c, init);
      OutdateUpTo(out, SlidingWindow.PublishedWindow(c, init), SlidingWindow.Gone(c, buf), b);
      SlidingWindow.WindowSnoc(c, init, x);
      SlidingWindow.SlidingLive(c, es);
      LiveUpToSnoc(out + Outdate(SlidingWindow.Gone(c, buf)),
                   Event(Forwarded(c, SlidingWindow.Evict(c, buf), x), false), b);
    }
  }

  /* ---- windows and joins ---- */

  /** Two sliding windows feeding a symmetric hash join: whatever the interleaving of their outputs, the
      net results are the join of what the two current windows show. */
  lemma {:induction false} WindowedJoin<K, L(!new), R(!new)>(q: Query<K, L, R>, cL: Config<L>, cR: Config<R>,
      ls: seq<Event<L>>, rs: seq<Event<R>>, es: seq<Input<L, R>>, l: L, r: R)
    requires Feeds(cL, ls) && NeverEqual(cL, ls) && Feeds(cR, rs) && NeverEqual(cR, rs)
    requires LeftOf(es) == SlidingWindow.Output(cL, ls) && RightOf(es) == SlidingWindow.Output(cR, rs)
    ensures NetOf(q, es, l, r) == JoinCount(q, multiset(SlidingWindow.PublishedWindow(cL, ls)),
                                            multiset(SlidingWindow.PublishedWindow(cR, rs)), l, r)
  {
    WindowFeedsJoin(cL, ls);
    WindowFeedsJoin(cR, rs);
    NetIsJoinOfLive(q, es, l, r);
  }

  ghost predicate SidesExpireInOrder<L, R>(es: seq<Input<L, R>>) {
    Fifo(LeftOf(es)) && SingleExpiry(LeftOf(es)) && Fifo(RightOf(es)) && SingleExpiry(RightOf(es))
  }

  lemma {:induction false} SideInit<T>(init: seq<Event<T>>, e: Event<T>)
    requires Fifo(init + [e]) && SingleExpiry(init + [e])
    ensures Fifo(init) && SingleExpiry(init)
  {
    FifoSnoc(init, e);
    SingleExpirySnoc(init, e);
  }

  lemma {:induction false} LeftInit<L, R>(init: seq<Input<L, R>>, x: Event<L>)
    requires SidesExpireInOrder(init + [FromLeft(x)])
    ensures SidesExpireInOrder(init)
  {
    SidesSnoc(init, FromLeft(x));
    SideInit(LeftOf(init), x);
  }

  lemma {:induction false} RightInit<L, R>(init: seq<Input<L, R>>, x: Event<R>)
    requires SidesExpireInOrder(init + [FromRight(x)])
    ensures SidesExpireInOrder(init)
  {
    SidesSnoc(init, FromRight(x));
    SideInit(RightOf(init), x);
  }

  lemma {:induction false} SidesInit<L, R>(init: seq<Input<L, R>>, e: Input<L, R>)
    requires SidesExpireInOrder(init + [e])
    ensures SidesExpireInOrder(init)
  {
    match e
    case FromLeft(x) => LeftInit(init, x);
    case FromRight(x) => RightInit(init, x);
  }

  /** Over the whole input, n instances publish together exactly what one join publishes. */
  lemma {:induction false} InstancesTotal<K, L, R>(q: Query<K, L, R>, n: nat, es: seq<Input<L, R>>, l: L, r: R)
    requires n > 0 && SidesExpireInOrder(es)
    ensures NetOfInstances(q, n, n, es, l, r) == NetOf(q, es, l, r)
    decreases |es|
  {
    if es == [] {
      NetOfInstancesEmpty(q, n, n, l, r);
    } else {
      var init, e := SnocOf(es);
      SidesInit(init, e);
      InstancesTotal(q, n, init, l, r);
      TotalStep(q, n, init, e, l, r);
    }
  }

  lemma {:induction false} TotalStep<K, L, R>(q: Query<K, L, R>, n: nat, init: seq<Input<L, R>>, e: Input<L, R>,
      l: L, r: R)
    requires n > 0 && SidesExpireInOrder(init)
    ensures NetOfInstances(q, n, n, init + [e], l, r) - NetOfInstances(q, n, n, init, l, r)
         == NetOf(q, init + [e], l, r) - NetOf(q, init, l, r)
  {
    assert (init + [e])[..|init|] == init;
    NetOfInstancesSnoc(q, n, n, init + [e], l, r);
    InstancesRefineJoin(q, n, init, e, l, r);
  }

  /** Two sliding windows feeding n instances: together they hold the join of what the two current windows
      show, if no two equal tuples are in a window at the same time, or no window holds more than n. */
  lemma {:induction false} WindowedScaleJoin<K, L(!new), R(!new)>(q: Query<K, L, R>, n: nat, cL: Config<L>,
      cR: Config<R>, ls: seq<Event<L>>, rs: seq<Event<R>>, es: seq<Input<L, R>>, l: L, r: R)
    requires n > 0 && Feeds(cL, ls) && Feeds(cR, rs)
    requires (NeverEqual(cL, ls) || WindowsUpTo(cL, ls, n)) && (NeverEqual(cR, rs) || WindowsUpTo(cR, rs, n))
    requires LeftOf(es) == SlidingWindow.Output(cL, ls) && RightOf(es) == SlidingWindow.Output(cR, rs)
    ensures NetOfInstances(q, n, n, es, l, r)
         == JoinCount(q, multiset(SlidingWindow.PublishedWindow(cL, ls)),
                      multiset(SlidingWindow.PublishedWindow(cR, rs)), l, r)
  {
    WindowFeedsInstances(cL, n, ls);
    WindowFeedsInstances(cR, n, rs);
    InstancesHoldJoin(q, n, es);
    SlidingWindow.SlidingLive(cL, ls);
    SlidingWindow.SlidingLive(cR, rs);
  }

  lemma {:induction false} WindowFeedsInstances<T>(c: Config<T>, n: nat, es: seq<Event<T>>)
    requires n > 0 && Feeds(c, es) && (NeverEqual(c, es) || WindowsUpTo(c, es, n))
    ensures OwnersExpire(n, SlidingWindow.Output(c, es))
  {
    FedSoFar(c, es);
    if NeverEqual(c, es) {
      SlidingExpiresSingly(c, es);
      SingleOwners(n, SlidingWindow.Output(c, es));
    } else {
      OutputUpTo(c, es, n);
      FewOwners(n, SlidingWindow.Output(c, es));
    }
  }

  /* ---- windows, partitions and aggregates ---- */

  /** The tuples of group `k`, in order. */
  function OfGroup<T, K(==)>(group: T -> K, k: K, xs: seq<T>): seq<T> {
    if xs == [] then []
    else if group(xs[|xs| - 1]) == k then OfGroup(group, k, xs[..|xs| - 1]) + [xs[|xs| - 1]]
    else OfGroup(group, k, xs[..|xs| - 1])
  }

  lemma {:induction false} OfGroupCounts<T, K>(group: T -> K, k: K, xs: seq<T>, x: T)
    ensures multiset(OfGroup(group, k, xs))[x] == if group(x) == k then multiset(xs)[x] else 0
  {
    if xs == [] {
    } else {
      OfGroupCounts(group, k, xs[..|xs| - 1], x);
      assert xs == xs[..|xs| - 1] + [xs[|xs| - 1]];
    }
  }

  lemma {:induction false} GroupOfWindow<T(!new), K, S, R>(c: Config<T>, a: G.Aggregate<T, K, S, R>,
      es: seq<Event<T>>, k: K)
    requires Feeds(c, es)
    ensures G.GroupLive(a, SlidingWindow.Output(c, es), k)
         == multiset(OfGroup(a.group, k, SlidingWindow.PublishedWindow(c, es)))
  {
    var out, w := SlidingWindow.Output(c, es), SlidingWindow.PublishedWindow(c, es);
    SlidingWindow.SlidingLive(c, es);
    forall x ensures G.GroupLive(a, out, k)[x] == multiset(OfGroup(a.group, k, w))[x] {
      LiveOfPart(a.group, out, k, x);
      OfGroupCounts(a.group, k, w, x);
    }
  }

  lemma {:induction false} PartSize<T>(part: multiset<T>, whole: multiset<T>)
    requires forall x :: part[x] <= whole[x]
    ensures |part| <= |whole|
  {
    assert whole == part + (whole - part);
  }

  /** A group has at most as many live elements as the whole stream. */
  lemma {:induction false} GroupsUpTo<T(!new), K(!new), S, R>(a: G.Aggregate<T, K, S, R>, es: seq<Event<T>>, b: nat)
    requires LiveUpTo(es, b) && b < G.WRAP
    ensures G.CountersSuffice(a, es)
  {
    forall i, k | 0 <= i <= |es| ensures |G.GroupLive(a, es[..i], k)| < G.WRAP {
      forall x ensures G.GroupLive(a, es[..i], k)[x] <= Live(es[..i])[x] {
        LiveOfPart(a.group, es[..i], k, x);
      }
      PartSize(G.GroupLive(a, es[..i], k), Live(es[..i]));
    }
  }

  /** A sliding window feeding a grouped aggregation: the table holds exactly the groups of what the current
      window shows, each with the aggregate of its tuples, if no window ever holds 2^32 tuples. */
  lemma {:induction false} WindowedAggregation<T(!new), K(!new), S(!new), R>(c: Config<T>, a: G.Aggregate<T, K, S, R>,
      es: seq<Event<T>>, k: K)
    requires G.HasInverse(a) && Feeds(c, es) && WindowsUpTo(c, es, G.WRAP - 1)
    ensures var xs := OfGroup(a.group, k, SlidingWindow.PublishedWindow(c, es));
            G.Group(a, SlidingWindow.Output(c, es), k)
              == if xs == [] then None else Some(G.Entry(|xs|, G.Fold(a, k, xs)))
  {
    var xs := OfGroup(a.group, k, SlidingWindow.PublishedWindow(c, es));
    FedSoFar(c, es);
    FifoRefersToLive(SlidingWindow.Output(c, es));
    OutputUpTo(c, es, G.WRAP - 1);
    GroupsUpTo(a, SlidingWindow.Output(c, es), G.WRAP - 1);
    G.GroupFitsLive(a, SlidingWindow.Output(c, es), k);
    GroupOfWindow(c, a, es, k);
    assert |multiset(xs)| == |xs|;
  }

  /** Grouped aggregations behind the partitions: the one that sees the events of partition `p` keeps, for
      every group, exactly the live elements of the group that belong to `p`. */
  lemma {:induction false} PartitionedAggregation<T(!new), K(!new), S(!new), R>(a: G.Aggregate<T, K, S, R>,
      f: T -> int, es: seq<Event<T>>, p: int, k: K)
    requires G.HasInverse(a) && RefersToLive(es) && LiveUpTo(Part(f, es, p), G.WRAP - 1)
    ensures G.Fits(a, k, G.GroupLive(a, Part(f, es, p), k), G.Group(a, Part(f, es, p), k))
    ensures forall x :: G.GroupLive(a, Part(f, es, p), k)[x]
                     == if f(x) == p && a.group(x) == k then Live(es)[x] else 0
  {
    PartRefersToLive(f, es, p);
    GroupsUpTo(a, Part(f, es, p), G.WRAP - 1);
    G.GroupFitsLive(a, Part(f, es, p), k);
    forall x ensures G.GroupLive(a, Part(f, es, p), k)[x]
                  == if f(x) == p && a.group(x) == k then Live(es)[x] else 0 {
      LiveOfPart(a.group, Part(f, es, p), k, x);
      LiveOfPart(f, es, p, x);
    }
  }

  /** If the partition depends on the group only, the aggregation behind the partition of a group has the
      very entry that one aggregation of all events has. */
  lemma {:induction false} PartitionByGroup<T, K, S, R>(a: G.Aggregate<T, K, S, R>, f: T -> int, g: K -> int,
      es: seq<Event<T>>, k: K)
    requires forall e :: e in es ==> f(e.data) == g(a.group(e.data))
    ensures G.Group(a, Part(f, es, g(k)), k) == G.Group(a, es, k)
    decreases |es|
  {
    if es == [] {
    } else {
      var init, e := SnocOf(es);
      assert e in es && forall d :: d in init ==> d in es;
      PartitionByGroup(a, f, g, init, k);
      PartSnoc(f, init, e, g(k));
      G.GroupSnoc(a, init, e, k);
      G.GroupSnoc(a, Part(f, init, g(k)), e, k);
    }
  }
}

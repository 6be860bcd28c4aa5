/** ScaleJoin: n instances see all events of both streams; each stores every n-th tuple. */
module ScaleJoin {
  import opened Streams
  import opened JoinSpec
  import opened HashJoin

  /* ---- one instance ---- */

  /** The instance whose turn it is after `k` tuples: a counter that goes round 0 .. n - 1. */
  function Owner(k: nat, n: nat): (i: nat)
    requires n > 0
    ensures i < n
  {
    if k == 0 || Owner(k - 1, n) + 1 == n then 0 else Owner(k - 1, n) + 1
  }

  /** Every n-th tuple is its turn. */
  lemma {:induction false} RoundRobin(k: nat, n: nat) returns (rounds: nat)
    requires n > 0
    ensures k == n * rounds + Owner(k, n)
  {
    if k == 0 {
      rounds := 0;
    } else {
      var before := RoundRobin(k - 1, n);
      if Owner(k - 1, n) + 1 == n {
        rounds := before + 1;
        assert n * rounds == n * before + n;
      } else {
        rounds := before;
      }
    }
  }

  /** The table of instance `i` of `n`: round-robin counters decide which inserts and which outdates it
      takes part in. */
  function Kept<T(==)>(i: nat, n: nat, es: seq<Event<T>>): multiset<T>
    requires n > 0
  {
    if es == [] then multiset{}
    else
      var init, e := es[..|es| - 1], es[|es| - 1];
      if e.outdated then
        if Owner(|Expired(init)|, n) == i then Kept(i, n, init)[e.data := 0] else Kept(i, n, init)
      else
        if Owner(|Inserted(init)|, n) == i then Kept(i, n, init) + multiset{e.data} else Kept(i, n, init)
  }

  /** Signed results for (l, r) that instance `i` publishes for the whole input. */
  function NetOfInstance<K(==), L(==), R(==)>(q: Query<K, L, R>, i: nat, n: nat, es: seq<Input<L, R>>, l: L, r: R): int
    requires n > 0
  {
    if es == [] then 0
    else
      var init := es[..|es| - 1];
      NetOfInstance(q, i, n, init, l, r)
      + Contribution(q, Kept(i, n, LeftOf(init)), Kept(i, n, RightOf(init)), es[|es| - 1], l, r)
  }

  lemma {:induction false} KeptSnoc<T>(i: nat, n: nat, es: seq<Event<T>>, e: Event<T>)
    requires n > 0
    ensures Kept(i, n, es + [e]) ==
            if e.outdated then
              if Owner(|Expired(es)|, n) == i then Kept(i, n, es)[e.data := 0] else Kept(i, n, es)
            else
              if Owner(|Inserted(es)|, n) == i then Kept(i, n, es) + multiset{e.data} else Kept(i, n, es)
  {
    assert (es + [e])[..|es|] == es;
  }

  /* ---- all instances together ---- */

  /** The tables of the first `k` instances together. */
  function AllKept<T(==)>(k: nat, n: nat, es: seq<Event<T>>): multiset<T>
    requires n > 0
  {
    if k == 0 then multiset{} else AllKept(k - 1, n, es) + Kept(k - 1, n, es)
  }

  /** What the first `k` instances publish for the next event, signed, for the pair (l, r). */
  function AllContributions<K(==), L(==), R(==)>(q: Query<K, L, R>, k: nat, n: nat, es: seq<Input<L, R>>,
      e: Input<L, R>, l: L, r: R): int
    requires n > 0
  {
    if k == 0 then 0
    else
      AllContributions(q, k - 1, n, es, e, l, r)
      + Contribution(q, Kept(k - 1, n, LeftOf(es)), Kept(k - 1, n, RightOf(es)), e, l, r)
  }

  /** The elements of `s` at positions from `from` on that belong to instance `i`. */
  function Share<T(==)>(s: seq<T>, from: nat, i: nat, n: nat): multiset<T>
    requires n > 0
    decreases |s| - from
  {
    if from >= |s| then multiset{}
    else (if Owner(from, n) == i then multiset{s[from]} else multiset{}) + Share(s, from + 1, i, n)
  }

  function AllShares<T(==)>(k: nat, n: nat, s: seq<T>, from: nat): multiset<T>
    requires n > 0
  {
    if k == 0 then multiset{} else AllShares(k - 1, n, s, from) + Share(s, from, k - 1, n)
  }

  lemma {:induction false} ShareSnoc<T>(s: seq<T>, x: T, from: nat, i: nat, n: nat)
    requires n > 0 && from <= |s|
    ensures Share(s + [x], from, i, n) == Share(s, from, i, n) + if Owner(|s|, n) == i then multiset{x} else multiset{}
    decreases |s| - from
  {
    if from < |s| {
      ShareSnoc(s, x, from + 1, i, n);
    } else {
      assert Share(s + [x], from + 1, i, n) == multiset{};
    }
  }

  lemma {:induction false} ShareInRange<T>(s: seq<T>, from: nat, i: nat, n: nat, x: T)
    requires n > 0 && from <= |s|
    ensures Share(s, from, i, n)[x] <= multiset(s[from..])[x]
    decreases |s| - from
  {
    if from == |s| {
    } else {
      ShareInRange(s, from + 1, i, n, x);
      assert s[from..] == [s[from]] + s[from + 1..];
    }
  }

  /** Moving the start gives its element up in exactly one of the first `k` shares, if at all. */
  lemma {:induction false} AllSharesStep<T>(k: nat, n: nat, s: seq<T>, from: nat)
    requires n > 0 && from < |s|
    ensures AllShares(k, n, s, from)
        == AllShares(k, n, s, from + 1) + (if Owner(from, n) < k then multiset{s[from]} else multiset{})
  {
    if k == 0 {
    } else {
      AllSharesStep(k - 1, n, s, from);
    }
  }

  lemma {:induction false} AllSharesEmpty<T>(k: nat, n: nat, s: seq<T>, from: nat)
    requires n > 0 && from >= |s|
    ensures AllShares(k, n, s, from) == multiset{}
  {
    if k == 0 {
    } else {
      AllSharesEmpty(k - 1, n, s, from);
    }
  }

  lemma {:induction false} AllSharesFirst<T>(n: nat, s: seq<T>, from: nat)
    requires n > 0 && from < |s|
    ensures AllShares(n, n, s, from) == AllShares(n, n, s, from + 1) + multiset{s[from]}
  {
    AllSharesStep(n, n, s, from);
  }

  lemma {:induction false} RangeFirst<T>(s: seq<T>, from: nat)
    requires from < |s|
    ensures multiset(s[from..]) == multiset(s[from + 1..]) + multiset{s[from]}
  {
    assert s[from..] == [s[from]] + s[from + 1..];
  }

  /** The n shares partition the range. */
  lemma {:induction false} SharesPartition<T>(n: nat, s: seq<T>, from: nat)
    requires n > 0 && from <= |s|
    ensures AllShares(n, n, s, from) == multiset(s[from..])
    decreases |s| - from
  {
    if from == |s| {
      AllSharesEmpty(n, n, s, from);
    } else {
      var rest := AllShares(n, n, s, from + 1);
      SharesPartition(n, s, from + 1);
      AllSharesFirst(n, s, from);
      RangeFirst(s, from);
      assert AllShares(n, n, s, from) == rest + multiset{s[from]};
    }
  }

  /** How often the instance whose turn it is at the next outdate holds `x`. */
  function AtOwner<T(==)>(n: nat, es: seq<Event<T>>, x: T): nat
    requires n > 0
  {
    Kept(Owner(|Expired(es)|, n), n, es)[x]
  }

  /** Every outdate event meets its element exactly once at the instance whose turn it is. Equal elements
      may be live at other instances. */
  ghost predicate OwnersExpire<T>(n: nat, es: seq<Event<T>>)
    requires n > 0
  {
    forall i :: 0 <= i < |es| && es[i].outdated ==> AtOwner(n, es[..i], es[i].data) == 1
  }

  lemma {:induction false} OwnersExpireSnoc<T>(n: nat, es: seq<Event<T>>, e: Event<T>)
    requires n > 0
    ensures OwnersExpire(n, es + [e]) <==> OwnersExpire(n, es) && (e.outdated ==> AtOwner(n, es, e.data) == 1)
  {
    var all := es + [e];
    assert forall i :: 0 <= i < |es| ==> all[..i] == es[..i] && all[i] == es[i];
    assert all[..|es|] == es && all[|es|] == e;
  }

  /** With FIFO expiry the j-th outdate meets the instance that took the j-th insert: each table is its
      share of the elements not yet expired. */
  lemma {:induction false} KeptIsShare<T>(i: nat, n: nat, es: seq<Event<T>>)
    requires n > 0 && Fifo(es) && OwnersExpire(n, es)
    ensures Kept(i, n, es) == Share(Inserted(es), |Expired(es)|, i, n)
    decreases |es|
  {
    if es == [] {
    } else {
      var init, e := SnocOf(es);
      FifoSnoc(init, e);
      OwnersExpireSnoc(n, init, e);
      KeptIsShare(i, n, init);
      ShareStep(i, n, init, e);
    }
  }

  lemma {:induction false} ShareStep<T>(i: nat, n: nat, es: seq<Event<T>>, e: Event<T>)
    requires n > 0 && Fifo(es) && Expired(es + [e]) <= Inserted(es + [e])
    requires Kept(i, n, es) == Share(Inserted(es), |Expired(es)|, i, n)
    requires e.outdated ==> AtOwner(n, es, e.data) == 1
    ensures Kept(i, n, es + [e]) == Share(Inserted(es + [e]), |Expired(es + [e])|, i, n)
  {
    KeptSnoc(i, n, es, e);
    LiveSnoc(es, e);
    FifoLength(es);
    if e.outdated {
      ShareExpires(Inserted(es), |Expired(es)|, i, n, e.data, Expired(es));
    } else {
      ShareSnoc(Inserted(es), e.data, |Expired(es)|, i, n);
    }
  }

  /** The share without the element that expires next. */
  lemma {:induction false} ShareExpires<T>(ins: seq<T>, from: nat, i: nat, n: nat, x: T, expired: seq<T>)
    requires n > 0 && |expired| == from && expired + [x] <= ins
    requires Owner(from, n) == i ==> Share(ins, from, i, n)[x] == 1
    ensures Share(ins, from + 1, i, n)
         == if Owner(from, n) == i then Share(ins, from, i, n)[x := 0] else Share(ins, from, i, n)
  {
    assert ins[from] == (expired + [x])[from] == x;
    if Owner(from, n) == i { DropFirst(Share(ins, from + 1, i, n), x); }
  }

  lemma {:induction false} DropFirst<T>(rest: multiset<T>, x: T)
    requires (multiset{x} + rest)[x] == 1
    ensures (multiset{x} + rest)[x := 0] == rest
  {}

  /** With FIFO expiry it is enough that no equal elements are live at the same time. */
  lemma {:induction false} SingleOwners<T>(n: nat, es: seq<Event<T>>)
    requires n > 0 && Fifo(es) && SingleExpiry(es)
    ensures OwnersExpire(n, es)
    decreases |es|
  {
    if es == [] {
    } else {
      var init, e := SnocOf(es);
      FifoSnoc(init, e);
      SingleExpirySnoc(init, e);
      SingleOwners(n, init);
      OwnersExpireSnoc(n, init, e);
      if e.outdated { OwnerOfFirst(n, init, e.data); }
    }
  }

  /** The next element to expire is at its owner, and not more often than it is live. */
  lemma {:induction false} OwnerOfFirst<T>(n: nat, es: seq<Event<T>>, x: T)
    requires n > 0 && Fifo(es) && OwnersExpire(n, es) && Expired(es) + [x] <= Inserted(es)
    ensures 1 <= AtOwner(n, es, x) <= Live(es)[x]
  {
    var ins, from := Inserted(es), |Expired(es)|;
    FifoLive(es);
    KeptIsShare(Owner(from, n), n, es);
    ShareInRange(ins, from, Owner(from, n), n, x);
    assert (Expired(es) + [x])[from] == x;
  }

  /** The owners of `d` positions ahead. */
  lemma {:induction false} OwnerAhead(k: nat, d: nat, n: nat)
    requires n > 0 && d <= n
    ensures Owner(k + d, n) == if Owner(k, n) + d < n then Owner(k, n) + d else Owner(k, n) + d - n
  {
    if d == 0 {
    } else {
      OwnerAhead(k, d - 1, n);
    }
  }

  /** Up to n positions in a row have different owners. */
  lemma {:induction false} ShareOfFew<T>(s: seq<T>, from: nat, d: nat, n: nat)
    requires n > 0 && 0 < d && from + d <= |s| && |s| - from <= n
    ensures Share(s, from + d, Owner(from, n), n) == multiset{}
    decreases |s| - (from + d)
  {
    if from + d == |s| {
    } else {
      OwnerAhead(from, d, n);
      ShareOfFew(s, from, d + 1, n);
    }
  }

  /** ... or that at most n elements, equal or not, are live when one of them expires. */
  lemma {:induction false} FewOwners<T>(n: nat, es: seq<Event<T>>)
    requires n > 0 && Fifo(es) && forall i :: 0 <= i <= |es| ==> |Live(es[..i])| <= n
    ensures OwnersExpire(n, es)
    decreases |es|
  {
    if es == [] {
    } else {
      var init, e := SnocOf(es);
      FifoSnoc(init, e);
      assert forall i :: 0 <= i <= |init| ==> init[..i] == es[..i];
      FewOwners(n, init);
      OwnersExpireSnoc(n, init, e);
      assert init[..|init|] == init;
      if e.outdated { OwnerOfFew(n, init, e.data); }
    }
  }

  lemma {:induction false} OwnerOfFew<T>(n: nat, es: seq<Event<T>>, x: T)
    requires n > 0 && Fifo(es) && OwnersExpire(n, es) && |Live(es)| <= n
    requires Expired(es + [Event(x, true)]) <= Inserted(es)
    ensures AtOwner(n, es, x) == 1
  {
    var ins, from := Inserted(es), |Expired(es)|;
    LiveSnoc(es, Event(x, true));
    FifoLive(es);
    KeptIsShare(Owner(from, n), n, es);
    assert |ins[from..]| == |Live(es)|;
    FirstOfFew(ins, from, n, Expired(es), x);
  }

  lemma {:induction false} FirstOfFew<T>(ins: seq<T>, from: nat, n: nat, expired: seq<T>, x: T)
    requires n > 0 && |expired| == from && expired + [x] <= ins && |ins| - from <= n
    ensures Share(ins, from, Owner(from, n), n) == multiset{x}
  {
    assert ins[from] == (expired + [x])[from] == x;
    ShareOfFew(ins, from, 1, n);
  }

  lemma {:induction false} AllKeptAreShares<T>(k: nat, n: nat, es: seq<Event<T>>)
    requires n > 0 && Fifo(es) && OwnersExpire(n, es)
    ensures AllKept(k, n, es) == AllShares(k, n, Inserted(es), |Expired(es)|)
  {
    if k == 0 {
    } else {
      AllKeptAreShares(k - 1, n, es);
      KeptIsShare(k - 1, n, es);
    }
  }

  /** The tables of the n instances partition the table of one symmetric hash join. */
  lemma {:induction false} TablesPartition<T>(n: nat, es: seq<Event<T>>)
    requires n > 0 && Fifo(es) && SingleExpiry(es)
    ensures AllKept(n, n, es) == Stored(es)
  {
    SingleOwners(n, es);
    AllKeptAreShares(n, n, es);
    FifoLive(es);
    SharesPartition(n, Inserted(es), |Expired(es)|);
    StoredIsLive(es);
  }

  lemma {:induction false} ContributionAdditive<K, L, R>(q: Query<K, L, R>, lt: multiset<L>, lt': multiset<L>,
      rt: multiset<R>, rt': multiset<R>, e: Input<L, R>, l: L, r: R)
    ensures Contribution(q, lt + lt', rt + rt', e, l, r)
        == Contribution(q, lt, rt, e, l, r) + Contribution(q, lt', rt', e, l, r)
  {
    var sign := if e.FromLeft? then Sign(e.left.outdated) else Sign(e.right.outdated);
    assert sign == 1 || sign == -1;
  }

  lemma {:induction false} ContributionsAdd<K, L, R>(q: Query<K, L, R>, k: nat, n: nat, es: seq<Input<L, R>>,
      e: Input<L, R>, l: L, r: R)
    requires n > 0
    ensures AllContributions(q, k, n, es, e, l, r)
         == Contribution(q, AllKept(k, n, LeftOf(es)), AllKept(k, n, RightOf(es)), e, l, r)
  {
    if k == 0 {
    } else {
      ContributionsAdd(q, k - 1, n, es, e, l, r);
      ContributionAdditive(q, AllKept(k - 1, n, LeftOf(es)), Kept(k - 1, n, LeftOf(es)),
                           AllKept(k - 1, n, RightOf(es)), Kept(k - 1, n, RightOf(es)), e, l, r);
    }
  }

  /** n instances refine one join: for the next event they publish together, pair by pair and with the
      same sign, exactly what one symmetric hash join publishes; no result is lost or doubled. */
  lemma {:induction false} InstancesRefineJoin<K, L, R>(q: Query<K, L, R>, n: nat, es: seq<Input<L, R>>,
      e: Input<L, R>, l: L, r: R)
    requires n > 0
    requires Fifo(LeftOf(es)) && SingleExpiry(LeftOf(es)) && Fifo(RightOf(es)) && SingleExpiry(RightOf(es))
    ensures AllContributions(q, n, n, es, e, l, r) == NetOf(q, es + [e], l, r) - NetOf(q, es, l, r)
  {
    ContributionsAdd(q, n, n, es, e, l, r);
    TablesPartition(n, LeftOf(es));
    TablesPartition(n, RightOf(es));
    NetOfSnoc(q, es, e, l, r);
  }

  /** An outdate event keeps the tables a partition of the live elements exactly when its element is not
      live, or the instance whose turn it is holds it exactly once. Equal elements may thus be live as
      long as different instances hold them. */
  lemma {:induction false} OutdateExact<T(!new)>(n: nat, es: seq<Event<T>>, x: T)
    requires n > 0 && AllKept(n, n, es) == Live(es)
    ensures AllKept(n, n, es + [Event(x, true)]) == Live(es + [Event(x, true)]) <==>
            (x !in Live(es) || Kept(Owner(|Expired(es)|, n), n, es)[x] == 1)
  {
    LiveSnoc(es, Event(x, true));
    var j := Owner(|Expired(es)|, n);
    var after, live := AllKept(n, n, es + [Event(x, true)]), Live(es);
    AllKeptBounds(n, n, es, j, x);
    forall y ensures after[y] + (if y == x then Kept(j, n, es)[x] else 0) == live[y] {
      AllKeptOutdate(n, n, es, x, y, j);
    }
    OneTaken(after, live, x, Kept(j, n, es)[x]);
  }

  /** Taking `k` copies of `x` is taking one exactly when it is one, or there was none. */
  lemma {:induction false} OneTaken<T(!new)>(after: multiset<T>, live: multiset<T>, x: T, k: nat)
    requires forall y :: after[y] + (if y == x then k else 0) == live[y]
    ensures after == live - multiset{x} <==> x !in live || k == 1
  {
    assert after == live - multiset{x} ==> after[x] == (live - multiset{x})[x];
    if k == 1 || x !in live {
      forall y ensures after[y] == (live - multiset{x})[y] {}
    }
  }

  lemma {:induction false} AllKeptBounds<T>(k: nat, n: nat, es: seq<Event<T>>, j: nat, x: T)
    requires n > 0 && j < k
    ensures Kept(j, n, es)[x] <= AllKept(k, n, es)[x]
  {
    if j == k - 1 {
    } else {
      AllKeptBounds(k - 1, n, es, j, x);
    }
  }

  lemma {:induction false} AllKeptOutdate<T>(k: nat, n: nat, es: seq<Event<T>>, x: T, y: T, j: nat)
    requires n > 0 && j == Owner(|Expired(es)|, n)
    ensures AllKept(k, n, es + [Event(x, true)])[y] + (if j < k && y == x then Kept(j, n, es)[x] else 0)
        == AllKept(k, n, es)[y]
  {
    if k == 0 {
    } else {
      AllKeptOutdate(k - 1, n, es, x, y, j);
      KeptSnoc(k - 1, n, es, Event(x, true));
      assert Kept(k - 1, n, es + [Event(x, true)]) == if j == k - 1 then Kept(j, n, es)[x := 0] else Kept(k - 1, n, es);
    }
  }

  /* ---- the operator ---- */

  /** The counters are C++ shorts. */
  newtype Short = x: int | -0x8000 <= x < 0x8000

  /** One side of an instance: its counters count the inserts and outdates seen, round-robin, and its table
      holds what these turns gave it. */
  ghost predicate SideOk<K, T(!new)>(i: nat, n: nat, key: T -> K, table: Table<K, T>, cntr: int, outCntr: int,
      es: seq<Event<T>>)
    requires n > 0
  {
    && cntr == Owner(|Inserted(es)|, n) && outCntr == Owner(|Expired(es)|, n)
    && Represents(table, key, Kept(i, n, es))
  }

  /** The side after an outdate event, given the table after it. */
  lemma {:induction false} SideOutdated<K, T(!new)>(i: nat, n: nat, key: T -> K, table: Table<K, T>, cntr: int,
      outCntr: int, es: seq<Event<T>>, x: T)
    requires n > 0 && cntr == Owner(|Inserted(es)|, n) && outCntr == Owner(|Expired(es)|, n)
    requires Represents(table, key, if outCntr == i then Kept(i, n, es)[x := 0] else Kept(i, n, es))
    ensures SideOk(i, n, key, table, cntr, Owner(|Expired(es)| + 1, n), es + [Event(x, true)])
  {
    KeptSnoc(i, n, es, Event(x, true));
    LiveSnoc(es, Event(x, true));
  }

  lemma {:induction false} SideInserted<K, T(!new)>(i: nat, n: nat, key: T -> K, table: Table<K, T>, cntr: int,
      outCntr: int, es: seq<Event<T>>, x: T)
    requires n > 0 && cntr == Owner(|Inserted(es)|, n) && outCntr == Owner(|Expired(es)|, n)
    requires Represents(table, key, if cntr == i then Kept(i, n, es) + multiset{x} else Kept(i, n, es))
    ensures SideOk(i, n, key, table, Owner(|Inserted(es)| + 1, n), outCntr, es + [Event(x, false)])
  {
    KeptSnoc(i, n, es, Event(x, false));
    LiveSnoc(es, Event(x, false));
  }

  ghost predicate PublishedByInstance<K, L(!new), R(!new)>(q: Query<K, L, R>, i: nat, n: nat, hist: seq<Input<L, R>>,
      out: seq<Result<L, R>>)
    requires n > 0
  {
    forall l, r :: Net(out, l, r) == NetOfInstance(q, i, n, hist, l, r)
  }

  lemma {:induction false} PublishedByInstanceSnoc<K, L(!new), R(!new)>(q: Query<K, L, R>, i: nat, n: nat,
      hist: seq<Input<L, R>>, e: Input<L, R>, before: seq<Result<L, R>>, out: seq<Result<L, R>>)
    requires n > 0 && PublishedByInstance(q, i, n, hist, before)
    requires forall l, r :: Net(out, l, r) == Net(before, l, r) +
               Contribution(q, Kept(i, n, LeftOf(hist)), Kept(i, n, RightOf(hist)), e, l, r)
    ensures PublishedByInstance(q, i, n, hist + [e], out)
  {
    assert (hist + [e])[..|hist|] == hist;
  }

  /** Probing with a left element publishes what the round-robin specification asks of the instance. */
  lemma {:induction false} PublishedLeft<K, L(!new), R(!new)>(q: Query<K, L, R>, i: nat, n: nat,
      hist: seq<Input<L, R>>, x: Event<L>, table: Table<K, R>, before: seq<Result<L, R>>, out: seq<Result<L, R>>)
    requires n > 0 && PublishedByInstance(q, i, n, hist, before)
    requires Represents(table, q.rKey, Kept(i, n, RightOf(hist)))
    requires JoinedLeft(q, x, Bucket(table, q.lKey(x.data)), before, out)
    ensures PublishedByInstance(q, i, n, hist + [FromLeft(x)], out)
  {
    LeftContribution(q, x, Kept(i, n, LeftOf(hist)), Kept(i, n, RightOf(hist)), table, before, out);
    PublishedByInstanceSnoc(q, i, n, hist, FromLeft(x), before, out);
  }

  lemma {:induction false} PublishedRight<K, L(!new), R(!new)>(q: Query<K, L, R>, i: nat, n: nat,
      hist: seq<Input<L, R>>, x: Event<R>, table: Table<K, L>, before: seq<Result<L, R>>, out: seq<Result<L, R>>)
    requires n > 0 && PublishedByInstance(q, i, n, hist, before)
    requires Represents(table, q.lKey, Kept(i, n, LeftOf(hist)))
    requires JoinedRight(q, x, Bucket(table, q.rKey(x.data)), before, out)
    ensures PublishedByInstance(q, i, n, hist + [FromRight(x)], out)
  {
    RightContribution(q, x, Kept(i, n, LeftOf(hist)), Kept(i, n, RightOf(hist)), table, before, out);
    PublishedByInstanceSnoc(q, i, n, hist, FromRight(x), before, out);
  }

  lemma {:induction false} SmallMod(a: nat, n: nat)
    requires a <= n && n > 0
    ensures a % n == if a == n then 0 else a
  {}

  class ScaleJoin<K(==), L(==,!new), R(==,!new)> {
    const q: Query<K, L, R>
    const mID: int
    const mThreadnum: int
    var mLTable: Table<K, L>
    var mRTable: Table<K, R>
    var mLCntr: Short
    var mRCntr: Short
    var mLOCntr: Short
    var mROCntr: Short
    var out: seq<Result<L, R>>
    ghost var hist: seq<Input<L, R>>

    ghost predicate Valid()
      reads this
    {
      && 0 <= mID < mThreadnum <= 0x7FFF
      && SideOk(mID, mThreadnum, q.lKey, mLTable, mLCntr as int, mLOCntr as int, LeftOf(hist))
      && SideOk(mID, mThreadnum, q.rKey, mRTable, mRCntr as int, mROCntr as int, RightOf(hist))
      && PublishedByInstance(q, mID, mThreadnum, hist, out)
    }

    constructor (q: Query<K, L, R>, id: int, numThreads: int)
      requires 0 <= id < numThreads <= 0x7FFF
      ensures Valid() && this.q == q && mID == id && mThreadnum == numThreads && hist == [] && out == []
    {
      this.q, mID, mThreadnum := q, id, numThreads;
      mLTable, mRTable, out, hist := map[], map[], [], [];
      mLCntr, mRCntr, mLOCntr, mROCntr := 0, 0, 0, 0;
    }

    /** The next value of a round-robin counter. */
    function Turn(cntr: Short): Short
      requires 0 < mThreadnum <= 0x7FFF && 0 <= cntr as int < mThreadnum
    {
      ((cntr + 1) as int % mThreadnum) as Short
    }

    lemma {:induction false} TurnIsNext(cntr: Short, k: nat)
      requires 0 < mThreadnum <= 0x7FFF && cntr as int == Owner(k, mThreadnum)
      ensures Turn(cntr) as int == Owner(k + 1, mThreadnum)
    {
      SmallMod(cntr as int + 1, mThreadnum);
    }

    /** Store or remove a left element if it is this instance's turn, and move the turn on. */
    method UpdateLeft(left: L, outdated: bool, ghost es: seq<Event<L>>)
      requires 0 <= mID < mThreadnum <= 0x7FFF
      requires SideOk(mID, mThreadnum, q.lKey, mLTable, mLCntr as int, mLOCntr as int, es)
      modifies this`mLTable, this`mLCntr, this`mLOCntr
      ensures SideOk(mID, mThreadnum, q.lKey, mLTable, mLCntr as int, mLOCntr as int, es + [Event(left, outdated)])
    {
      ghost var kept := Kept(mID, mThreadnum, es);
      if outdated {
        if mLOCntr as int == mID {
          mLTable := UpdateHashTable(mLTable, q.lKey, kept, q.lKey(left), left, outdated);
        }
        SideOutdated(mID, mThreadnum, q.lKey, mLTable, mLCntr as int, mLOCntr as int, es, left);
        TurnIsNext(mLOCntr, |Expired(es)|);
        mLOCntr := Turn(mLOCntr);
      } else {
        if mLCntr as int == mID {
          mLTable := UpdateHashTable(mLTable, q.lKey, kept, q.lKey(left), left, outdated);
        }
        SideInserted(mID, mThreadnum, q.lKey, mLTable, mLCntr as int, mLOCntr as int, es, left);
        TurnIsNext(mLCntr, |Inserted(es)|);
        mLCntr := Turn(mLCntr);
      }
    }

    /** Store or remove a right element if it is this instance's turn, and move the turn on. */
    method UpdateRight(right: R, outdated: bool, ghost es: seq<Event<R>>)
      requires 0 <= mID < mThreadnum <= 0x7FFF
      requires SideOk(mID, mThreadnum, q.rKey, mRTable, mRCntr as int, mROCntr as int, es)
      modifies this`mRTable, this`mRCntr, this`mROCntr
      ensures SideOk(mID, mThreadnum, q.rKey, mRTable, mRCntr as int, mROCntr as int, es + [Event(right, outdated)])
    {
      ghost var kept := Kept(mID, mThreadnum, es);
      if outdated {
        if mROCntr as int == mID {
          mRTable := UpdateHashTable(mRTable, q.rKey, kept, q.rKey(right), right, outdated);
        }
        SideOutdated(mID, mThreadnum, q.rKey, mRTable, mRCntr as int, mROCntr as int, es, right);
        TurnIsNext(mROCntr, |Expired(es)|);
        mROCntr := Turn(mROCntr);
      } else {
        if mRCntr as int == mID {
          mRTable := UpdateHashTable(mRTable, q.rKey, kept, q.rKey(right), right, outdated);
        }
        SideInserted(mID, mThreadnum, q.rKey, mRTable, mRCntr as int, mROCntr as int, es, right);
        TurnIsNext(mRCntr, |Inserted(es)|);
        mRCntr := Turn(mRCntr);
      }
    }

    method ProcessLeft(left: L, outdated: bool)
      requires Valid()
      modifies this
      ensures Valid() && hist == old(hist) + [FromLeft(Event(left, outdated))]
      ensures old(out) <= out && forall i :: |old(out)| <= i < |out| ==> out[i].outdated == outdated
    {
      ghost var e := Event(left, outdated);
      SidesSnoc(hist, FromLeft(e));
      UpdateLeft(left, outdated, LeftOf(hist));
      out := JoinWithRight(q, mRTable, left, outdated, out);
      PublishedLeft(q, mID, mThreadnum, hist, e, mRTable, old(out), out);
      hist := hist + [FromLeft(e)];
    }

    method ProcessRight(right: R, outdated: bool)
      requires Valid()
      modifies this
      ensures Valid() && hist == old(hist) + [FromRight(Event(right, outdated))]
      ensures old(out) <= out && forall i :: |old(out)| <= i < |out| ==> out[i].outdated == outdated
    {
      ghost var e := Event(right, outdated);
      SidesSnoc(hist, FromRight(e));
      UpdateRight(right, outdated, RightOf(hist));
      out := JoinWithLeft(q, mLTable, right, outdated, out);
      PublishedRight(q, mID, mThreadnum, hist, e, mLTable, old(out), out);
      hist := hist + [FromRight(e)];
    }
  }
}

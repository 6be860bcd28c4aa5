/** The results of all instances of a ScaleJoin together, and exactly when they are those of the join. */
module ScaleJoinResults {
  import opened Streams
  import opened JoinSpec
  import opened ScaleJoin

  /** Signed results for (l, r) of the first `k` of `n` instances together. */
  function NetOfInstances<K(==), L(==), R(==)>(q: Query<K, L, R>, k: nat, n: nat, es: seq<Input<L, R>>, l: L, r: R): int
    requires n > 0
  {
    if k == 0 then 0 else NetOfInstances(q, k - 1, n, es, l, r) + NetOfInstance(q, k - 1, n, es, l, r)
  }

  lemma {:induction false} NetOfInstancesSnoc<K, L, R>(q: Query<K, L, R>, k: nat, n: nat, es: seq<Input<L, R>>, l: L,
      r: R)
    requires n > 0 && es != []
    ensures var init, e := es[..|es| - 1], es[|es| - 1];
            NetOfInstances(q, k, n, es, l, r)
                == NetOfInstances(q, k, n, init, l, r) + AllContributions(q, k, n, init, e, l, r)
  {
    if k == 0 {
    } else {
      NetOfInstancesSnoc(q, k - 1, n, es, l, r);
    }
  }

  lemma {:induction false} NetOfInstancesEmpty<K, L, R>(q: Query<K, L, R>, k: nat, n: nat, l: L, r: R)
    requires n > 0
    ensures NetOfInstances(q, k, n, [], l, r) == 0
  {
    if k == 0 {
    } else {
      NetOfInstancesEmpty(q, k - 1, n, l, r);
    }
  }

  /* ---- exactly when an outdate event is handled right ---- */

  /** The tables partition the live elements, and the results of all instances are their join. */
  ghost predicate AllInSync<K, L(!new), R(!new)>(q: Query<K, L, R>, n: nat, es: seq<Input<L, R>>)
    requires n > 0
  {
    && AllKept(n, n, LeftOf(es)) == Live(LeftOf(es)) && AllKept(n, n, RightOf(es)) == Live(RightOf(es))
    && NetInSync(q, n, es, Live(LeftOf(es)), Live(RightOf(es)))
  }

  ghost predicate NetInSync<K, L(!new), R(!new)>(q: Query<K, L, R>, n: nat, es: seq<Input<L, R>>, ls: multiset<L>,
      rs: multiset<R>)
    requires n > 0
  {
    forall l, r :: NetOfInstances(q, n, n, es, l, r) == JoinCount(q, ls, rs, l, r)
  }

  /** What all instances publish for the next event. */
  lemma {:induction false} NetAfter<K, L(!new), R(!new)>(q: Query<K, L, R>, n: nat, es: seq<Input<L, R>>,
      e: Input<L, R>)
    requires n > 0 && AllInSync(q, n, es)
    ensures var ls, rs := Live(LeftOf(es)), Live(RightOf(es));
            forall l, r :: NetOfInstances(q, n, n, es + [e], l, r)
                        == JoinCount(q, ls, rs, l, r) + Contribution(q, ls, rs, e, l, r)
  {
    assert (es + [e])[..|es + [e]| - 1] == es;
    forall l, r
      ensures NetOfInstances(q, n, n, es + [e], l, r)
           == JoinCount(q, Live(LeftOf(es)), Live(RightOf(es)), l, r)
              + Contribution(q, Live(LeftOf(es)), Live(RightOf(es)), e, l, r)
    {
      NetOfInstancesSnoc(q, n, n, es + [e], l, r);
      ContributionsAdd(q, n, n, es, e, l, r);
    }
  }

  lemma {:induction false} NetExactLeft<K, L(!new), R(!new)>(q: Query<K, L, R>, n: nat, es: seq<Input<L, R>>, x: L)
    requires n > 0 && AllInSync(q, n, es)
    ensures NetInSync(q, n, es + [FromLeft(Event(x, true))], Live(LeftOf(es)) - multiset{x}, Live(RightOf(es))) <==>
            x in Live(LeftOf(es)) || forall r :: r in Live(RightOf(es)) ==> !Matches(q, x, r)
  {
    NetAfter(q, n, es, FromLeft(Event(x, true)));
    TakenBackLeft(q, Live(LeftOf(es)), Live(RightOf(es)), x);
  }

  lemma {:induction false} NetExactRight<K, L(!new), R(!new)>(q: Query<K, L, R>, n: nat, es: seq<Input<L, R>>, y: R)
    requires n > 0 && AllInSync(q, n, es)
    ensures NetInSync(q, n, es + [FromRight(Event(y, true))], Live(LeftOf(es)), Live(RightOf(es)) - multiset{y}) <==>
            y in Live(RightOf(es)) || forall l :: l in Live(LeftOf(es)) ==> !Matches(q, l, y)
  {
    NetAfter(q, n, es, FromRight(Event(y, true)));
    TakenBackRight(q, Live(LeftOf(es)), Live(RightOf(es)), y);
  }

  /** An outdated left element keeps tables and results of all instances right exactly when it is live and
      the instance whose turn it is holds it once, or it is not live and has no live partner. */
  lemma {:induction false} ResultsExactLeft<K, L(!new), R(!new)>(q: Query<K, L, R>, n: nat, es: seq<Input<L, R>>, x: L)
    requires n > 0 && AllInSync(q, n, es)
    ensures AllInSync(q, n, es + [FromLeft(Event(x, true))]) <==>
              if x in Live(LeftOf(es)) then AtOwner(n, LeftOf(es), x) == 1
              else forall r :: r in Live(RightOf(es)) ==> !Matches(q, x, r)
  {
    var e: Input<L, R> := FromLeft(Event(x, true));
    SidesSnoc(es, e);
    LiveSnoc(LeftOf(es), e.left);
    OutdateExact(n, LeftOf(es), x);
    NetExactLeft(q, n, es, x);
  }

  /** The same for the right side. */
  lemma {:induction false} ResultsExactRight<K, L(!new), R(!new)>(q: Query<K, L, R>, n: nat, es: seq<Input<L, R>>,
      y: R)
    requires n > 0 && AllInSync(q, n, es)
    ensures AllInSync(q, n, es + [FromRight(Event(y, true))]) <==>
              if y in Live(RightOf(es)) then AtOwner(n, RightOf(es), y) == 1
              else forall l :: l in Live(LeftOf(es)) ==> !Matches(q, l, y)
  {
    var e: Input<L, R> := FromRight(Event(y, true));
    SidesSnoc(es, e);
    LiveSnoc(RightOf(es), e.right);
    OutdateExact(n, RightOf(es), y);
    NetExactRight(q, n, es, y);
  }

  /* ---- over a whole input ---- */

  ghost predicate InsertedIf<T>(hit: bool, before: multiset<T>, x: T, after: multiset<T>) {
    after == if hit then before + multiset{x} else before
  }

  lemma {:induction false} InsertedInOne<T>(inA: bool, a: multiset<T>, a': multiset<T>, inB: bool, b: multiset<T>,
      b': multiset<T>, x: T)
    requires InsertedIf(inA, a, x, a') && InsertedIf(inB, b, x, b') && !(inA && inB)
    ensures InsertedIf(inA || inB, a + b, x, a' + b')
  {}

  lemma {:induction false} KeptInsert<T>(i: nat, n: nat, es: seq<Event<T>>, x: T)
    requires n > 0
    ensures InsertedIf(Owner(|Inserted(es)|, n) == i, Kept(i, n, es), x, Kept(i, n, es + [Event(x, false)]))
  {
    KeptSnoc(i, n, es, Event(x, false));
  }

  /** An insert reaches exactly one of the first `k` tables, if at all. */
  lemma {:induction false} AllKeptInsert<T>(k: nat, n: nat, es: seq<Event<T>>, x: T)
    requires n > 0
    ensures InsertedIf(Owner(|Inserted(es)|, n) < k, AllKept(k, n, es), x, AllKept(k, n, es + [Event(x, false)]))
  {
    if k == 0 {
    } else {
      var owner, all := Owner(|Inserted(es)|, n), es + [Event(x, false)];
      AllKeptInsert(k - 1, n, es, x);
      KeptInsert(k - 1, n, es, x);
      InsertedInOne(owner < k - 1, AllKept(k - 1, n, es), AllKept(k - 1, n, all),
                    owner == k - 1, Kept(k - 1, n, es), Kept(k - 1, n, all), x);
    }
  }

  lemma {:induction false} NothingKept<T>(k: nat, n: nat)
    requires n > 0
    ensures AllKept<T>(k, n, []) == multiset{}
  {
    if k == 0 {
    } else {
      NothingKept<T>(k - 1, n);
    }
  }

  lemma {:induction false} NextLeft<K, L(!new), R(!new)>(q: Query<K, L, R>, n: nat, es: seq<Input<L, R>>, e: Event<L>)
    requires n > 0 && AllInSync(q, n, es) && (e.outdated ==> e.data in Live(LeftOf(es)))
    ensures forall l, r :: NetOfInstances(q, n, n, es + [FromLeft(e)], l, r)
                        == JoinCount(q, Live(LeftOf(es) + [e]), Live(RightOf(es)), l, r)
  {
    LiveSnoc(LeftOf(es), e);
    NetAfter(q, n, es, FromLeft(e));
    forall l, r ensures JoinCount(q, Live(LeftOf(es)), Live(RightOf(es)), l, r)
                        + Contribution(q, Live(LeftOf(es)), Live(RightOf(es)), FromLeft(e), l, r)
                     == JoinCount(q, Live(LeftOf(es) + [e]), Live(RightOf(es)), l, r) {
      JoinStep(q, Live(LeftOf(es)), Live(RightOf(es)), FromLeft(e), l, r);
    }
  }

  lemma {:induction false} NextRight<K, L(!new), R(!new)>(q: Query<K, L, R>, n: nat, es: seq<Input<L, R>>, e: Event<R>)
    requires n > 0 && AllInSync(q, n, es) && (e.outdated ==> e.data in Live(RightOf(es)))
    ensures forall l, r :: NetOfInstances(q, n, n, es + [FromRight(e)], l, r)
                        == JoinCount(q, Live(LeftOf(es)), Live(RightOf(es) + [e]), l, r)
  {
    LiveSnoc(RightOf(es), e);
    NetAfter(q, n, es, FromRight(e));
    forall l, r ensures JoinCount(q, Live(LeftOf(es)), Live(RightOf(es)), l, r)
                        + Contribution(q, Live(LeftOf(es)), Live(RightOf(es)), FromRight(e), l, r)
                     == JoinCount(q, Live(LeftOf(es)), Live(RightOf(es) + [e]), l, r) {
      JoinStep(q, Live(LeftOf(es)), Live(RightOf(es)), FromRight(e), l, r);
    }
  }

  lemma {:induction false} NothingPublished<K, L(!new), R(!new)>(q: Query<K, L, R>, n: nat)
    requires n > 0
    ensures AllInSync(q, n, [])
  {
    NothingKept<L>(n, n);
    NothingKept<R>(n, n);
    forall l, r ensures NetOfInstances(q, n, n, [], l, r) == 0 {
      NetOfInstancesEmpty(q, n, n, l, r);
    }
  }

  lemma {:induction false} InsertedLeft<K, L(!new), R(!new)>(q: Query<K, L, R>, n: nat, es: seq<Input<L, R>>, x: L)
    requires n > 0 && AllInSync(q, n, es)
    ensures AllInSync(q, n, es + [FromLeft(Event(x, false))])
  {
    SidesSnoc(es, FromLeft(Event(x, false)));
    LiveSnoc(LeftOf(es), Event(x, false));
    AllKeptInsert(n, n, LeftOf(es), x);
    NextLeft(q, n, es, Event(x, false));
  }

  lemma {:induction false} InsertedRight<K, L(!new), R(!new)>(q: Query<K, L, R>, n: nat, es: seq<Input<L, R>>, y: R)
    requires n > 0 && AllInSync(q, n, es)
    ensures AllInSync(q, n, es + [FromRight(Event(y, false))])
  {
    SidesSnoc(es, FromRight(Event(y, false)));
    LiveSnoc(RightOf(es), Event(y, false));
    AllKeptInsert(n, n, RightOf(es), y);
    NextRight(q, n, es, Event(y, false));
  }

  /** An outdate event meets its element once at its owner, or its element is not live and has no live
      partner. */
  ghost predicate HandledRight<K, L(!new), R(!new)>(q: Query<K, L, R>, n: nat, es: seq<Input<L, R>>, e: Input<L, R>)
    requires n > 0
  {
    var ls, rs := Live(LeftOf(es)), Live(RightOf(es));
    match e
    case FromLeft(Event(x, outdated)) =>
      outdated ==>
        if x in ls then AtOwner(n, LeftOf(es), x) == 1 else forall r :: r in rs ==> !Matches(q, x, r)
    case FromRight(Event(y, outdated)) =>
      outdated ==>
        if y in rs then AtOwner(n, RightOf(es), y) == 1 else forall l :: l in ls ==> !Matches(q, l, y)
  }

  lemma {:induction false} NextInSync<K, L(!new), R(!new)>(q: Query<K, L, R>, n: nat, es: seq<Input<L, R>>,
      e: Input<L, R>)
    requires n > 0 && AllInSync(q, n, es)
    ensures AllInSync(q, n, es + [e]) <==> HandledRight(q, n, es, e)
  {
    match e
    case FromLeft(Event(x, outdated)) =>
      if outdated { ResultsExactLeft(q, n, es, x); } else { InsertedLeft(q, n, es, x); }
    case FromRight(Event(y, outdated)) =>
      if outdated { ResultsExactRight(q, n, es, y); } else { InsertedRight(q, n, es, y); }
  }

  ghost predicate AllHandledRight<K, L(!new), R(!new)>(q: Query<K, L, R>, n: nat, es: seq<Input<L, R>>)
    requires n > 0
  {
    forall i :: 0 <= i < |es| ==> HandledRight(q, n, es[..i], es[i])
  }

  ghost predicate AlwaysInSync<K, L(!new), R(!new)>(q: Query<K, L, R>, n: nat, es: seq<Input<L, R>>)
    requires n > 0
  {
    forall i :: 0 <= i <= |es| ==> AllInSync(q, n, es[..i])
  }

  lemma {:induction false} AllHandledSnoc<K, L(!new), R(!new)>(q: Query<K, L, R>, n: nat, es: seq<Input<L, R>>,
      e: Input<L, R>)
    requires n > 0
    ensures AllHandledRight(q, n, es + [e]) <==> AllHandledRight(q, n, es) && HandledRight(q, n, es, e)
  {
    var all := es + [e];
    assert forall i :: 0 <= i < |es| ==> all[..i] == es[..i] && all[i] == es[i];
    assert all[..|es|] == es && all[|es|] == e;
  }

  lemma {:induction false} AlwaysSnoc<K, L(!new), R(!new)>(q: Query<K, L, R>, n: nat, es: seq<Input<L, R>>,
      e: Input<L, R>)
    requires n > 0
    ensures AlwaysInSync(q, n, es + [e]) <==> AlwaysInSync(q, n, es) && AllInSync(q, n, es + [e])
  {
    var all := es + [e];
    AlwaysNow(q, n, all);
    if AlwaysInSync(q, n, all) {
      forall i | 0 <= i <= |es| ensures AllInSync(q, n, es[..i]) {
        assert es[..i] == all[..i];
      }
    }
    if AlwaysInSync(q, n, es) && AllInSync(q, n, all) {
      forall i | 0 <= i <= |all| ensures AllInSync(q, n, all[..i]) {
        assert all[..i] == if i == |all| then all else es[..i];
      }
    }
  }

  lemma {:induction false} AlwaysNow<K, L(!new), R(!new)>(q: Query<K, L, R>, n: nat, es: seq<Input<L, R>>)
    requires n > 0
    ensures AlwaysInSync(q, n, es) ==> AllInSync(q, n, es)
  {
    assert es[..|es|] == es;
  }

  /** At every moment all instances together hold the join of the live elements if and only if every
      outdate event meets its element once at its owner, or an element neither live nor matched. */
  lemma {:induction false} InstancesExact<K, L(!new), R(!new)>(q: Query<K, L, R>, n: nat, es: seq<Input<L, R>>)
    requires n > 0
    ensures AlwaysInSync(q, n, es) <==> AllHandledRight(q, n, es)
    decreases |es|
  {
    if es == [] {
      NothingPublished(q, n);
    } else {
      var init, e := SnocOf(es);
      InstancesExact(q, n, init);
      AlwaysSnoc(q, n, init, e);
      AlwaysNow(q, n, init);
      AllHandledSnoc(q, n, init, e);
      if AlwaysInSync(q, n, init) { NextInSync(q, n, init, e); }
    }
  }

  /** In particular if every outdate event of both sides meets its element once at its owner, with equal
      elements at other instances or without. */
  lemma {:induction false} InstancesHoldJoin<K, L(!new), R(!new)>(q: Query<K, L, R>, n: nat, es: seq<Input<L, R>>)
    requires n > 0 && OwnersExpire(n, LeftOf(es)) && OwnersExpire(n, RightOf(es))
    ensures AllInSync(q, n, es)
    decreases |es|
  {
    if es == [] {
      NothingPublished(q, n);
    } else {
      var init, e := SnocOf(es);
      SidesSnoc(init, e);
      if e.FromLeft? {
        OwnersExpireSnoc(n, LeftOf(init), e.left);
      } else {
        OwnersExpireSnoc(n, RightOf(init), e.right);
      }
      InstancesHoldJoin(q, n, init);
      OwnedIsHandled(q, n, init, e);
      NextInSync(q, n, init, e);
    }
  }

  lemma {:induction false} OwnedIsHandled<K, L(!new), R(!new)>(q: Query<K, L, R>, n: nat, es: seq<Input<L, R>>,
      e: Input<L, R>)
    requires n > 0 && AllInSync(q, n, es)
    requires match e
             case FromLeft(x) => x.outdated ==> AtOwner(n, LeftOf(es), x.data) == 1
             case FromRight(y) => y.outdated ==> AtOwner(n, RightOf(es), y.data) == 1
    ensures HandledRight(q, n, es, e)
  {
    match e
    case FromLeft(x) => AllKeptBounds(n, n, LeftOf(es), Owner(|Expired(LeftOf(es))|, n), x.data);
    case FromRight(y) => AllKeptBounds(n, n, RightOf(es), Owner(|Expired(RightOf(es))|, n), y.data);
  }
}

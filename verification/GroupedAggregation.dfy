/** The grouped aggregation operator in the mode that publishes a result for every tuple. */
module GroupedAggregation {
  import opened Wrappers
  import opened Streams

  /** The aggregate: grouping key, initial state, the iterate function that adds a tuple to a state or
      (outdated) takes it back, and the function that computes the published result. */
  datatype Aggregate<!T, !K, !S, !R> = Aggregate(
    group: T -> K, initial: S, iterate: (T, K, S, bool) -> S, final: S -> R)

  ghost predicate Undoes<T, K, S, R>(a: Aggregate<T, K, S, R>, x: T, k: K, s: S) {
    a.iterate(x, k, a.iterate(x, k, s, false), true) == s
  }

  ghost predicate Commutes<T, K, S, R>(a: Aggregate<T, K, S, R>, x: T, y: T, k: K, s: S) {
    a.iterate(x, k, a.iterate(y, k, s, false), false) == a.iterate(y, k, a.iterate(x, k, s, false), false)
  }

  /** Taking a tuple back undoes adding it, and the order of additions does not matter. */
  ghost predicate HasInverse<T(!new), K(!new), S(!new), R>(a: Aggregate<T, K, S, R>) {
    && (forall x, k, s :: Undoes(a, x, k, s))
    && (forall x, y, k, s :: Commutes(a, x, y, k, s))
  }

  const WRAP: nat := 0x1_0000_0000

  /** Adding to the unsigned 32-bit counter. */
  function Wrapped(v: int): nat { v % WRAP }

  datatype Entry<S> = Entry(counter: nat, state: S)

  /* ---- the table and the output as functions of the events ---- */

  /** The entry of group `k`. */
  function Group<T, K(==), S, R>(a: Aggregate<T, K, S, R>, es: seq<Event<T>>, k: K): Option<Entry<S>> {
    if es == [] then None
    else
      var before, e := Group(a, es[..|es| - 1], k), es[|es| - 1];
      if a.group(e.data) == k then Next(a, before, e) else before
  }

  /** The state after one tuple of an existing group. */
  function Updated<T, K, S, R>(a: Aggregate<T, K, S, R>, entry: Entry<S>, e: Event<T>): Entry<S> {
    Entry(Wrapped(entry.counter + if e.outdated then -1 else 1),
        a.iterate(e.data, a.group(e.data), entry.state, e.outdated))
  }

  function Created<T, K, S, R>(a: Aggregate<T, K, S, R>, x: T): Entry<S> {
    Entry(1, a.iterate(x, a.group(x), a.initial, false))
  }

  /** A new group starts with counter 1, an outdated tuple without a group is ignored, and a group whose
      counter drops to 0 is purged. */
  function Next<T, K, S, R>(a: Aggregate<T, K, S, R>, before: Option<Entry<S>>, e: Event<T>): Option<Entry<S>> {
    match before
    case None => if e.outdated then None else Some(Created(a, e.data))
    case Some(entry) =>
      var updated := Updated(a, entry, e);
      if updated.counter == 0 then None else Some(updated)
  }

  /** What is published for one tuple. */
  function Result<T, K, S, R>(a: Aggregate<T, K, S, R>, before: Option<Entry<S>>, e: Event<T>): seq<Event<R>> {
    match before
    case None => if e.outdated then [] else [Event(a.final(Created(a, e.data).state), false)]
    case Some(entry) => [Event(a.final(Updated(a, entry, e).state), e.outdated)]
  }

  function Output<T, K(==), S, R>(a: Aggregate<T, K, S, R>, es: seq<Event<T>>): seq<Event<R>> {
    if es == [] then []
    else
      var init, e := es[..|es| - 1], es[|es| - 1];
      Output(a, init) + Result(a, Group(a, init, a.group(e.data)), e)
  }

  /* ---- the operator ---- */

  class AggregateState<S> {
    var mCounter: nat
    var value: S

    constructor (initial: S)
      ensures mCounter == 1 && value == initial
    {
      mCounter, value := 1, initial;
    }

    method UpdateCounter(v: int)
      modifies this`mCounter
      ensures mCounter == Wrapped(old(mCounter) + v)
    {
      mCounter := (mCounter + v) % WRAP;
    }
  }

  class GroupedAggregation<T(!new), K(==,!new), S(!new), R> {
    const a: Aggregate<T, K, S, R>
    var mAggregateTable: map<K, AggregateState<S>>
    var out: seq<Event<R>>
    ghost var input: seq<Event<T>>

    /** Group `k` is in the table exactly when the specification has an entry for it, with that entry. */
    ghost predicate Holds(k: K)
      reads this, mAggregateTable.Values
    {
      Group(a, input, k)
        == if k in mAggregateTable then Some(Entry(mAggregateTable[k].mCounter, mAggregateTable[k].value)) else None
    }

    ghost predicate Unshared()
      reads this
    {
      forall k, j :: k in mAggregateTable && j in mAggregateTable && k != j ==> mAggregateTable[k] != mAggregateTable[j]
    }

    ghost predicate Valid()
      reads this, mAggregateTable.Values
    {
      Unshared() && (forall k :: Holds(k)) && out == Output(a, input)
    }

    constructor (a: Aggregate<T, K, S, R>)
      ensures Valid() && this.a == a && input == [] && out == []
    {
      this.a := a;
      mAggregateTable, out, input := map[], [], [];
    }

    method ProcessDataElement(data: T, outdated: bool)
      requires Valid()
      modifies this, mAggregateTable.Values
      ensures Valid() && input == old(input) + [Event(data, outdated)]
      ensures forall s :: s in mAggregateTable.Values ==> s in old(mAggregateTable.Values) || fresh(s)
    {
      var grpKey := a.group(data);
      ghost var e := Event(data, outdated);
      assert (input + [e])[..|input|] == input;
      assert Holds(grpKey);
      if grpKey !in mAggregateTable {
        if !outdated {
          ProcessNewAggregationGroup(grpKey, data);
        }
      } else {
        UpdateAggregationGroup(grpKey, data, outdated);
      }
      input := input + [e];
      forall k ensures Holds(k) {
        assert old(Holds(k));
      }
    }

    method ProcessNewAggregationGroup(grpKey: K, data: T)
      requires grpKey == a.group(data) && grpKey !in mAggregateTable
      modifies this`mAggregateTable, this`out
      ensures grpKey in mAggregateTable && fresh(mAggregateTable[grpKey])
      ensures mAggregateTable == old(mAggregateTable)[grpKey := mAggregateTable[grpKey]]
      ensures Entry(mAggregateTable[grpKey].mCounter, mAggregateTable[grpKey].value) == Created(a, data)
      ensures out == old(out) + [Event(a.final(Created(a, data).state), false)]
    {
      var newAggrState := new AggregateState(a.initial);
      newAggrState.value := a.iterate(data, grpKey, newAggrState.value, false);
      mAggregateTable := mAggregateTable[grpKey := newAggrState];
      ProduceAggregate(newAggrState, false);
    }

    method UpdateAggregationGroup(grpKey: K, data: T, outdated: bool)
      requires grpKey == a.group(data) && grpKey in mAggregateTable
      modifies this`mAggregateTable, this`out, mAggregateTable[grpKey]
      ensures var aggrState := old(mAggregateTable[grpKey]);
              var updated := Updated(a, old(Entry(mAggregateTable[grpKey].mCounter, mAggregateTable[grpKey].value)),
                  Event(data, outdated));
              && Entry(aggrState.mCounter, aggrState.value) == updated
              && mAggregateTable
                  == (if updated.counter == 0 then old(mAggregateTable) - {grpKey} else old(mAggregateTable))
              && out == old(out) + [Event(a.final(updated.state), outdated)]
    {
      var aggrState := mAggregateTable[grpKey];
      aggrState.UpdateCounter(if outdated then -1 else 1);
      var outdatedAggregate := aggrState.mCounter == 0;
      aggrState.value := a.iterate(data, grpKey, aggrState.value, outdated);
      ProduceAggregate(aggrState, outdated);
      if outdatedAggregate {
        mAggregateTable := mAggregateTable - {grpKey};
      }
    }

    method ProduceAggregate(state: AggregateState<S>, outdated: bool)
      modifies this`out
      ensures out == old(out) + [Event(a.final(state.value), outdated)]
    {
      out := out + [Event(a.final(state.value), outdated)];
    }
  }

  /* ---- the aggregate recomputed from scratch ---- */

  function Fold<T, K, S, R>(a: Aggregate<T, K, S, R>, k: K, xs: seq<T>): S {
    if xs == [] then a.initial else a.iterate(xs[|xs| - 1], k, Fold(a, k, xs[..|xs| - 1]), false)
  }

  lemma {:induction false} FoldSnoc<T, K, S, R>(a: Aggregate<T, K, S, R>, k: K, xs: seq<T>, x: T)
    ensures Fold(a, k, xs + [x]) == a.iterate(x, k, Fold(a, k, xs), false)
  {
    assert (xs + [x])[..|xs|] == xs;
  }

  /** Any tuple may be added last. */
  lemma {:induction false} FoldLast<T(!new), K(!new), S(!new), R>(a: Aggregate<T, K, S, R>, k: K, xs: seq<T>, i: nat)
    requires HasInverse(a) && i < |xs|
    ensures Fold(a, k, xs) == a.iterate(xs[i], k, Fold(a, k, xs[..i] + xs[i + 1..]), false)
  {
    var init, y := xs[..|xs| - 1], xs[|xs| - 1];
    if i == |init| {
      assert xs[..i] + xs[i + 1..] == init;
    } else {
      FoldLast(a, k, init, i);
      assert xs[..i] + xs[i + 1..] == (init[..i] + init[i + 1..]) + [y];
      FoldSnoc(a, k, init[..i] + init[i + 1..], y);
      assert Commutes(a, y, xs[i], k, Fold(a, k, init[..i] + init[i + 1..]));
    }
  }

  lemma {:induction false} FindIn<T>(rest: multiset<T>, x: T, xs: seq<T>) returns (i: nat)
    requires multiset(xs) == rest + multiset{x}
    ensures i < |xs| && xs[i] == x && multiset(xs[..i] + xs[i + 1..]) == rest
  {
    assert x in multiset(xs);
    i :| 0 <= i < |xs| && xs[i] == x;
    WithoutAt(xs, i);
    Cancel(multiset(xs[..i] + xs[i + 1..]), rest, x);
  }

  /* ---- the table recomputes the live elements ---- */

  /** The entry of a group fits its live elements: there is one exactly when there are live elements, its
      counter is their number, its state their aggregate. */
  ghost predicate Fits<T(!new), K, S, R>(a: Aggregate<T, K, S, R>, k: K, live: multiset<T>, entry: Option<Entry<S>>) {
    match entry
    case None => live == multiset{}
    case Some(en) => 0 < en.counter == |live| && forall xs :: multiset(xs) == live ==> en.state == Fold(a, k, xs)
  }

  /** The live elements of group `k`. */
  function GroupLive<T(==), K(==), S, R>(a: Aggregate<T, K, S, R>, es: seq<Event<T>>, k: K): multiset<T> {
    Live(Part(a.group, es, k))
  }

  lemma {:induction false} GroupSnoc<T, K, S, R>(a: Aggregate<T, K, S, R>, es: seq<Event<T>>, e: Event<T>, k: K)
    ensures Group(a, es + [e], k) == if a.group(e.data) == k then Next(a, Group(a, es, k), e) else Group(a, es, k)
    ensures GroupLive(a, es + [e], k) ==
            if a.group(e.data) != k then GroupLive(a, es, k)
            else if e.outdated then GroupLive(a, es, k) - multiset{e.data} else GroupLive(a, es, k) + multiset{e.data}
  {
    assert (es + [e])[..|es|] == es;
    PartSnoc(a.group, es, e, k);
    LiveSnoc(Part(a.group, es, k), e);
  }

  /** Adding a tuple to an aggregate of the live elements. */
  lemma {:induction false} FoldAdd<T(!new), K(!new), S(!new), R>(a: Aggregate<T, K, S, R>, k: K, live: multiset<T>,
      s: S, x: T, xs: seq<T>)
    requires HasInverse(a) && multiset(xs) == live + multiset{x}
    requires forall ys :: multiset(ys) == live ==> s == Fold(a, k, ys)
    ensures a.iterate(x, k, s, false) == Fold(a, k, xs)
  {
    var i := FindIn(live, x, xs);
    FoldLast(a, k, xs, i);
  }

  /** Taking back a live tuple. */
  lemma {:induction false} FoldRemove<T(!new), K(!new), S(!new), R>(a: Aggregate<T, K, S, R>, k: K, live: multiset<T>,
      s: S, x: T, xs: seq<T>)
    requires HasInverse(a) && x in live && multiset(xs) == live - multiset{x}
    requires forall ys :: multiset(ys) == live ==> s == Fold(a, k, ys)
    ensures a.iterate(x, k, s, true) == Fold(a, k, xs)
  {
    FoldSnoc(a, k, xs, x);
    assert Undoes(a, x, k, Fold(a, k, xs));
    assert multiset(xs + [x]) == live;
  }

  /** One tuple of the group keeps the entry fitting. */
  lemma {:induction false} NextFits<T(!new), K(!new), S(!new), R>(a: Aggregate<T, K, S, R>, live: multiset<T>,
      before: Option<Entry<S>>, e: Event<T>)
    requires HasInverse(a) && Fits(a, a.group(e.data), live, before)
    requires if e.outdated then e.data in live else |live| + 1 < WRAP
    requires |live| < WRAP
    ensures
      var live' := if e.outdated then live - multiset{e.data} else live + multiset{e.data};
      Fits(a, a.group(e.data), live', Next(a, before, e))
  {
    var k, x := a.group(e.data), e.data;
    var live' := if e.outdated then live - multiset{x} else live + multiset{x};
    if before.None? {
      forall xs | multiset(xs) == live' ensures Created(a, x).state == Fold(a, k, xs) {
        FoldOfNone(a, k);
        FoldAdd(a, k, live, a.initial, x, xs);
      }
    } else {
      forall xs | multiset(xs) == live' ensures Updated(a, before.value, e).state == Fold(a, k, xs) {
        if e.outdated {
          FoldRemove(a, k, live, before.value.state, x, xs);
        } else {
          FoldAdd(a, k, live, before.value.state, x, xs);
        }
      }
      assert Updated(a, before.value, e).counter == |live'|;
    }
  }

  lemma {:induction false} FoldOfNone<T, K, S, R>(a: Aggregate<T, K, S, R>, k: K)
    ensures forall ys: seq<T> :: multiset(ys) == multiset{} ==> a.initial == Fold(a, k, ys)
  {
    forall ys: seq<T> | multiset(ys) == multiset{} ensures a.initial == Fold(a, k, ys) {
      assert |multiset(ys)| == |ys|;
    }
  }

  /** No group ever has 2^32 live elements. */
  ghost predicate CountersSuffice<T, K(!new), S, R>(a: Aggregate<T, K, S, R>, es: seq<Event<T>>) {
    forall i, k :: 0 <= i <= |es| ==> |GroupLive(a, es[..i], k)| < WRAP
  }

  lemma {:induction false} CountersSufficeInit<T, K(!new), S, R>(a: Aggregate<T, K, S, R>, es: seq<Event<T>>, k: K)
    requires CountersSuffice(a, es) && es != []
    ensures CountersSuffice(a, es[..|es| - 1])
    ensures |GroupLive(a, es, k)| < WRAP && |GroupLive(a, es[..|es| - 1], k)| < WRAP
  {
    var init := es[..|es| - 1];
    forall i, j | 0 <= i <= |init| ensures |GroupLive(a, init[..i], j)| < WRAP {
      assert init[..i] == es[..i];
    }
    assert es[..|es|] == es;
  }

  /** After every valid stream the table holds a group exactly when it has live elements, its counter is
      their number, and its state is the aggregate recomputed from them in any order. */
  lemma {:induction false} GroupFitsLive<T(!new), K(!new), S(!new), R>(a: Aggregate<T, K, S, R>, es: seq<Event<T>>,
      k: K)
    requires HasInverse(a) && RefersToLive(es) && CountersSuffice(a, es)
    ensures Fits(a, k, GroupLive(a, es, k), Group(a, es, k))
  {
    if es == [] {
    } else {
      var init, e := es[..|es| - 1], es[|es| - 1];
      assert es == init + [e];
      RefersToLiveSnoc(init, e);
      CountersSufficeInit(a, es, k);
      GroupFitsLive(a, init, k);
      GroupSnoc(a, init, e, k);
      if a.group(e.data) == k {
        LiveOfPart(a.group, init, k, e.data);
        NextFits(a, GroupLive(a, init, k), Group(a, init, k), e);
      }
    }
  }

  /** For every tuple of a valid stream one result is published: the aggregate of the elements of its group
      that are live after it, marked as outdated if the tuple is. */
  lemma {:induction false} ResultIsAggregateOfLive<T(!new), K(!new), S(!new), R>(a: Aggregate<T, K, S, R>,
      es: seq<Event<T>>, e: Event<T>, xs: seq<T>)
    requires HasInverse(a) && RefersToLive(es + [e]) && CountersSuffice(a, es + [e])
    requires multiset(xs) == GroupLive(a, es + [e], a.group(e.data))
    ensures Output(a, es + [e]) == Output(a, es) + [Event(a.final(Fold(a, a.group(e.data), xs)), e.outdated)]
  {
    var k, all := a.group(e.data), es + [e];
    assert all[..|all| - 1] == es;
    RefersToLiveSnoc(es, e);
    CountersSufficeInit(a, all, k);
    GroupFitsLive(a, es, k);
    GroupSnoc(a, es, e, k);
    LiveOfPart(a.group, es, k, e.data);
    ResultOfNext(a, GroupLive(a, es, k), Group(a, es, k), e, xs);
  }

  lemma {:induction false} ResultOfNext<T(!new), K(!new), S(!new), R>(a: Aggregate<T, K, S, R>, live: multiset<T>,
      before: Option<Entry<S>>, e: Event<T>, xs: seq<T>)
    requires HasInverse(a) && Fits(a, a.group(e.data), live, before) && (e.outdated ==> e.data in live)
    requires multiset(xs) == if e.outdated then live - multiset{e.data} else live + multiset{e.data}
    ensures Result(a, before, e) == [Event(a.final(Fold(a, a.group(e.data), xs)), e.outdated)]
  {
    var k, x := a.group(e.data), e.data;
    if before.None? {
      FoldOfNone(a, k);
      FoldAdd(a, k, live, a.initial, x, xs);
    } else if e.outdated {
      FoldRemove(a, k, live, before.value.state, x, xs);
    } else {
      FoldAdd(a, k, live, before.value.state, x, xs);
    }
  }

  /** A tuple outdated although it is not live keeps its group right exactly when the group is empty: such
      a tuple is ignored only then, and otherwise counted. */
  lemma {:induction false} StrayOutdateExact<T(!new), K(!new), S(!new), R>(a: Aggregate<T, K, S, R>,
      es: seq<Event<T>>, x: T)
    requires HasInverse(a) && Fits(a, a.group(x), GroupLive(a, es, a.group(x)), Group(a, es, a.group(x)))
    requires x !in Live(es) && |GroupLive(a, es, a.group(x))| < WRAP
    ensures var all, k := es + [Event(x, true)], a.group(x);
            Fits(a, k, GroupLive(a, all, k), Group(a, all, k)) <==> GroupLive(a, es, k) == multiset{}
  {
    var k := a.group(x);
    GroupSnoc(a, es, Event(x, true), k);
    LiveOfPart(a.group, es, k, x);
    assert GroupLive(a, es, k) - multiset{x} == GroupLive(a, es, k);
    StrayNext(a, GroupLive(a, es, k), Group(a, es, k), x);
  }

  lemma {:induction false} StrayNext<T(!new), K(!new), S(!new), R>(a: Aggregate<T, K, S, R>, live: multiset<T>,
      before: Option<Entry<S>>, x: T)
    requires Fits(a, a.group(x), live, before) && |live| < WRAP
    ensures Fits(a, a.group(x), live, Next(a, before, Event(x, true))) <==> live == multiset{}
  {
    if before.Some? {
      assert Updated(a, before.value, Event(x, true)).counter == |live| - 1;
    }
  }

  /** Nothing is published for such a tuple and nothing changes when its group is empty; otherwise one outdated
      result is published. */
  lemma {:induction false} StrayOutdateOutput<T(!new), K(!new), S(!new), R>(a: Aggregate<T, K, S, R>,
      es: seq<Event<T>>, x: T, j: K)
    requires Fits(a, a.group(x), GroupLive(a, es, a.group(x)), Group(a, es, a.group(x)))
    ensures
      var all, k := es + [Event(x, true)], a.group(x);
      if GroupLive(a, es, k) == multiset{} then Output(a, all) == Output(a, es) && Group(a, all, j) == Group(a, es, j)
      else |Output(a, all)| == |Output(a, es)| + 1 && Output(a, es) <= Output(a, all)
           && Output(a, all)[|Output(a, es)|].outdated
  {
    assert (es + [Event(x, true)])[..|es|] == es;
    GroupSnoc(a, es, Event(x, true), j);
    assert Output(a, es) + [] == Output(a, es);
  }

  /** The counter wraps around: adding to a group with 2^32 - 1 live elements purges it. */
  lemma {:induction false} FullGroupVanishes<T(!new), K(!new), S(!new), R>(a: Aggregate<T, K, S, R>,
      es: seq<Event<T>>, x: T)
    requires Fits(a, a.group(x), GroupLive(a, es, a.group(x)), Group(a, es, a.group(x)))
    requires |GroupLive(a, es, a.group(x))| < WRAP
    ensures Group(a, es + [Event(x, false)], a.group(x)).None? <==> |GroupLive(a, es, a.group(x))| == WRAP - 1
  {
    GroupSnoc(a, es, Event(x, false), a.group(x));
    NextVanishes(a, Group(a, es, a.group(x)), x);
  }

  lemma {:induction false} NextVanishes<T, K, S, R>(a: Aggregate<T, K, S, R>, before: Option<Entry<S>>, x: T)
    requires before.Some? ==> before.value.counter < WRAP
    ensures Next(a, before, Event(x, false)).None? <==> before.Some? && before.value.counter == WRAP - 1
  {}

  /* ---- inputs on which a group goes wrong ---- */

  /** The same tuple `n` times. */
  function Repeat<T>(x: T, n: nat): (es: seq<Event<T>>)
    ensures |es| == n
  {
    if n == 0 then [] else Repeat(x, n - 1) + [Event(x, false)]
  }

  /** All of them are live. */
  lemma {:induction false} RepeatLive<T(!new), K(!new), S(!new), R>(a: Aggregate<T, K, S, R>, x: T, n: nat)
    ensures GroupLive(a, Repeat(x, n), a.group(x)) == multiset{}[x := n]
  {
    if n == 0 {
    } else {
      RepeatLive(a, x, n - 1);
      GroupSnoc(a, Repeat(x, n - 1), Event(x, false), a.group(x));
      Copies(x, n - 1);
    }
  }

  /** Their group counts them. */
  lemma {:induction false} RepeatFits<T(!new), K(!new), S(!new), R>(a: Aggregate<T, K, S, R>, x: T, n: nat)
    requires HasInverse(a) && n < WRAP
    ensures Fits(a, a.group(x), multiset{}[x := n], Group(a, Repeat(x, n), a.group(x)))
  {
    if n == 0 {
    } else {
      RepeatFits(a, x, n - 1);
      GroupSnoc(a, Repeat(x, n - 1), Event(x, false), a.group(x));
      OneMoreFits(a, x, n - 1, Group(a, Repeat(x, n - 1), a.group(x)));
    }
  }

  lemma {:induction false} OneMoreFits<T(!new), K(!new), S(!new), R>(a: Aggregate<T, K, S, R>, x: T, n: nat,
      before: Option<Entry<S>>)
    requires HasInverse(a) && n + 1 < WRAP && Fits(a, a.group(x), multiset{}[x := n], before)
    ensures Fits(a, a.group(x), multiset{}[x := n + 1], Next(a, before, Event(x, false)))
  {
    Copies(x, n);
    NextFits(a, multiset{}[x := n], before, Event(x, false));
  }

  lemma {:induction false} Copies<T>(x: T, n: nat)
    ensures |(multiset{}[x := n])| == n
    ensures (multiset{}[x := n]) + multiset{x} == multiset{}[x := n + 1]
  {}

  /** A full group exists: after 2^32 - 1 equal tuples, one more purges the group although 2^32 tuples of
      it are live. */
  lemma {:induction false} FullGroupIsPurged<T(!new), K(!new), S(!new), R>(a: Aggregate<T, K, S, R>, x: T)
    requires HasInverse(a)
    ensures var k, full := a.group(x), Repeat(x, WRAP - 1);
            && |GroupLive(a, full, k)| == WRAP - 1 && Group(a, full, k).Some?
            && Group(a, full + [Event(x, false)], k).None?
            && |GroupLive(a, full + [Event(x, false)], k)| == WRAP
  {
    var k, full := a.group(x), Repeat(x, WRAP - 1);
    RepeatLive(a, x, WRAP - 1);
    RepeatFits(a, x, WRAP - 1);
    Copies(x, WRAP - 1);
    Copies(x, WRAP);
    FullGroupVanishes(a, full, x);
    GroupSnoc(a, full, Event(x, false), k);
  }

  /** A stray outdate of another tuple removes a group that still has a live tuple. */
  lemma {:induction false} StrayOutdateRemovesGroup<T(!new), K(!new), S(!new), R>(a: Aggregate<T, K, S, R>, x: T, y: T)
    requires HasInverse(a) && a.group(x) == a.group(y) && x != y
    ensures var k, one := a.group(x), [Event(x, false)];
            && Fits(a, k, GroupLive(a, one, k), Group(a, one, k)) && y !in Live(one)
            && Group(a, one + [Event(y, true)], k).None?
            && GroupLive(a, one + [Event(y, true)], k) == multiset{x}
  {
    var k, one := a.group(x), [Event(x, false)];
    OneTuple(a, x);
    GroupSnoc(a, one, Event(y, true), k);
    StrayCount(a, Group(a, one, k).value, y);
  }

  /** After one tuple its group counts 1. */
  lemma {:induction false} OneTuple<T(!new), K(!new), S(!new), R>(a: Aggregate<T, K, S, R>, x: T)
    requires HasInverse(a)
    ensures var k, one := a.group(x), [Event(x, false)];
            && GroupLive(a, one, k) == multiset{x} == Live(one) && Fits(a, k, multiset{x}, Group(a, one, k))
            && Group(a, one, k).Some? && Group(a, one, k).value.counter == 1
  {
    RepeatLive(a, x, 1);
    RepeatFits(a, x, 1);
    assert Repeat(x, 1) == [Event(x, false)];
    LiveSnoc([], Event(x, false));
    assert [] + [Event(x, false)] == [Event(x, false)];
    assert multiset{}[x := 1] == multiset{x};
  }

  lemma {:induction false} StrayCount<T, K, S, R>(a: Aggregate<T, K, S, R>, entry: Entry<S>, y: T)
    requires entry.counter == 1
    ensures Next(a, Some(entry), Event(y, true)).None?
  {}
}

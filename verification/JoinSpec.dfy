/** What the symmetric hash join keeps in its tables and publishes, as functions of the events it has
    seen, and how that relates to the join of the live elements. */
module JoinSpec {
  import opened Streams

  /** The key extractors and the join predicate. */
  datatype Query<!K, !L, !R> = Query(lKey: L -> K, rKey: R -> K, pred: (L, R) -> bool)

  predicate Matches<K(==), L, R>(q: Query<K, L, R>, l: L, r: R) {
    q.lKey(l) == q.rKey(r) && q.pred(l, r)
  }

  datatype Input<L, R> = FromLeft(left: Event<L>) | FromRight(right: Event<R>)

  /** A published join result; joinElements concatenates both elements. */
  datatype Result<L, R> = Result(l: L, r: R, outdated: bool)

  function LeftOf<L, R>(es: seq<Input<L, R>>): seq<Event<L>> {
    if es == [] then []
    else if es[|es| - 1].FromLeft? then LeftOf(es[..|es| - 1]) + [es[|es| - 1].left]
    else LeftOf(es[..|es| - 1])
  }

  function RightOf<L, R>(es: seq<Input<L, R>>): seq<Event<R>> {
    if es == [] then []
    else if es[|es| - 1].FromRight? then RightOf(es[..|es| - 1]) + [es[|es| - 1].right]
    else RightOf(es[..|es| - 1])
  }

  /** The content of a hash table: an outdated element removes all equal ones. */
  function Stored<T(==)>(es: seq<Event<T>>): multiset<T> {
    if es == [] then multiset{}
    else
      var e := es[|es| - 1];
      if e.outdated then Stored(es[..|es| - 1])[e.data := 0] else Stored(es[..|es| - 1]) + multiset{e.data}
  }

  function Sign(outdated: bool): int { if outdated then -1 else 1 }

  /** Published-new minus published-outdated results for the pair (l, r). */
  function Net<L(==), R(==)>(out: seq<Result<L, R>>, l: L, r: R): int {
    if out == [] then 0
    else
      var o := out[|out| - 1];
      Net(out[..|out| - 1], l, r) + if o.l == l && o.r == r then Sign(o.outdated) else 0
  }

  /** Signed results for (l, r) published for input `e` when the tables hold `lt` and `rt`. */
  function Contribution<K(==), L(==), R(==)>(q: Query<K, L, R>, lt: multiset<L>, rt: multiset<R>, e: Input<L, R>,
      l: L, r: R): int {
    if !Matches(q, l, r) then 0
    else
      match e
      case FromLeft(x) => if x.data == l then Sign(x.outdated) * rt[r] else 0
      case FromRight(x) => if x.data == r then Sign(x.outdated) * lt[l] else 0
  }

  /** Signed results for (l, r) published for the whole input. */
  function NetOf<K(==), L(==), R(==)>(q: Query<K, L, R>, es: seq<Input<L, R>>, l: L, r: R): int {
    if es == [] then 0
    else
      var init := es[..|es| - 1];
      NetOf(q, init, l, r) + Contribution(q, Stored(LeftOf(init)), Stored(RightOf(init)), es[|es| - 1], l, r)
  }

  /** How often the pair belongs to the join of two multisets. */
  function JoinCount<K(==), L(==), R(==)>(q: Query<K, L, R>, ls: multiset<L>, rs: multiset<R>, l: L, r: R): nat {
    if Matches(q, l, r) then ls[l] * rs[r] else 0
  }

  lemma {:induction false} SidesSnoc<L, R>(es: seq<Input<L, R>>, e: Input<L, R>)
    ensures LeftOf(es + [e]) == if e.FromLeft? then LeftOf(es) + [e.left] else LeftOf(es)
    ensures RightOf(es + [e]) == if e.FromRight? then RightOf(es) + [e.right] else RightOf(es)
  {
    assert (es + [e])[..|es|] == es;
  }

  lemma {:induction false} NetOfSnoc<K, L, R>(q: Query<K, L, R>, es: seq<Input<L, R>>, e: Input<L, R>, l: L, r: R)
    ensures NetOf(q, es + [e], l, r)
         == NetOf(q, es, l, r) + Contribution(q, Stored(LeftOf(es)), Stored(RightOf(es)), e, l, r)
  {
    assert (es + [e])[..|es|] == es;
  }

  lemma {:induction false} StoredSnoc<T>(es: seq<Event<T>>, e: Event<T>)
    ensures Stored(es + [e]) == if e.outdated then Stored(es)[e.data := 0] else Stored(es) + multiset{e.data}
  {
    assert (es + [e])[..|es|] == es;
  }

  /** The tables hold the live elements as long as no outdate event meets equal live elements. */
  lemma {:induction false} StoredIsLive<T>(es: seq<Event<T>>)
    requires SingleExpiry(es)
    ensures Stored(es) == Live(es)
  {
    if es == [] {
    } else {
      var init, e := es[..|es| - 1], es[|es| - 1];
      assert es == init + [e];
      SingleExpirySnoc(init, e);
      StoredIsLive(init);
    }
  }

  /** The join is maintained: new minus outdated results are the join of the live elements, at every
      moment and for every interleaving of the two sides; in particular no count goes negative. */
  lemma {:induction false} NetIsJoinOfLive<K, L, R>(q: Query<K, L, R>, es: seq<Input<L, R>>, l: L, r: R)
    requires SingleExpiry(LeftOf(es)) && SingleExpiry(RightOf(es))
    ensures NetOf(q, es, l, r) == JoinCount(q, Live(LeftOf(es)), Live(RightOf(es)), l, r)
  {
    if es == [] {
    } else {
      var init, e := es[..|es| - 1], es[|es| - 1];
      assert es == init + [e];
      SidesSnoc(init, e);
      if e.FromLeft? { SingleExpirySnoc(LeftOf(init), e.left); } else { SingleExpirySnoc(RightOf(init), e.right); }
      NetIsJoinOfLive(q, init, l, r);
      StoredIsLive(LeftOf(init));
      StoredIsLive(RightOf(init));
      JoinStep(q, Live(LeftOf(init)), Live(RightOf(init)), e, l, r);
      if e.FromLeft? { LiveSnoc(LeftOf(init), e.left); } else { LiveSnoc(RightOf(init), e.right); }
    }
  }

  /** One event changes the join of the live elements by what the operator publishes for it. */
  lemma {:induction false} JoinStep<K, L, R>(q: Query<K, L, R>, ls: multiset<L>, rs: multiset<R>, e: Input<L, R>,
      l: L, r: R)
    requires e.FromLeft? && e.left.outdated ==> e.left.data in ls
    requires e.FromRight? && e.right.outdated ==> e.right.data in rs
    ensures match e
            case FromLeft(x) =>
              JoinCount(q, if x.outdated then ls - multiset{x.data} else ls + multiset{x.data}, rs, l, r)
              == JoinCount(q, ls, rs, l, r) + Contribution(q, ls, rs, e, l, r)
            case FromRight(x) =>
              JoinCount(q, ls, if x.outdated then rs - multiset{x.data} else rs + multiset{x.data}, l, r)
              == JoinCount(q, ls, rs, l, r) + Contribution(q, ls, rs, e, l, r)
  {
    var a: int, b: int := ls[l], rs[r];
    assert (a + 1) * b == a * b + b && a * (b + 1) == a * b + a;
    assert (a - 1) * b == a * b - b && a * (b - 1) == a * b - a;
  }

  /* ---- exactly when an outdate event is handled right ---- */

  /** Tables and results agree with the live elements. */
  ghost predicate InSync<K, L(!new), R(!new)>(q: Query<K, L, R>, es: seq<Input<L, R>>) {
    && Stored(LeftOf(es)) == Live(LeftOf(es)) && Stored(RightOf(es)) == Live(RightOf(es))
    && forall l, r :: NetOf(q, es, l, r) == JoinCount(q, Live(LeftOf(es)), Live(RightOf(es)), l, r)
  }

  /** The new state of both sides and of the results after an outdated left element. */
  lemma {:induction false} AfterOutdatedLeft<K, L(!new), R(!new)>(q: Query<K, L, R>, es: seq<Input<L, R>>, x: L)
    requires InSync(q, es)
    ensures var e: Input<L, R>, ls, rs := FromLeft(Event(x, true)), Live(LeftOf(es)), Live(RightOf(es));
            && Stored(LeftOf(es + [e])) == ls[x := 0] && Live(LeftOf(es + [e])) == ls - multiset{x}
            && RightOf(es + [e]) == RightOf(es)
            && forall l, r :: NetOf(q, es + [e], l, r) == JoinCount(q, ls, rs, l, r) + Contribution(q, ls, rs, e, l, r)
  {
    var e: Input<L, R> := FromLeft(Event(x, true));
    SidesSnoc(es, e);
    LiveSnoc(LeftOf(es), e.left);
    StoredSnoc(LeftOf(es), e.left);
    forall l, r ensures NetOf(q, es + [e], l, r)
                     == NetOf(q, es, l, r) + Contribution(q, Stored(LeftOf(es)), Stored(RightOf(es)), e, l, r) {
      NetOfSnoc(q, es, e, l, r);
    }
  }

  /** Taking back the results of `x` is right exactly when `x` is live or has no partner. */
  lemma {:induction false} TakenBackLeft<K, L(!new), R(!new)>(q: Query<K, L, R>, ls: multiset<L>, rs: multiset<R>, x: L)
    ensures (forall l, r :: JoinCount(q, ls, rs, l, r) + Contribution(q, ls, rs, FromLeft(Event(x, true)), l, r)
                         == JoinCount(q, ls - multiset{x}, rs, l, r)) <==>
            x in ls || forall r :: r in rs ==> !Matches(q, x, r)
  {
    var e: Input<L, R> := FromLeft(Event(x, true));
    if x in ls {
      forall l, r ensures JoinCount(q, ls, rs, l, r) + Contribution(q, ls, rs, e, l, r)
                       == JoinCount(q, ls - multiset{x}, rs, l, r) {
        JoinStep(q, ls, rs, e, l, r);
      }
    } else {
      assert ls - multiset{x} == ls;
      if r :| r in rs && Matches(q, x, r) {
        assert JoinCount(q, ls, rs, x, r) + Contribution(q, ls, rs, e, x, r)
            != JoinCount(q, ls - multiset{x}, rs, x, r);
      }
    }
  }

  lemma {:induction false} TakenBackRight<K, L(!new), R(!new)>(q: Query<K, L, R>, ls: multiset<L>, rs: multiset<R>,
      y: R)
    ensures (forall l, r :: JoinCount(q, ls, rs, l, r) + Contribution(q, ls, rs, FromRight(Event(y, true)), l, r)
                         == JoinCount(q, ls, rs - multiset{y}, l, r)) <==>
            y in rs || forall l :: l in ls ==> !Matches(q, l, y)
  {
    var e: Input<L, R> := FromRight(Event(y, true));
    if y in rs {
      forall l, r ensures JoinCount(q, ls, rs, l, r) + Contribution(q, ls, rs, e, l, r)
                       == JoinCount(q, ls, rs - multiset{y}, l, r) {
        JoinStep(q, ls, rs, e, l, r);
      }
    } else {
      assert rs - multiset{y} == rs;
      if l :| l in ls && Matches(q, l, y) {
        assert JoinCount(q, ls, rs, l, y) + Contribution(q, ls, rs, e, l, y)
            != JoinCount(q, ls, rs - multiset{y}, l, y);
      }
    }
  }

  /** Removing all copies of `x` is removing one exactly when there is at most one. */
  lemma {:induction false} AllOrOne<T>(live: multiset<T>, x: T)
    ensures live[x := 0] == live - multiset{x} <==> live[x] <= 1
  {
    assert live[x := 0][x] == 0;
    if live[x] <= 1 {
      assert live[x := 0] == live - multiset{x};
    }
  }

  /** An outdated left element keeps the operator in sync exactly when it is live once, or not live and
      without a live partner: one outdated tuple removes all equal ones, and results are taken back
      whether or not the tuple was there. */
  lemma {:induction false} OutdatedLeftExact<K, L(!new), R(!new)>(q: Query<K, L, R>, es: seq<Input<L, R>>, x: L)
    requires InSync(q, es)
    ensures var ls, rs := Live(LeftOf(es)), Live(RightOf(es));
            InSync(q, es + [FromLeft(Event(x, true))]) <==>
              ls[x] == 1 || (ls[x] == 0 && forall r :: r in rs ==> !Matches(q, x, r))
  {
    var ls, rs := Live(LeftOf(es)), Live(RightOf(es));
    AfterOutdatedLeft(q, es, x);
    AllOrOne(ls, x);
    TakenBackLeft(q, ls, rs, x);
    assert ls[x := 0] == ls - multiset{x} ==>
             (InSync(q, es + [FromLeft(Event(x, true))]) <==>
                forall l, r :: JoinCount(q, ls, rs, l, r) + Contribution(q, ls, rs, FromLeft(Event(x, true)), l, r)
                            == JoinCount(q, ls - multiset{x}, rs, l, r));
  }

  /* ---- exchanging the sides ---- */

  function FlipQuery<K, L, R>(q: Query<K, L, R>): Query<K, R, L> {
    Query(q.rKey, q.lKey, (r, l) => q.pred(l, r))
  }

  function FlipInput<L, R>(e: Input<L, R>): Input<R, L> {
    match e
    case FromLeft(x) => FromRight(x)
    case FromRight(x) => FromLeft(x)
  }

  function Flip<L, R>(es: seq<Input<L, R>>): seq<Input<R, L>> {
    if es == [] then [] else Flip(es[..|es| - 1]) + [FlipInput(es[|es| - 1])]
  }

  lemma {:induction false} FlipSnoc<L, R>(es: seq<Input<L, R>>, e: Input<L, R>)
    ensures Flip(es + [e]) == Flip(es) + [FlipInput(e)]
  {
    assert (es + [e])[..|es|] == es;
  }

  lemma {:induction false} FlipSides<L, R>(es: seq<Input<L, R>>)
    ensures LeftOf(Flip(es)) == RightOf(es) && RightOf(Flip(es)) == LeftOf(es)
  {
    if es == [] {
    } else {
      FlipSides(es[..|es| - 1]);
      SidesSnoc(Flip(es[..|es| - 1]), FlipInput(es[|es| - 1]));
    }
  }

  lemma {:induction false} FlipNetStep<K, L, R>(q: Query<K, L, R>, es: seq<Input<L, R>>, e: Input<L, R>, l: L, r: R)
    requires NetOf(FlipQuery(q), Flip(es), r, l) == NetOf(q, es, l, r)
    ensures NetOf(FlipQuery(q), Flip(es + [e]), r, l) == NetOf(q, es + [e], l, r)
  {
    FlipSnoc(es, e);
    FlipSides(es);
    NetOfSnoc(q, es, e, l, r);
    NetOfSnoc(FlipQuery(q), Flip(es), FlipInput(e), r, l);
    FlipContribution(q, Stored(LeftOf(es)), Stored(RightOf(es)), e, l, r);
  }

  /** The operator treats both sides alike. */
  lemma {:induction false} FlipNet<K, L, R>(q: Query<K, L, R>, es: seq<Input<L, R>>, l: L, r: R)
    ensures NetOf(FlipQuery(q), Flip(es), r, l) == NetOf(q, es, l, r)
    decreases |es|
  {
    if es == [] {
    } else {
      var init, e := SnocOf(es);
      FlipNet(q, init, l, r);
      FlipNetStep(q, init, e, l, r);
    }
  }

  lemma {:induction false} FlipContribution<K, L, R>(q: Query<K, L, R>, lt: multiset<L>, rt: multiset<R>,
      e: Input<L, R>, l: L, r: R)
    ensures Contribution(FlipQuery(q), rt, lt, FlipInput(e), r, l) == Contribution(q, lt, rt, e, l, r)
  {}

  lemma {:induction false} FlipJoin<K, L, R>(q: Query<K, L, R>, ls: multiset<L>, rs: multiset<R>, l: L, r: R)
    ensures JoinCount(FlipQuery(q), rs, ls, r, l) == JoinCount(q, ls, rs, l, r)
  {}

  lemma {:induction false} FlipInSync<K, L(!new), R(!new)>(q: Query<K, L, R>, es: seq<Input<L, R>>)
    ensures InSync(FlipQuery(q), Flip(es)) <==> InSync(q, es)
  {
    FlipSides(es);
    forall l, r
      ensures NetOf(FlipQuery(q), Flip(es), r, l) == NetOf(q, es, l, r)
      ensures JoinCount(FlipQuery(q), Live(RightOf(es)), Live(LeftOf(es)), r, l)
           == JoinCount(q, Live(LeftOf(es)), Live(RightOf(es)), l, r)
    {
      FlipNet(q, es, l, r);
      FlipJoin(q, Live(LeftOf(es)), Live(RightOf(es)), l, r);
    }
  }

  /** The same condition for an outdated right element. */
  lemma {:induction false} OutdatedRightExact<K, L(!new), R(!new)>(q: Query<K, L, R>, es: seq<Input<L, R>>, y: R)
    requires InSync(q, es)
    ensures var ls, rs := Live(LeftOf(es)), Live(RightOf(es));
            InSync(q, es + [FromRight(Event(y, true))]) <==>
              (rs[y] == 1 || (rs[y] == 0 && forall l :: l in ls ==> !Matches(q, l, y)))
  {
    var e: Input<L, R> := FromRight(Event(y, true));
    FlipInSync(q, es);
    FlipInSync(q, es + [e]);
    FlipSnoc(es, e);
    FlipSides(es);
    OutdatedLeftExact(FlipQuery(q), Flip(es), y);
    assert forall l :: Matches(FlipQuery(q), y, l) <==> Matches(q, l, y);
  }

  /** Two inserts of `x` and one outdate leave `x` live but not stored. */
  lemma {:induction false} EqualElementsForgotten<L>(es: seq<Event<L>>, x: L)
    requires Live(es) == Stored(es) == multiset{x} && RefersToLive(es)
    ensures var all := (es + [Event(x, false)]) + [Event(x, true)];
            RefersToLive(all) && Live(all) == multiset{x} && Stored(all) == multiset{}
  {
    var two := es + [Event(x, false)];
    LiveSnoc(es, Event(x, false));
    StoredSnoc(es, Event(x, false));
    RefersToLiveSnoc(es, Event(x, false));
    LiveSnoc(two, Event(x, true));
    StoredSnoc(two, Event(x, true));
    RefersToLiveSnoc(two, Event(x, true));
  }

  lemma {:induction false} NoRightNoResults<K, L, R>(q: Query<K, L, R>, es: seq<Input<L, R>>, l: L, r: R)
    requires RightOf(es) == []
    ensures NetOf(q, es, l, r) == 0
  {
    if es == [] {
    } else {
      assert RightOf(es[..|es| - 1]) == [];
      NoRightNoResults(q, es[..|es| - 1], l, r);
    }
  }

  /** A matching right element that arrives after two inserts of `x` and one outdate misses its result. */
  lemma {:induction false} EqualElementsLoseResults<K, L, R>(q: Query<K, L, R>, es: seq<Input<L, R>>, x: L, y: R)
    requires Matches(q, x, y)
    requires LeftOf(es) == ([Event(x, false)] + [Event(x, false)]) + [Event(x, true)] && RightOf(es) == []
    ensures var all := es + [FromRight(Event(y, false))];
            RefersToLive(LeftOf(all)) && NetOf(q, all, x, y) == 0 &&
                JoinCount(q, Live(LeftOf(all)), Live(RightOf(all)), x, y) == 1
  {
    var d: Input<L, R> := FromRight(Event(y, false));
    SidesSnoc(es, d);
    StoredSnoc([], Event(x, false));
    LiveSnoc([], Event(x, false));
    assert [] + [Event(x, false)] == [Event(x, false)];
    EqualElementsForgotten([Event(x, false)], x);
    LiveSnoc([], d.right);
    assert [] + [d.right] == [d.right];
    NoRightNoResults(q, es, x, y);
    NetOfSnoc(q, es, d, x, y);
  }
}

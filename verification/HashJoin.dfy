/** The symmetric hash join operator over two multimaps. */
module HashJoin {
  import opened Streams
  import opened JoinSpec

  /** A multimap as its buckets. */
  type Table<!K(==), T> = map<K, seq<T>>

  function Bucket<K, T>(t: Table<K, T>, k: K): seq<T> {
    if k in t then t[k] else []
  }

  /** The table holds `x` as often as `content` does. */
  ghost predicate Stocks<K, T>(t: Table<K, T>, key: T -> K, content: multiset<T>, x: T) {
    multiset(Bucket(t, key(x)))[x] == content[x]
  }

  ghost predicate AllOfKey<K, T(!new)>(bucket: seq<T>, key: T -> K, k: K) {
    forall x :: x in bucket ==> key(x) == k
  }

  /** The table holds exactly `content`, every element in the bucket of its key. */
  ghost predicate Represents<K, T(!new)>(t: Table<K, T>, key: T -> K, content: multiset<T>) {
    && (forall x :: Stocks(t, key, content, x))
    && (forall k :: k in t ==> AllOfKey(t[k], key, k))
  }

  /** Removes every element equal to `x` while walking over the bucket. */
  method EraseEqual<T(==,!new)>(bucket: seq<T>, x: T) returns (rest: seq<T>)
    ensures multiset(rest) == multiset(bucket)[x := 0]
    ensures forall y :: y in rest ==> y in bucket
  {
    rest := bucket;
    var it := 0;
    while it < |rest|
      invariant 0 <= it <= |rest|
      invariant x !in rest[..it]
      invariant multiset(rest)[x := 0] == multiset(bucket)[x := 0]
      invariant forall y :: y in rest ==> y in bucket
      decreases |rest| - it
    {
      assert rest == rest[..it] + [rest[it]] + rest[it + 1..];
      if rest[it] == x {
        rest := rest[..it] + rest[it + 1..];
      } else {
        it := it + 1;
      }
    }
    assert rest[..it] == rest;
    assert multiset(rest)[x] == 0;
    assert multiset(rest)[x := 0] == multiset(rest);
  }

  lemma {:induction false} InsertRepresents<K, T(!new)>(t: Table<K, T>, key: T -> K, content: multiset<T>, x: T)
    requires Represents(t, key, content)
    ensures Represents(t[key(x) := Bucket(t, key(x)) + [x]], key, content + multiset{x})
  {
    var t' := t[key(x) := Bucket(t, key(x)) + [x]];
    forall y ensures Stocks(t', key, content + multiset{x}, y) {
      assert Stocks(t, key, content, y);
    }
  }

  lemma {:induction false} EraseRepresents<K, T(!new)>(t: Table<K, T>, key: T -> K, content: multiset<T>, x: T,
      rest: seq<T>)
    requires Represents(t, key, content)
    requires multiset(rest) == multiset(Bucket(t, key(x)))[x := 0]
    requires forall y :: y in rest ==> y in Bucket(t, key(x))
    ensures Represents(t[key(x) := rest], key, content[x := 0])
  {
    var t', content' := t[key(x) := rest], content[x := 0];
    forall y ensures Stocks(t', key, content', y) {
      assert Stocks(t, key, content, y);
    }
  }

  method UpdateHashTable<K(==), T(==,!new)>(t: Table<K, T>, ghost key: T -> K, ghost content: multiset<T>, k: K, x: T,
      outdated: bool)
    returns (t': Table<K, T>)
    requires Represents(t, key, content) && k == key(x)
    ensures Represents(t', key, if outdated then content[x := 0] else content + multiset{x})
  {
    if !outdated {
      InsertRepresents(t, key, content, x);
      t' := t[k := Bucket(t, k) + [x]];
    } else {
      var rest := EraseEqual(Bucket(t, k), x);
      EraseRepresents(t, key, content, x, rest);
      t' := t[k := rest];
    }
  }

  /** The results for a left element joined with the given partners. */
  ghost predicate JoinedLeft<K, L(!new), R(!new)>(q: Query<K, L, R>, x: Event<L>, partners: seq<R>,
      before: seq<Result<L, R>>, out: seq<Result<L, R>>) {
    forall l, r :: Net(out, l, r) == Net(before, l, r) +
      if l == x.data && q.pred(l, r) then Sign(x.outdated) * multiset(partners)[r] else 0
  }

  ghost predicate JoinedRight<K, L(!new), R(!new)>(q: Query<K, L, R>, x: Event<R>, partners: seq<L>,
      before: seq<Result<L, R>>, out: seq<Result<L, R>>) {
    forall l, r :: Net(out, l, r) == Net(before, l, r) +
      if r == x.data && q.pred(l, r) then Sign(x.outdated) * multiset(partners)[l] else 0
  }

  function Joined<K, L, R>(q: Query<K, L, R>, l: L, r: R, outdated: bool): seq<Result<L, R>> {
    if q.pred(l, r) then [Result(l, r, outdated)] else []
  }

  lemma {:induction false} NetSnoc<L, R>(out: seq<Result<L, R>>, o: Result<L, R>, l: L, r: R)
    ensures Net(out + [o], l, r) == Net(out, l, r) + if o.l == l && o.r == r then Sign(o.outdated) else 0
  {
    assert (out + [o])[..|out|] == out;
  }

  lemma {:induction false} JoinedLeftSnoc<K, L(!new), R(!new)>(q: Query<K, L, R>, x: Event<L>, partners: seq<R>, p: R,
      before: seq<Result<L, R>>, out: seq<Result<L, R>>)
    requires JoinedLeft(q, x, partners, before, out)
    ensures JoinedLeft(q, x, partners + [p], before, out + Joined(q, x.data, p, x.outdated))
  {
    forall l, r ensures Net(out + Joined(q, x.data, p, x.outdated), l, r) == Net(before, l, r) +
      if l == x.data && q.pred(l, r) then Sign(x.outdated) * multiset(partners + [p])[r] else 0
    {
      NetSnoc(out, Result(x.data, p, x.outdated), l, r);
      assert out + [] == out;
    }
  }

  lemma {:induction false} JoinedRightSnoc<K, L(!new), R(!new)>(q: Query<K, L, R>, x: Event<R>, partners: seq<L>,
      p: L, before: seq<Result<L, R>>, out: seq<Result<L, R>>)
    requires JoinedRight(q, x, partners, before, out)
    ensures JoinedRight(q, x, partners + [p], before, out + Joined(q, p, x.data, x.outdated))
  {
    forall l, r ensures Net(out + Joined(q, p, x.data, x.outdated), l, r) == Net(before, l, r) +
      if r == x.data && q.pred(l, r) then Sign(x.outdated) * multiset(partners + [p])[l] else 0
    {
      NetSnoc(out, Result(p, x.data, x.outdated), l, r);
      assert out + [] == out;
    }
  }

  /** Probing the bucket of the key finds every partner in the table. */
  lemma {:induction false} LeftContribution<K, L(!new), R(!new)>(q: Query<K, L, R>, x: Event<L>, lt: multiset<L>,
      rt: multiset<R>, table: Table<K, R>, before: seq<Result<L, R>>, out: seq<Result<L, R>>)
    requires Represents(table, q.rKey, rt) && JoinedLeft(q, x, Bucket(table, q.lKey(x.data)), before, out)
    ensures forall l, r :: Net(out, l, r) == Net(before, l, r) + Contribution(q, lt, rt, FromLeft(x), l, r)
  {
    forall l, r ensures Net(out, l, r) == Net(before, l, r) + Contribution(q, lt, rt, FromLeft(x), l, r) {
      var k := q.lKey(x.data);
      if q.rKey(r) == k {
        assert Stocks(table, q.rKey, rt, r);
      } else if k in table {
        assert AllOfKey(table[k], q.rKey, k);
      }
    }
  }

  lemma {:induction false} RightContribution<K, L(!new), R(!new)>(q: Query<K, L, R>, x: Event<R>, lt: multiset<L>,
      rt: multiset<R>, table: Table<K, L>, before: seq<Result<L, R>>, out: seq<Result<L, R>>)
    requires Represents(table, q.lKey, lt) && JoinedRight(q, x, Bucket(table, q.rKey(x.data)), before, out)
    ensures forall l, r :: Net(out, l, r) == Net(before, l, r) + Contribution(q, lt, rt, FromRight(x), l, r)
  {
    forall l, r ensures Net(out, l, r) == Net(before, l, r) + Contribution(q, lt, rt, FromRight(x), l, r) {
      var k := q.rKey(x.data);
      if q.lKey(l) == k {
        assert Stocks(table, q.lKey, lt, l);
      } else if k in table {
        assert AllOfKey(table[k], q.lKey, k);
      }
    }
  }

  /** joinTuples: publish the joined tuples if the join predicate holds. */
  method JoinTuples<K, L, R>(q: Query<K, L, R>, left: L, right: R, outdated: bool, out: seq<Result<L, R>>)
    returns (out': seq<Result<L, R>>)
    ensures out' == out + Joined(q, left, right, outdated)
  {
    out' := out;
    if q.pred(left, right) {
      out' := out + [Result(left, right, outdated)];
    }
  }

  /** Find the partners of a left element in the right table and publish the results. */
  method JoinWithRight<K(==), L(==,!new), R(==,!new)>(q: Query<K, L, R>, table: Table<K, R>, left: L, outdated: bool,
      out: seq<Result<L, R>>)
    returns (out': seq<Result<L, R>>)
    ensures JoinedLeft(q, Event(left, outdated), Bucket(table, q.lKey(left)), out, out')
    ensures out <= out' && forall i :: |out| <= i < |out'| ==> out'[i].outdated == outdated
  {
    out' := out;
    ghost var e := Event(left, outdated);
    var partners := Bucket(table, q.lKey(left));
    for i := 0 to |partners|
      invariant out <= out' && forall j :: |out| <= j < |out'| ==> out'[j].outdated == outdated
      invariant JoinedLeft(q, e, partners[..i], out, out')
    {
      assert partners[..i + 1] == partners[..i] + [partners[i]];
      JoinedLeftSnoc(q, e, partners[..i], partners[i], out, out');
      out' := JoinTuples(q, left, partners[i], outdated, out');
    }
    assert partners[..|partners|] == partners;
  }

  /** Find the partners of a right element in the left table and publish the results. */
  method JoinWithLeft<K(==), L(==,!new), R(==,!new)>(q: Query<K, L, R>, table: Table<K, L>, right: R, outdated: bool,
      out: seq<Result<L, R>>)
    returns (out': seq<Result<L, R>>)
    ensures JoinedRight(q, Event(right, outdated), Bucket(table, q.rKey(right)), out, out')
    ensures out <= out' && forall i :: |out| <= i < |out'| ==> out'[i].outdated == outdated
  {
    out' := out;
    ghost var e := Event(right, outdated);
    var partners := Bucket(table, q.rKey(right));
    for i := 0 to |partners|
      invariant out <= out' && forall j :: |out| <= j < |out'| ==> out'[j].outdated == outdated
      invariant JoinedRight(q, e, partners[..i], out, out')
    {
      assert partners[..i + 1] == partners[..i] + [partners[i]];
      JoinedRightSnoc(q, e, partners[..i], partners[i], out, out');
      out' := JoinTuples(q, partners[i], right, outdated, out');
    }
    assert partners[..|partners|] == partners;
  }

  class SHJoin<K(==), L(==,!new), R(==,!new)> {
    const q: Query<K, L, R>
    var mLTable: Table<K, L>
    var mRTable: Table<K, R>
    var out: seq<Result<L, R>>
    ghost var hist: seq<Input<L, R>>

    /** Tables and published results are those of JoinSpec for the events seen so far. */
    ghost predicate Valid()
      reads this
    {
      && Represents(mLTable, q.lKey, Stored(LeftOf(hist)))
      && Represents(mRTable, q.rKey, Stored(RightOf(hist)))
      && Published(q, hist, out)
    }

    constructor (q: Query<K, L, R>)
      ensures Valid() && this.q == q && hist == [] && out == []
    {
      this.q := q;
      mLTable, mRTable, out, hist := map[], map[], [], [];
    }

    method ProcessLeft(left: L, outdated: bool)
      requires Valid()
      modifies this
      ensures Valid() && hist == old(hist) + [FromLeft(Event(left, outdated))]
      ensures old(out) <= out && forall i :: |old(out)| <= i < |out| ==> out[i].outdated == outdated
    {
      ghost var e := Event(left, outdated);
      SidesSnoc(hist, FromLeft(e));
      StoredSnoc(LeftOf(hist), e);
      mLTable := UpdateHashTable(mLTable, q.lKey, Stored(LeftOf(hist)), q.lKey(left), left, outdated);
      out := JoinWithRight(q, mRTable, left, outdated, out);
      LeftContribution(q, e, Stored(LeftOf(hist)), Stored(RightOf(hist)), mRTable, old(out), out);
      PublishedSnoc(q, hist, FromLeft(e), old(out), out);
      hist := hist + [FromLeft(e)];
    }

    method ProcessRight(right: R, outdated: bool)
      requires Valid()
      modifies this
      ensures Valid() && hist == old(hist) + [FromRight(Event(right, outdated))]
      ensures old(out) <= out && forall i :: |old(out)| <= i < |out| ==> out[i].outdated == outdated
    {
      ghost var e := Event(right, outdated);
      SidesSnoc(hist, FromRight(e));
      StoredSnoc(RightOf(hist), e);
      mRTable := UpdateHashTable(mRTable, q.rKey, Stored(RightOf(hist)), q.rKey(right), right, outdated);
      out := JoinWithLeft(q, mLTable, right, outdated, out);
      RightContribution(q, e, Stored(LeftOf(hist)), Stored(RightOf(hist)), mLTable, old(out), out);
      PublishedSnoc(q, hist, FromRight(e), old(out), out);
      hist := hist + [FromRight(e)];
    }
  }

  /** The published results are, per pair and sign, those JoinSpec gives for the events. */
  ghost predicate Published<K, L(!new), R(!new)>(q: Query<K, L, R>, hist: seq<Input<L, R>>, out: seq<Result<L, R>>) {
    forall l, r :: Net(out, l, r) == NetOf(q, hist, l, r)
  }

  lemma {:induction false} PublishedSnoc<K, L(!new), R(!new)>(q: Query<K, L, R>, hist: seq<Input<L, R>>,
      e: Input<L, R>, before: seq<Result<L, R>>, out: seq<Result<L, R>>)
    requires Published(q, hist, before)
    requires forall l, r ::
      Net(out, l, r) == Net(before, l, r) + Contribution(q, Stored(LeftOf(hist)), Stored(RightOf(hist)), e, l, r)
    ensures Published(q, hist + [e], out)
  {
    forall l, r ensures Net(out, l, r) == NetOf(q, hist + [e], l, r) {
      NetOfSnoc(q, hist, e, l, r);
    }
  }
}

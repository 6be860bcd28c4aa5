/** Slicing a sequence of matrices and merging their parts, in whatever order these arrive. */
module MatrixRoundTrip {
  import opened DenseMatrix
  import opened MatrixSlice
  import opened MatrixMerge
  import opened Streams

  /* ---- where the pieces come from ---- */

  /** Part number `part` of matrix number `src`. */
  datatype Origin = Origin(src: nat, part: nat)

  /** The origins of the pieces that leave the slicing operator, in order. */
  function Origins(n: nat, k: nat): seq<Origin> {
    if k == 0 then [] else Origins(n, k - 1) + PartsOfOne(n, k - 1)
  }

  function PartsOfOne(n: nat, src: nat): (os: seq<Origin>)
    ensures |os| == n
  {
    if n == 0 then [] else PartsOfOne(n - 1, src) + [Origin(src, n - 1)]
  }

  lemma {:induction false} PartAt(n: nat, src: nat, p: nat)
    requires p < n
    ensures PartsOfOne(n, src)[p] == Origin(src, p)
  {
    if p == n - 1 {
    } else {
      PartAt(n - 1, src, p);
    }
  }

  ghost predicate ComesFrom<Cell>(f: (Cell, nat, nat) -> nat, srcs: seq<Source<Cell>>, o: Origin, piece: Piece<Cell>) {
    o.src < |srcs| && PieceOf(srcs[o.src].matrix, f, o.part, srcs[o.src].id, piece)
  }

  ghost predicate AllComeFrom<Cell>(f: (Cell, nat, nat) -> nat, srcs: seq<Source<Cell>>, os: seq<Origin>,
      pieces: seq<Piece<Cell>>) {
    |os| == |pieces| && forall i :: 0 <= i < |os| ==> ComesFrom(f, srcs, os[i], pieces[i])
  }

  lemma {:induction false} AllComeFromMore<Cell>(f: (Cell, nat, nat) -> nat, srcs: seq<Source<Cell>>, os: seq<Origin>,
      pieces: seq<Piece<Cell>>, os': seq<Origin>, pieces': seq<Piece<Cell>>)
    requires AllComeFrom(f, srcs, os, pieces) && AllComeFrom(f, srcs, os', pieces')
    ensures AllComeFrom(f, srcs, os + os', pieces + pieces')
  {}

  lemma {:induction false} MoreSources<Cell>(f: (Cell, nat, nat) -> nat, srcs: seq<Source<Cell>>, src: Source<Cell>,
      os: seq<Origin>, pieces: seq<Piece<Cell>>)
    requires AllComeFrom(f, srcs, os, pieces)
    ensures AllComeFrom(f, srcs + [src], os, pieces)
  {
    forall i | 0 <= i < |os| ensures ComesFrom(f, srcs + [src], os[i], pieces[i]) {
      assert ComesFrom(f, srcs, os[i], pieces[i]);
    }
  }

  /** Every piece that leaves the slicing operator has its origin. */
  lemma {:induction false} SlicedFrom<Cell>(n: nat, f: (Cell, nat, nat) -> nat, srcs: seq<Source<Cell>>,
      out: seq<Piece<Cell>>)
    requires SlicedAll(n, f, srcs, out)
    ensures AllComeFrom(f, srcs, Origins(n, |srcs|), out)
  {
    if srcs == [] {
    } else {
      var k := |srcs| - 1;
      var init, before, pieces := srcs[..k], out[..|out| - n], out[|out| - n..];
      SlicedFrom(n, f, init, before);
      assert init + [srcs[k]] == srcs && before + pieces == out;
      MoreSources(f, init, srcs[k], Origins(n, k), before);
      forall p | 0 <= p < n ensures ComesFrom(f, srcs, PartsOfOne(n, k)[p], pieces[p]) {
        PartAt(n, k, p);
      }
      AllComeFromMore(f, srcs, Origins(n, k), before, PartsOfOne(n, k), pieces);
    }
  }

  /** Each part of the first `k` matrices is among the origins, once, and nothing else. */
  ghost predicate Once(os: seq<Origin>, n: nat, k: nat, o: Origin) {
    multiset(os)[o] == if o.src < k && o.part < n then 1 else 0
  }

  lemma {:induction false} OnceMore(n: nat, k: nat, os: seq<Origin>, row: seq<Origin>, o: Origin)
    requires Once(os, n, k, o) && InRow(row, k, n, o)
    ensures Once(os + row, n, k + 1, o)
  {}

  lemma {:induction false} OriginsOnce(n: nat, k: nat, o: Origin)
    ensures Once(Origins(n, k), n, k, o)
  {
    if k == 0 {
    } else {
      OriginsOnce(n, k - 1, o);
      RowOnce(n, k - 1, o);
      OnceMore(n, k - 1, Origins(n, k - 1), PartsOfOne(n, k - 1), o);
    }
  }

  ghost predicate InRow(row: seq<Origin>, j: nat, m: nat, o: Origin) {
    multiset(row)[o] == if o.src == j && o.part < m then 1 else 0
  }

  lemma {:induction false} RowMore(row: seq<Origin>, j: nat, m: nat, o: Origin)
    requires InRow(row, j, m, o)
    ensures InRow(row + [Origin(j, m)], j, m + 1, o)
  {}

  lemma {:induction false} RowOnce(n: nat, j: nat, o: Origin)
    ensures InRow(PartsOfOne(n, j), j, n, o)
  {
    if n == 0 {
    } else {
      RowOnce(n - 1, j, o);
      RowMore(PartsOfOne(n - 1, j), j, n - 1, o);
    }
  }

  /* ---- permutations ---- */

  /** In permuted sequences the last element of one is somewhere in the other. */
  lemma {:induction false} FindLast<T>(xs: seq<T>, ys: seq<T>) returns (i: nat)
    requires xs != [] && multiset(xs) == multiset(ys)
    ensures i < |ys| && ys[i] == xs[|xs| - 1]
    ensures multiset(xs[..|xs| - 1]) == multiset(ys[..i] + ys[i + 1..])
  {
    var init, x := xs[..|xs| - 1], xs[|xs| - 1];
    assert xs == init + [x];
    assert x in multiset(ys);
    i :| 0 <= i < |ys| && ys[i] == x;
    WithoutAt(ys, i);
    Cancel(multiset(init), multiset(ys[..i] + ys[i + 1..]), x);
  }

  /** Pieces in another order have origins, too: the same ones, in another order. */
  lemma {:induction false} PermutedFrom<Cell>(f: (Cell, nat, nat) -> nat, srcs: seq<Source<Cell>>, os: seq<Origin>,
      out: seq<Piece<Cell>>, pieces: seq<Piece<Cell>>)
    returns (os': seq<Origin>)
    requires AllComeFrom(f, srcs, os, out) && multiset(pieces) == multiset(out)
    ensures AllComeFrom(f, srcs, os', pieces) && multiset(os') == multiset(os)
    decreases |pieces|
  {
    if pieces == [] {
      os' := [];
      assert |multiset(out)| == |out|;
    } else {
      var i := FindLast(pieces, out);
      var init, x := pieces[..|pieces| - 1], pieces[|pieces| - 1];
      AllComeFromWithout(f, srcs, os, out, i);
      var rest := PermutedFrom(f, srcs, os[..i] + os[i + 1..], out[..i] + out[i + 1..], init);
      os' := PutBack(f, srcs, os, i, rest, init, x);
      assert init + [x] == pieces;
    }
  }

  lemma {:induction false} PutBack<Cell>(f: (Cell, nat, nat) -> nat, srcs: seq<Source<Cell>>, os: seq<Origin>, i: nat,
      rest: seq<Origin>, pieces: seq<Piece<Cell>>, x: Piece<Cell>)
    returns (os': seq<Origin>)
    requires i < |os| && AllComeFrom(f, srcs, rest, pieces) && AllComeFrom(f, srcs, [os[i]], [x])
    requires multiset(rest) == multiset(os[..i] + os[i + 1..])
    ensures AllComeFrom(f, srcs, os', pieces + [x]) && multiset(os') == multiset(os)
  {
    AllComeFromMore(f, srcs, rest, pieces, [os[i]], [x]);
    WithoutAt(os, i);
    os' := rest + [os[i]];
  }

  lemma {:induction false} AllComeFromWithout<Cell>(f: (Cell, nat, nat) -> nat, srcs: seq<Source<Cell>>,
      os: seq<Origin>, pieces: seq<Piece<Cell>>, i: nat)
    requires AllComeFrom(f, srcs, os, pieces) && i < |os|
    ensures AllComeFrom(f, srcs, os[..i] + os[i + 1..], pieces[..i] + pieces[i + 1..])
    ensures AllComeFrom(f, srcs, [os[i]], [pieces[i]])
  {
    assert ComesFrom(f, srcs, os[i], pieces[i]);
    AllComeFromMore(f, srcs, os[..i], pieces[..i], os[i + 1..], pieces[i + 1..]);
  }

  /* ---- the arrivals ---- */

  /** The pieces as the merging operator sees them; the slicing operator publishes them as new. */
  ghost function Arrivals<Cell>(pieces: seq<Piece<Cell>>): (hist: seq<Arrival<Cell>>)
    requires forall i :: 0 <= i < |pieces| ==> Readable(pieces[i])
  {
    seq(|pieces|, i requires 0 <= i < |pieces| => Arrival(pieces[i].id, Triples(pieces[i]), false))
  }

  /** The matrices by id. */
  ghost function ById<Cell>(srcs: seq<Source<Cell>>): map<int, Eigen<Cell>> {
    if srcs == [] then map[] else ById(srcs[..|srcs| - 1])[srcs[|srcs| - 1].id := srcs[|srcs| - 1].matrix]
  }

  ghost predicate DistinctIds<Cell>(srcs: seq<Source<Cell>>) {
    forall i, j :: 0 <= i < j < |srcs| ==> srcs[i].id != srcs[j].id
  }

  lemma {:induction false} ByIdHas<Cell>(srcs: seq<Source<Cell>>)
    requires DistinctIds(srcs)
    ensures forall j :: 0 <= j < |srcs| ==> srcs[j].id in ById(srcs) && ById(srcs)[srcs[j].id] == srcs[j].matrix
    ensures forall id :: id in ById(srcs) ==> exists j :: 0 <= j < |srcs| && srcs[j].id == id
  {
    if srcs == [] {
    } else {
      var init := srcs[..|srcs| - 1];
      ByIdHas(init);
      forall id | id in ById(srcs) ensures exists j :: 0 <= j < |srcs| && srcs[j].id == id {
        if id in ById(init) {
          var j :| 0 <= j < |init| && init[j].id == id;
          assert srcs[j].id == id;
        } else {
          assert srcs[|srcs| - 1].id == id;
        }
      }
    }
  }

  function PartsOf(os: seq<Origin>): seq<nat> {
    seq(|os|, k requires 0 <= k < |os| => os[k].part)
  }

  lemma {:induction false} TwiceIn<T>(xs: seq<T>, i: nat, j: nat)
    requires i < j < |xs| && xs[i] == xs[j]
    ensures multiset(xs)[xs[i]] >= 2
  {
    assert xs == xs[..j] + [xs[j]] + xs[j + 1..];
    assert xs[i] in xs[..j];
  }

  /** What merging requires of its arrivals holds for the pieces in any order. */
  lemma {:induction false} ArrivalsAreSlices<Cell>(n: nat, f: (Cell, nat, nat) -> nat, srcs: seq<Source<Cell>>,
      os: seq<Origin>, pieces: seq<Piece<Cell>>)
    requires DistinctIds(srcs) && AllComeFrom(f, srcs, os, pieces) && multiset(os) == multiset(Origins(n, |srcs|))
    requires forall i :: 0 <= i < |pieces| ==> Readable(pieces[i])
    ensures Slices(n, f, ById(srcs), Arrivals(pieces), PartsOf(os))
  {
    var hist, part := Arrivals(pieces), PartsOf(os);
    ByIdHas(srcs);
    forall k | 0 <= k < |hist|
      ensures hist[k].id in ById(srcs) && part[k] < n && SliceOf(ById(srcs)[hist[k].id], f, part[k], hist[k].triples)
    {
      assert ComesFrom(f, srcs, os[k], pieces[k]);
      OriginsOnce(n, |srcs|, os[k]);
      assert os[k] in multiset(os);
    }
    forall i, j | 0 <= i < j < |hist| && hist[i].id == hist[j].id ensures part[i] != part[j] {
      assert ComesFrom(f, srcs, os[i], pieces[i]) && ComesFrom(f, srcs, os[j], pieces[j]);
      if part[i] == part[j] {
        assert os[i] == os[j];
        TwiceIn(os, i, j);
        OriginsOnce(n, |srcs|, os[i]);
      }
    }
  }

  lemma {:induction false} GotHas<Cell>(hist: seq<Arrival<Cell>>, part: seq<nat>, k: nat)
    requires |part| == |hist| && k < |hist|
    ensures part[k] in Got(hist, part, hist[k].id)
  {
    var n := |hist| - 1;
    if k == n {
    } else {
      GotHas(hist[..n], part[..n], k);
    }
  }

  /** All parts of every matrix have arrived. */
  lemma {:induction false} AllGot<Cell>(n: nat, f: (Cell, nat, nat) -> nat, srcs: seq<Source<Cell>>, os: seq<Origin>,
      pieces: seq<Piece<Cell>>, j: nat)
    requires n > 0 && DistinctIds(srcs) && AllComeFrom(f, srcs, os, pieces) && j < |srcs|
    requires multiset(os) == multiset(Origins(n, |srcs|))
    requires forall i :: 0 <= i < |pieces| ==> Readable(pieces[i])
    ensures Got(Arrivals(pieces), PartsOf(os), srcs[j].id) == Range(n)
  {
    var hist, part := Arrivals(pieces), PartsOf(os);
    var got := Got(hist, part, srcs[j].id);
    ArrivalsAreSlices(n, f, srcs, os, pieces);
    ByIdHas(srcs);
    MergeState(n, f, ById(srcs), hist, part, srcs[j].id);
    forall p: nat | p < n ensures p in got {
      OriginsOnce(n, |srcs|, Origin(j, p));
      assert Origin(j, p) in multiset(os);
      var k :| 0 <= k < |os| && os[k] == Origin(j, p);
      assert ComesFrom(f, srcs, os[k], pieces[k]);
      GotHas(hist, part, k);
    }
  }

  /* ---- the published matrices ---- */

  function IdsOf<Cell>(done: seq<Done<Cell>>): seq<int> {
    seq(|done|, k requires 0 <= k < |done| => done[k].id)
  }

  function SourceIds<Cell>(srcs: seq<Source<Cell>>): seq<int> {
    seq(|srcs|, k requires 0 <= k < |srcs| => srcs[k].id)
  }

  lemma {:induction false} TimesIsCount<Cell>(done: seq<Done<Cell>>, id: int)
    ensures Times(done, id) == multiset(IdsOf(done))[id]
  {
    if done == [] {
    } else {
      var init, d := done[..|done| - 1], done[|done| - 1];
      TimesIsCount(init, id);
      assert IdsOf(done) == IdsOf(init) + [d.id];
    }
  }

  lemma {:induction false} IdOnce<Cell>(srcs: seq<Source<Cell>>, id: int)
    requires DistinctIds(srcs)
    ensures multiset(SourceIds(srcs))[id] == if id in ById(srcs) then 1 else 0
  {
    if srcs == [] {
    } else {
      var init, s := srcs[..|srcs| - 1], srcs[|srcs| - 1];
      IdOnce(init, id);
      ByIdHas(init);
      assert SourceIds(srcs) == SourceIds(init) + [s.id];
    }
  }

  /** The ids of the published matrices are those of the sources, each once. */
  lemma {:induction false} SameIds<Cell>(done: seq<Done<Cell>>, srcs: seq<Source<Cell>>)
    requires DistinctIds(srcs) && (forall k :: 0 <= k < |done| ==> done[k].id in ById(srcs))
    requires forall id :: id in ById(srcs) ==> Times(done, id) == 1
    ensures multiset(IdsOf(done)) == multiset(SourceIds(srcs))
  {
    forall id ensures multiset(IdsOf(done))[id] == multiset(SourceIds(srcs))[id] {
      TimesIsCount(done, id);
      IdOnce(srcs, id);
      if id in multiset(IdsOf(done)) {
        var k :| 0 <= k < |done| && IdsOf(done)[k] == id;
      }
    }
  }

  ghost function Lookup<Cell>(m: map<int, Cell>, ids: seq<int>): seq<Cell>
    requires forall k :: 0 <= k < |ids| ==> ids[k] in m
  {
    seq(|ids|, k requires 0 <= k < |ids| => m[ids[k]])
  }

  lemma {:induction false} LookupWithout<Cell>(m: map<int, Cell>, ids: seq<int>, i: nat)
    requires (forall k :: 0 <= k < |ids| ==> ids[k] in m) && i < |ids|
    ensures multiset(Lookup(m, ids)) == multiset(Lookup(m, ids[..i] + ids[i + 1..])) + multiset{m[ids[i]]}
  {
    var all := Lookup(m, ids);
    WithoutAt(all, i);
    assert all[..i] + all[i + 1..] == Lookup(m, ids[..i] + ids[i + 1..]);
  }

  /** Looking up permuted ids gives permuted values. */
  lemma {:induction false} LookupPermuted<Cell>(m: map<int, Cell>, a: seq<int>, b: seq<int>)
    requires (forall k :: 0 <= k < |a| ==> a[k] in m) && (forall k :: 0 <= k < |b| ==> b[k] in m)
    requires multiset(a) == multiset(b)
    ensures multiset(Lookup(m, a)) == multiset(Lookup(m, b))
    decreases |a|
  {
    assert |multiset(b)| == |b|;
    if a == [] {
    } else {
      var i := FindLast(a, b);
      var init := a[..|a| - 1];
      LookupPermuted(m, init, b[..i] + b[i + 1..]);
      LookupWithout(m, b, i);
      LookupWithout(m, a, |a| - 1);
      assert a[..|a| - 1] + a[|a| - 1 + 1..] == init;
    }
  }

  /** All matrices are published as new. */
  lemma {:induction false} MergedAsNew<Cell>(n: nat, hist: seq<Arrival<Cell>>)
    requires forall i :: 0 <= i < |hist| ==> !hist[i].outdated
    ensures forall k :: 0 <= k < |Merged(n, hist)| ==> !Merged(n, hist)[k].outdated
  {
    if hist == [] {
    } else {
      MergedAsNew(n, hist[..|hist| - 1]);
    }
  }

  ghost function DataOf<Cell>(out: seq<Event<Eigen<Cell>>>): seq<Eigen<Cell>> {
    seq(|out|, k requires 0 <= k < |out| => out[k].data)
  }

  ghost function MatricesOf<Cell>(srcs: seq<Source<Cell>>): seq<Eigen<Cell>> {
    seq(|srcs|, k requires 0 <= k < |srcs| => srcs[k].matrix)
  }

  /** The matrices were such that slicing accepts them, and got different ids. */
  ghost predicate Accepted<Cell>(n: nat, f: (Cell, nat, nat) -> nat, srcs: seq<Source<Cell>>) {
    DistinctIds(srcs) && forall j :: 0 <= j < |srcs| ==> Sliceable(srcs[j].matrix) && InParts(n, f, srcs[j].matrix)
  }

  lemma {:induction false} AcceptedById<Cell>(n: nat, f: (Cell, nat, nat) -> nat, srcs: seq<Source<Cell>>)
    requires Accepted(n, f, srcs)
    ensures AllSliceable(n, f, ById(srcs))
  {
    ByIdHas(srcs);
  }

  /** Each source is merged exactly once. */
  lemma {:induction false} MergedIds<Cell>(n: nat, f: (Cell, nat, nat) -> nat, srcs: seq<Source<Cell>>,
      os: seq<Origin>, pieces: seq<Piece<Cell>>)
    requires n > 0 && Accepted(n, f, srcs) && AllComeFrom(f, srcs, os, pieces)
    requires multiset(os) == multiset(Origins(n, |srcs|))
    requires forall i :: 0 <= i < |pieces| ==> Readable(pieces[i])
    requires forall k :: 0 <= k < |Merged(n, Arrivals(pieces))| ==> Merged(n, Arrivals(pieces))[k].id in ById(srcs)
    ensures multiset(IdsOf(Merged(n, Arrivals(pieces)))) == multiset(SourceIds(srcs))
  {
    var hist, part := Arrivals(pieces), PartsOf(os);
    ArrivalsAreSlices(n, f, srcs, os, pieces);
    ByIdHas(srcs);
    forall id | id in ById(srcs) ensures Times(Merged(n, hist), id) == 1 {
      var j :| 0 <= j < |srcs| && srcs[j].id == id;
      AllGot(n, f, srcs, os, pieces, j);
      PublishedOnce(n, f, ById(srcs), hist, part, id);
    }
    SameIds(Merged(n, hist), srcs);
  }

  /** Slicing any sequence of matrices and merging their pieces, whatever the slicing function and in
      whatever order and interleaving they arrive, publishes the matrices themselves: each once, as new,
      and nothing else. */
  lemma {:induction false} SliceThenMerge<Cell(0)>(slice: MatrixSlice<Cell>, merge: MatrixMerge<Cell>,
      pieces: seq<Piece<Cell>>)
    requires slice.Valid() && merge.Valid() && merge.numParts == slice.numParts > 0
    requires Accepted(slice.numParts, slice.sliceFun, slice.sources)
    requires multiset(pieces) == multiset(slice.out) && (forall i :: 0 <= i < |pieces| ==> Readable(pieces[i]))
    requires merge.hist == Arrivals(pieces)
    ensures multiset(DataOf(merge.out)) == multiset(MatricesOf(slice.sources))
    ensures forall k :: 0 <= k < |merge.out| ==> !merge.out[k].outdated
  {
    var n, f, srcs := slice.numParts, slice.sliceFun, slice.sources;
    var done := Merged(n, merge.hist);
    SlicedFrom(n, f, srcs, slice.out);
    var os := PermutedFrom(f, srcs, Origins(n, |srcs|), slice.out, pieces);
    ArrivalsAreSlices(n, f, srcs, os, pieces);
    AcceptedById(n, f, srcs);
    forall k | 0 <= k < |done| ensures done[k].id in ById(srcs) && merge.out[k].data == ById(srcs)[done[k].id] {
      PublishesSources(merge, f, ById(srcs), PartsOf(os), k);
    }
    MergedIds(n, f, srcs, os, pieces);
    ByIdHas(srcs);
    LookupPermuted(ById(srcs), IdsOf(done), SourceIds(srcs));
    assert DataOf(merge.out) == Lookup(ById(srcs), IdsOf(done));
    assert MatricesOf(srcs) == Lookup(ById(srcs), SourceIds(srcs));
    MergedAsNew(n, merge.hist);
  }
}

/** Merging parts of dense matrices that arrive in any order and interleaving. */
module MatrixMerge {
  import opened Wrappers
  import opened DenseMatrix
  import opened MatrixSlice
  import opened Streams

  /* ---- what the operator does, as functions of the arrivals ---- */

  datatype Arrival<Cell> = Arrival(id: int, triples: seq<Triple<Cell>>, outdated: bool)

  /** The parts of `id` merged since its last complete matrix. */
  function Waiting<Cell>(n: nat, hist: seq<Arrival<Cell>>, id: int): seq<Arrival<Cell>> {
    if hist == [] then []
    else
      var before, e := Waiting(n, hist[..|hist| - 1], id), hist[|hist| - 1];
      if e.id != id then before
      else if |before| + 1 == n then [] else before + [e]
  }

  function All<Cell>(parts: seq<Arrival<Cell>>): seq<Triple<Cell>> {
    if parts == [] then [] else All(parts[..|parts| - 1]) + parts[|parts| - 1].triples
  }

  /** A completed matrix: its id, the incidents of all its parts, and the flag of the last part. */
  datatype Done<Cell> = Done(id: int, triples: seq<Triple<Cell>>, outdated: bool)

  function Merged<Cell>(n: nat, hist: seq<Arrival<Cell>>): seq<Done<Cell>> {
    if hist == [] then []
    else
      var init, e := hist[..|hist| - 1], hist[|hist| - 1];
      var before := Waiting(n, init, e.id);
      if |before| + 1 == n then Merged(n, init) + [Done(e.id, All(before + [e]), e.outdated)] else Merged(n, init)
  }

  /** The value written last at `p`. */
  function Last<Cell>(ts: seq<Triple<Cell>>, p: Pos): Option<Cell> {
    if ts == [] then None
    else if ts[|ts| - 1].at == p then Some(ts[|ts| - 1].value)
    else Last(ts[..|ts| - 1], p)
  }

  function Rows<Cell>(ts: seq<Triple<Cell>>): nat {
    if ts == [] then 0 else Max(Rows(ts[..|ts| - 1]), ts[|ts| - 1].at.0 + 1)
  }

  function Cols<Cell>(ts: seq<Triple<Cell>>): nat {
    if ts == [] then 0 else Max(Cols(ts[..|ts| - 1]), ts[|ts| - 1].at.1 + 1)
  }

  ghost predicate Shows<Cell>(m: Eigen<Cell>, p: Pos, v: Option<Cell>) {
    v.Some? ==> p in m.cells && m.cells[p] == v.value
  }

  /** A matrix after writing `ts` into an empty one: just large enough, the last write at a cell wins, and
      cells that were never written are arbitrary. */
  ghost predicate Agrees<Cell>(m: Eigen<Cell>, ts: seq<Triple<Cell>>) {
    && WellFormed(m) && m.rows == Rows(ts) && m.cols == Cols(ts)
    && forall p :: Shows(m, p, Last(ts, p))
  }

  lemma {:induction false} AgreesSet<Cell>(m: Eigen<Cell>, ts: seq<Triple<Cell>>, t: Triple<Cell>, m': Eigen<Cell>)
    requires Agrees(m, ts) && IsSet(m, t.at, t.value, m')
    ensures Agrees(m', ts + [t])
  {
    assert (ts + [t])[..|ts|] == ts;
    forall p ensures Shows(m', p, Last(ts + [t], p)) {
      assert Shows(m, p, Last(ts, p));
    }
  }

  /* ---- the operator ---- */

  /** The matrices in the table are objects that grow in place. */
  datatype Partition<!Cell(0)> = Partition(countParts: nat, matrix: DenseMatrix<Cell>)

  /** Writes the incidents of a part into the matrix. */
  method MergeTo<Cell(0)>(srcMat: Piece<Cell>, dstMat: DenseMatrix<Cell>, ghost ts: seq<Triple<Cell>>)
    requires Readable(srcMat) && Agrees(dstMat.matrix, ts)
    modifies dstMat`matrix
    ensures Agrees(dstMat.matrix, ts + Triples(srcMat))
  {
    ghost var all := Triples(srcMat);
    assert ts + all[..0] == ts;
    for i := 0 to |srcMat.incidentIndexes|
      invariant Agrees(dstMat.matrix, ts + all[..i])
    {
      var triple := GetIncident(srcMat, i);
      assert (ts + all[..i]) + [all[i]] == ts + all[..i + 1];
      ghost var was := dstMat.matrix;
      dstMat.Set(triple.at.0, triple.at.1, triple.value);
      AgreesSet(was, ts + all[..i], triple, dstMat.matrix);
    }
    assert all[..|all|] == all;
  }

  /** The published matrices are those completed so far. */
  ghost predicate PublishesAll<Cell>(out: seq<Event<Eigen<Cell>>>, done: seq<Done<Cell>>) {
    && |out| == |done|
    && forall k :: 0 <= k < |out| ==> Agrees(out[k].data, done[k].triples) && out[k].outdated == done[k].outdated
  }

  lemma {:induction false} PublishesMore<Cell>(out: seq<Event<Eigen<Cell>>>, done: seq<Done<Cell>>,
      o: Event<Eigen<Cell>>, d: Done<Cell>)
    requires PublishesAll(out, done) && Agrees(o.data, d.triples) && o.outdated == d.outdated
    ensures PublishesAll(out + [o], done + [d])
  {}

  ghost predicate EntryOk<Cell>(waiting: seq<Arrival<Cell>>, entry: Option<(nat, Eigen<Cell>)>) {
    match entry
    case None => waiting == []
    case Some((count, matrix)) => waiting != [] && count == |waiting| && Agrees(matrix, All(waiting))
  }

  class MatrixMerge<Cell(0)> {
    const numParts: nat
    var partitions: map<int, Partition<Cell>>
    var out: seq<Event<Eigen<Cell>>>
    ghost var hist: seq<Arrival<Cell>>

    ghost function Matrices(): set<DenseMatrix<Cell>>
      reads this
    {
      set id | id in partitions :: partitions[id].matrix
    }

    ghost predicate Unshared()
      reads this
    {
      forall i, j :: i in partitions && j in partitions && i != j ==> partitions[i].matrix != partitions[j].matrix
    }

    /** The table has an entry for the ids with waiting parts: their number and the matrix merged so far. */
    ghost predicate Holds(id: int)
      reads this, Matrices()
    {
      EntryOk(Waiting(numParts, hist, id), EntryAt(id))
    }

    /** The count and the matrix value in the table. */
    ghost function EntryAt(id: int): Option<(nat, Eigen<Cell>)>
      reads this, Matrices()
    {
      if id in partitions then Some((partitions[id].countParts, partitions[id].matrix.matrix)) else None
    }

    ghost predicate Valid()
      reads this, Matrices()
    {
      Unshared() && (forall id :: Holds(id)) && PublishesAll(out, Merged(numParts, hist))
    }

    constructor (numParts: nat)
      ensures Valid() && this.numParts == numParts && hist == [] && out == []
    {
      this.numParts, partitions, out, hist := numParts, map[], [], [];
    }

    /** The entry of `id`, or a new one. */
    method ObtainPart(id: int) returns (part: Partition<Cell>)
      requires Holds(id)
      ensures id in partitions ==> part == partitions[id]
      ensures id !in partitions ==> fresh(part.matrix)
      ensures part.countParts == |Waiting(numParts, hist, id)|
      ensures Agrees(part.matrix.matrix, All(Waiting(numParts, hist, id)))
    {
      if id in partitions {
        part := partitions[id];
      } else {
        var empty := new DenseMatrix<Cell>();
        part := Partition(0, empty);
      }
    }

    method ProcessDataElement(mat: Piece<Cell>, outdated: bool)
      requires Valid() && Readable(mat)
      modifies this, Matrices()
      ensures Valid() && hist == old(hist) + [Arrival(mat.id, Triples(mat), outdated)]
      ensures forall m :: m in Matrices() ==> m in old(Matrices()) || fresh(m)
    {
      var id := mat.id;
      ghost var e := Arrival(id, Triples(mat), outdated);
      assert Holds(id);
      var part := ObtainPart(id);
      assert forall i :: i in partitions && i != id ==> partitions[i].matrix != part.matrix;
      MergePart(mat, part, e);
      Finish(id, part, e, outdated);
    }

    /** Merges the arrival into the matrix of its id; the other matrices stay as they are. */
    method MergePart(mat: Piece<Cell>, part: Partition<Cell>, ghost e: Arrival<Cell>)
      requires Readable(mat) && e.triples == Triples(mat)
      requires Unshared() && (forall i :: i != e.id ==> Holds(i)) && PublishesAll(out, Merged(numParts, hist))
      requires forall i :: i in partitions && i != e.id ==> partitions[i].matrix != part.matrix
      requires part.countParts == |Waiting(numParts, hist, e.id)|
      requires Agrees(part.matrix.matrix, All(Waiting(numParts, hist, e.id)))
      modifies part.matrix`matrix
      ensures Merging(part, e)
    {
      ghost var before := Waiting(numParts, hist, e.id);
      MergeTo(mat, part.matrix, All(before));
      AllSnoc(before, e);
      forall i | i != e.id ensures Holds(i) {
        assert old(Holds(i)) && EntryAt(i) == old(EntryAt(i));
      }
    }

    /** The next arrival `e` has been merged into `part`; everything else is as before. */
    ghost predicate Merging(part: Partition<Cell>, e: Arrival<Cell>)
      reads this, Matrices(), part.matrix
    {
      && Unshared() && (forall i :: i != e.id ==> Holds(i)) && PublishesAll(out, Merged(numParts, hist))
      && (forall i :: i in partitions && i != e.id ==> partitions[i].matrix != part.matrix)
      && part.countParts == |Waiting(numParts, hist, e.id)|
      && Agrees(part.matrix.matrix, All(Waiting(numParts, hist, e.id) + [e]))
    }

    /** Publishes and forgets the matrix if this was its last part, and keeps it otherwise. */
    method Finish(id: int, part: Partition<Cell>, ghost e: Arrival<Cell>, outdated: bool)
      requires Merging(part, e) && e.id == id && e.outdated == outdated
      modifies this
      ensures Valid() && hist == old(hist) + [e]
      ensures Matrices() <= old(Matrices()) + {part.matrix}
    {
      if part.countParts + 1 == numParts { Publish(id, part, e, outdated); } else { Keep(id, part, e); }
    }

    method Publish(id: int, part: Partition<Cell>, ghost e: Arrival<Cell>, outdated: bool)
      requires Merging(part, e) && e.id == id && e.outdated == outdated && part.countParts + 1 == numParts
      modifies this
      ensures Valid() && hist == old(hist) + [e]
      ensures Matrices() <= old(Matrices())
    {
      PublishesLast(numParts, hist, out, part.matrix.matrix, e);
      WaitingAll(numParts, hist, e);
      out := out + [Event(part.matrix.matrix, outdated)];
      hist := hist + [e];
      forall i | i != id ensures Holds(i) {
        assert old(Holds(i)) && EntryAt(i) == old(EntryAt(i));
      }
      Forget(id);
    }

    /** Removes the entry of an id for which nothing waits any more. */
    method Forget(id: int)
      requires Unshared() && (forall i :: i != id ==> Holds(i)) && Waiting(numParts, hist, id) == []
      modifies this`partitions
      ensures Unshared() && (forall i :: Holds(i)) && Matrices() <= old(Matrices())
    {
      partitions := partitions - {id};
      forall i ensures Holds(i) {
        if i != id { assert old(Holds(i)) && EntryAt(i) == old(EntryAt(i)); }
      }
    }

    method Keep(id: int, part: Partition<Cell>, ghost e: Arrival<Cell>)
      requires Merging(part, e) && e.id == id && part.countParts + 1 != numParts
      modifies this
      ensures Valid() && hist == old(hist) + [e]
      ensures Matrices() <= old(Matrices()) + {part.matrix}
    {
      MergedSnoc(numParts, hist, e);
      WaitingAll(numParts, hist, e);
      partitions := partitions[id := Partition(part.countParts + 1, part.matrix)];
      hist := hist + [e];
      assert Unshared();
      forall i ensures Holds(i) {
        if i != id { assert old(Holds(i)) && EntryAt(i) == old(EntryAt(i)); }
      }
    }
  }

  lemma {:induction false} PublishesLast<Cell>(n: nat, hist: seq<Arrival<Cell>>, out: seq<Event<Eigen<Cell>>>,
      m: Eigen<Cell>, e: Arrival<Cell>)
    requires PublishesAll(out, Merged(n, hist)) && |Waiting(n, hist, e.id)| + 1 == n
    requires Agrees(m, All(Waiting(n, hist, e.id) + [e]))
    ensures PublishesAll(out + [Event(m, e.outdated)], Merged(n, hist + [e]))
  {
    MergedSnoc(n, hist, e);
    PublishesMore(out, Merged(n, hist), Event(m, e.outdated),
                  Done(e.id, All(Waiting(n, hist, e.id) + [e]), e.outdated));
  }

  /** An arrival changes what waits for its own id only. */
  lemma {:induction false} WaitingAll<Cell>(n: nat, hist: seq<Arrival<Cell>>, e: Arrival<Cell>)
    ensures forall i :: i != e.id ==> Waiting(n, hist + [e], i) == Waiting(n, hist, i)
    ensures var before := Waiting(n, hist, e.id);
            Waiting(n, hist + [e], e.id) == if |before| + 1 == n then [] else before + [e]
  {
    forall i ensures i != e.id ==> Waiting(n, hist + [e], i) == Waiting(n, hist, i) {
      WaitingSnoc(n, hist, e, i);
    }
    WaitingSnoc(n, hist, e, e.id);
  }

  lemma {:induction false} AllSnoc<Cell>(parts: seq<Arrival<Cell>>, e: Arrival<Cell>)
    ensures All(parts + [e]) == All(parts) + e.triples
  {
    assert (parts + [e])[..|parts|] == parts;
  }

  lemma {:induction false} WaitingSnoc<Cell>(n: nat, hist: seq<Arrival<Cell>>, e: Arrival<Cell>, id: int)
    ensures Waiting(n, hist + [e], id) ==
            if e.id != id then Waiting(n, hist, id)
            else if |Waiting(n, hist, id)| + 1 == n then [] else Waiting(n, hist, id) + [e]
  {
    assert (hist + [e])[..|hist|] == hist;
  }

  lemma {:induction false} MergedSnoc<Cell>(n: nat, hist: seq<Arrival<Cell>>, e: Arrival<Cell>)
    ensures var before := Waiting(n, hist, e.id);
            Merged(n, hist + [e]) ==
            if |before| + 1 == n then Merged(n, hist) + [Done(e.id, All(before + [e]), e.outdated)] else Merged(n, hist)
  {
    assert (hist + [e])[..|hist|] == hist;
  }

  /* ---- merging restores what was sliced ---- */

  /** The source has at least one cell, or no row and no column. */
  ghost predicate Sliceable<Cell>(src: Eigen<Cell>) {
    WellFormed(src) && (src.rows == 0 <==> src.cols == 0)
  }

  /** `ts` only holds cells of `src`, and all its cells of the parts in `got`. */
  ghost predicate Covers<Cell>(src: Eigen<Cell>, f: (Cell, nat, nat) -> nat, got: set<nat>, ts: seq<Triple<Cell>>) {
    && (forall t :: t in ts ==> t.at in src.cells && t.value == src.cells[t.at])
    && (forall q :: q in src.cells && f(src.cells[q], q.0, q.1) in got ==> Triple(q, src.cells[q]) in ts)
  }

  lemma {:induction false} CoversMore<Cell>(src: Eigen<Cell>, f: (Cell, nat, nat) -> nat, got: set<nat>,
      ts: seq<Triple<Cell>>, p: nat, more: seq<Triple<Cell>>)
    requires Covers(src, f, got, ts) && SliceOf(src, f, p, more)
    ensures Covers(src, f, got + {p}, ts + more)
  {
    assert forall t :: t in more ==> Belongs(src, f, p, t);
  }

  lemma {:induction false} LastIsWritten<Cell>(src: Eigen<Cell>, ts: seq<Triple<Cell>>, q: Pos)
    requires forall t :: t in ts ==> t.at in src.cells && t.value == src.cells[t.at]
    requires q in src.cells && Triple(q, src.cells[q]) in ts
    ensures Last(ts, q) == Some(src.cells[q])
  {
    var init, t := ts[..|ts| - 1], ts[|ts| - 1];
    assert t in ts;
    if t.at == q {
    } else {
      assert Triple(q, src.cells[q]) in init;
      LastIsWritten(src, init, q);
    }
  }

  /** The extent of writes inside `src` that include `q`. */
  lemma {:induction false} ExtentBounds<Cell>(src: Eigen<Cell>, ts: seq<Triple<Cell>>)
    requires WellFormed(src) && forall t :: t in ts ==> t.at in src.cells
    ensures Rows(ts) <= src.rows && Cols(ts) <= src.cols
    ensures forall t :: t in ts ==> Rows(ts) > t.at.0 && Cols(ts) > t.at.1
  {
    if ts == [] {
    } else {
      var init, t := ts[..|ts| - 1], ts[|ts| - 1];
      assert t in ts && InRange(t.at, src.rows, src.cols);
      ExtentBounds(src, init);
      assert ts == init + [t];
    }
  }

  /** A matrix merged from incidents that cover the source is the source. */
  lemma {:induction false} CoversAgrees<Cell>(src: Eigen<Cell>, f: (Cell, nat, nat) -> nat, got: set<nat>,
      ts: seq<Triple<Cell>>, m: Eigen<Cell>)
    requires Sliceable(src) && Covers(src, f, got, ts) && Agrees(m, ts)
    requires forall q :: q in src.cells ==> f(src.cells[q], q.0, q.1) in got
    ensures m == src
  {
    ExtentBounds(src, ts);
    if src.rows > 0 {
      var corner: Pos := (src.rows - 1, src.cols - 1);
      assert InRange(corner, src.rows, src.cols);
      assert Triple(corner, src.cells[corner]) in ts;
    }
    forall q: Pos | q in src.cells ensures q in m.cells && m.cells[q] == src.cells[q] {
      LastIsWritten(src, ts, q);
      assert Shows(m, q, Last(ts, q));
    }
    forall q: Pos ensures q in m.cells <==> q in src.cells {
      assert InRange(q, m.rows, m.cols) <==> InRange(q, src.rows, src.cols);
    }
    assert m.cells == src.cells;
  }

  /** The parts of `id` that have arrived; arrival `k` brings part `part[k]`. */
  function Got<Cell>(hist: seq<Arrival<Cell>>, part: seq<nat>, id: int): set<nat>
    requires |part| == |hist|
  {
    if hist == [] then {}
    else
      var n := |hist| - 1;
      Got(hist[..n], part[..n], id) + if hist[n].id == id then {part[n]} else {}
  }

  /** Every arrival is a part of the matrix with its id, and no part arrives twice. */
  ghost predicate Slices<Cell>(n: nat, f: (Cell, nat, nat) -> nat, srcs: map<int, Eigen<Cell>>,
      hist: seq<Arrival<Cell>>, part: seq<nat>) {
    && |part| == |hist|
    && (forall k :: 0 <= k < |hist| ==>
          hist[k].id in srcs && part[k] < n && SliceOf(srcs[hist[k].id], f, part[k], hist[k].triples))
    && (forall i, j :: 0 <= i < j < |hist| && hist[i].id == hist[j].id ==> part[i] != part[j])
  }

  ghost predicate AllSliceable<Cell>(n: nat, f: (Cell, nat, nat) -> nat, srcs: map<int, Eigen<Cell>>) {
    forall id :: id in srcs ==> Sliceable(srcs[id]) && InParts(n, f, srcs[id])
  }

  ghost predicate InParts<Cell>(n: nat, f: (Cell, nat, nat) -> nat, src: Eigen<Cell>) {
    forall q :: q in src.cells ==> f(src.cells[q], q.0, q.1) < n
  }

  lemma {:induction false} SlicesInit<Cell>(n: nat, f: (Cell, nat, nat) -> nat, srcs: map<int, Eigen<Cell>>,
      hist: seq<Arrival<Cell>>, part: seq<nat>)
    requires Slices(n, f, srcs, hist, part) && hist != []
    ensures Slices(n, f, srcs, hist[..|hist| - 1], part[..|part| - 1])
    ensures var k := |hist| - 1; part[k] < n && part[k] !in Got(hist[..k], part[..k], hist[k].id)
  {
    var k := |hist| - 1;
    GotOnly(hist[..k], part[..k], hist[k].id, part[k]);
  }

  /** A part that differs from all arrived parts of its id is new. */
  lemma {:induction false} GotOnly<Cell>(hist: seq<Arrival<Cell>>, part: seq<nat>, id: int, p: nat)
    requires |part| == |hist| && forall i :: 0 <= i < |hist| && hist[i].id == id ==> part[i] != p
    ensures p !in Got(hist, part, id)
  {
    if hist == [] {
    } else {
      GotOnly(hist[..|hist| - 1], part[..|hist| - 1], id, p);
    }
  }

  function Range(n: nat): (s: set<nat>)
    ensures |s| == n && forall p: nat :: p in s <==> p < n
  {
    if n == 0 then {} else Range(n - 1) + {n - 1}
  }

  lemma {:induction false} Subset(s: set<nat>, t: set<nat>)
    requires s <= t
    ensures |s| <= |t| && (|s| == |t| ==> s == t)
  {
    assert t == s + (t - s);
    if |s| == |t| {
      assert |t - s| == 0;
    }
  }

  /** How often a matrix was published. */
  function Times<Cell>(done: seq<Done<Cell>>, id: int): nat {
    if done == [] then 0 else Times(done[..|done| - 1], id) + if done[|done| - 1].id == id then 1 else 0
  }

  lemma {:induction false} TimesSnoc<Cell>(done: seq<Done<Cell>>, d: Done<Cell>, id: int)
    ensures Times(done + [d], id) == Times(done, id) + if d.id == id then 1 else 0
  {
    assert (done + [d])[..|done|] == done;
  }

  /** The state of one id: incomplete, with all its arrived parts waiting, or published once. */
  ghost predicate IdState<Cell>(n: nat, f: (Cell, nat, nat) -> nat, src: Eigen<Cell>, got: set<nat>,
      waiting: seq<Arrival<Cell>>, times: nat) {
    && got <= Range(n)
    && if |got| == n then waiting == [] && times == 1
       else |waiting| == |got| && times == 0 && Covers(src, f, got, All(waiting))
  }

  lemma {:induction false} IdStep<Cell>(n: nat, f: (Cell, nat, nat) -> nat, src: Eigen<Cell>, got: set<nat>,
      waiting: seq<Arrival<Cell>>, times: nat, e: Arrival<Cell>, p: nat)
    requires n > 0 && IdState(n, f, src, got, waiting, times) && p < n && p !in got && SliceOf(src, f, p, e.triples)
    ensures |waiting| == |got| < n && Covers(src, f, got + {p}, All(waiting + [e]))
    ensures if |waiting| + 1 == n then got + {p} == Range(n) && IdState(n, f, src, got + {p}, [], times + 1)
            else IdState(n, f, src, got + {p}, waiting + [e], times)
  {
    Subset(got, Range(n));
    Subset(got + {p}, Range(n));
    AllSnoc(waiting, e);
    CoversMore(src, f, got, All(waiting), p, e.triples);
  }

  /** What all ids and all published matrices keep. */
  lemma {:induction false} MergeState<Cell>(n: nat, f: (Cell, nat, nat) -> nat, srcs: map<int, Eigen<Cell>>,
      hist: seq<Arrival<Cell>>, part: seq<nat>, id: int)
    requires n > 0 && Slices(n, f, srcs, hist, part) && id in srcs
    ensures IdState(n, f, srcs[id], Got(hist, part, id), Waiting(n, hist, id), Times(Merged(n, hist), id))
  {
    if hist == [] {
      assert Covers(srcs[id], f, {}, []);
    } else {
      var k := |hist| - 1;
      SlicesInit(n, f, srcs, hist, part);
      MergeState(n, f, srcs, hist[..k], part[..k], id);
      assert hist == hist[..k] + [hist[k]];
      GotStep(hist, part, id);
      NextState(n, f, srcs[id], hist[..k], Got(hist[..k], part[..k], id), hist[k], part[k], id);
    }
  }

  lemma {:induction false} GotStep<Cell>(hist: seq<Arrival<Cell>>, part: seq<nat>, id: int)
    requires |part| == |hist| && hist != []
    ensures var k := |hist| - 1;
            Got(hist, part, id) == if hist[k].id == id then Got(hist[..k], part[..k], id) + {part[k]}
                                   else Got(hist[..k], part[..k], id)
  {}

  lemma {:induction false} NextState<Cell>(n: nat, f: (Cell, nat, nat) -> nat, src: Eigen<Cell>,
      hist: seq<Arrival<Cell>>, got: set<nat>, e: Arrival<Cell>, p: nat, id: int)
    requires n > 0 && IdState(n, f, src, got, Waiting(n, hist, id), Times(Merged(n, hist), id))
    requires e.id == id ==> p < n && p !in got && SliceOf(src, f, p, e.triples)
    ensures IdState(n, f, src, if e.id == id then got + {p} else got,
                    Waiting(n, hist + [e], id), Times(Merged(n, hist + [e]), id))
  {
    if e.id == id {
      OwnArrival(n, f, src, hist, got, e, p);
    } else {
      OtherArrival(n, hist, e, id);
    }
  }

  lemma {:induction false} OwnArrival<Cell>(n: nat, f: (Cell, nat, nat) -> nat, src: Eigen<Cell>,
      hist: seq<Arrival<Cell>>, got: set<nat>, e: Arrival<Cell>, p: nat)
    requires n > 0 && IdState(n, f, src, got, Waiting(n, hist, e.id), Times(Merged(n, hist), e.id))
    requires p < n && p !in got && SliceOf(src, f, p, e.triples)
    ensures IdState(n, f, src, got + {p}, Waiting(n, hist + [e], e.id), Times(Merged(n, hist + [e]), e.id))
  {
    OwnTimes(n, hist, e);
    IdAfter(n, f, src, got, Waiting(n, hist, e.id), Times(Merged(n, hist), e.id), e, p,
            Waiting(n, hist + [e], e.id), Times(Merged(n, hist + [e]), e.id));
  }

  lemma {:induction false} IdAfter<Cell>(n: nat, f: (Cell, nat, nat) -> nat, src: Eigen<Cell>, got: set<nat>,
      waiting: seq<Arrival<Cell>>, times: nat, e: Arrival<Cell>, p: nat, waiting': seq<Arrival<Cell>>, times': nat)
    requires n > 0 && IdState(n, f, src, got, waiting, times) && p < n && p !in got && SliceOf(src, f, p, e.triples)
    requires waiting' == (if |waiting| + 1 == n then [] else waiting + [e])
    requires times' == if |waiting| + 1 == n then times + 1 else times
    ensures IdState(n, f, src, got + {p}, waiting', times')
  {
    IdStep(n, f, src, got, waiting, times, e, p);
  }

  lemma {:induction false} OwnTimes<Cell>(n: nat, hist: seq<Arrival<Cell>>, e: Arrival<Cell>)
    ensures var waiting, times := Waiting(n, hist, e.id), Times(Merged(n, hist), e.id);
            && Waiting(n, hist + [e], e.id) == (if |waiting| + 1 == n then [] else waiting + [e])
            && Times(Merged(n, hist + [e]), e.id) == if |waiting| + 1 == n then times + 1 else times
  {
    WaitingSnoc(n, hist, e, e.id);
    MergedSnoc(n, hist, e);
    TimesSnoc(Merged(n, hist), Done(e.id, All(Waiting(n, hist, e.id) + [e]), e.outdated), e.id);
  }

  lemma {:induction false} OtherArrival<Cell>(n: nat, hist: seq<Arrival<Cell>>, e: Arrival<Cell>, id: int)
    requires e.id != id
    ensures Waiting(n, hist + [e], id) == Waiting(n, hist, id)
    ensures Times(Merged(n, hist + [e]), id) == Times(Merged(n, hist), id)
  {
    WaitingSnoc(n, hist, e, id);
    MergedSnoc(n, hist, e);
    TimesSnoc(Merged(n, hist), Done(e.id, All(Waiting(n, hist, e.id) + [e]), e.outdated), id);
  }

  /** Each matrix is published exactly once, when its last part arrives, and not before. */
  lemma {:induction false} PublishedOnce<Cell>(n: nat, f: (Cell, nat, nat) -> nat, srcs: map<int, Eigen<Cell>>,
      hist: seq<Arrival<Cell>>, part: seq<nat>, id: int)
    requires n > 0 && Slices(n, f, srcs, hist, part) && id in srcs
    ensures Times(Merged(n, hist), id) == if Got(hist, part, id) == Range(n) then 1 else 0
    ensures Got(hist, part, id) == Range(n) ==> Waiting(n, hist, id) == []
  {
    MergeState(n, f, srcs, hist, part, id);
    Subset(Got(hist, part, id), Range(n));
  }

  /** A matrix leaves with the arrival that completes its parts, under its id and with the flag of that arrival;
      no other arrival publishes anything. */
  lemma {:induction false} LastPartPublishes<Cell>(n: nat, f: (Cell, nat, nat) -> nat, srcs: map<int, Eigen<Cell>>,
      hist: seq<Arrival<Cell>>, part: seq<nat>, e: Arrival<Cell>, p: nat)
    requires n > 0 && Slices(n, f, srcs, hist + [e], part + [p]) && |part| == |hist|
    ensures
      var before, after := Merged(n, hist), Merged(n, hist + [e]);
      if Got(hist + [e], part + [p], e.id) == Range(n) then
        && |after| == |before| + 1 && after[..|before|] == before
        && after[|before|].id == e.id && after[|before|].outdated == e.outdated
      else after == before
  {
    var all, parts := hist + [e], part + [p];
    assert all[..|hist|] == hist && parts[..|hist|] == part && all[|hist|] == e && parts[|hist|] == p;
    SlicesInit(n, f, srcs, all, parts);
    MergeState(n, f, srcs, hist, part, e.id);
    MergedSnoc(n, hist, e);
    GotStep(all, parts, e.id);
    var got := Got(hist, part, e.id);
    Subset(got, Range(n));
    Subset(got + {p}, Range(n));
  }

  /** Whatever was published agrees with its source only if it is the source: every matrix comes back with
      its dimensions and all its cells, for any slicing function and any arrival order. */
  lemma {:induction false} MergeRestores<Cell>(n: nat, f: (Cell, nat, nat) -> nat, srcs: map<int, Eigen<Cell>>,
      hist: seq<Arrival<Cell>>, part: seq<nat>, k: nat, m: Eigen<Cell>)
    requires n > 0 && Slices(n, f, srcs, hist, part) && AllSliceable(n, f, srcs)
    requires k < |Merged(n, hist)| && Agrees(m, Merged(n, hist)[k].triples)
    ensures Merged(n, hist)[k].id in srcs && m == srcs[Merged(n, hist)[k].id]
  {
    var j := |hist| - 1;
    var init, e := hist[..j], hist[j];
    SlicesInit(n, f, srcs, hist, part);
    if k < |Merged(n, init)| {
      MergeRestores(n, f, srcs, init, part[..j], k, m);
    } else {
      var got, waiting := Got(init, part[..j], e.id), Waiting(n, init, e.id);
      MergeState(n, f, srcs, init, part[..j], e.id);
      IdStep(n, f, srcs[e.id], got, waiting, Times(Merged(n, init), e.id), e, part[j]);
      assert InParts(n, f, srcs[e.id]);
      CoversAgrees(srcs[e.id], f, Range(n), All(waiting + [e]), m);
    }
  }

  /** The operator publishes the source matrices themselves. */
  lemma {:induction false} PublishesSources<Cell(0)>(merge: MatrixMerge<Cell>, f: (Cell, nat, nat) -> nat,
      srcs: map<int, Eigen<Cell>>, part: seq<nat>, k: nat)
    requires merge.Valid() && merge.numParts > 0 && k < |merge.out|
    requires Slices(merge.numParts, f, srcs, merge.hist, part) && AllSliceable(merge.numParts, f, srcs)
    ensures |Merged(merge.numParts, merge.hist)| == |merge.out| && Merged(merge.numParts, merge.hist)[k].id in srcs
    ensures merge.out[k].data == srcs[Merged(merge.numParts, merge.hist)[k].id]
  {
    MergeRestores(merge.numParts, f, srcs, merge.hist, part, k, merge.out[k].data);
  }
}

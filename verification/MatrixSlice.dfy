/** Slicing a dense matrix into parts by a user-defined function. */
module MatrixSlice {
  import opened DenseMatrix

  /** The incident is a cell of `src` that belongs to part `p`. */
  ghost predicate Belongs<Cell>(src: Eigen<Cell>, f: (Cell, nat, nat) -> nat, p: nat, t: Triple<Cell>) {
    t.at in src.cells && t.value == src.cells[t.at] && f(t.value, t.at.0, t.at.1) == p
  }

  ghost predicate EachOnce<Cell>(ts: seq<Triple<Cell>>) {
    forall i, j :: 0 <= i < j < |ts| ==> ts[i].at != ts[j].at
  }

  /** `ts` holds exactly the cells of part `p`, each once. */
  ghost predicate SliceOf<Cell>(src: Eigen<Cell>, f: (Cell, nat, nat) -> nat, p: nat, ts: seq<Triple<Cell>>) {
    && (forall t :: t in ts ==> Belongs(src, f, p, t))
    && (forall q :: q in src.cells && f(src.cells[q], q.0, q.1) == p ==> Triple(q, src.cells[q]) in ts)
    && EachOnce(ts)
  }

  /** `piece` is part `p` of `src` under the given id. */
  ghost predicate PieceOf<Cell>(src: Eigen<Cell>, f: (Cell, nat, nat) -> nat, p: nat, id: int, piece: Piece<Cell>) {
    piece.id == id && IsPart(piece) && SliceOf(src, f, p, Triples(piece))
  }

  /** The same for the cells the iterator has passed at position `at`. */
  ghost predicate SliceUpTo<Cell>(src: Eigen<Cell>, f: (Cell, nat, nat) -> nat, p: nat, ts: seq<Triple<Cell>>,
      at: Pos) {
    && (forall t :: t in ts ==> Belongs(src, f, p, t) && Before(t.at, at))
    && (forall q :: q in src.cells && Before(q, at) && f(src.cells[q], q.0, q.1) == p ==> Triple(q, src.cells[q]) in ts)
    && EachOnce(ts)
  }

  /** One step of the iterator, seen by the part that gets the cell and by the others. */
  lemma {:induction false} SliceStep<Cell>(src: Eigen<Cell>, f: (Cell, nat, nat) -> nat, p: nat,
      ts: seq<Triple<Cell>>, at: Pos)
    requires WellFormed(src) && at in src.cells && SliceUpTo(src, f, p, ts, at)
    ensures var v := src.cells[at];
            var ts' := if f(v, at.0, at.1) == p then ts + [Triple(at, v)] else ts;
            SliceUpTo(src, f, p, ts', Next(at, src.rows, src.cols))
  {
    assert InRange(at, src.rows, src.cols);
    NextPasses(at, src.rows, src.cols);
    var next, t := Next(at, src.rows, src.cols), Triple(at, src.cells[at]);
    assert forall u :: u in ts ==> Before(u.at, next);
    if f(t.value, at.0, at.1) == p {
      assert t in ts + [t];
    }
  }

  lemma {:induction false} SliceDone<Cell>(src: Eigen<Cell>, f: (Cell, nat, nat) -> nat, p: nat, ts: seq<Triple<Cell>>)
    requires WellFormed(src) && SliceUpTo(src, f, p, ts, (src.rows, src.cols))
    ensures SliceOf(src, f, p, ts)
  {
    forall q | q in src.cells ensures Before(q, (src.rows, src.cols)) {
      assert InRange(q, src.rows, src.cols);
    }
  }

  /** A matrix with the id generated for its parts. */
  datatype Source<Cell> = Source(id: int, matrix: Eigen<Cell>)

  /** The `n` parts of one matrix, in order. */
  ghost predicate PiecesOf<Cell>(n: nat, f: (Cell, nat, nat) -> nat, src: Source<Cell>, pieces: seq<Piece<Cell>>) {
    |pieces| == n && forall p :: 0 <= p < n ==> PieceOf(src.matrix, f, p, src.id, pieces[p])
  }

  /** The output is the `n` parts of each matrix, in order. */
  ghost predicate SlicedAll<Cell>(n: nat, f: (Cell, nat, nat) -> nat, srcs: seq<Source<Cell>>, out: seq<Piece<Cell>>) {
    if srcs == [] then out == []
    else
      && n <= |out| && SlicedAll(n, f, srcs[..|srcs| - 1], out[..|out| - n])
      && PiecesOf(n, f, srcs[|srcs| - 1], out[|out| - n..])
  }

  lemma {:induction false} SlicedAllMore<Cell>(n: nat, f: (Cell, nat, nat) -> nat, srcs: seq<Source<Cell>>,
      out: seq<Piece<Cell>>, src: Source<Cell>, pieces: seq<Piece<Cell>>)
    requires SlicedAll(n, f, srcs, out) && PiecesOf(n, f, src, pieces)
    ensures SlicedAll(n, f, srcs + [src], out + pieces)
  {
    assert (srcs + [src])[..|srcs|] == srcs;
    assert (out + pieces)[..|out|] == out && (out + pieces)[|out|..] == pieces;
  }

  class MatrixSlice<Cell(0)> {
    const sliceFun: (Cell, nat, nat) -> nat
    const numParts: nat
    var out: seq<Piece<Cell>>
    ghost var sources: seq<Source<Cell>>

    ghost predicate Valid()
      reads this
    {
      SlicedAll(numParts, sliceFun, sources, out)
    }

    constructor (predicateFun: (Cell, nat, nat) -> nat, numParts: nat)
      ensures Valid() && sliceFun == predicateFun && this.numParts == numParts && out == [] && sources == []
    {
      sliceFun, this.numParts, out, sources := predicateFun, numParts, [], [];
    }

    /** Part `p` has got its cells among those the iterator has passed. */
    ghost predicate PartUpTo(src: Eigen<Cell>, p: nat, part: DenseMatrix<Cell>, at: Pos)
      reads part
    {
      IsPart(part.AsPiece()) && SliceUpTo(src, sliceFun, p, Triples(part.AsPiece()), at)
    }

    ghost predicate Separate(parts: seq<DenseMatrix<Cell>>) {
      |parts| == numParts && forall i, j :: 0 <= i < j < |parts| ==> parts[i] != parts[j]
    }

    method NewParts() returns (parts: seq<DenseMatrix<Cell>>)
      ensures Separate(parts)
      ensures forall p :: 0 <= p < numParts ==> fresh(parts[p])
      ensures forall p :: 0 <= p < numParts ==> parts[p].matrix == Eigen(0, 0, map[]) && parts[p].incidentIndexes == []
    {
      parts := [];
      while |parts| < numParts
        invariant |parts| <= numParts
        invariant forall p :: 0 <= p < |parts| ==> fresh(parts[p])
        invariant forall p :: 0 <= p < |parts| ==>
          parts[p].matrix == Eigen(0, 0, map[]) && parts[p].incidentIndexes == []
        invariant forall i, j :: 0 <= i < j < |parts| ==> parts[i] != parts[j]
      {
        var part := new DenseMatrix<Cell>();
        parts := parts + [part];
      }
    }

    /** The cell at the iterator goes to the part the function picks. */
    method Assign(src: Eigen<Cell>, parts: seq<DenseMatrix<Cell>>, i: nat, j: nat)
      requires WellFormed(src) && (i, j) in src.cells && sliceFun(src.cells[(i, j)], i, j) < numParts
      requires Separate(parts) && forall p :: 0 <= p < numParts ==> PartUpTo(src, p, parts[p], (i, j))
      modifies parts
      ensures forall p :: 0 <= p < numParts ==> PartUpTo(src, p, parts[p], Next((i, j), src.rows, src.cols))
    {
      var v := src.cells[(i, j)];
      var id := sliceFun(v, i, j);
      ghost var next := Next((i, j), src.rows, src.cols);
      assert PartUpTo(src, id, parts[id], (i, j));
      SliceStep(src, sliceFun, id, Triples(parts[id].AsPiece()), (i, j));
      parts[id].AddIncident(i, j, v);
      forall p | 0 <= p < numParts ensures PartUpTo(src, p, parts[p], next) {
        if p != id {
          assert old(PartUpTo(src, p, parts[p], (i, j)));
          SliceStep(src, sliceFun, p, Triples(parts[p].AsPiece()), (i, j));
        }
      }
    }

    /** Each cell goes to the part the function picks. */
    method Slice(src: Eigen<Cell>) returns (parts: seq<DenseMatrix<Cell>>)
      requires WellFormed(src) && (src.rows == 0 <==> src.cols == 0)
      requires forall q :: q in src.cells ==> sliceFun(src.cells[q], q.0, q.1) < numParts
      ensures Separate(parts) && forall p :: 0 <= p < numParts ==> fresh(parts[p]) && IsPart(parts[p].AsPiece())
      ensures forall p :: 0 <= p < numParts ==>
                IsPart(parts[p].AsPiece()) && SliceOf(src, sliceFun, p, Triples(parts[p].AsPiece()))
    {
      parts := NewParts();
      var it := new DenseIterator(0, 0, src.rows, src.cols);
      assert forall q :: q in src.cells ==> !Before(q, (0, 0));
      while it.row != src.rows || it.col != src.cols
        invariant it.rows == src.rows && it.cols == src.cols
        invariant (it.row, it.col) == (src.rows, src.cols) || InRange((it.row, it.col), src.rows, src.cols)
        invariant forall p :: 0 <= p < numParts ==> fresh(parts[p]) && PartUpTo(src, p, parts[p], (it.row, it.col))
        decreases src.cols - it.col, src.rows - it.row
      {
        NextPasses((it.row, it.col), src.rows, src.cols);
        Assign(src, parts, it.row, it.col);
        it.IncIters();
      }
      forall p | 0 <= p < numParts ensures SliceOf(src, sliceFun, p, Triples(parts[p].AsPiece())) {
        assert PartUpTo(src, p, parts[p], (it.row, it.col));
        SliceDone(src, sliceFun, p, Triples(parts[p].AsPiece()));
      }
    }

    /** All parts leave under one new id; `partID` is the id generated for them. */
    method ProcessDataElement(rec: Eigen<Cell>, partID: int)
      requires Valid() && WellFormed(rec) && (rec.rows == 0 <==> rec.cols == 0)
      requires forall q :: q in rec.cells ==> sliceFun(rec.cells[q], q.0, q.1) < numParts
      modifies this
      ensures Valid() && sources == old(sources) + [Source(partID, rec)]
      ensures old(out) <= out && PiecesOf(numParts, sliceFun, Source(partID, rec), out[|old(out)|..])
    {
      var parts := Slice(rec);
      var pieces := Label(rec, parts, partID);
      SlicedAllMore(numParts, sliceFun, sources, out, Source(partID, rec), pieces);
      assert (out + pieces)[|out|..] == pieces;
      out := out + pieces;
      sources := sources + [Source(partID, rec)];
    }

    /** The parts with their id, as they leave. */
    method Label(ghost rec: Eigen<Cell>, parts: seq<DenseMatrix<Cell>>, partID: int) returns (pieces: seq<Piece<Cell>>)
      requires Separate(parts)
      requires forall p :: 0 <= p < numParts ==>
                 IsPart(parts[p].AsPiece()) && SliceOf(rec, sliceFun, p, Triples(parts[p].AsPiece()))
      modifies parts
      ensures PiecesOf(numParts, sliceFun, Source(partID, rec), pieces)
    {
      pieces := [];
      var i := 0;
      while i < numParts
        invariant 0 <= i <= numParts && |pieces| == i
        invariant forall p :: i <= p < numParts ==>
                    IsPart(parts[p].AsPiece()) && SliceOf(rec, sliceFun, p, Triples(parts[p].AsPiece()))
        invariant forall p :: 0 <= p < i ==> PieceOf(rec, sliceFun, p, partID, pieces[p])
      {
        assert SliceOf(rec, sliceFun, i, Triples(parts[i].AsPiece()));
        assert Triples(parts[i].AsPiece()) == Triples(parts[i].AsPiece().(id := partID));
        parts[i].SetID(partID);
        pieces := pieces + [parts[i].AsPiece()];
        i := i + 1;
      }
    }
  }
}

/** Dense matrices that grow on write, their two-index iterator, and parts of matrices as lists of
    incidents. Only the column-major storage of dynamic matrices is modelled. */
module DenseMatrix {
  type Pos = (nat, nat)

  /** The Eigen matrix inside: its cells are those in range. */
  datatype Eigen<Cell> = Eigen(rows: nat, cols: nat, cells: map<Pos, Cell>)

  predicate InRange(p: Pos, rows: nat, cols: nat) { p.0 < rows && p.1 < cols }

  ghost predicate WellFormed<Cell>(m: Eigen<Cell>) {
    forall p: Pos :: p in m.cells <==> InRange(p, m.rows, m.cols)
  }

  function Max(a: nat, b: nat): nat { if a > b then a else b }

  /** conservativeResize: cells in the old and the new range stay, new cells get arbitrary values. */
  method ConservativeResize<Cell(0)>(m: Eigen<Cell>, newRows: nat, newCols: nat) returns (r: Eigen<Cell>)
    requires WellFormed(m)
    ensures WellFormed(r) && r.rows == newRows && r.cols == newCols
    ensures forall p :: p in m.cells && p in r.cells ==> r.cells[p] == m.cells[p]
  {
    var garbage: Cell := *;
    r := Eigen(newRows, newCols,
      map i: nat, j: nat | i < newRows && j < newCols ::
        (i, j) := if (i, j) in m.cells then m.cells[(i, j)] else garbage);
  }

  /** `after` is `before` with `value` at `p`, grown as far as needed. */
  ghost predicate IsSet<Cell>(before: Eigen<Cell>, p: Pos, value: Cell, after: Eigen<Cell>) {
    && WellFormed(after)
    && after.rows == Max(before.rows, p.0 + 1) && after.cols == Max(before.cols, p.1 + 1)
    && p in after.cells && after.cells[p] == value
    && forall o :: o in before.cells && o != p ==> o in after.cells && after.cells[o] == before.cells[o]
  }

  /** A matrix value as it travels in the stream. */
  datatype Piece<Cell> = Piece(id: int, matrix: Eigen<Cell>, incidentIndexes: seq<Pos>)

  datatype Triple<Cell> = Triple(at: Pos, value: Cell)

  /** Every incident has a value in the last column; a matrix without incidents is readable, too. */
  ghost predicate Readable<Cell>(p: Piece<Cell>) {
    && WellFormed(p.matrix)
    && (|p.incidentIndexes| > 0 ==> |p.incidentIndexes| <= p.matrix.rows && p.matrix.cols > 0)
  }

  /** One column that holds the values of the incidents. */
  ghost predicate IsPart<Cell>(p: Piece<Cell>) {
    && WellFormed(p.matrix) && p.matrix.rows == |p.incidentIndexes|
    && p.matrix.cols == if p.matrix.rows == 0 then 0 else 1
  }

  /** The incidents: each with its place in the sliced matrix and its value. */
  ghost function Triples<Cell>(p: Piece<Cell>): (ts: seq<Triple<Cell>>)
    requires Readable(p)
    ensures |ts| == |p.incidentIndexes|
  {
    seq(|p.incidentIndexes|, k requires 0 <= k < |p.incidentIndexes| =>
      Triple(p.incidentIndexes[k], p.matrix.cells[(k, p.matrix.cols - 1)]))
  }

  class DenseMatrix<Cell(0)> {
    var matrix: Eigen<Cell>
    var id: int
    var incidentIndexes: seq<Pos>

    constructor ()
      ensures matrix == Eigen(0, 0, map[]) && incidentIndexes == []
    {
      matrix, id, incidentIndexes := Eigen(0, 0, map[]), *, [];
    }

    function AsPiece(): Piece<Cell>
      reads this
    {
      Piece(id, matrix, incidentIndexes)
    }

    method SetID(identifier: int)
      modifies this`id
      ensures id == identifier
    {
      id := identifier;
    }

    /** Writing outside the matrix makes it just large enough. */
    method Set(x: nat, y: nat, value: Cell)
      requires WellFormed(matrix)
      modifies this`matrix
      ensures IsSet(old(matrix), (x, y), value, matrix)
    {
      var resizeRow, resizeCol := x, y;
      if resizeRow >= matrix.rows || resizeCol >= matrix.cols {
        if resizeRow >= matrix.rows { resizeRow := resizeRow + 1; } else { resizeRow := matrix.rows; }
        if resizeCol >= matrix.cols { resizeCol := resizeCol + 1; } else { resizeCol := matrix.cols; }
        matrix := ConservativeResize(matrix, resizeRow, resizeCol);
      }
      matrix := matrix.(cells := matrix.cells[(x, y) := value]);
    }

    /** Below the last column. */
    method Add2End(value: Cell)
      requires WellFormed(matrix)
      modifies this`matrix
      ensures IsSet(old(matrix), (old(matrix.rows), if old(matrix.cols) == 0 then 0 else old(matrix.cols) - 1), value,
          matrix)
    {
      var i := matrix.rows;
      var j := if matrix.cols == 0 then 0 else matrix.cols - 1;
      Set(i, j, value);
    }

    method AddIncident(i: nat, j: nat, value: Cell)
      requires IsPart(AsPiece())
      modifies this`matrix, this`incidentIndexes
      ensures IsPart(AsPiece()) && Triples(AsPiece()) == old(Triples(AsPiece())) + [Triple((i, j), value)]
    {
      Add2End(value);
      incidentIndexes := incidentIndexes + [(i, j)];
      assert Triples(AsPiece()) == old(Triples(AsPiece())) + [Triple((i, j), value)];
    }
  }

  /** getIncident: the value is in the last column. */
  method GetIncident<Cell>(p: Piece<Cell>, index: nat) returns (t: Triple<Cell>)
    requires Readable(p) && index < |p.incidentIndexes|
    ensures t == Triples(p)[index]
  {
    var i := index;
    var j := if p.matrix.cols == 0 then 0 else p.matrix.cols - 1;
    t := Triple(p.incidentIndexes[i], p.matrix.cells[(i, j)]);
  }

  /* ---- the iterator ---- */

  /** incIters: down the column, then on to the next one; past the last column the row is not reset. */
  function Next(p: Pos, rows: nat, cols: nat): Pos {
    if p.0 + 1 >= rows then if p.1 + 1 < cols then (0, p.1 + 1) else (p.0 + 1, p.1 + 1)
    else (p.0 + 1, p.1)
  }

  class DenseIterator {
    var row: nat
    var col: nat
    const rows: nat
    const cols: nat

    constructor (i: nat, j: nat, rows: nat, cols: nat)
      ensures row == i && col == j && this.rows == rows && this.cols == cols
    {
      row, col, this.rows, this.cols := i, j, rows, cols;
    }

    method IncIters()
      modifies this
      ensures (row, col) == Next((old(row), old(col)), rows, cols)
    {
      row := row + 1;
      if row >= rows {
        col := col + 1;
        if col < cols { row := 0; }
      }
    }
  }

  /** `q` comes before `p` in column-major order. */
  predicate Before(q: Pos, p: Pos) {
    q.1 < p.1 || (q.1 == p.1 && q.0 < p.0)
  }

  /** A step of the iterator passes exactly its own cell, and ends at (rows, cols). */
  lemma {:induction false} NextPasses(p: Pos, rows: nat, cols: nat)
    requires InRange(p, rows, cols)
    ensures InRange(Next(p, rows, cols), rows, cols) || Next(p, rows, cols) == (rows, cols)
    ensures forall q: Pos :: InRange(q, rows, cols) ==> (Before(q, Next(p, rows, cols)) <==> Before(q, p) || q == p)
  {}

  /** The n-th position of an iteration from (0, 0). */
  function Walk(n: nat, rows: nat, cols: nat): Pos {
    if n == 0 then (0, 0) else Next(Walk(n - 1, rows, cols), rows, cols)
  }

  /** The iteration reaches its end after `n` steps, with every position before it in range. */
  ghost predicate Ends(n: nat, rows: nat, cols: nat) {
    && Walk(n, rows, cols) == (rows, cols)
    && forall k: nat :: k < n ==> InRange(Walk(k, rows, cols), rows, cols)
  }

  lemma {:induction false} WalkEnds(n: nat, rows: nat, cols: nat) returns (m: nat)
    requires InRange(Walk(n, rows, cols), rows, cols)
    requires forall k: nat :: k < n ==> InRange(Walk(k, rows, cols), rows, cols)
    ensures Ends(m, rows, cols)
    decreases cols - Walk(n, rows, cols).1, rows - Walk(n, rows, cols).0
  {
    NextPasses(Walk(n, rows, cols), rows, cols);
    if Walk(n + 1, rows, cols) == (rows, cols) {
      m := n + 1;
    } else {
      m := WalkEnds(n + 1, rows, cols);
    }
  }

  /** The iteration is well defined exactly when the matrix is empty in both directions or in none. */
  lemma {:induction false} IterationExact(rows: nat, cols: nat)
    ensures (exists n: nat :: Ends(n, rows, cols)) <==> (rows == 0 <==> cols == 0)
  {
    if rows == 0 && cols == 0 {
      assert Ends(0, rows, cols);
    } else if rows > 0 && cols > 0 {
      var n := WalkEnds(0, rows, cols);
    } else {
      forall n: nat ensures !Ends(n, rows, cols) {
        assert Walk(0, rows, cols) == (0, 0) && !InRange((0, 0), rows, cols);
      }
    }
  }
}

/**
 * `Matrix<ROW, COLUMN>`: a fixed-size grid of numbers stored in a 2-D
 * array and changed in place by `set` and `insert`. The methods are
 * specified against `Grid` values, the rows of cells, on which
 * transposition, the trace and the determinants are defined and their
 * properties proved.
 */
module Matrices {
  import opened Errors

  datatype MatPos = MatPos(row: nat, col: nat)

  /** The cells of a matrix, row by row. */
  type Grid = seq<seq<real>>

  predicate IsGrid(g: Grid, rows: nat, cols: nat)
  {
    |g| == rows && forall r :: 0 <= r < rows ==> |g[r]| == cols
  }

  /** `new`: every cell zero. */
  function ZeroGrid(rows: nat, cols: nat): (g: Grid)
    ensures IsGrid(g, rows, cols)
    ensures forall r, c :: 0 <= r < rows && 0 <= c < cols ==> g[r][c] == 0.0
  {
    seq(rows, r => seq(cols, c => 0.0))
  }

  /** `identity`: one on the diagonal and zero elsewhere. */
  function IdentityGrid(size: nat): (g: Grid)
    ensures IsGrid(g, size, size)
    ensures forall r, c :: 0 <= r < size && 0 <= c < size ==> g[r][c] == if r == c then 1.0 else 0.0
  {
    seq(size, r => seq(size, c => if r == c then 1.0 else 0.0))
  }

  /** Row `c` of the transpose is column `c` of `g`. */
  function Transpose(g: Grid, rows: nat, cols: nat): (t: Grid)
    requires IsGrid(g, rows, cols)
    ensures IsGrid(t, cols, rows)
    ensures forall c, r :: 0 <= c < cols && 0 <= r < rows ==> t[c][r] == g[r][c]
  {
    seq(cols, c requires 0 <= c < cols => seq(rows, r requires 0 <= r < rows => g[r][c]))
  }

  /** Two grids of the same shape with the same cells are the same grid. */
  lemma GridsEqual(g: Grid, h: Grid, rows: nat, cols: nat)
    requires IsGrid(g, rows, cols) && IsGrid(h, rows, cols)
    requires forall r, c :: 0 <= r < rows && 0 <= c < cols ==> g[r][c] == h[r][c]
    ensures g == h
  {
    forall r | 0 <= r < rows
      ensures g[r] == h[r]
    {
    }
  }

  /** Transposing twice gives the matrix back. */
  lemma TransposeTwice(g: Grid, rows: nat, cols: nat)
    requires IsGrid(g, rows, cols)
    ensures Transpose(Transpose(g, rows, cols), cols, rows) == g
  {
    GridsEqual(Transpose(Transpose(g, rows, cols), cols, rows), g, rows, cols);
  }

  /** The identity is its own transpose. */
  lemma TransposeIdentity(size: nat)
    ensures Transpose(IdentityGrid(size), size, size) == IdentityGrid(size)
  {
    GridsEqual(Transpose(IdentityGrid(size), size, size), IdentityGrid(size), size, size);
  }

  /** `pos` plus the size of the inserted block stays inside the matrix. */
  predicate Fits(rows: nat, cols: nat, pos: MatPos, otherRows: nat, otherCols: nat)
  {
    pos.row + otherRows <= rows && pos.col + otherCols <= cols
  }

  /** The cells `insert` writes: the block of `other` with its corner at `pos`. */
  predicate InBlock(pos: MatPos, otherRows: nat, otherCols: nat, r: nat, c: nat)
  {
    pos.row <= r < pos.row + otherRows && pos.col <= c < pos.col + otherCols
  }

  /** The sum of the first `n` cells of the diagonal. */
  function DiagonalSum(g: Grid, n: nat): real
    requires n <= |g| && forall r :: 0 <= r < |g| ==> n <= |g[r]|
  {
    if n == 0 then 0.0 else DiagonalSum(g, n - 1) + g[n - 1][n - 1]
  }

  /** The trace of a transpose is the trace. */
  lemma {:induction false} DiagonalSumTranspose(g: Grid, size: nat, n: nat)
    requires IsGrid(g, size, size) && n <= size
    ensures DiagonalSum(Transpose(g, size, size), n) == DiagonalSum(g, n)
  {
    if n > 0 {
      DiagonalSumTranspose(g, size, n - 1);
    }
  }

  /** The trace of the identity is its size. */
  lemma {:induction false} DiagonalSumIdentity(size: nat, n: nat)
    requires n <= size
    ensures DiagonalSum(IdentityGrid(size), n) == n as real
  {
    if n > 0 {
      DiagonalSumIdentity(size, n - 1);
    }
  }

  /** `ad - bc` of a 2x2 grid. */
  function Det2(g: Grid): (d: real)
    requires IsGrid(g, 2, 2)
    ensures g[0] == g[1] ==> d == 0.0
    ensures g[1][0] == 0.0 ==> d == g[0][0] * g[1][1]
  {
    g[0][0] * g[1][1] - g[1][0] * g[0][1]
  }

  /** Which column of the 3x3 matrix lands in column `subCol` of the minor without column `i`. */
  function SourceCol(subCol: nat, i: nat): nat
  {
    if subCol < i then subCol else subCol + 1
  }

  /** The 2x2 minor of a 3x3 grid without row 0 and column `i`. */
  function Minor(g: Grid, i: nat): (m: Grid)
    requires IsGrid(g, 3, 3) && i < 3
    ensures IsGrid(m, 2, 2)
    ensures forall r, c :: 0 <= r < 2 && 0 <= c < 2 ==> m[r][c] == g[r + 1][SourceCol(c, i)]
  {
    seq(2, r requires 0 <= r < 2 => seq(2, c requires 0 <= c < 2 => g[r + 1][SourceCol(c, i)]))
  }

  /** Cell `i` of row 0 times the determinant of its minor (the unsigned cofactor term). */
  function Cofactor(g: Grid, i: nat): real
    requires IsGrid(g, 3, 3) && i < 3
  {
    g[0][i] * Det2(Minor(g, i))
  }

  /** The first `n` terms of the cofactor expansion along row 0, signs alternating. */
  function Cofactors(g: Grid, n: nat): real
    requires IsGrid(g, 3, 3) && n <= 3
  {
    if n == 0 then 0.0
    else if (n - 1) % 2 == 0 then Cofactors(g, n - 1) + Cofactor(g, n - 1)
    else Cofactors(g, n - 1) - Cofactor(g, n - 1)
  }

  /** The 3x3 determinant by cofactor expansion along row 0. */
  function Det3(g: Grid): (d: real)
    requires IsGrid(g, 3, 3)
    ensures d ==
      g[0][0] * g[1][1] * g[2][2] + g[0][1] * g[1][2] * g[2][0] + g[0][2] * g[1][0] * g[2][1] -
      g[0][2] * g[1][1] * g[2][0] - g[0][0] * g[1][2] * g[2][1] - g[0][1] * g[1][0] * g[2][2]
    ensures g[1][0] == 0.0 && g[2][0] == 0.0 && g[2][1] == 0.0 ==> d == g[0][0] * g[1][1] * g[2][2]
  {
    CofactorsSarrus(g);
    Cofactors(g, 3)
  }

  /** The cofactor expansion along row 0 is the rule of Sarrus. */
  lemma CofactorsSarrus(g: Grid)
    requires IsGrid(g, 3, 3)
    ensures Cofactors(g, 3) ==
      g[0][0] * g[1][1] * g[2][2] + g[0][1] * g[1][2] * g[2][0] + g[0][2] * g[1][0] * g[2][1] -
      g[0][2] * g[1][1] * g[2][0] - g[0][0] * g[1][2] * g[2][1] - g[0][1] * g[1][0] * g[2][2]
  {
    var m0, m1, m2 := Minor(g, 0), Minor(g, 1), Minor(g, 2);
    assert Det2(m0) == g[1][1] * g[2][2] - g[2][1] * g[1][2];
    assert Det2(m1) == g[1][0] * g[2][2] - g[2][0] * g[1][2];
    assert Det2(m2) == g[1][0] * g[2][1] - g[2][0] * g[1][1];
    assert Cofactors(g, 1) == Cofactor(g, 0);
    assert Cofactors(g, 2) == Cofactors(g, 1) - Cofactor(g, 1);
    assert Cofactors(g, 3) == Cofactors(g, 2) + Cofactor(g, 2);
  }

  /** A matrix and its transpose have the same determinant. */
  lemma Det3Transpose(g: Grid)
    requires IsGrid(g, 3, 3)
    ensures Det3(Transpose(g, 3, 3)) == Det3(g)
  {
  }

  /** The identity has determinant one, in both sizes. */
  lemma DetIdentity()
    ensures Det2(IdentityGrid(2)) == 1.0
    ensures Det3(IdentityGrid(3)) == 1.0
  {
  }

  class Matrix {
    const rows: nat
    const cols: nat
    const matrix: array2<real>

    ghost predicate Valid()
      reads this
    {
      matrix.Length0 == rows && matrix.Length1 == cols
    }

    /** The cells, row by row. */
    ghost function Cells(): (g: Grid)
      reads this, matrix
      requires Valid()
      ensures IsGrid(g, rows, cols)
      ensures forall r, c :: 0 <= r < rows && 0 <= c < cols ==> g[r][c] == matrix[r, c]
    {
      seq(rows, r requires 0 <= r < rows reads matrix =>
        seq(cols, c requires 0 <= c < cols reads matrix => matrix[r, c]))
    }

    /** `new`: a `rows` by `cols` matrix of zeros. */
    constructor (rows: nat, cols: nat)
      ensures Valid() && this.rows == rows && this.cols == cols && fresh(matrix)
      ensures Cells() == ZeroGrid(rows, cols)
    {
      this.rows := rows;
      this.cols := cols;
      matrix := new real[rows, cols]((r, c) => 0.0);
      new;
      GridsEqual(Cells(), ZeroGrid(rows, cols), rows, cols);
    }

    /** `identity`: zeros, then a one written at each cell of the diagonal. */
    constructor Identity(size: nat)
      ensures Valid() && rows == size && cols == size
      ensures Cells() == IdentityGrid(size)
    {
      rows := size;
      cols := size;
      matrix := new real[size, size]((r, c) => 0.0);
      new;
      for i := 0 to size
        invariant forall r, c :: 0 <= r < size && 0 <= c < size ==>
          matrix[r, c] == if r == c && r < i then 1.0 else 0.0
      {
        Set(MatPos(i, i), 1.0);
      }
      GridsEqual(Cells(), IdentityGrid(size), size, size);
    }

    /** `from_decimal`: the 1x1 matrix holding `val`. */
    constructor FromDecimal(val: real)
      ensures Valid() && rows == 1 && cols == 1
      ensures Cells() == [[val]]
    {
      rows := 1;
      cols := 1;
      matrix := new real[1, 1]((r, c) => 0.0);
      new;
      Set(MatPos(0, 0), val);
      GridsEqual(Cells(), [[val]], 1, 1);
    }

    /** `get`: the cell at `pos`, which must be inside the matrix. */
    function Get(pos: MatPos): (v: real)
      reads this, matrix
      requires Valid() && pos.row < rows && pos.col < cols
      ensures v == Cells()[pos.row][pos.col]
    {
      matrix[pos.row, pos.col]
    }

    /** `set`: the cell at `pos` becomes `value`; no other cell changes. */
    method Set(pos: MatPos, value: real)
      requires Valid() && pos.row < rows && pos.col < cols
      modifies matrix
      ensures Valid()
      ensures forall r, c :: 0 <= r < rows && 0 <= c < cols ==>
        matrix[r, c] == if r == pos.row && c == pos.col then value else old(matrix[r, c])
    {
      matrix[pos.row, pos.col] := value;
    }

    /** `to_decimal` and the 1x1 `determinate`: the single cell. */
    function ToDecimal(): (v: real)
      reads this, matrix
      requires Valid() && rows == 1 && cols == 1
      ensures v == Cells()[0][0]
    {
      Get(MatPos(0, 0))
    }

    /** `transposed`: a new `cols` by `rows` matrix with the rows and columns swapped. */
    method Transposed() returns (trans: Matrix)
      requires Valid()
      ensures fresh(trans) && fresh(trans.matrix) && trans.Valid()
      ensures trans.rows == cols && trans.cols == rows
      ensures trans.Cells() == Transpose(Cells(), rows, cols)
    {
      trans := new Matrix(cols, rows);
      for x := 0 to cols
        invariant trans.Valid() && fresh(trans.matrix)
        invariant forall c, r :: 0 <= c < cols && 0 <= r < rows ==>
          trans.matrix[c, r] == if c < x then matrix[r, c] else 0.0
      {
        for y := 0 to rows
          invariant trans.Valid() && fresh(trans.matrix)
          invariant forall c, r :: 0 <= c < cols && 0 <= r < rows ==>
            trans.matrix[c, r] == if c < x || (c == x && r < y) then matrix[r, c] else 0.0
        {
          trans.Set(MatPos(x, y), Get(MatPos(y, x)));
        }
      }
      GridsEqual(trans.Cells(), Transpose(Cells(), rows, cols), cols, rows);
    }

    /**
     * `insert`: copy `other` into this matrix with its corner at `pos`.
     * `InvalidSize`, changing nothing, when it does not fit; otherwise the
     * block is written and every other cell is left as it was.
     */
    method Insert(pos: MatPos, other: Matrix) returns (r: Result<()>)
      requires Valid() && other.Valid() && other.matrix != matrix
      modifies matrix
      ensures Valid()
      ensures r.Err? <==> !Fits(rows, cols, pos, other.rows, other.cols)
      ensures r.Err? ==> r.error == InvalidSize && Cells() == old(Cells())
      ensures r.Ok? ==> forall row, col :: 0 <= row < rows && 0 <= col < cols ==>
        matrix[row, col] == if InBlock(pos, other.rows, other.cols, row, col)
                            then other.matrix[row - pos.row, col - pos.col]
                            else old(matrix[row, col])
    {
      if rows < pos.row + other.rows || cols < pos.col + other.cols {
        return Err(InvalidSize);
      }
      for x := 0 to other.cols
        invariant forall row, col :: 0 <= row < rows && 0 <= col < cols ==>
          matrix[row, col] == if InBlock(pos, other.rows, x, row, col)
                              then other.matrix[row - pos.row, col - pos.col]
                              else old(matrix[row, col])
      {
        for y := 0 to other.rows
          invariant forall row, col :: 0 <= row < rows && 0 <= col < cols ==>
            matrix[row, col] == if InBlock(pos, other.rows, x, row, col) ||
                                   (col == pos.col + x && pos.row <= row < pos.row + y)
                                then other.matrix[row - pos.row, col - pos.col]
                                else old(matrix[row, col])
        {
          Set(MatPos(pos.row + y, pos.col + x), other.Get(MatPos(y, x)));
        }
      }
      return Ok(());
    }

    /** `trace`: the sum of the diagonal of a square matrix. */
    method Trace() returns (sum: real)
      requires Valid() && rows == cols
      ensures sum == DiagonalSum(Cells(), cols)
    {
      sum := 0.0;
      for i := 0 to cols
        invariant sum == DiagonalSum(Cells(), i)
      {
        sum := sum + Get(MatPos(i, i));
      }
    }

    /** The 2x2 `determinate`: `ad - bc`. */
    function Determinate2(): (d: real)
      reads this, matrix
      requires Valid() && rows == 2 && cols == 2
      ensures d == Det2(Cells())
    {
      var a, b, c, e := Get(MatPos(0, 0)), Get(MatPos(1, 1)), Get(MatPos(1, 0)), Get(MatPos(0, 1));
      assert Det2(Cells()) == a * b - c * e;
      a * b - c * e
    }

    /**
     * The 3x3 `determinate`: for each column of row 0, build the 2x2
     * minor without that column and add or subtract the cell times the
     * minor's determinant.
     */
    method Determinate3() returns (det: real)
      requires Valid() && rows == 3 && cols == 3
      ensures det == Det3(Cells())
    {
      det := 0.0;
      for i := 0 to 3
        invariant det == Cofactors(Cells(), i)
      {
        var term := CofactorTerm(i);
        if i % 2 == 0 {
          det := det + term;
        } else {
          det := det - term;
        }
      }
    }

    /** One term of the 3x3 `determinate`: the cell of row 0 times the determinant of its minor. */
    method CofactorTerm(i: nat) returns (term: real)
      requires Valid() && rows == 3 && cols == 3 && i < 3
      ensures term == Cofactor(Cells(), i)
    {
      var multiplier := Get(MatPos(0, i));
      var subMat := BuildMinor(i);
      var d := subMat.Determinate2();
      term := multiplier * d;
    }

    /** The inner loop of the 3x3 `determinate`: the minor without row 0 and column `i`. */
    method BuildMinor(i: nat) returns (subMat: Matrix)
      requires Valid() && rows == 3 && cols == 3 && i < 3
      ensures fresh(subMat) && subMat.Valid() && subMat.rows == 2 && subMat.cols == 2
      ensures subMat.Cells() == Minor(Cells(), i)
    {
      subMat := new Matrix(2, 2);
      for col := 0 to 3
        invariant subMat.Valid() && fresh(subMat.matrix)
        invariant forall r, c :: 0 <= r < 2 && 0 <= c < 2 ==>
          subMat.matrix[r, c] == if SourceCol(c, i) < col then matrix[r + 1, SourceCol(c, i)] else 0.0
      {
        var subCol := if col <= i then col else col - 1;
        if col != i {
          subMat.Set(MatPos(0, subCol), Get(MatPos(1, col)));
          subMat.Set(MatPos(1, subCol), Get(MatPos(2, col)));
        }
      }
      GridsEqual(subMat.Cells(), Minor(Cells(), i), 2, 2);
    }
  }

  /** The documented 3x3 example has determinant 1326. */
  lemma Det3Example()
    ensures Det3([[5.0, 4.0, 3.0], [8.0, 9.0, 10.0], [100.0, 2.0, 6.0]]) == 1326.0
  {
  }
}

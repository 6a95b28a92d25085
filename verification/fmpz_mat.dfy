/**
 * FLINT's dense integer matrix (fmpz_mat_t), as far as this module uses
 * it: an owning r×c matrix, non-owning windows that alias a rectangle of
 * another matrix's storage, and fmpz_mat_one. Entries are unbounded
 * integers (an fmpz holds any integer).
 */
module FmpzMatrix {

  /** Rows r1..r2-1, columns c1..c2-1 of a row-major matrix. */
  function SubMatrix(m: seq<seq<int>>, r1: nat, c1: nat, r2: nat, c2: nat): (w: seq<seq<int>>)
    requires r1 <= r2 <= |m| && c1 <= c2
    requires forall i :: 0 <= i < |m| ==> c2 <= |m[i]|
    ensures |w| == r2 - r1 && forall i :: 0 <= i < r2 - r1 ==> |w[i]| == c2 - c1
  {
    seq(r2 - r1, i requires 0 <= i < r2 - r1 => m[r1 + i][c1..c2])
  }

  /** The n×n identity matrix. */
  function Identity(n: nat): seq<seq<int>>
  {
    seq(n, i => seq(n, j => if i == j then 1 else 0))
  }

  class FmpzMat {
    var data: array2<int>   // the entry storage; a window shares its parent's
    var r0: nat             // first row of this matrix inside data
    var c0: nat             // first column of this matrix inside data
    var r: nat              // number of rows
    var c: nat              // number of columns
    var owner: bool         // false for a window, which must not free data

    ghost predicate Valid()
      reads this
    {
      r0 + r <= data.Length0 && c0 + c <= data.Length1 &&
      (owner ==> r0 == 0 && c0 == 0 && r == data.Length0 && c == data.Length1)
    }

    /** fmpz_mat_entry(this, i, j). */
    function Entry(i: nat, j: nat): int
      reads this, data
      requires Valid() && i < r && j < c
    {
      data[r0 + i, c0 + j]
    }

    /** The matrix's entries, row by row. */
    ghost function Rows(): (m: seq<seq<int>>)
      reads this, data
      requires Valid()
      ensures |m| == r
      ensures forall i :: 0 <= i < r ==> |m[i]| == c
    {
      var a, i0, j0, rows, cols := data, r0, c0, r, c;
      seq(rows, i requires 0 <= i < rows reads a =>
        seq(cols, j requires 0 <= j < cols reads a => a[i0 + i, j0 + j]))
    }

    /** fmpz_mat_init: an owning rows×cols matrix of zeros. */
    constructor Init(rows: nat, cols: nat)
      ensures Valid() && owner && fresh(data)
      ensures r == rows && c == cols
      ensures forall i, j :: 0 <= i < rows && 0 <= j < cols ==> Entry(i, j) == 0
    {
      data := new int[rows, cols]((i, j) => 0);
      r0, c0, r, c := 0, 0, rows, cols;
      owner := true;
    }

    /**
     * fmpz_mat_window_init(this, parent, r1, c1, r2, c2): rows r1..r2-1 and
     * columns c1..c2-1 of parent, aliasing its storage without copying.
     */
    constructor Window(parent: FmpzMat, r1: nat, c1: nat, r2: nat, c2: nat)
      requires parent.Valid()
      requires r1 <= r2 <= parent.r && c1 <= c2 <= parent.c
      ensures Valid() && !owner && data == parent.data
      ensures r == r2 - r1 && c == c2 - c1
      ensures Rows() == SubMatrix(parent.Rows(), r1, c1, r2, c2)
    {
      data := parent.data;
      r0, c0 := parent.r0 + r1, parent.c0 + c1;
      r, c := r2 - r1, c2 - c1;
      owner := false;
      new;
      var m, w := parent.Rows(), Rows();
      forall i | 0 <= i < r
        ensures w[i] == m[r1 + i][c1..c2]
      {
      }
    }

    /** fmpz_mat_one: ones on the diagonal, zeros elsewhere, inside this matrix only. */
    method One()
      requires Valid()
      modifies data
      ensures Valid()
      ensures forall i, j :: 0 <= i < r && 0 <= j < c ==> Entry(i, j) == if i == j then 1 else 0
      ensures forall i, j ::
        (0 <= i < data.Length0 && 0 <= j < data.Length1 && !(r0 <= i < r0 + r && c0 <= j < c0 + c))
        ==> data[i, j] == old(data[i, j])
      ensures r == c ==> Rows() == Identity(r)
    {
      var a, rows, cols := data, r, c;
      var i := 0;
      while i < rows
        invariant 0 <= i <= rows
        invariant forall x, y :: r0 <= x < r0 + i && c0 <= y < c0 + cols ==>
          a[x, y] == if x - r0 == y - c0 then 1 else 0
        invariant forall x, y ::
          (0 <= x < a.Length0 && 0 <= y < a.Length1 && !(r0 <= x < r0 + i && c0 <= y < c0 + cols))
          ==> a[x, y] == old(a[x, y])
      {
        var j := 0;
        while j < cols
          invariant 0 <= j <= cols
          invariant forall x, y ::
            ((r0 <= x < r0 + i && c0 <= y < c0 + cols) || (x == r0 + i && c0 <= y < c0 + j))
            ==> a[x, y] == if x - r0 == y - c0 then 1 else 0
          invariant forall x, y ::
            (0 <= x < a.Length0 && 0 <= y < a.Length1 &&
             !(r0 <= x < r0 + i && c0 <= y < c0 + cols) && !(x == r0 + i && c0 <= y < c0 + j))
            ==> a[x, y] == old(a[x, y])
        {
          a[r0 + i, c0 + j] := if i == j then 1 else 0;
          j := j + 1;
        }
        i := i + 1;
      }
      if r == c {
        var m, id := Rows(), Identity(r);
        forall a | 0 <= a < r
          ensures m[a] == id[a]
        {
        }
      }
    }
  }
}

/**
 * LLLReducedGramMatFLINT: convert a GAP Gram matrix to FLINT, reduce it
 * together with an identity transformation matrix, strip the leading
 * zero rows (and the matching columns) of the result and the matching
 * rows of the transformation, and hand both back to GAP.
 *
 * FLINT's fmpz_lll and its zero-row stripping window are not part of
 * this model; they are stand-ins that keep only what their interfaces
 * promise about shapes.
 */
module LllGram {
  import opened GapInt
  import opened FmpzMatrix
  import opened Marshal

  /** The result record: fields remainder and transformation. */
  datatype ReducedGram = ReducedGram(remainder: seq<seq<HostInt>>, transformation: seq<seq<HostInt>>)

  /**
   * fmpz_lll(mat, trans, fl) in Gram mode: reduces both matrices in place.
   * Stand-in: its effect on the entries is not modelled; callers may rely
   * only on the shapes staying as they were.
   */
  method Lll(mat: FmpzMat, trans: FmpzMat)
    requires mat.Valid() && trans.Valid()
    modifies mat.data, trans.data
    ensures mat.Valid() && trans.Valid()
  {
  }

  /**
   * _fmpz_mat_read_only_window_init_strip_initial_zero_rows_and_corresponding_cols:
   * a read-only window over the last k rows and the last k columns of the
   * square matrix mat, for some k with 0 <= k <= mat.r. Stand-in: k is
   * left unconstrained beyond that bound.
   */
  method StripInitialZeroRows(mat: FmpzMat) returns (w: FmpzMat)
    requires mat.Valid() && mat.r == mat.c
    ensures fresh(w) && w.Valid() && !w.owner && w.data == mat.data
    ensures w.r <= mat.r && w.c == w.r
    ensures w.Rows() == SubMatrix(mat.Rows(), mat.r - w.r, mat.r - w.r, mat.r, mat.r)
  {
    var k :| 0 <= k <= mat.r;
    w := new FmpzMat.Window(mat, mat.r - k, mat.r - k, mat.r, mat.c);
  }

  /**
   * res is what LLLReducedGramMatFLINT returns for the reduced n×n Gram
   * matrix gram and transformation trans: for the number k of rows that
   * survive, the trailing k×k block of gram and the trailing k rows (all
   * n columns) of trans, converted entry by entry to GAP integers.
   */
  ghost predicate StrippedResult(res: ReducedGram, n: nat, gram: seq<seq<int>>, trans: seq<seq<int>>)
  {
    var k := |res.remainder|;
    && k <= n && |res.transformation| == k
    && (forall i :: 0 <= i < k ==> |res.remainder[i]| == k && |res.transformation[i]| == n)
    && |gram| == n && |trans| == n
    && (forall i :: 0 <= i < n ==> |gram[i]| == n && |trans[i]| == n)
    && res.remainder == NativeToHost(SubMatrix(gram, n - k, n - k, n, n))
    && res.transformation == NativeToHost(SubMatrix(trans, n - k, 0, n, n))
  }

  /**
   * Lines 175 and 178 of the wrapper: strip the leading zero rows and
   * matching columns of the reduced n×n Gram matrix and convert what is
   * left, the trailing k×k block, to GAP. mat is only read.
   */
  method StripRemainder(mat: FmpzMat) returns (remainder: seq<seq<HostInt>>)
    requires mat.Valid() && mat.c == mat.r
    ensures |remainder| <= mat.r
    ensures forall i :: 0 <= i < |remainder| ==> |remainder[i]| == |remainder|
    ensures var n, k := mat.r, |remainder|;
      remainder == NativeToHost(SubMatrix(mat.Rows(), n - k, n - k, n, n))
  {
    var wRem := StripInitialZeroRows(mat);
    remainder := MatFlint2Gap(wRem);
  }

  /**
   * Lines 176 and 179 of the wrapper: the window over rows n-k..n-1 and
   * all n columns of the n×n transformation, converted to GAP. trans is
   * only read.
   */
  method TrailingRows(trans: FmpzMat, k: nat) returns (transformation: seq<seq<HostInt>>)
    requires trans.Valid() && trans.c == trans.r && k <= trans.r
    ensures |transformation| == k
    ensures forall i :: 0 <= i < k ==> |transformation[i]| == trans.r
    ensures var n := trans.r;
      transformation == NativeToHost(SubMatrix(trans.Rows(), n - k, 0, n, n))
  {
    var n := trans.r;
    var wTrans := new FmpzMat.Window(trans, n - k, 0, n, n);
    transformation := MatFlint2Gap(wTrans);
  }

  /**
   * LLLReducedGramMatFLINT for an n×n Gram matrix: convert it, set up an
   * n×n identity transformation, reduce both, then strip and convert.
   * The ghost results name the two native matrices handed to fmpz_lll
   * and the two it leaves behind.
   */
  method LLLReducedGramMat(gram: seq<seq<HostInt>>)
    returns (res: ReducedGram, ghost initialGram: seq<seq<int>>, ghost initialTrans: seq<seq<int>>,
             ghost reduced: seq<seq<int>>, ghost reducedTrans: seq<seq<int>>)
    requires Rectangular(gram) && Width(gram) == |gram|
    ensures |res.remainder| <= |gram| && |res.transformation| == |res.remainder|
    ensures forall i :: 0 <= i < |res.remainder| ==>
      |res.remainder[i]| == |res.remainder| && |res.transformation[i]| == |gram|
    ensures initialGram == HostToNative(gram) && initialTrans == Identity(|gram|)
    ensures StrippedResult(res, |gram|, reduced, reducedTrans)
  {
    var mat := MatGap2Flint(gram);
    initialGram := mat.Rows();
    var trans := new FmpzMat.Init(mat.r, mat.r);
    trans.One();
    initialTrans := trans.Rows();
    Lll(mat, trans);
    reduced, reducedTrans := mat.Rows(), trans.Rows();
    var remainder := StripRemainder(mat);
    var transformation := TrailingRows(trans, |remainder|);
    res := ReducedGram(remainder, transformation);
  }
}

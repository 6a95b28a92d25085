/**
 * Matrix marshalling between GAP and FLINT: a GAP list of rows of
 * integers becomes a dense fmpz_mat_t (mat_gap2flint) and back
 * (mat_flint2gap). The pure functions HostToNative and NativeToHost say
 * what the two loops compute, entry by entry.
 */
module Marshal {
  import opened GmpInt
  import opened GapInt
  import opened FakeMpzView
  import opened FmpzMatrix

  /** Column count mat_gap2flint uses: the length of row 1, or 0 for an empty list. */
  function Width(x: seq<seq<HostInt>>): nat
  {
    if |x| > 0 then |x[0]| else 0
  }

  /** Every row as long as row 1 (assumed by the caller, not checked). */
  predicate Rectangular(x: seq<seq<HostInt>>)
  {
    forall i :: 0 <= i < |x| ==> |x[i]| == Width(x)
  }

  /** Every entry in GAP's canonical integer representation. */
  predicate AllCanonical(x: seq<seq<HostInt>>)
  {
    forall i, j :: 0 <= i < |x| && 0 <= j < |x[i]| ==> Canonical(x[i][j])
  }

  /** fmpz_set_mpz of the resolved view of one host entry. */
  function EntryToNative(h: HostInt): (v: int)
    ensures v == HostValue(h)
  {
    MpzValue(MpzView(h))
  }

  /** fmpz_get_mpz into the scratch mpz, then GMPorINTOBJ_MPZ. */
  function EntryToHost(v: int): (h: HostInt)
    ensures Canonical(h) && HostValue(h) == v
  {
    IntObjOfMpz(MpzOf(v))
  }

  /** An entry survives the trip to FLINT and back as the very same GAP object. */
  lemma {:induction false} EntryRoundTrip(h: HostInt)
    requires Canonical(h)
    ensures EntryToHost(EntryToNative(h)) == h
  {
    FromValueOfCanonical(h);
  }

  /** The entries mat_gap2flint stores: |x| rows of Width(x) native values. */
  function HostToNative(x: seq<seq<HostInt>>): seq<seq<int>>
    requires Rectangular(x)
  {
    seq(|x|, i requires 0 <= i < |x| =>
      seq(Width(x), j requires 0 <= j < Width(x) => EntryToNative(x[i][j])))
  }

  /** The list of rows mat_flint2gap builds from a matrix's rows. */
  function NativeToHost(m: seq<seq<int>>): (h: seq<seq<HostInt>>)
    ensures |h| == |m| && forall i :: 0 <= i < |m| ==> |h[i]| == |m[i]|
  {
    seq(|m|, i requires 0 <= i < |m| =>
      seq(|m[i]|, j requires 0 <= j < |m[i]| => EntryToHost(m[i][j])))
  }

  /** mat_flint2gap(mat_gap2flint(x)) == x for a rectangular list of GAP integers. */
  lemma {:induction false} MarshalRoundTrip(x: seq<seq<HostInt>>)
    requires Rectangular(x) && AllCanonical(x)
    ensures NativeToHost(HostToNative(x)) == x
  {
    var y := NativeToHost(HostToNative(x));
    assert |y| == |x|;
    forall i | 0 <= i < |x|
      ensures y[i] == x[i]
    {
      forall j | 0 <= j < |x[i]|
        ensures y[i][j] == x[i][j]
      {
        EntryRoundTrip(x[i][j]);
      }
    }
  }

  /** The other direction: a rectangular native matrix, taken to GAP and back, has the same rows. */
  lemma {:induction false} NativeRoundTrip(m: seq<seq<int>>)
    requires forall i :: 0 <= i < |m| ==> |m[i]| == |m[0]|
    ensures Rectangular(NativeToHost(m)) && HostToNative(NativeToHost(m)) == m
  {
    var h := NativeToHost(m);
    assert |m| > 0 ==> Width(h) == |m[0]|;
    var back := HostToNative(h);
    forall i | 0 <= i < |m|
      ensures back[i] == m[i]
    {
      forall j | 0 <= j < |m[i]|
        ensures back[i][j] == m[i][j]
      {
        assert back[i][j] == EntryToNative(EntryToHost(m[i][j]));
      }
    }
  }

  /**
   * mat_gap2flint: allocate an |x|×Width(x) matrix and fill it row by row,
   * converting each entry through one reused fake-mpz view.
   */
  method MatGap2Flint(x: seq<seq<HostInt>>) returns (res: FmpzMat)
    requires Rectangular(x)
    ensures fresh(res) && fresh(res.data) && res.Valid() && res.owner
    ensures res.r == |x| && res.c == Width(x)
    ensures res.Rows() == HostToNative(x)
  {
    var n := |x|;
    var m := if n > 0 then |x[0]| else 0;
    res := new FmpzMat.Init(n, m);
    var tmp := new FakeMpz();
    var a := res.data;
    for i := 0 to n
      invariant res.Valid() && res.data == a
      invariant forall p, q :: 0 <= p < i && 0 <= q < m ==> a[p, q] == HostValue(x[p][q])
      modifies a, tmp
    {
      for j := 0 to m
        invariant forall p, q ::
          ((0 <= p < i && 0 <= q < m) || (p == i && 0 <= q < j)) ==> a[p, q] == HostValue(x[p][q])
        modifies a, tmp
      {
        var entry := x[i][j];
        tmp.Bind(entry);
        var v := tmp.Resolve();
        a[i, j] := MpzValue(v);
      }
    }
    var rows, spec := res.Rows(), HostToNative(x);
    forall p | 0 <= p < n
      ensures rows[p] == spec[p]
    {
    }
  }

  /**
   * mat_flint2gap: build a list of x.r rows, each of x.c GAP integers,
   * reading every entry through one scratch mpz. x is only read.
   */
  method MatFlint2Gap(x: FmpzMat) returns (res: seq<seq<HostInt>>)
    requires x.Valid()
    ensures |res| == x.r && forall i :: 0 <= i < x.r ==> |res[i]| == x.c
    ensures res == NativeToHost(x.Rows())
  {
    var n, m := x.r, x.c;
    ghost var spec := NativeToHost(x.Rows());
    var tmp := MpzOf(0);   // mpz_init
    res := [];
    var i := 1;
    while i <= n
      invariant 1 <= i <= n + 1
      invariant res == spec[..i - 1]
    {
      var row := [];
      var j := 1;
      while j <= m
        invariant 1 <= j <= m + 1
        invariant row == spec[i - 1][..j - 1]
      {
        var entry := x.Entry(i - 1, j - 1);
        tmp := MpzOf(entry);                  // fmpz_get_mpz
        row := row + [IntObjOfMpz(tmp)];      // GMPorINTOBJ_MPZ into slot j
        j := j + 1;
      }
      assert spec[i - 1][..m] == spec[i - 1];
      res := res + [row];
      i := i + 1;
    }
    assert spec[..n] == spec;
  }

  /**
   * A matrix with no rows but some columns, taken to GAP and back: the
   * empty list carries no row to measure, so the column count comes back
   * as 0.
   */
  method ZeroRowsRoundTrip(x: FmpzMat) returns (y: FmpzMat)
    requires x.Valid() && x.r == 0
    ensures y.r == 0 && y.c == 0
  {
    var h := MatFlint2Gap(x);
    y := MatGap2Flint(h);
  }
}

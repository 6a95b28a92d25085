# LLL: marshalling between GAP and FLINT, in Dafny

The `LLL` package makes FLINT's LLL reduction available to GAP through one
kernel function, `LLLReducedGramMatFLINT(gram, delta)`. Almost all of
`src/LLL.c` is calls into GAP or FLINT. What this project models is the
logic in between:

- **The fake-mpz view** (`fake_mpz_t`, `FAKEMPZ_GMPorINTOBJ`,
  `UPDATE_FAKEMPZ`, `MPZ_FAKEMPZ`). It lets FLINT read a GAP integer
  through an `mpz_t` header without copying it. An immediate integer `i`
  goes to an inline scratch limb holding `|i|`, with alloc 1 and size
  `sign(i)`. A large integer bag is referenced directly: alloc is
  `SIZE_INT`, and size is `±SIZE_INT`, signed by the bag's
  `T_INTPOS`/`T_INTNEG` tag. Resolving the view points `_mp_d` at the
  bag's limbs when `obj` is set, and at `tmp` otherwise.
- **Integer conversions.** `GMPorINTOBJ_MPZ` turns limbs plus a signed
  size back into a GAP integer. An entry goes to FLINT by `fmpz_set_mpz`
  of the resolved view. It comes back by `fmpz_get_mpz` followed by
  `GMPorINTOBJ_MPZ`.
- **Matrix marshalling.** `mat_gap2flint` fills an `n × m` `fmpz_mat_t`
  in row-major order. `n` is the list length; `m` is the length of row 1,
  or 0 when the list is empty. `mat_flint2gap` builds a list of `r` rows,
  each of `c` GAP integers.
- **The wrapper's matrix arithmetic.** The transformation starts as the
  `n × n` identity. After reduction, the leading zero rows of the Gram
  matrix, and the matching columns, are stripped; `k` rows survive. The
  transformation window then takes rows `n-k … n-1` over all `n` columns.

Integers are a sign plus little-endian 64-bit limbs, with value
`sign · Σ limbs[k]·2^(64k)` (module `GmpInt`). A GAP integer is
`Small(i)`, for `i` in the 64-bit immediate range `[-2^60, 2^60-1]`, or
`Large(positive, limbs)` (module `GapInt`). GAP keeps its integers
canonical: a value that fits an immediate integer is never a bag, and a
bag has no most-significant zero limb. The round trips are stated for
canonical integers, and for them they are exact identities rather than
only equality of values. The view is a class whose methods update its
fields (`FakeMpzView.FakeMpz`). A FLINT matrix is a class over an
`array2<int>`, and a window shares that array with the matrix it is cut
from (`FmpzMatrix.FmpzMat`). The host matrix is a `seq<seq<HostInt>>`.

Files: `gmp_int.dfy`, `gap_int.dfy`, `fake_mpz.dfy`, `fmpz_mat.dfy`,
`marshal.dfy`, `lll_gram.dfy`, one module each.

## Model

| member | source | states |
|---|---|---|
| `GmpInt.ToLimbs` | src/LLL.c:134 | the limbs GMP stores for a magnitude denote it exactly, have no most-significant zero limb, and are empty iff the magnitude is 0 |
| `GmpInt.ToLimbsOfValue` | src/LLL.c:10-13 | normalized limbs are the only normalized limbs for their value (uniqueness of the GMP representation that both GAP and FLINT share) |
| `GmpInt.MpzOf` | src/LLL.c:133-134 | the mpz_t that `fmpz_get_mpz` yields satisfies alloc ≥ \|size\|, denotes the fmpz's value, uses normalized limbs, and has a size whose sign is the sign of the value (size 0 exactly for zero) |
| `GapInt.FromValue` | src/LLL.c:42 | the object `MakeObjInt` builds denotes the given value and is canonical |
| `GapInt.FromValueOfCanonical` | src/LLL.c:40-43 | every canonical GAP integer is exactly the object `MakeObjInt` builds for its value |
| `GapInt.IntObjOfMpz` | src/LLL.c:40-43 | `GMPorINTOBJ_MPZ` returns a canonical GAP integer whose value is that of the mpz (sign of size times its first \|size\| limbs) |
| `GapInt.MpzView` | src/LLL.c:69-89 | the resolved view satisfies alloc ≥ \|size\| and denotes the integer's value; for a canonical integer the sign of size is the sign of the value, so zero carries no sign; an immediate integer has alloc 1 and the single scratch limb \|i\|; a bag has alloc = \|size\| = its limb count, and `_mp_d` reads its limbs |
| `GapInt.ViewRoundTrip` | src/LLL.c:40-89 | viewing a canonical GAP integer as an mpz and converting back with `GMPorINTOBJ_MPZ` returns the same object |
| `FakeMpzView.FakeMpz.constructor` | src/LLL.c:28-32 | a view with no bag referenced and `_mp_d` not yet resolved; the C struct at line 95 is left uninitialised instead, which makes no difference because `Bind` writes `obj`, alloc and size on both paths before anything reads them |
| `FakeMpzView.FakeMpz.Bind` | src/LLL.c:69-89 | an immediate integer clears `obj` and sets alloc 1, `tmp` = \|i\| and size 0, 1 or −1 by the sign of i; a bag sets `obj`, alloc = \|limbs\|, size = ±\|limbs\| by the tag, and leaves `tmp`; either way the header then resolves to `MpzView(op)` |
| `FakeMpzView.FakeMpz.Update` | src/LLL.c:56-59 | `_mp_d` points at the bag's limbs when `obj` is set and at `tmp` otherwise; the limbs it designates are those of the resolved header |
| `FakeMpzView.FakeMpz.Resolve` | src/LLL.c:53 | `MPZ_FAKEMPZ` first re-points `_mp_d`, then returns the resolved header |
| `FmpzMatrix.FmpzMat.Init` | src/LLL.c:167 | `fmpz_mat_init` gives a fresh owning rows×cols matrix with every entry zero |
| `FmpzMatrix.FmpzMat.One` | src/LLL.c:168 | `fmpz_mat_one` puts 1 on the diagonal and 0 elsewhere inside the matrix, changes nothing outside it, and so makes a square matrix the identity |
| `FmpzMatrix.FmpzMat.Window` | src/LLL.c:176 | `fmpz_mat_window_init` gives a non-owning (r2−r1)×(c2−c1) matrix that shares the parent's storage, whose rows are the parent's rows r1..r2−1 restricted to columns c1..c2−1 |
| `Marshal.EntryToNative` | src/LLL.c:105-107 | the fmpz stored for a GAP entry has that entry's value |
| `Marshal.EntryToHost` | src/LLL.c:133-135 | the GAP integer made from an fmpz has the fmpz's value and is canonical |
| `Marshal.EntryRoundTrip` | src/LLL.c:103-137 | a canonical GAP integer sent to FLINT and back is the very same object |
| `Marshal.NativeToHost` | src/LLL.c:120-137 | the list built from a matrix has as many rows as the matrix, each as long as the matrix row |
| `Marshal.MatGap2Flint` | src/LLL.c:92-110 | the result is a fresh owning \|x\| × Width(x) matrix, where Width(x) is the length of row 1, or 0 for an empty list; entry (i, j) is the value of x[i+1][j+1] in 1-based GAP indexing |
| `Marshal.MatFlint2Gap` | src/LLL.c:112-142 | the result has exactly r rows of exactly c entries each; element (i, j) is the GAP integer for native entry (i, j); the matrix is not modified |
| `Marshal.MarshalRoundTrip` | src/LLL.c:92-142 | for a rectangular list of canonical GAP integers, `mat_flint2gap(mat_gap2flint(x)) == x` |
| `Marshal.NativeRoundTrip` | src/LLL.c:92-142 | a native matrix whose rows all have the same length, sent to GAP and back, has the same rows |
| `Marshal.ZeroRowsRoundTrip` | src/LLL.c:92-142 | a 0×c matrix sent to GAP and back comes back 0×0: `mat_flint2gap` yields an empty list, and `mat_gap2flint` takes an empty list's width to be 0 |
| `LllGram.Lll` | src/LLL.c:171 | `fmpz_lll` changes only the entries of the two matrices, never their shapes |
| `LllGram.StripInitialZeroRows` | src/LLL.c:175 | the stripping window is a fresh non-owning k×k window, with k ≤ n, over rows and columns n−k..n−1 of the n×n matrix |
| `LllGram.StripRemainder` | src/LLL.c:175-178 | the remainder is k×k with k ≤ n, and is the trailing k×k block of the reduced Gram matrix converted to GAP |
| `LllGram.TrailingRows` | src/LLL.c:176-179 | the transformation is k×n, and is rows n−k..n−1 over all n columns of the reduced transformation matrix, converted to GAP |
| `LllGram.LLLReducedGramMat` | src/LLL.c:152-193 | `fmpz_lll` receives the converted Gram matrix and the n×n identity; for an n×n Gram matrix, the result record holds a k×k remainder and a k×n transformation with 0 ≤ k ≤ n; they are the trailing k×k block of the reduced Gram matrix and the trailing k rows (all n columns) of the reduced transformation |

## Left out

- `LllGram.Lll` is weaker than FLINT's `fmpz_lll`. FLINT's source is not part of this model, so the stand-in says nothing about the reduced entries: not the lattice relation Tᵀ·A·T = remainder, not unimodularity, not LLL-reducedness. The `delta` parameter, `fmpz_lll_context_init_default` and the `GRAM` flag (lines 162-164) are floating-point configuration passed to it and are not modelled.
- `LllGram.StripInitialZeroRows` is weaker than FLINT's stripping window. Its k is any value in 0..n, not the count of rows left after the leading all-zero rows, because that function's source is not part of this model.
- `LllGram.LLLReducedGramMat` requires a square Gram matrix. `trans` is `mat->r` × `mat->r` (line 167), and the transformation window ends at row and column `mat->r` (line 176). FLINT chooses the extent of the stripping window (line 175). So `remainder` is k×k and `transformation` is k×n only when the Gram matrix is square, which is also what FLINT's Gram mode reads.
- Jagged input: `Marshal.MatGap2Flint` requires every row to be as long as row 1. `mat_gap2flint` does not check this itself. A short row is left to `ELM_LIST` (line 105), which raises a GAP error, and a long row is truncated to `Width(x)`.
- `MakeObjInt`, `fmpz_set_mpz`, `fmpz_get_mpz`, `NEW_PLIST` and the FLINT entry accessors are foreign calls. They are modelled as value-level conversions: `FromValue`, `MpzValue`, `MpzOf`, and building sequences.
- `Marshal.MatFlint2Gap` gives every entry a fresh scratch `mpz_t` (`MpzOf`), while `mat_flint2gap` reuses one (lines 118, 134). Its growing alloc and stale high limbs are not modelled. That is harmless, because `GMPorINTOBJ_MPZ` reads only the first \|size\| limbs.
- `mat_flint2gap` stores each row list into the result before filling it. The model appends each finished row instead, because list aliasing in GAP's heap is not modelled.
- GAP's garbage collector may move a bag between allocations, which is why `UPDATE_FAKEMPZ` re-reads `ADDR_INT` before each use. The model records only which limb source is selected, not raw addresses or their validity.
- Memory release is not modelled: `mpz_clear`, the window clears, `fmpz_mat_clear` and `flint_cleanup_master` (lines 139, 181-184, 190). Neither is the GAP record construction (lines 186-188), which appears only as the `ReducedGram` datatype.
- Module registration and initialisation (lines 195-242) is not modelled.
- The C `int` loop counters, the `int` `_mp_size` field and the 64-bit `Int` of an immediate integer are machine integers. The model uses unbounded integers, because the dimensions and limb counts that occur stay far below those bounds and negating an immediate integer cannot overflow.
- The immediate-integer range and the 64-bit limb size are those of a 64-bit GAP build. They come from GAP's headers, not from this file.

/**
 * GMP-style sign-magnitude integers, as both GAP's large integers and
 * FLINT's mpz interface store them: a little-endian sequence of machine
 * limbs for the magnitude, and an mpz_t header holding an allocation
 * length, a signed size (the sign of the value; 0 means zero) and the
 * limbs its _mp_d pointer designates.
 */
module GmpInt {

  /** A limb is one 64-bit machine word (mp_limb_t on a 64-bit build). */
  const BASE: nat := 0x1_0000_0000_0000_0000

  type Limb = x: nat | x < BASE

  function Abs(x: int): nat
  {
    if x < 0 then -x else x
  }

  function Sign(x: int): int
  {
    if x > 0 then 1 else if x < 0 then -1 else 0
  }

  /** The magnitude Σ limbs[k]·BASE^k, least significant limb first. */
  function LimbsValue(limbs: seq<Limb>): nat
  {
    if limbs == [] then 0 else limbs[0] + BASE * LimbsValue(limbs[1..])
  }

  /** No most-significant zero limb: the form GMP and GAP keep magnitudes in. */
  predicate Normalized(limbs: seq<Limb>)
  {
    limbs == [] || limbs[|limbs| - 1] != 0
  }

  /** A normalized non-empty limb sequence denotes a non-zero magnitude. */
  lemma {:induction false} NormalizedPositive(limbs: seq<Limb>)
    requires Normalized(limbs) && limbs != []
    ensures LimbsValue(limbs) > 0
  {
    if limbs[0] == 0 {
      assert |limbs| > 1;
      assert limbs[1..][|limbs| - 2] == limbs[|limbs| - 1];
      NormalizedPositive(limbs[1..]);
    }
  }

  /** The normalized limbs of a magnitude (what GMP stores for it). */
  function ToLimbs(n: nat): (limbs: seq<Limb>)
    ensures LimbsValue(limbs) == n
    ensures Normalized(limbs)
    ensures limbs == [] <==> n == 0
    decreases n
  {
    if n == 0 then []
    else
      var rest := ToLimbs(n / BASE);
      assert ([n % BASE] + rest)[1..] == rest;
      [n % BASE] + rest
  }

  /** Normalized limbs are the only ones denoting their magnitude. */
  lemma {:induction false} ToLimbsOfValue(limbs: seq<Limb>)
    requires Normalized(limbs)
    ensures ToLimbs(LimbsValue(limbs)) == limbs
  {
    if limbs != [] {
      var n := LimbsValue(limbs);
      var tail := limbs[1..];
      NormalizedPositive(limbs);
      assert n == limbs[0] + BASE * LimbsValue(tail);
      assert n % BASE == limbs[0] && n / BASE == LimbsValue(tail);
      assert tail == [] || tail[|tail| - 1] == limbs[|limbs| - 1];
      ToLimbsOfValue(tail);
      assert limbs == [limbs[0]] + tail;
    }
  }

  /**
   * An mpz_t header: _mp_alloc, _mp_size and the limbs _mp_d points at
   * (resolved to their contents).
   */
  datatype Mpz = Mpz(alloc: int, size: int, d: seq<Limb>)

  /** The header invariant GMP relies on: alloc >= |size|, and |size| limbs are readable. */
  predicate ValidMpz(v: Mpz)
  {
    Abs(v.size) <= v.alloc && Abs(v.size) <= |v.d|
  }

  /** The integer an mpz_t denotes: sign of size times its first |size| limbs. */
  function MpzValue(v: Mpz): int
    requires Abs(v.size) <= |v.d|
  {
    var magnitude: int := LimbsValue(v.d[..Abs(v.size)]);
    if v.size < 0 then -magnitude else magnitude
  }

  /**
   * The mpz_t that fmpz_get_mpz produces for the integer x: GMP's canonical
   * encoding, with exactly the normalized limbs of |x| in use.
   */
  function MpzOf(x: int): (v: Mpz)
    ensures ValidMpz(v) && MpzValue(v) == x
    ensures Normalized(v.d[..Abs(v.size)])
    ensures Sign(v.size) == Sign(x)
  {
    var limbs := ToLimbs(Abs(x));
    assert limbs[..|limbs|] == limbs;
    Mpz(|limbs|, if x < 0 then -|limbs| else |limbs|, limbs)
  }
}

/**
 * GAP integer objects and their conversions to and from mpz_t headers:
 * the value an integer object denotes, the canonical form GAP keeps them
 * in, the header the fake-mpz view presents for one (FAKEMPZ_GMPorINTOBJ
 * followed by MPZ_FAKEMPZ), and GMPorINTOBJ_MPZ.
 */
module GapInt {
  import opened GmpInt

  /** Range of GAP's immediate integers on a 64-bit build (61-bit two's complement). */
  const INTOBJ_MIN: int := -0x1000_0000_0000_0000
  const INTOBJ_MAX: int := 0x0FFF_FFFF_FFFF_FFFF

  type SmallInt = i: int | INTOBJ_MIN <= i <= INTOBJ_MAX

  /**
   * A GAP integer: an immediate integer, or a bag tagged T_INTPOS or
   * T_INTNEG whose contents are the limbs of the magnitude.
   */
  datatype HostInt = Small(i: SmallInt) | Large(positive: bool, limbs: seq<Limb>)

  function HostValue(h: HostInt): int
  {
    match h
    case Small(i) => i
    case Large(positive, limbs) =>
      var magnitude: int := LimbsValue(limbs);
      if positive then magnitude else -magnitude
  }

  /**
   * GAP's representation invariant: a value that fits an immediate integer
   * is never a bag, and a bag's limbs carry no most-significant zero limb.
   */
  predicate Canonical(h: HostInt)
  {
    match h
    case Small(_) => true
    case Large(positive, limbs) =>
      Normalized(limbs) &&
      var magnitude: int := LimbsValue(limbs);
      if positive then magnitude > INTOBJ_MAX else -magnitude < INTOBJ_MIN
  }

  /**
   * The integer object GAP's MakeObjInt builds for the value x: immediate
   * when it fits, otherwise a bag holding the normalized limbs of |x|.
   */
  function FromValue(x: int): (h: HostInt)
    ensures HostValue(h) == x && Canonical(h)
  {
    if INTOBJ_MIN <= x <= INTOBJ_MAX then Small(x) else Large(x > 0, ToLimbs(Abs(x)))
  }

  /** Every canonical integer object is the one GAP builds for its value. */
  lemma {:induction false} FromValueOfCanonical(h: HostInt)
    requires Canonical(h)
    ensures FromValue(HostValue(h)) == h
  {
    if h.Large? {
      ToLimbsOfValue(h.limbs);
    }
  }

  /**
   * GMPorINTOBJ_MPZ: MakeObjInt applied to the header's limbs and signed
   * size; the result denotes the header's value and is canonical.
   */
  function IntObjOfMpz(v: Mpz): (h: HostInt)
    requires Abs(v.size) <= |v.d|
    ensures Canonical(h) && HostValue(h) == MpzValue(v)
  {
    FromValue(MpzValue(v))
  }

  /**
   * The header the fake-mpz view presents for op once resolved: for an
   * immediate integer alloc 1, the inline scratch limb |i| and size
   * sign(i); for a bag alloc = SIZE_INT, the bag's limbs and size
   * ±SIZE_INT by the T_INTPOS/T_INTNEG tag.
   */
  function MpzView(op: HostInt): (v: Mpz)
    ensures ValidMpz(v) && MpzValue(v) == HostValue(op)
    ensures Canonical(op) ==> Sign(v.size) == Sign(HostValue(op))
    ensures op.Small? ==> v.alloc == 1 && v.d == [Abs(op.i)]
    ensures op.Large? ==> v.alloc == Abs(v.size) == |op.limbs| && v.d == op.limbs
  {
    match op
    case Small(i) =>
      assert [Abs(i)][..Abs(Sign(i))] == if i == 0 then [] else [Abs(i)];
      assert LimbsValue([Abs(i)]) == Abs(i) + BASE * LimbsValue([]);
      Mpz(1, Sign(i), [Abs(i)])
    case Large(positive, limbs) =>
      assert limbs[..|limbs|] == limbs;
      Mpz(|limbs|, if positive then |limbs| else -|limbs|, limbs)
  }

  /** Viewing a canonical integer as an mpz_t and converting back yields the same object. */
  lemma {:induction false} ViewRoundTrip(op: HostInt)
    requires Canonical(op)
    ensures IntObjOfMpz(MpzView(op)) == op
  {
    FromValueOfCanonical(op);
  }
}

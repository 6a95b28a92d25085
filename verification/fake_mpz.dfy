/**
 * The fake-mpz view: a stack struct that lets FLINT's mpz interface read
 * a GAP integer without copying it. It holds an mpz_t header, an inline
 * scratch limb for immediate integers and, for a large integer, a
 * reference to the bag whose limbs the header points at.
 */
module FakeMpzView {
  import opened GmpInt
  import opened GapInt

  datatype Option<T> = None | Some(value: T)

  /** What the header's _mp_d points at. */
  datatype LimbSource = Unresolved | Scratch | BagLimbs(bag: HostInt)

  class FakeMpz {
    var alloc: int              // v->_mp_alloc
    var size: int               // v->_mp_size
    var d: LimbSource           // v->_mp_d
    var tmp: Limb               // inline scratch limb
    var obj: Option<HostInt>    // the bag referenced, or 0

    /** Only a bag (never an immediate integer) is ever referenced. */
    predicate Valid()
      reads this
    {
      obj.Some? ==> obj.value.Large?
    }

    /** The limbs _mp_d currently designates. */
    function Digits(): seq<Limb>
      reads this
    {
      match d
      case Unresolved => []
      case Scratch => [tmp]
      case BagLimbs(bag) => if bag.Large? then bag.limbs else []
    }

    /** Where resolving the view points _mp_d: the bag's limbs when obj is set, else tmp. */
    function Target(): LimbSource
      reads this
    {
      if obj.Some? then BagLimbs(obj.value) else Scratch
    }

    /** The header FLINT sees once the view is resolved. */
    function Resolved(): Mpz
      reads this
      requires Valid()
    {
      Mpz(alloc, size, if obj.Some? then obj.value.limbs else [tmp])
    }

    constructor ()
      ensures Valid() && obj == None && d == Unresolved
    {
      alloc, size, d, tmp, obj := 0, 0, Unresolved, 0, None;
    }

    /**
     * FAKEMPZ_GMPorINTOBJ: bind the view to op. An immediate integer clears
     * obj and goes to the scratch limb; a bag is referenced, with alloc its
     * limb count and size signed by its tag. _mp_d is left as it was.
     */
    method Bind(op: HostInt)
      modifies this`alloc, this`size, this`tmp, this`obj
      ensures Valid()
      ensures op.Small? ==>
        obj == None && alloc == 1 && tmp == Abs(op.i) &&
        size == (if op.i > 0 then 1 else if op.i == 0 then 0 else -1)
      ensures op.Large? ==>
        obj == Some(op) && alloc == |op.limbs| &&
        size == (if op.positive then |op.limbs| else -|op.limbs|) && tmp == old(tmp)
      ensures Resolved() == MpzView(op)
    {
      if op.Small? {
        obj := None;
        alloc := 1;
        var i: int := op.i;   // INT_INTOBJ(op)
        if i >= 0 {
          tmp := i;
          size := if i != 0 then 1 else 0;
        } else {
          tmp := -i;
          size := -1;
        }
      } else {
        obj := Some(op);
        alloc := |op.limbs|;
        size := if op.positive then |op.limbs| else -|op.limbs|;
      }
    }

    /** UPDATE_FAKEMPZ: re-point _mp_d at the current limbs of the view. */
    method Update()
      requires Valid()
      modifies this`d
      ensures d == Target()
      ensures Digits() == Resolved().d
    {
      d := if obj.Some? then BagLimbs(obj.value) else Scratch;
    }

    /** MPZ_FAKEMPZ: resolve _mp_d, then hand out the header. */
    method Resolve() returns (v: Mpz)
      requires Valid()
      modifies this`d
      ensures d == Target()
      ensures v == Resolved()
    {
      Update();
      v := Mpz(alloc, size, Digits());
    }
  }
}

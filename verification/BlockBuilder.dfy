/** The builder that packs keys' extents into a block. */
module BlockBuilder {
  import opened Bytes
  import opened Runs

  /** Extents packed end to end up to a target size. */
  class Builder {
    var buf: bytes
    const cap: nat
    ghost var extents: seq<bytes>

    constructor (cap: nat)
      ensures Holds([]) && Fits() && this.cap == cap
    {
      this.cap := cap;
      buf := [];
      extents := [];
    }

    /** The block is its extents end to end. */
    ghost predicate Holds(es: seq<bytes>)
      reads this
    {
      extents == es && buf == Concat(es)
    }

    /** Within the target, or one extent alone that is larger, which is never split. */
    ghost predicate Fits()
      reads this
    {
      |buf| <= cap || buf in extents
    }

    predicate WouldOverflow(n: nat)
      reads this
    {
      buf != [] && |buf| + n > cap
    }

    /** An extent appended; where it starts, in a 32-bit word. A caller that asks first keeps the block within its target. */
    method Push(extent: bytes) returns (off: nat)
      requires Holds(extents)
      modifies this`buf, this`extents
      ensures Holds(old(extents) + [extent])
      ensures old(Fits() && !WouldOverflow(|extent|)) ==> Fits()
      ensures off == |Concat(old(extents))| % U32
    {
      ConcatSnoc(extents, extent);
      assert [] + extent == extent;
      assert extent in extents + [extent];
      off := |buf| % U32;
      buf := buf + extent;
      extents := extents + [extent];
    }

    /** The block so far, leaving the builder empty. */
    method Take() returns (block: bytes)
      requires Holds(extents)
      modifies this`buf, this`extents
      ensures block == Concat(old(extents)) && Holds([]) && Fits()
    {
      block := buf;
      buf, extents := [], [];
    }
  }

  /** While the block is under 4 GiB up to an extent, the offset `Push` gave it finds it in the taken block. */
  lemma {:induction false} ExtentAt(es: seq<bytes>, i: nat)
    requires i < |es| && |Concat(es[..i])| < U32
    ensures var at := |Concat(es[..i])| % U32;
      at + |es[i]| <= |Concat(es)| && Concat(es)[at..at + |es[i]|] == es[i]
  {
    ConcatSlice(es, i);
    SmallMod(|Concat(es[..i])|, U32);
  }
}

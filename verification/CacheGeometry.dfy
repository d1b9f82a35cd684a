/** Where the lines of a set are: the arithmetic of tags, sets and slots on 32-bit words. */
module CacheGeometry {
  import opened Bits

  /** stride is the distance between the first slots of consecutive sets; a line holds 2 to the shift bytes. */
  datatype Geometry = Geometry(assoc: nat, sets: nat, stride: nat, numLines: nat, shift: nat) {

    /** calcTag, a shift to the right. */
    function CalcTag(addr: nat): nat {
      ShiftRight(addr, shift)
    }

    /** calcAddr4Tag, the first address of the line with the tag. */
    function CalcAddr4Tag(tag: nat): nat {
      tag * Pow2(shift)
    }

    /** calcSet4Tag, with the mask sets - 1. */
    function SetOf(tag: nat): (s: nat)
      requires sets > 0
      ensures s < sets
    {
      And(tag, sets - 1)
    }

    function BaseOf(s: nat): nat {
      s * stride
    }

    ghost predicate Usable() {
      0 < assoc <= stride && 0 < sets && BaseOf(sets - 1) + assoc <= numLines
    }
  }

  /** The addresses with a tag are those of one line, which the tag's first address starts. */
  lemma TagOfLine(g: Geometry, addr: nat, tag: nat)
    ensures g.CalcTag(addr) == tag <==> g.CalcAddr4Tag(tag) <= addr < g.CalcAddr4Tag(tag) + Pow2(g.shift)
  {
    ShiftDivides(addr, g.shift);
    ShiftBack(tag, g.shift);
    OneMultiple(ShiftRight(addr, g.shift), tag, Pow2(g.shift), addr);
  }

  lemma OneMultiple(p: nat, q: nat, n: nat, x: nat)
    requires n > 0 && p * n <= x < p * n + n
    ensures q * n <= x < q * n + n <==> p == q
  {
    if p < q { assert (p + 1) * n <= q * n; }
    if q < p { assert (q + 1) * n <= p * n; }
  }

  lemma SetsInside(g: Geometry, s: nat)
    requires g.Usable() && s < g.sets
    ensures g.BaseOf(s) + g.assoc <= g.numLines
  {
    assert s * g.stride <= (g.sets - 1) * g.stride;
  }

  /** Different sets share no slot. */
  lemma SetsApart(g: Geometry, s: nat, t: nat)
    requires g.Usable() && s < t < g.sets
    ensures g.BaseOf(s) + g.assoc <= g.BaseOf(t)
  {
    assert (s + 1) * g.stride <= t * g.stride;
  }

  /** The ways of a set among all slots. */
  function Slice<T>(g: Geometry, slots: seq<T>, s: nat): (w: seq<T>)
    requires g.Usable() && s < g.sets && |slots| == g.numLines
    ensures |w| == g.assoc > 0
    ensures g.BaseOf(s) + g.assoc <= g.numLines
    ensures forall k :: 0 <= k < g.assoc ==> w[k] == slots[g.BaseOf(s) + k]
  {
    SetsInside(g, s);
    slots[g.BaseOf(s)..g.BaseOf(s) + g.assoc]
  }

  /** A change within one set does not show in another. */
  lemma OtherSlices<T>(g: Geometry, before: seq<T>, after: seq<T>, s: nat, t: nat)
    requires g.Usable() && s < g.sets && t < g.sets && s != t && |before| == |after| == g.numLines
    requires forall p :: 0 <= p < g.numLines && !(g.BaseOf(t) <= p < g.BaseOf(t) + g.assoc) ==> after[p] == before[p]
    ensures Slice(g, after, s) == Slice(g, before, s)
  {
    if s < t { SetsApart(g, s, t); } else { SetsApart(g, t, s); }
  }
}

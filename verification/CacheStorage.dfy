/** The storage of a cache: lines in memory, and an array of pointers to them that lookups and
    fills permute in place, one range of slots per set. */
module CacheStorage {
  import opened Optional
  import opened CacheWays
  import opened CacheGeometry

  class CacheAssoc {
    const g: Geometry
    const mem: array<Line>
    const content: array<nat>

    /** The pointers are a permutation of the lines. */
    ghost predicate Valid()
      reads this, mem, content
    {
      && g.Usable() && mem.Length == content.Length == g.numLines
      && (forall p :: 0 <= p < content.Length ==> content[p] < mem.Length)
      && (forall p, q :: 0 <= p < q < content.Length ==> content[p] != content[q])
    }

    ghost function Slots(): (s: seq<Line>)
      requires Valid()
      reads this, mem, content
      ensures |s| == g.numLines
    {
      seq(g.numLines, p requires 0 <= p < g.numLines && Valid() reads this, mem, content => mem[content[p]])
    }

    ghost function Ways(s: nat): (w: seq<Line>)
      requires Valid() && s < g.sets
      reads this, mem, content
      ensures |w| == g.assoc > 0
    {
      Slice(g, Slots(), s)
    }

    constructor (geometry: Geometry)
      requires geometry.Usable()
      ensures Valid() && g == geometry && fresh(mem) && fresh(content)
      ensures forall s :: 0 <= s < g.sets ==> Ways(s) == seq(g.assoc, k => EMPTY)
    {
      g := geometry;
      mem := new Line[geometry.numLines](k => EMPTY);
      content := new nat[geometry.numLines](k => k);
    }

    /** Shift the pointers before slot hit up by one and put that of hit first. */
    method MoveToFront(base: nat, hit: nat)
      requires Valid() && base <= hit < content.Length
      modifies content
      ensures Valid()
      ensures content[base] == old(content[hit])
      ensures forall p :: base < p <= hit ==> content[p] == old(content[p - 1])
      ensures forall p :: 0 <= p < content.Length && !(base <= p <= hit) ==> content[p] == old(content[p])
    {
      var tmp := content[hit];
      var l := hit;
      while l > base
        invariant base <= l <= hit
        invariant forall p :: l < p <= hit ==> content[p] == old(content[p - 1])
        invariant forall p :: 0 <= p < content.Length && !(l < p <= hit) ==> content[p] == old(content[p])
      {
        content[l] := content[l - 1];
        l := l - 1;
      }
      content[base] := tmp;
    }

    /** The same for position k of the tag's set, in terms of its ways. */
    method PromoteWay(tag: nat, ghost k: nat, slot: nat)
      requires Valid() && k < g.assoc && slot == Base(tag) + k
      modifies content
      ensures Valid() && Ways(g.SetOf(tag)) == Promote(old(Ways(g.SetOf(tag))), k)
      ensures forall s :: 0 <= s < g.sets && s != g.SetOf(tag) ==> Ways(s) == old(Ways(s))
    {
      hide Promote, Slice, Geometry.SetOf;
      ghost var before := Slots();
      MoveToFront(Base(tag), slot);
      MovedIsPromoted(g, before, Slots(), g.SetOf(tag), k);
    }

    /** The scan of findLine: the slot of the tag's set that holds the tag. */
    method Locate(tag: nat) returns (slot: Option<nat>)
      requires Valid() && tag != 0
      ensures slot.Some? <==> Holds(Ways(g.SetOf(tag)), tag)
      ensures slot.Some? ==> slot.value == Base(tag) + Find(Ways(g.SetOf(tag)), tag)
    {
      hide Slice, Geometry.SetOf, Valid;
      var base := Base(tag);
      ghost var ways := Ways(g.SetOf(tag));
      if mem[content[base]].tag == tag {
        return Some(base);
      }
      var l := base + 1;
      while l < base + g.assoc
        invariant base < l <= base + g.assoc
        invariant forall k :: 0 <= k < l - base ==> ways[k].tag != tag
      {
        WayAt(tag, l - base);
        if mem[content[l]].tag == tag {
          return Some(l);
        }
        l := l + 1;
      }
      return None;
    }

    /** findLine: the pointer to the line with the tag, which comes first in its set afterwards. */
    method FindLine(tag: nat) returns (line: Option<nat>)
      requires Valid() && tag != 0
      modifies content
      ensures Valid()
      ensures Ways(g.SetOf(tag)) == Lookup(old(Ways(g.SetOf(tag))), tag)
      ensures forall s :: 0 <= s < g.sets && s != g.SetOf(tag) ==> Ways(s) == old(Ways(s))
      ensures line.Some? <==> Holds(old(Ways(g.SetOf(tag))), tag)
      ensures line.Some? ==> IsFront(line.value, tag)
    {
      hide Promote, Slice, Geometry.SetOf, Find;
      var slot := Locate(tag);
      if slot.None? {
        return None;
      }
      PromotedFirst(Ways(g.SetOf(tag)), tag);
      PromoteWay(tag, slot.value - Base(tag), slot.value);
      return Some(content[Base(tag)]);
    }

    /** The scan of findLine2Replace, from the last way to the first: the slot that has the tag, else the
        first invalid slot of the set, else its last. No line is ever locked. */
    method ChooseSlot(tag: nat) returns (hit: bool, slot: nat)
      requires Valid() && tag != 0 && WaysOk(Ways(g.SetOf(tag)))
      ensures hit <==> Holds(Ways(g.SetOf(tag)), tag)
      ensures slot == g.BaseOf(g.SetOf(tag)) + if hit then Find(Ways(g.SetOf(tag)), tag)
              else FreeWay(Ways(g.SetOf(tag)))
    {
      hide Geometry.SetOf, Valid, Slice, WaysOk, Find, FreeWay, Slots, Scanned, Geometry.BaseOf;
      var base := Base(tag);
      ghost var ways := Ways(g.SetOf(tag));
      if mem[content[base]].tag == tag {
        OneWay(ways, 0, tag);
        return true, base;
      }
      var l := base + g.assoc;
      var lineFree := l;
      NothingScanned(ways, tag);
      while l > base
        invariant base <= l <= lineFree <= base + g.assoc
        invariant Scanned(ways, tag, l - base, lineFree - base)
      {
        l := l - 1;
        WayAt(tag, l - base);
        if mem[content[l]].tag == tag {
          OneWay(ways, l - base, tag);
          return true, l;
        }
        ScanOne(ways, tag, l - base, lineFree - base);
        if !mem[content[l]].IsValid() || lineFree == base + g.assoc {
          lineFree := l;
        }
      }
      AllScanned(ways, tag, lineFree - base);
      return false, lineFree;
    }

    /** The first slot of the tag's set. */
    function Base(tag: nat): (base: nat)
      requires Valid()
      reads this, mem, content
      ensures base == g.BaseOf(g.SetOf(tag)) && base + g.assoc <= content.Length == g.numLines
      ensures base < content.Length && content[base] < mem.Length && mem[content[base]] == Ways(g.SetOf(tag))[0]
    {
      SetsInside(g, g.SetOf(tag));
      g.BaseOf(g.SetOf(tag))
    }

    /** The line in front is the one its set has for the tag. */
    lemma FrontIsFound(line: nat, tag: nat)
      requires Valid() && IsFront(line, tag)
      ensures line < mem.Length && mem[line] == Found(Ways(g.SetOf(tag)), tag)
    {
      hide Slice;
      WayAt(tag, 0);
      assert Base(tag) + 0 == Base(tag);
    }

    lemma WayAt(tag: nat, k: nat)
      requires Valid() && k < g.assoc
      ensures var p := Base(tag) + k;
              p < content.Length && content[p] < mem.Length && mem[content[p]] == Ways(g.SetOf(tag))[k]
    {
    }

    /** findLine2Replace: a line that has the tag stays where it is, another one moves to the front. */
    method FindLine2Replace(tag: nat) returns (line: nat, ghost k: nat)
      requires Valid() && tag != 0 && WaysOk(Ways(g.SetOf(tag)))
      modifies content
      ensures Valid() && k < g.assoc && g.BaseOf(g.SetOf(tag)) + k < g.numLines
      ensures line == content[g.BaseOf(g.SetOf(tag)) + k]
      ensures var ways := old(Ways(g.SetOf(tag)));
              && k == (if Holds(ways, tag) then Find(ways, tag) else 0)
              && Ways(g.SetOf(tag)) == if Holds(ways, tag) then ways else Promote(ways, FreeWay(ways))
      ensures forall s :: 0 <= s < g.sets && s != g.SetOf(tag) ==> Ways(s) == old(Ways(s))
    {
      hide Promote, Geometry.SetOf, WaysOk, Find, FreeWay, Slice;
      var base := Base(tag);
      var hit, slot := ChooseSlot(tag);
      if hit {
        return content[slot], slot - base;
      }
      PromoteWay(tag, slot - base, slot);
      return content[base], 0;
    }

    /** Overwrite the line at position k of a set. */
    method SetLine(ghost s: nat, ghost k: nat, line: nat, value: Line)
      requires Valid() && s < g.sets && k < g.assoc && g.BaseOf(s) + k < g.numLines && line == content[g.BaseOf(s) + k]
      modifies mem
      ensures Valid() && Ways(s) == old(Ways(s))[k := value]
      ensures forall t :: 0 <= t < g.sets && t != s ==> Ways(t) == old(Ways(t))
    {
      ghost var before := Slots();
      mem[line] := value;
      SlotSet(g, before, Slots(), s, k, value);
    }

    method FillLine(tag: nat, state: MSI)
      requires Valid() && tag != 0 && WaysOk(Ways(g.SetOf(tag)))
      modifies mem, content
      ensures Valid() && Ways(g.SetOf(tag)) == Fill(old(Ways(g.SetOf(tag))), tag, state)
      ensures forall s :: 0 <= s < g.sets && s != g.SetOf(tag) ==> Ways(s) == old(Ways(s))
    {
      hide Promote, Geometry.SetOf, Slice, WaysOk, Find, FreeWay, Slots;
      var line, k := FindLine2Replace(tag);
      SetLine(g.SetOf(tag), k, line, Line(tag, state));
    }

    /** Clear the line a lookup has found. */
    method InvalidateLine(tag: nat, line: nat)
      requires Valid() && tag != 0 && IsFront(line, tag)
      modifies mem
      ensures Valid() && Ways(g.SetOf(tag)) == Invalidate(old(Ways(g.SetOf(tag))), tag)
      ensures forall s :: 0 <= s < g.sets && s != g.SetOf(tag) ==> Ways(s) == old(Ways(s))
    {
      SetsInside(g, g.SetOf(tag));
      SetLine(g.SetOf(tag), 0, line, EMPTY);
    }

    /** Change the state of the line a lookup has found. */
    method ChangeStateTo(tag: nat, line: nat, state: MSI)
      requires Valid() && tag != 0 && IsFront(line, tag) && state != Invalid
      modifies mem
      ensures Valid() && Ways(g.SetOf(tag)) == ChangeState(old(Ways(g.SetOf(tag))), tag, state)
      ensures forall s :: 0 <= s < g.sets && s != g.SetOf(tag) ==> Ways(s) == old(Ways(s))
    {
      SetsInside(g, g.SetOf(tag));
      SetLine(g.SetOf(tag), 0, line, mem[line].(state := state));
    }

    /** line points to the first line of the tag's set, and that line has the tag. */
    ghost predicate IsFront(line: nat, tag: nat)
      requires Valid()
      reads this, mem, content
    {
      SetsInside(g, g.SetOf(tag));
      line == content[g.BaseOf(g.SetOf(tag))] && mem[line].tag == tag
    }
  }

  /** The slots of a set, with position k moved to the front. */
  ghost predicate Moved(g: Geometry, before: seq<Line>, after: seq<Line>, s: nat, k: nat)
    requires g.Usable() && s < g.sets && |before| == |after| == g.numLines && k < g.assoc
  {
    SetsInside(g, s);
    var base := g.BaseOf(s);
    && after[base] == before[base + k]
    && (forall p :: base < p <= base + k ==> after[p] == before[p - 1])
    && (forall p :: 0 <= p < g.numLines && !(base <= p <= base + k) ==> after[p] == before[p])
  }

  lemma MovedIsPromoted(g: Geometry, before: seq<Line>, after: seq<Line>, s: nat, k: nat)
    requires g.Usable() && s < g.sets && |before| == |after| == g.numLines && k < g.assoc
             && Moved(g, before, after, s, k)
    ensures Slice(g, after, s) == Promote(Slice(g, before, s), k)
    ensures forall t :: 0 <= t < g.sets && t != s ==> Slice(g, after, t) == Slice(g, before, t)
  {
    hide Slice, Promote;
    SetsInside(g, s);
    var base, w := g.BaseOf(s), Slice(g, before, s);
    forall j: nat | j < g.assoc ensures Slice(g, after, s)[j] == Promote(w, k)[j] {
      PromoteAt(w, k, j);
      if 0 < j <= k { assert after[base + j] == before[base + (j - 1)]; }
    }
    forall t | 0 <= t < g.sets && t != s ensures Slice(g, after, t) == Slice(g, before, t) {
      OtherSlices(g, before, after, t, s);
    }
  }

  lemma PromotedFirst(ways: seq<Line>, tag: nat)
    requires Holds(ways, tag)
    ensures |ways| > 0 && Promote(ways, Find(ways, tag))[0].tag == tag
  {
  }

  lemma NotFound(ways: seq<Line>, tag: nat)
    requires forall j :: 0 <= j < |ways| ==> ways[j].tag != tag
    ensures !Holds(ways, tag) && Lookup(ways, tag) == ways
  {
  }

  /** The ways from l on have been scanned: free is the first invalid one among them or the last way,
      and the number of ways while none has been seen. */
  ghost predicate Scanned(ways: seq<Line>, tag: nat, l: nat, free: nat)
  {
    && l <= free <= |ways|
    && (forall k :: l <= k < |ways| ==> ways[k].tag != tag)
    && (free == |ways| <==> l == |ways|)
    && (forall k :: l <= k < free < |ways| ==> ways[k].IsValid())
    && (free < |ways| && ways[free].IsValid() ==> free == |ways| - 1)
  }

  lemma NothingScanned(ways: seq<Line>, tag: nat)
    ensures Scanned(ways, tag, |ways|, |ways|)
  {
  }

  lemma ScanOne(ways: seq<Line>, tag: nat, l: nat, free: nat)
    requires l < |ways| && Scanned(ways, tag, l + 1, free) && ways[l].tag != tag
    ensures Scanned(ways, tag, l, if !ways[l].IsValid() || free == |ways| then l else free)
  {
  }

  lemma AllScanned(ways: seq<Line>, tag: nat, free: nat)
    requires |ways| > 0 && Scanned(ways, tag, 0, free)
    ensures !Holds(ways, tag) && FreeWay(ways) == free
  {
    NotFound(ways, tag);
    FreeWayIs(ways, free);
  }

  /** A tag other than 0 has at most one way. */
  lemma OneWay(ways: seq<Line>, k: nat, tag: nat)
    requires WaysOk(ways) && k < |ways| && ways[k].tag == tag != 0
    ensures Holds(ways, tag) && Find(ways, tag) == k
  {
  }

  lemma FreeWayIs(ways: seq<Line>, k: nat)
    requires k < |ways|
    requires forall j :: 0 <= j < k ==> ways[j].IsValid()
    requires ways[k].IsValid() ==> k == |ways| - 1
    ensures FreeWay(ways) == k
  {
  }

  lemma SlotSet(g: Geometry, before: seq<Line>, after: seq<Line>, s: nat, k: nat, value: Line)
    requires g.Usable() && s < g.sets && |before| == |after| == g.numLines && k < g.assoc
             && g.BaseOf(s) + k < g.numLines
    requires after == before[g.BaseOf(s) + k := value]
    ensures Slice(g, after, s) == Slice(g, before, s)[k := value]
    ensures forall t :: 0 <= t < g.sets && t != s ==> Slice(g, after, t) == Slice(g, before, t)
  {
    hide Slice;
    forall t | 0 <= t < g.sets && t != s ensures Slice(g, after, t) == Slice(g, before, t) {
      OtherSlices(g, before, after, t, s);
    }
  }
}

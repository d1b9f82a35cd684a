/** One set of a cache as a recency list: the lines of its ways, most recently used first. */
module CacheWays {

  datatype MSI = Modified | Shared | Invalid

  /** Tag 0 marks a line that holds nothing. */
  datatype Line = Line(tag: nat, state: MSI) {
    predicate IsValid() {
      state != Invalid
    }
  }

  const EMPTY: Line := Line(0, Invalid)

  /** The position of the first line with the tag, or the number of ways. */
  function Find(ways: seq<Line>, tag: nat): (k: nat)
    ensures k <= |ways|
    ensures forall j :: 0 <= j < k ==> ways[j].tag != tag
    ensures k < |ways| ==> ways[k].tag == tag
  {
    if ways == [] || ways[0].tag == tag then 0 else Find(ways[1..], tag) + 1
  }

  predicate Holds(ways: seq<Line>, tag: nat) {
    Find(ways, tag) < |ways|
  }

  /** Position k moves to the front. */
  function Promote<T>(ways: seq<T>, k: nat): (r: seq<T>)
    requires k < |ways|
    ensures |r| == |ways|
  {
    [ways[k]] + ways[..k] + ways[k + 1..]
  }

  /** findLine: a hit moves to the front. */
  function Lookup(ways: seq<Line>, tag: nat): (r: seq<Line>)
    ensures |r| == |ways|
  {
    if Holds(ways, tag) then Promote(ways, Find(ways, tag)) else ways
  }

  /** The line found, an empty one if there is none. */
  function Found(ways: seq<Line>, tag: nat): Line {
    if Holds(ways, tag) then ways[Find(ways, tag)] else EMPTY
  }

  predicate AllValid(ways: seq<Line>) {
    forall k :: 0 <= k < |ways| ==> ways[k].IsValid()
  }

  /** The way a fill takes: the first invalid one, else the last. */
  function FreeWay(ways: seq<Line>): (k: nat)
    requires |ways| > 0
    ensures k < |ways|
    ensures forall j :: 0 <= j < k ==> ways[j].IsValid()
    ensures ways[k].IsValid() ==> k == |ways| - 1
  {
    if |ways| == 1 || !ways[0].IsValid() then 0 else FreeWay(ways[1..]) + 1
  }

  /** findLine2Replace, then the new tag and state. A line that has the tag already is reused in place. */
  function Fill(ways: seq<Line>, tag: nat, state: MSI): (r: seq<Line>)
    requires |ways| > 0
    ensures |r| == |ways|
  {
    if Holds(ways, tag) then ways[Find(ways, tag) := Line(tag, state)]
    else Promote(ways, FreeWay(ways))[0 := Line(tag, state)]
  }

  function ChangeState(ways: seq<Line>, tag: nat, state: MSI): (r: seq<Line>)
    ensures |r| == |ways|
  {
    if Holds(ways, tag) then ways[Find(ways, tag) := Line(tag, state)] else ways
  }

  function Invalidate(ways: seq<Line>, tag: nat): (r: seq<Line>)
    ensures |r| == |ways|
  {
    if Holds(ways, tag) then ways[Find(ways, tag) := EMPTY] else ways
  }

  lemma Cut3(ways: seq<Line>, k: nat)
    requires k < |ways|
    ensures ways == ways[..k] + ([ways[k]] + ways[k + 1..])
    ensures Promote(ways, k) == [ways[k]] + (ways[..k] + ways[k + 1..])
  {
  }

  lemma Updated(ways: seq<Line>, k: nat, line: Line)
    requires k < |ways|
    ensures var r := ways[k := line]; r[..k] == ways[..k] && r[k] == line && r[k + 1..] == ways[k + 1..]
  {
  }

  // -------------------------------------------------------------------------------------------
  // The invariant of a set.

  ghost predicate LineOk(l: Line) {
    l.tag == 0 <==> l.state == Invalid
  }

  /** A tag is 0 just in invalid lines, and no other tag is there twice. */
  ghost predicate WaysOk(ways: seq<Line>) {
    && (forall k :: 0 <= k < |ways| ==> LineOk(ways[k]))
    && (forall j, k :: 0 <= j < k < |ways| && ways[j].tag == ways[k].tag ==> ways[j].tag == 0)
  }

  /** The state a set has a tag in. */
  function StateOf(ways: seq<Line>, tag: nat): MSI {
    Found(ways, tag).state
  }

  /** In a well-formed set the line with a tag is determined by being there. */
  lemma FoundIs(ways: seq<Line>, k: nat)
    requires WaysOk(ways) && k < |ways| && ways[k].tag != 0
    ensures Find(ways, ways[k].tag) == k && Found(ways, ways[k].tag) == ways[k]
  {
  }

  lemma StateIsValidity(ways: seq<Line>, tag: nat)
    requires WaysOk(ways) && tag != 0
    ensures StateOf(ways, tag) != Invalid <==> Holds(ways, tag)
  {
    if Holds(ways, tag) { assert LineOk(ways[Find(ways, tag)]); }
  }

  /** Where each line goes when position k is promoted. */
  lemma PromoteAt<T>(ways: seq<T>, k: nat, j: nat)
    requires k < |ways| && j < |ways|
    ensures Promote(ways, k)[j] == if j == 0 then ways[k] else if j <= k then ways[j - 1] else ways[j]
  {
  }

  /** A lookup reorders the set and forgets nothing. */
  lemma LookupKeepsLines(ways: seq<Line>, tag: nat)
    ensures multiset(Lookup(ways, tag)) == multiset(ways)
    ensures Holds(ways, tag) ==> |ways| > 0 && Lookup(ways, tag)[0] == Found(ways, tag)
  {
    if Holds(ways, tag) {
      var k := Find(ways, tag);
      assert ways == ways[..k] + [ways[k]] + ways[k + 1..];
    }
  }

  /** The position that position j of the promoted set comes from. */
  function Origin(k: nat, j: nat): nat {
    if j == 0 then k else if j <= k then j - 1 else j
  }

  lemma RearrangedOk(ways: seq<Line>, r: seq<Line>, k: nat)
    requires WaysOk(ways) && k < |ways| == |r|
    requires forall j: nat :: j < |r| ==> r[j] == ways[Origin(k, j)]
    ensures WaysOk(r)
  {
    hide LineOk;
    forall i: nat, j: nat | i < j < |r| && r[i].tag == r[j].tag ensures r[i].tag == 0 {
      var a, b := Origin(k, i), Origin(k, j);
      assert ways[a] == r[i] && ways[b] == r[j] && a != b;
    }
  }

  lemma PromoteOk(ways: seq<Line>, k: nat)
    requires WaysOk(ways) && k < |ways|
    ensures WaysOk(Promote(ways, k))
  {
    hide Promote, WaysOk;
    forall j: nat | j < |ways| ensures Promote(ways, k)[j] == ways[Origin(k, j)] { PromoteAt(ways, k, j); }
    RearrangedOk(ways, Promote(ways, k), k);
  }

  lemma LookupOk(ways: seq<Line>, tag: nat)
    requires WaysOk(ways)
    ensures WaysOk(Lookup(ways, tag))
  {
    hide Promote, WaysOk;
    if Holds(ways, tag) { PromoteOk(ways, Find(ways, tag)); }
  }

  lemma OverwriteOk(ways: seq<Line>, k: nat, line: Line)
    requires WaysOk(ways) && k < |ways| && LineOk(line)
    requires forall j :: 0 <= j < |ways| && j != k ==> ways[j].tag != line.tag || line.tag == 0
    ensures WaysOk(ways[k := line])
  {
    hide LineOk;
  }

  lemma LookupStates(ways: seq<Line>, tag: nat, other: nat)
    requires WaysOk(ways) && other != 0
    ensures StateOf(Lookup(ways, tag), other) == StateOf(ways, other)
  {
    LookupOk(ways, tag);
    if Holds(ways, tag) {
      var k := Find(ways, tag);
      var r := Lookup(ways, tag);
      var i := Find(ways, other);
      if i < |ways| {
        var j := if i == k then 0 else if i < k then i + 1 else i;
        PromoteAt(ways, k, j);
        FoundIs(r, j);
      } else if Holds(r, other) {
        var j := Find(r, other);
        PromoteAt(ways, k, j);
        assert false;
      }
    }
  }

  lemma FillOk(ways: seq<Line>, tag: nat, state: MSI)
    requires WaysOk(ways) && |ways| > 0 && tag != 0 && state != Invalid
    ensures WaysOk(Fill(ways, tag, state))
  {
    hide WaysOk, Promote;
    if Holds(ways, tag) {
      OnlyThere(ways, tag);
      OverwriteOk(ways, Find(ways, tag), Line(tag, state));
    } else {
      var k := FreeWay(ways);
      PromoteOk(ways, k);
      forall j: nat | j < |ways| ensures Promote(ways, k)[j].tag != tag { PromoteAt(ways, k, j); }
      OverwriteOk(Promote(ways, k), 0, Line(tag, state));
    }
  }

  lemma OnlyThere(ways: seq<Line>, tag: nat)
    requires WaysOk(ways) && Holds(ways, tag) && tag != 0
    ensures forall j :: 0 <= j < |ways| && j != Find(ways, tag) ==> ways[j].tag != tag
  {
  }

  /** What a fill does to the tags: the new one comes in, and one goes out only when every way is valid. */
  lemma FillStates(ways: seq<Line>, tag: nat, state: MSI, other: nat)
    requires WaysOk(ways) && |ways| > 0 && tag != 0 && state != Invalid && other != 0
    ensures StateOf(Fill(ways, tag, state), other) ==
            if other == tag then state
            else if !Holds(ways, tag) && AllValid(ways) && other == ways[|ways| - 1].tag then Invalid
            else StateOf(ways, other)
  {
    FillOk(ways, tag, state);
    var r := Fill(ways, tag, state);
    if Holds(ways, tag) {
      FoundIs(r, Find(ways, tag));
      if Holds(ways, other) { FoundIs(r, Find(ways, other)); }
    } else {
      FillMissStates(ways, tag, state, other);
    }
  }

  /** Where each line is after a fill that misses. */
  lemma FilledAt(ways: seq<Line>, tag: nat, state: MSI, j: nat)
    requires j < |ways| && !Holds(ways, tag)
    ensures Fill(ways, tag, state)[j] ==
            var k := FreeWay(ways); if j == 0 then Line(tag, state) else if j <= k then ways[j - 1] else ways[j]
  {
  }

  lemma FillMissStates(ways: seq<Line>, tag: nat, state: MSI, other: nat)
    requires WaysOk(ways) && |ways| > 0 && tag != 0 && state != Invalid && other != 0 && !Holds(ways, tag)
    ensures StateOf(Fill(ways, tag, state), other) ==
            if other == tag then state
            else if AllValid(ways) && other == ways[|ways| - 1].tag then Invalid
            else StateOf(ways, other)
  {
    hide Promote, Fill, WaysOk;
    FillOk(ways, tag, state);
    var r, k, i := Fill(ways, tag, state), FreeWay(ways), Find(ways, other);
    if other == tag {
      FilledAt(ways, tag, state, 0);
      FoundIs(r, 0);
    } else if i < |ways| && i != k {
      var j := if i < k then i + 1 else i;
      FilledAt(ways, tag, state, j);
      FoundIs(r, j);
      OnlyThere(ways, other);
    } else {
      forall j: nat | j < |r| ensures r[j].tag != other {
        FilledAt(ways, tag, state, j);
        if i == k { OnlyThere(ways, other); }
      }
    }
  }

  lemma InvalidateOk(ways: seq<Line>, tag: nat)
    requires WaysOk(ways)
    ensures WaysOk(Invalidate(ways, tag))
  {
  }

  lemma InvalidateStates(ways: seq<Line>, tag: nat, other: nat)
    requires WaysOk(ways) && tag != 0 && other != 0
    ensures StateOf(Invalidate(ways, tag), other) == if other == tag then Invalid else StateOf(ways, other)
  {
    var r := Invalidate(ways, tag);
    InvalidateOk(ways, tag);
    if other != tag && Holds(ways, other) { FoundIs(r, Find(ways, other)); }
  }

  lemma ChangeStateOk(ways: seq<Line>, tag: nat, state: MSI)
    requires WaysOk(ways) && state != Invalid && tag != 0
    ensures WaysOk(ChangeState(ways, tag, state))
  {
  }

  lemma ChangeStateStates(ways: seq<Line>, tag: nat, state: MSI, other: nat)
    requires WaysOk(ways) && tag != 0 && other != 0 && state != Invalid
    ensures StateOf(ChangeState(ways, tag, state), other) == if other == tag && Holds(ways, tag) then state
            else StateOf(ways, other)
  {
    var r := ChangeState(ways, tag, state);
    ChangeStateOk(ways, tag, state);
    if Holds(ways, other) { FoundIs(r, Find(ways, other)); }
  }

  /** With one way nothing ever moves: the direct-mapped cache. */
  lemma DirectMapped(ways: seq<Line>, tag: nat, state: MSI)
    requires |ways| == 1
    ensures Holds(ways, tag) <==> ways[0].tag == tag
    ensures Lookup(ways, tag) == ways && Fill(ways, tag, state) == [Line(tag, state)]
  {
    assert ways == [ways[0]];
  }
}

/** The text of a logged clock: one line of comma-separated entries, printed as signed and read back
    into unsigned 32-bit counters. */
module EpochLog {
  import opened Optional
  import Bits
  import opened Clocks

  const WORD: nat := 0x1_0000_0000

  /** The value %d shows for an unsigned entry. */
  function Signed(u: nat): int {
    if u < WORD / 2 then u else u - WORD
  }

  /** Conversion of an int to an unsigned entry. */
  function Unsigned(x: int): nat {
    x % WORD
  }

  function DigitChar(d: nat): (c: char)
    requires d < 10
    ensures IsDigit(c) && DigitOf(c) == d
  {
    ('0' as int + d) as char
  }

  predicate IsDigit(c: char) {
    '0' <= c <= '9'
  }

  function DigitOf(c: char): nat
    requires IsDigit(c)
  {
    c as int - '0' as int
  }

  function Digits(n: nat): (s: string)
    ensures s != "" && forall i :: 0 <= i < |s| ==> IsDigit(s[i])
  {
    if n < 10 then [DigitChar(n)] else Digits(n / 10) + [DigitChar(n % 10)]
  }

  function PrintInt(x: int): (s: string)
    ensures s != "" && ',' !in s && '\n' !in s
  {
    if x < 0 then "-" + Digits(-x) else Digits(x)
  }

  /** The number that the leading digits spell, appended to the digits of acc. */
  function Value(s: string, acc: nat): nat {
    if s == "" || !IsDigit(s[0]) then acc else Value(s[1..], 10 * acc + DigitOf(s[0]))
  }

  const BLANKS: string := " \t\n\U{0B}\U{0C}\r"

  function SkipSpaces(s: string): string {
    if s != "" && s[0] in BLANKS then SkipSpaces(s[1..]) else s
  }

  function Atoi(s: string): int {
    var t := SkipSpaces(s);
    if t != "" && t[0] == '-' then -(Value(t[1..], 0) as int)
    else if t != "" && t[0] == '+' then Value(t[1..], 0)
    else Value(t, 0)
  }

  // -------------------------------------------------------------------------------------------
  // Numbers.

  lemma {:induction false} ValueOfMore(s: string, c: char, acc: nat)
    requires IsDigit(c) && forall i :: 0 <= i < |s| ==> IsDigit(s[i])
    ensures Value(s + [c], acc) == 10 * Value(s, acc) + DigitOf(c)
  {
    if s == "" {
      assert s + [c] == [c];
      assert [c][1..] == "";
    } else {
      assert (s + [c])[1..] == s[1..] + [c];
      ValueOfMore(s[1..], c, 10 * acc + DigitOf(s[0]));
    }
  }

  lemma {:induction false} ValueOfDigits(n: nat)
    ensures Value(Digits(n), 0) == n
  {
    if n < 10 {
      assert Digits(n)[1..] == "";
    } else {
      ValueOfDigits(n / 10);
      ValueOfMore(Digits(n / 10), DigitChar(n % 10), 0);
    }
  }

  lemma AtoiOfPrinted(x: int)
    ensures Atoi(PrintInt(x)) == x
  {
    hide Value, Digits;
    var s := PrintInt(x);
    assert !(s[0] in BLANKS);
    if x < 0 {
      assert s[1..] == Digits(-x);
      ValueOfDigits(-x);
    } else {
      ValueOfDigits(x);
    }
  }

  /** Printing as signed and reading back loses nothing of a 32-bit entry. */
  lemma EntryRoundTrip(u: nat)
    requires u < WORD
    ensures Unsigned(Atoi(PrintInt(Signed(u)))) == u
  {
    AtoiOfPrinted(Signed(u));
  }

  // -------------------------------------------------------------------------------------------
  // Lines.

  function CommaIn(s: string): (k: nat)
    ensures k <= |s| && (k < |s| ==> s[k] == ',') && forall i :: 0 <= i < k ==> s[i] != ','
  {
    if s == "" || s[0] == ',' then 0 else CommaIn(s[1..]) + 1
  }

  /** What getline with delimiter ',' yields until it fails. */
  function Fields(s: string): seq<string>
    decreases |s|
  {
    if s == "" then []
    else
      var k := CommaIn(s);
      [s[..k]] + if k == |s| then [] else Fields(s[k + 1..])
  }

  function Join(parts: seq<string>): string {
    if parts == [] then "" else if |parts| == 1 then parts[0] else parts[0] + "," + Join(parts[1..])
  }

  lemma {:induction false} FieldsOfJoin(parts: seq<string>)
    requires forall i :: 0 <= i < |parts| ==> parts[i] != "" && ',' !in parts[i]
    ensures Fields(Join(parts)) == parts
  {
    if |parts| > 0 {
      var p := parts[0];
      var s := Join(parts);
      if |parts| == 1 {
        assert CommaIn(s) == |s| && s[..|s|] == s;
        assert parts == [p];
      } else {
        var rest := Join(parts[1..]);
        assert s == p + "," + rest;
        assert s[|p|] == ',' && forall i :: 0 <= i < |p| ==> s[i] == p[i];
        assert CommaIn(s) == |p|;
        assert s[..|p|] == p && s[|p| + 1..] == rest;
        FieldsOfJoin(parts[1..]);
      }
    }
  }

  function PrintedFrom(v: Vec, i: nat): seq<string>
    requires i <= MAX_THREAD_COUNT
  {
    seq(MAX_THREAD_COUNT - i, k requires 0 <= k < MAX_THREAD_COUNT - i => PrintInt(Signed(v[i + k])))
  }

  /** The line of a clock, without its newline. */
  function Line(v: Vec): string {
    Join(PrintedFrom(v, 0))
  }

  /** The clock that a line gives; the code asserts that there are exactly enough fields. */
  function ClockOf(s: string): Option<Vec> {
    var fields := Fields(s);
    if |fields| != MAX_THREAD_COUNT then None
    else Some(seq(MAX_THREAD_COUNT, i requires 0 <= i < MAX_THREAD_COUNT => Unsigned(Atoi(fields[i]))))
  }

  /** Every clock of 32-bit entries survives being logged and read back, and takes exactly its fields. */
  lemma LogRoundTrip(v: Vec)
    requires forall i :: 0 <= i < MAX_THREAD_COUNT ==> v[i] < WORD
    ensures |Fields(Line(v))| == MAX_THREAD_COUNT && ClockOf(Line(v)) == Some(v)
  {
    hide PrintInt, Atoi, Signed, Unsigned, Fields, Join;
    FieldsOfJoin(PrintedFrom(v, 0));
    forall i: nat | i < MAX_THREAD_COUNT ensures Unsigned(Atoi(PrintedFrom(v, 0)[i])) == v[i] { EntryRoundTrip(v[i]); }
    assert ClockOf(Line(v)).value == v;
  }

  /** Different clocks are logged differently. */
  lemma LogsTellClocksApart(v: Vec, w: Vec)
    requires forall i :: 0 <= i < MAX_THREAD_COUNT ==> v[i] < WORD && w[i] < WORD
    requires Line(v) == Line(w)
    ensures v == w
  {
    hide Line, ClockOf;
    LogRoundTrip(v);
    LogRoundTrip(w);
  }

  // -------------------------------------------------------------------------------------------
  // What the text looks like.

  function TenTo(k: nat): (p: nat)
    ensures p > 0
  {
    if k == 0 then 1 else 10 * TenTo(k - 1)
  }

  /** The usual decimal notation of n: each digit in its place, and none in front that is not needed. */
  ghost predicate Decimal(s: string, n: nat) {
    && s != "" && n < TenTo(|s|) && (|s| > 1 ==> n >= TenTo(|s| - 1))
    && forall i: nat :: i < |s| ==> s[|s| - 1 - i] == Place(n, i)
  }

  /** The digit of n for 10 to the i. */
  function Place(n: nat, i: nat): char {
    "0123456789"[(n / TenTo(i)) % 10]
  }

  lemma PlaceOfTenth(n: nat, i: nat)
    ensures Place(n, i + 1) == Place(n / 10, i)
  {
    DivideTwice(n, TenTo(i));
  }

  lemma LastPlace(n: nat)
    ensures Place(n, 0) == DigitChar(n % 10)
  {
    DigitIs(n % 10);
    assert TenTo(0) == 1;
  }

  lemma TenSteps(k: nat)
    ensures TenTo(0) == 1 && TenTo(k + 1) == 10 * TenTo(k)
  {
  }

  lemma DivideTwice(n: nat, p: nat)
    requires p > 0
    ensures n / 10 / p == n / (10 * p)
  {
    var q := n / 10 / p;
    assert n / 10 == q * p + (n / 10) % p;
    assert n == (10 * p) * q + (10 * ((n / 10) % p) + n % 10);
    assert 10 * ((n / 10) % p) + n % 10 < 10 * p;
    Bits.OneQuotient(n, q, 10 * p);
  }

  lemma DecimalMore(s: string, n: nat)
    requires Decimal(s, n / 10) && n >= 10
    ensures Decimal(s + [DigitChar(n % 10)], n)
  {
    hide DigitChar, Place, TenTo;
    var all := s + [DigitChar(n % 10)];
    TenSteps(|s|);
    TenSteps(|s| - 1);
    LastPlace(n);
    forall i: nat | i < |all| ensures all[|all| - 1 - i] == Place(n, i) {
      if i > 0 { PlaceOfTenth(n, i - 1); }
    }
  }

  lemma {:induction false} DigitsAreDecimal(n: nat)
    ensures Decimal(Digits(n), n)
  {
    hide DigitChar, Place, TenTo, Decimal;
    if n < 10 {
      OneDigit(n);
    } else {
      DigitsAreDecimal(n / 10);
      DecimalMore(Digits(n / 10), n);
    }
  }

  lemma OneDigit(n: nat)
    requires n < 10
    ensures Decimal([DigitChar(n)], n)
  {
    hide DigitChar;
    LastPlace(n);
    TenSteps(0);
  }

  lemma DigitIs(d: nat)
    requires d < 10
    ensures DigitChar(d) == "0123456789"[d]
  {
  }

  /** An entry is printed in decimal, and from 2 to the 31 on as the negative number of the same word. */
  ghost predicate Shows(f: string, u: nat)
    requires u < 0x1_0000_0000
  {
    if u < 0x8000_0000 then Decimal(f, u)
    else f != "" && f[0] == '-' && Decimal(f[1..], 0x1_0000_0000 - u)
  }

  lemma PrintedShows(u: nat)
    requires u < WORD
    ensures Shows(PrintInt(Signed(u)), u)
  {
    hide Digits, Decimal;
    DigitsAreDecimal(if u < WORD / 2 then u else WORD - u);
    if u >= WORD / 2 { assert PrintInt(Signed(u))[1..] == Digits(WORD - u); }
  }

  /** The line of a clock of 32-bit entries has one field for each, in order, that shows it. */
  lemma LineShowsEntries(v: Vec)
    requires forall i :: 0 <= i < MAX_THREAD_COUNT ==> v[i] < WORD
    ensures |Fields(Line(v))| == 32
    ensures forall i: nat :: i < 32 ==> Shows(Fields(Line(v))[i], v[i])
  {
    hide PrintInt, Signed, Fields, Join, Shows;
    FieldsOfJoin(PrintedFrom(v, 0));
    forall i: nat | i < MAX_THREAD_COUNT ensures Shows(Fields(Line(v))[i], v[i]) { PrintedShows(v[i]); }
  }

  /** What atoi makes of a text: blanks are skipped, one sign is taken, and the digits end at the first
      character that is none. */
  lemma {:induction false} AtoiReads(blanks: string, sign: string, n: nat, rest: string)
    requires (forall c :: c in blanks ==> c in " \t\n\U{0B}\U{0C}\r") && sign in {"", "+", "-"}
    requires rest == "" || !('0' <= rest[0] <= '9')
    ensures Atoi(blanks + sign + Digits(n) + rest) == if sign == "-" then -(n as int) else n
  {
    hide Value, Digits;
    var text := sign + Digits(n) + rest;
    assert blanks + sign + Digits(n) + rest == blanks + text;
    assert text[0] !in BLANKS by { assert sign == "" ==> text[0] == Digits(n)[0]; }
    BlanksSkipped(blanks, text);
    ValueEnds(Digits(n), rest, 0);
    ValueOfDigits(n);
    if sign == "" { assert text == Digits(n) + rest; } else { assert text[1..] == Digits(n) + rest; }
  }

  lemma {:induction false} BlanksSkipped(blanks: string, text: string)
    requires (forall c :: c in blanks ==> c in BLANKS) && text != "" && text[0] !in BLANKS
    ensures SkipSpaces(blanks + text) == text
  {
    if blanks == "" {
      assert blanks + text == text;
    } else {
      assert (blanks + text)[1..] == blanks[1..] + text;
      BlanksSkipped(blanks[1..], text);
    }
  }

  lemma {:induction false} ValueEnds(digits: string, rest: string, acc: nat)
    requires (forall i :: 0 <= i < |digits| ==> IsDigit(digits[i])) && (rest == "" || !IsDigit(rest[0]))
    ensures Value(digits + rest, acc) == Value(digits, acc)
  {
    if digits == "" {
      assert digits + rest == rest;
    } else {
      assert (digits + rest)[1..] == digits[1..] + rest;
      ValueEnds(digits[1..], rest, 10 * acc + DigitOf(digits[0]));
    }
  }

  /** A text without digits after the blanks and the sign is 0. */
  lemma AtoiOfNothing(rest: string)
    requires rest == "" || (rest[0] !in BLANKS && rest[0] !in "+-" && !('0' <= rest[0] <= '9'))
    ensures Atoi(rest) == 0
  {
  }

  /** The conversion to an unsigned entry keeps the value modulo 2 to the 32. */
  lemma UnsignedIs(x: int)
    ensures 0 <= Unsigned(x) < 0x1_0000_0000 && exists k: int :: Unsigned(x) == x + k * 0x1_0000_0000
  {
    assert Unsigned(x) == x + (-(x / WORD)) * 0x1_0000_0000;
  }

  // -------------------------------------------------------------------------------------------
  // The loops.

  lemma JoinFront(v: Vec, i: nat)
    requires i + 1 < MAX_THREAD_COUNT
    ensures Join(PrintedFrom(v, i)) == PrintInt(Signed(v[i])) + "," + Join(PrintedFrom(v, i + 1))
  {
    hide PrintInt, Signed;
    assert PrintedFrom(v, i)[1..] == PrintedFrom(v, i + 1);
  }

  lemma JoinLast(v: Vec)
    ensures Join(PrintedFrom(v, MAX_THREAD_COUNT - 1)) == PrintInt(Signed(v[MAX_THREAD_COUNT - 1]))
  {
  }

  method PrintVector(v: Vec) returns (out: string)
    ensures out == Line(v) + "\n"
  {
    hide PrintInt, Signed, Join, PrintedFrom;
    out := "";
    for i := 0 to MAX_THREAD_COUNT - 1
      invariant out + Join(PrintedFrom(v, i)) == Line(v)
    {
      JoinFront(v, i);
      ghost var before := out;
      out := out + PrintInt(Signed(v[i])) + ",";
      assert before + (PrintInt(Signed(v[i])) + "," + Join(PrintedFrom(v, i + 1))) == out + Join(PrintedFrom(v, i + 1));
    }
    JoinLast(v);
    out := out + PrintInt(Signed(v[MAX_THREAD_COUNT - 1])) + "\n";
  }

  /** The numbers of a line's fields, one after the other. */
  function EntriesOf(s: string): seq<nat>
    decreases |s|
  {
    if s == "" then [] else [Unsigned(Atoi(s[..CommaIn(s)]))] + EntriesOf(AfterField(s))
  }

  /** What is left of a line after its first field. */
  function AfterField(s: string): (t: string)
    requires s != ""
    ensures |t| < |s|
  {
    var k := CommaIn(s);
    if k == |s| then "" else s[k + 1..]
  }

  lemma {:induction false} EntriesAre(s: string)
    ensures |EntriesOf(s)| == |Fields(s)|
    ensures forall i :: 0 <= i < |Fields(s)| ==> EntriesOf(s)[i] == Unsigned(Atoi(Fields(s)[i]))
    decreases |s|
  {
    hide Unsigned, Atoi, Fields, EntriesOf;
    FieldStep(s);
    if s != "" { EntriesAre(AfterField(s)); }
  }

  lemma FieldStep(s: string)
    ensures s == "" ==> Fields(s) == [] && EntriesOf(s) == []
    ensures s != "" ==> Fields(s) == [s[..CommaIn(s)]] + Fields(AfterField(s))
    ensures s != "" ==> EntriesOf(s) == [Unsigned(Atoi(s[..CommaIn(s)]))] + EntriesOf(AfterField(s))
  {
    hide Unsigned, Atoi;
  }

  lemma ClockIs(s: string)
    ensures ClockOf(s) == if |EntriesOf(s)| == MAX_THREAD_COUNT then Some(EntriesOf(s)) else None
  {
    hide Fields, Atoi, Unsigned, EntriesOf;
    EntriesAre(s);
    if |EntriesOf(s)| == MAX_THREAD_COUNT { assert ClockOf(s).value == EntriesOf(s); }
  }

  lemma NextEntry(entries: seq<nat>, rest: string)
    requires rest != ""
    ensures entries + EntriesOf(rest) == entries + [Unsigned(Atoi(rest[..CommaIn(rest)]))] + EntriesOf(AfterField(rest))
  {
    hide Atoi, Unsigned;
  }

  /** The stream constructor: None where an assertion of the code fails. */
  method ParseVector(s: string) returns (vc: Option<Vec>)
    ensures vc == ClockOf(s)
  {
    hide CommaIn, Atoi, Unsigned, ClockOf, EntriesOf, AfterField;
    ClockIs(s);
    var rest := s;
    var entries: seq<nat> := [];
    while rest != ""
      invariant EntriesOf(s) == entries + EntriesOf(rest)
      invariant |entries| <= MAX_THREAD_COUNT
      decreases |rest|
    {
      NextEntry(entries, rest);
      if |entries| == MAX_THREAD_COUNT {
        return None;
      }
      entries := entries + [Unsigned(Atoi(rest[..CommaIn(rest)]))];
      rest := AfterField(rest);
    }
    FieldStep("");
    assert entries + [] == entries;
    if |entries| != MAX_THREAD_COUNT {
      return None;
    }
    return Some(entries);
  }
}

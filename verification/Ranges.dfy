/** The `Range` header of a stream request (section 14.1.2 of RFC 9110). */
module Ranges {
  import opened Text
  import opened Wrappers

  datatype Answer = Served(start: int, end: int, partial: bool) | Refused

  function Lower(c: char): char { if 'A' <= c <= 'Z' then c - 'A' + 'a' else c }

  function LowerCase(s: string): (r: string)
    ensures |r| == |s|
    ensures forall i :: 0 <= i < |s| ==> r[i] == Lower(s[i])
  {
    if s == [] then [] else [Lower(s[0])] + LowerCase(s[1..])
  }

  predicate HasUnit(h: string) { |h| >= 6 && LowerCase(h[..6]) == "bytes=" }

  /** The two texts around the first `-`. */
  function Between(first: string, last: string, length: int): (a: Answer)
    requires 0 < length
    ensures a.Served? ==> a.partial && 0 <= a.start <= a.end < length
  {
    if first == "" then
      var n := ParseInt(last);
      if n.None? || n.value <= 0 then Refused
      else Served(length - (if n.value > length then length else n.value), length - 1, true)
    else
      var start := ParseInt(first);
      if start.None? || start.value < 0 || start.value >= length then Refused
      else if last == "" then Served(start.value, length - 1, true)
      else
        var end := ParseInt(last);
        if end.None? || end.value < start.value then Refused
        else Served(start.value, if end.value >= length then length - 1 else end.value, true)
  }

  /** What is served always lies inside the file; it is the whole file without a
      header, and a part of it with one. */
  function ParseRange(h: string, length: int): (a: Answer)
    ensures a.Served? ==> 0 <= a.start <= a.end < length && (a.partial <==> h != "")
    ensures h == "" && length > 0 ==> a.Served? && a.start == 0 && a.end == length - 1
  {
    if length <= 0 then Refused
    else if h == "" then Served(0, length - 1, false)
    else if !HasUnit(h) || ',' in h then Refused
    else
      var spec := h[6..];
      var dash := IndexOf(spec, '-');
      if dash == |spec| then Refused else Between(spec[..dash], spec[dash + 1..], length)
  }

  // ---- What the header means ----

  datatype Spec = FromTo(first: nat, last: nat) | From(first: nat) | Suffix(count: nat)

  function Print(s: Spec): string {
    match s
    case FromTo(first, last) => Decimal(first) + "-" + Decimal(last)
    case From(first) => Decimal(first) + "-"
    case Suffix(count) => "-" + Decimal(count)
  }

  /** The bytes a satisfiable specification selects, as the standard says. */
  function Meaning(s: Spec, length: int): Answer {
    match s
    case FromTo(first, last) =>
      if first <= last && first < length then Served(first, if last < length then last else length - 1, true) else Refused
    case From(first) =>
      if first < length then Served(first, length - 1, true) else Refused
    case Suffix(count) =>
      if 0 < count && 0 < length then Served(if count < length then length - count else 0, length - 1, true) else Refused
  }

  /** The number behind the dash. */
  function Behind(s: Spec): int {
    match s
    case FromTo(_, last) => last
    case From(_) => 0
    case Suffix(count) => count
  }

  lemma DecimalHasNo(n: nat, c: char)
    requires !IsDigit(c)
    ensures c !in Decimal(n)
  {
    assert AllDigits(Decimal(n));
  }

  function Texts(s: Spec): (string, string) {
    match s
    case FromTo(first, last) => (Decimal(first), Decimal(last))
    case From(first) => (Decimal(first), "")
    case Suffix(count) => ("", Decimal(count))
  }

  lemma PrintedTexts(s: Spec)
    ensures var (a, b) := Texts(s);
            && Print(s) == a + "-" + b
            && '-' !in a && ',' !in Print(s)
  {
    match s
    case FromTo(first, last) =>
      DecimalHasNo(first, '-');
      DecimalHasNo(first, ',');
      DecimalHasNo(last, ',');
    case From(first) =>
      DecimalHasNo(first, '-');
      DecimalHasNo(first, ',');
      assert Decimal(first) + "-" + "" == Decimal(first) + "-";
    case Suffix(count) =>
      DecimalHasNo(count, ',');
      assert "" + "-" + Decimal(count) == "-" + Decimal(count);
  }

  lemma HeaderIsSplit(unit: string, s: Spec, length: int)
    requires |unit| == 6 && HasUnit(unit) && 0 < length
    ensures ParseRange(unit + Print(s), length) == Between(Texts(s).0, Texts(s).1, length)
  {
    var h := unit + Print(s);
    PrintedTexts(s);
    var (a, b) := Texts(s);
    assert h[..6] == unit && h[6..] == Print(s) && unit[..6] == unit;
    UnitHasNoComma(unit);
    hide Texts, Print, Between, HasUnit, LowerCase;
    assert HasUnit(h) by { UnitOnly(unit, Print(s)); }
    IndexOfPrefix(a, '-', b);
    var spec := h[6..];
    assert spec[..|a|] == a && spec[|a| + 1..] == b;
  }

  lemma UnitOnly(unit: string, rest: string)
    requires |unit| == 6 && HasUnit(unit)
    ensures HasUnit(unit + rest)
  {
    assert (unit + rest)[..6] == unit[..6];
  }

  lemma UnitHasNoComma(unit: string)
    requires |unit| == 6 && HasUnit(unit)
    ensures ',' !in unit
  {
    assert unit[..6] == unit;
    forall i | 0 <= i < 6 ensures unit[i] != ',' {
      assert Lower(unit[i]) == "bytes="[i];
    }
  }

  lemma FromToTexts(first: nat, last: nat, length: int)
    requires 0 < length <= MAX_INT64
    ensures Between(Decimal(first), Decimal(last), length)
         == if last > MAX_INT64 then Refused else Meaning(FromTo(first, last), length)
  {
    ParseDecimal(first);
    ParseDecimal(last);
    hide ParseInt, Decimal;
  }

  lemma FromTexts(first: nat, length: int)
    requires 0 < length <= MAX_INT64
    ensures Between(Decimal(first), "", length) == Meaning(From(first), length)
  {
    ParseDecimal(first);
    hide ParseInt, Decimal;
  }

  lemma SuffixTexts(count: nat, length: int)
    requires 0 < length <= MAX_INT64
    ensures Between("", Decimal(count), length)
         == if count > MAX_INT64 then Refused else Meaning(Suffix(count), length)
  {
    ParseDecimal(count);
    hide ParseInt, Decimal;
  }

  /** A printed specification is answered as the standard says, in whatever case
      the unit is written, except in exactly one case: it is satisfiable, but
      the number behind the dash does not fit 64 bits. Then it is refused. */
  lemma PrintedRangeIsUnderstood(unit: string, s: Spec, length: int)
    requires |unit| == 6 && HasUnit(unit) && 0 < length <= MAX_INT64
    ensures ParseRange(unit + Print(s), length) == Meaning(s, length)
       <==> !(Meaning(s, length).Served? && Behind(s) > MAX_INT64)
    ensures Behind(s) > MAX_INT64 ==> ParseRange(unit + Print(s), length) == Refused
  {
    HeaderIsSplit(unit, s, length);
    hide ParseRange, Print, HasUnit, Between, Meaning;
    match s
    case FromTo(first, last) => FromToTexts(first, last, length);
    case From(first) => FromTexts(first, length);
    case Suffix(count) => SuffixTexts(count, length);
  }

  /** The standard accepts a last position past any length; the reader refuses
      the first one that does not fit 64 bits. */
  lemma HugeLastPositionIsRefused()
    ensures Meaning(FromTo(0, MAX_INT64 + 1), 10) == Served(0, 9, true)
    ensures ParseRange("bytes=" + Print(FromTo(0, MAX_INT64 + 1)), 10) == Refused
  {
    assert "bytes="[..6] == "bytes=";
    assert HasUnit("bytes=") by {
      var unit := "bytes=";
      assert forall i :: 0 <= i < 6 ==> LowerCase(unit)[i] == Lower(unit[i]) == unit[i];
      assert LowerCase(unit) == unit;
    }
    PrintedRangeIsUnderstood("bytes=", FromTo(0, MAX_INT64 + 1), 10);
  }
}

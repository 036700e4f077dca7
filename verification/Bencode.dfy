/** The reader of torrent metadata (BEP 3, bencoding). Bytes are chars. The
    reader is lenient: an integer keeps whatever text stands before its `e`, a
    length may carry a sign or leading zeros, keys may repeat and be unsorted. */
module Bencode {
  import opened Text
  import opened Wrappers

  datatype Node = Leaf(value: string) | List(items: seq<Node>) | Dict(entries: map<string, Node>)

  /** `Crash` is no error the reader returns: the slice expression panics. */
  datatype Fault = Invalid | OpenInteger | OpenList | OpenDictionary | InvalidString | InvalidLength | Crash

  datatype Outcome = Read(node: Node, next: int) | Malformed(fault: Fault)

  /** Go reads an absent field as its zero value. */
  function ValueOf(n: Node): string { if n.Leaf? then n.value else "" }
  function ItemsOf(n: Node): seq<Node> { if n.List? then n.items else [] }
  function EntriesOf(n: Node): map<string, Node> { if n.Dict? then n.entries else map[] }

  /** The first index of `c` at or after `from`, or |data| when there is none. */
  function IndexFrom(data: string, from: int, c: char): (i: int)
    requires 0 <= from <= |data|
    ensures from <= i <= |data|
    ensures i < |data| ==> data[i] == c
    ensures forall k :: from <= k < i ==> data[k] != c
    decreases |data| - from
  {
    if from == |data| || data[from] == c then from else IndexFrom(data, from + 1, c)
  }

  /** A byte string: its length in decimal, a colon, its bytes. The bounds check
      adds in 64 bits, so a huge length can pass it. */
  function ReadString(data: string, pos: int): (r: Outcome)
    requires 0 <= pos < |data|
    ensures r.Read? ==> pos < r.next <= |data|
  {
    var colon := IndexFrom(data, pos, ':');
    if colon == |data| then Malformed(InvalidString)
    else
      var length := ParseInt(data[pos..colon]);
      if length.None? || length.value < 0 || Wrap(colon + 1 + length.value) > |data| then Malformed(InvalidLength)
      else if colon + 1 + length.value > |data| then Malformed(Crash)
      else Read(Leaf(data[colon + 1..colon + 1 + length.value]), colon + 1 + length.value)
  }

  function ReadInteger(data: string, pos: int): (r: Outcome)
    requires 0 <= pos < |data|
    ensures r.Read? ==> pos < r.next <= |data|
  {
    var end := IndexFrom(data, pos + 1, 'e');
    if end == |data| then Malformed(OpenInteger) else Read(Leaf(data[pos + 1..end]), end + 1)
  }

  /** A successful read advances and stays in bounds. */
  function ReadNode(data: string, pos: int): (r: Outcome)
    ensures r.Read? ==> 0 <= pos < r.next <= |data|
    decreases |data| - pos, 0
  {
    if pos < 0 || pos >= |data| then Malformed(Invalid)
    else if data[pos] == 'i' then ReadInteger(data, pos)
    else if data[pos] == 'l' then ReadItems(data, pos + 1, [])
    else if data[pos] == 'd' then ReadEntries(data, pos + 1, map[])
    else ReadString(data, pos)
  }

  function ReadItems(data: string, pos: int, before: seq<Node>): (r: Outcome)
    requires 0 <= pos <= |data|
    ensures r.Read? ==> pos < r.next <= |data|
    decreases |data| - pos, 1
  {
    if pos == |data| then Malformed(OpenList)
    else if data[pos] == 'e' then Read(List(before), pos + 1)
    else
      var child := ReadNode(data, pos);
      if child.Malformed? then child else ReadItems(data, child.next, before + [child.node])
  }

  function ReadEntries(data: string, pos: int, before: map<string, Node>): (r: Outcome)
    requires 0 <= pos <= |data|
    ensures r.Read? ==> pos < r.next <= |data|
    decreases |data| - pos, 1
  {
    if pos == |data| then Malformed(OpenDictionary)
    else if data[pos] == 'e' then Read(Dict(before), pos + 1)
    else
      var key := ReadNode(data, pos);
      if key.Malformed? then key
      else
        var value := ReadNode(data, key.next);
        if value.Malformed? then value
        else ReadEntries(data, value.next, before[ValueOf(key.node) := value.node])
  }

  /** The reader itself: a recursive descent that advances `pos` and fills the
      list or dictionary in loops. */
  method ReadBNode(data: string, start: int) returns (r: Outcome)
    ensures r == ReadNode(data, start)
    decreases |data| - start
  {
    hide ParseInt, Wrap;
    var pos := start;
    if pos < 0 || pos >= |data| { return Malformed(Invalid); }
    if data[pos] == 'i' { return ReadInteger(data, pos); }
    if data[pos] == 'l' {
      var list := [];
      pos := pos + 1;
      while pos < |data| && data[pos] != 'e'
        invariant start < pos <= |data|
        invariant ReadNode(data, start) == ReadItems(data, pos, list)
        decreases |data| - pos
      {
        var child := ReadBNode(data, pos);
        if child.Malformed? { return child; }
        list := list + [child.node];
        pos := child.next;
      }
      if pos >= |data| { return Malformed(OpenList); }
      return Read(List(list), pos + 1);
    }
    if data[pos] == 'd' {
      var dict := map[];
      pos := pos + 1;
      while pos < |data| && data[pos] != 'e'
        invariant start < pos <= |data|
        invariant ReadNode(data, start) == ReadEntries(data, pos, dict)
        decreases |data| - pos
      {
        var key := ReadBNode(data, pos);
        if key.Malformed? { return key; }
        var value := ReadBNode(data, key.next);
        if value.Malformed? { return value; }
        dict := dict[ValueOf(key.node) := value.node];
        pos := value.next;
      }
      if pos >= |data| { return Malformed(OpenDictionary); }
      return Read(Dict(dict), pos + 1);
    }
    var colon := pos;
    while colon < |data| && data[colon] != ':'
      invariant pos <= colon <= |data|
      invariant IndexFrom(data, pos, ':') == IndexFrom(data, colon, ':')
    {
      colon := colon + 1;
    }
    if colon >= |data| { return Malformed(InvalidString); }
    var length := ParseInt(data[pos..colon]);
    if length.None? || length.value < 0 || Wrap(colon + 1 + length.value) > |data| { return Malformed(InvalidLength); }
    if colon + 1 + length.value > |data| { return Malformed(Crash); }
    return Read(Leaf(data[colon + 1..colon + 1 + length.value]), colon + 1 + length.value);
  }

  // ---- The printer, and what its output is read as ----

  datatype Value = Int(n: int) | Str(s: string) | Many(values: seq<Value>) | Keyed(fields: seq<Field>)

  datatype Field = Field(key: string, value: Value)

  function Signed(n: int): (s: string)
    ensures 'e' !in s
  {
    if n < 0 then "-" + Decimal(-n) else Decimal(n)
  }

  function EncodeString(s: string): string { Decimal(|s|) + ":" + s }

  function Encode(v: Value): (s: string)
    ensures s != [] && s[0] != 'e'
  {
    match v
    case Int(n) => "i" + Signed(n) + "e"
    case Str(s) => EncodeString(s)
    case Many(values) => "l" + EncodeValues(values) + "e"
    case Keyed(fields) => "d" + EncodeFields(fields) + "e"
  }

  function EncodeValues(values: seq<Value>): string {
    if values == [] then "" else Encode(values[0]) + EncodeValues(values[1..])
  }

  function EncodeFields(fields: seq<Field>): string {
    if fields == [] then ""
    else EncodeString(fields[0].key) + Encode(fields[0].value) + EncodeFields(fields[1..])
  }

  function Denote(v: Value): Node {
    match v
    case Int(n) => Leaf(Signed(n))
    case Str(s) => Leaf(s)
    case Many(values) => List(DenoteValues(values))
    case Keyed(fields) => Dict(DenoteFields(fields, map[]))
  }

  function DenoteValues(values: seq<Value>): seq<Node> {
    if values == [] then [] else [Denote(values[0])] + DenoteValues(values[1..])
  }

  /** A repeated key keeps its last value. */
  function DenoteFields(fields: seq<Field>, before: map<string, Node>): map<string, Node> {
    if fields == [] then before
    else DenoteFields(fields[1..], before[fields[0].key := Denote(fields[0].value)])
  }

  /** `s` stands in `data` at `pos`. */
  predicate At(data: string, pos: int, s: string) {
    0 <= pos && pos + |s| <= |data| && data[pos..pos + |s|] == s
  }

  lemma AtConcat(data: string, pos: int, a: string, b: string)
    requires At(data, pos, a + b)
    ensures At(data, pos, a) && At(data, pos + |a|, b)
  {
    assert data[pos..pos + |a|] == (a + b)[..|a|];
    assert data[pos + |a|..pos + |a + b|] == (a + b)[|a|..];
  }

  lemma AtChar(data: string, pos: int, s: string, k: int)
    requires At(data, pos, s) && 0 <= k < |s|
    ensures data[pos + k] == s[k]
  {
    assert data[pos..pos + |s|][k] == data[pos + k];
  }

  lemma IndexFromIs(data: string, from: int, c: char, i: int)
    requires 0 <= from <= i < |data| && data[i] == c
    requires forall k :: from <= k < i ==> data[k] != c
    ensures IndexFrom(data, from, c) == i
  {
  }

  /** Text without `c` and then `c`: the search stops right behind the text. */
  lemma IndexFromText(data: string, from: int, s: string, c: char)
    requires At(data, from, s + [c]) && c !in s
    ensures IndexFrom(data, from, c) == from + |s|
    ensures data[from..from + |s|] == s
  {
    AtChar(data, from, s + [c], |s|);
    forall k | from <= k < from + |s| ensures data[k] != c {
      AtChar(data, from, s + [c], k - from);
    }
    IndexFromIs(data, from, c, from + |s|);
    AtConcat(data, from, s, [c]);
  }

  lemma DecimalHasNo(n: nat, c: char)
    requires !IsDigit(c)
    ensures c !in Decimal(n)
  {
    assert AllDigits(Decimal(n));
  }

  lemma AtHead(data: string, pos: int, a: string, b: string)
    requires At(data, pos, a + b) && a != []
    ensures 0 <= pos < |data| && data[pos] == a[0] && At(data, pos, a) && At(data, pos + |a|, b)
  {
    AtConcat(data, pos, a, b);
    AtChar(data, pos, a, 0);
  }

  /** What a byte string is read as, its colon and length being known. */
  lemma ReadStringIs(data: string, pos: int, colon: int, length: int)
    requires 0 <= pos < colon < |data| && IndexFrom(data, pos, ':') == colon
    requires ParseInt(data[pos..colon]) == Some(length) && 0 <= length && colon + 1 + length <= |data|
    ensures ReadString(data, pos) == Read(Leaf(data[colon + 1..colon + 1 + length]), colon + 1 + length)
  {
    hide IndexFrom, ParseInt, Wrap;
    var end := colon + 1 + length;
    WrapIsExact(end);
    assert Wrap(end) <= |data|;
  }

  /** What becomes of an announced length: it is read when the bytes are there,
      refused when they are not, and passes the wrapped check all the same, so
      that the slice panics, exactly when its end does not fit 64 bits. */
  lemma LengthOutcome(data: string, pos: int, colon: int, length: int)
    requires 0 <= pos < colon < |data| <= MAX_INT64 && IndexFrom(data, pos, ':') == colon
    requires ParseInt(data[pos..colon]) == Some(length) && 0 <= length
    ensures ReadString(data, pos).Read? <==> colon + 1 + length <= |data|
    ensures ReadString(data, pos) == Malformed(InvalidLength) <==> |data| < colon + 1 + length <= MAX_INT64
    ensures ReadString(data, pos) == Malformed(Crash) <==> colon + 1 + length > MAX_INT64
  {
    hide IndexFrom, ParseInt, Wrap;
    var end := colon + 1 + length;
    ParsedFits(data[pos..colon]);
    WrappedCheck(end, |data|);
    if end <= |data| {
      ReadStringIs(data, pos, colon, length);
    } else {
      ReadStringFails(data, pos, colon, length);
    }
  }

  lemma ReadStringFails(data: string, pos: int, colon: int, length: int)
    requires 0 <= pos < colon < |data| && IndexFrom(data, pos, ':') == colon
    requires ParseInt(data[pos..colon]) == Some(length) && 0 <= length && colon + 1 + length > |data|
    ensures ReadString(data, pos) == Malformed(if Wrap(colon + 1 + length) > |data| then InvalidLength else Crash)
  {
    hide IndexFrom, ParseInt, Wrap;
  }

  lemma ParsedFits(s: string)
    ensures ParseInt(s).Some? ==> ParseInt(s).value <= MAX_INT64
  {
    hide NumberOf;
  }

  /** A printed length, whatever follows it. */
  lemma PrintedLengthOutcome(data: string, pos: int, length: nat)
    requires |data| <= MAX_INT64 && length <= MAX_INT64 && At(data, pos, Decimal(length) + ":")
    ensures ReadNode(data, pos) == Malformed(Crash) <==> pos + |Decimal(length)| + 1 + length > MAX_INT64
    ensures ReadNode(data, pos).Read? <==> pos + |Decimal(length)| + 1 + length <= |data|
  {
    hide *;
    var d := Decimal(length);
    DecimalStart(length);
    AtHead(data, pos, d, ":");
    IndexFromText(data, pos, d, ':');
    ParseDecimal(length);
    AtIsSlice(data, pos, d + ":");
    DigitOpensString(data, pos);
    LengthOutcome(data, pos, pos + |d|, length);
  }

  /** Which error is reported: nothing there, an integer without its end, a list or a
      dictionary that the data ends in, a length without its colon, and a length that is
      none. */
  lemma FaultsAreNamed(data: string, pos: int)
    ensures !(0 <= pos < |data|) ==> ReadNode(data, pos) == Malformed(Invalid)
    ensures 0 <= pos < |data| && data[pos] == 'i' && (forall k :: pos < k < |data| ==> data[k] != 'e') ==>
              ReadNode(data, pos) == Malformed(OpenInteger)
    ensures pos == |data| - 1 >= 0 && data[pos] == 'l' ==> ReadNode(data, pos) == Malformed(OpenList)
    ensures pos == |data| - 1 >= 0 && data[pos] == 'd' ==> ReadNode(data, pos) == Malformed(OpenDictionary)
    ensures 0 <= pos < |data| && data[pos] !in {'i', 'l', 'd'} && (forall k :: pos <= k < |data| ==> data[k] != ':') ==>
              ReadNode(data, pos) == Malformed(InvalidString)
    ensures 0 <= pos < |data| && data[pos] == ':' ==> ReadNode(data, pos) == Malformed(InvalidLength)
  {
    if 0 <= pos < |data| && data[pos] == ':' {
      assert data[pos..pos] == "";
    }
    hide Wrap;
  }

  // ---- When a whole read panics ----

  /** At `q` stands a length whose end does not fit 64 bits. */
  predicate Huge(data: string, q: int) {
    && 0 <= q < |data|
    && var colon := IndexFrom(data, q, ':');
    && colon < |data|
    && var length := ParseInt(data[q..colon]);
    && length.Some? && length.value >= 0 && colon + 1 + length.value > MAX_INT64
  }

  /** At a byte string the reader panics exactly when its length is huge. */
  lemma StringCrashes(data: string, pos: int)
    requires 0 <= pos < |data| <= MAX_INT64
    ensures ReadString(data, pos) == Malformed(Crash) <==> Huge(data, pos)
  {
    var colon := IndexFrom(data, pos, ':');
    if pos < colon < |data| && ParseInt(data[pos..colon]).Some? && ParseInt(data[pos..colon]).value >= 0 {
      LengthOutcome(data, pos, colon, ParseInt(data[pos..colon]).value);
    } else if pos == colon {
      assert data[pos..colon] == "";
    }
    hide ParseInt, IndexFrom, Wrap;
  }

  lemma HugeStartsString(data: string, q: int)
    requires Huge(data, q)
    ensures ReadNode(data, q) == ReadString(data, q)
  {
    var colon := IndexFrom(data, q, ':');
    if data[q] in {'i', 'l', 'd'} {
      assert colon > q && data[q..colon][0] == data[q];
      NotANumber(data[q..colon]);
    }
    hide IndexFrom, ParseInt, ReadString;
  }

  lemma NotANumber(s: string)
    requires s != "" && !IsDigit(s[0]) && s[0] !in {'+', '-'}
    ensures ParseInt(s).None?
  {
  }

  /** A reader that panics met a huge length at or behind where it began. */
  lemma CrashIsHuge(data: string, pos: int) returns (q: int)
    requires |data| <= MAX_INT64 && ReadNode(data, pos) == Malformed(Crash)
    ensures pos <= q && Huge(data, q)
    decreases |data| - pos, 0
  {
    hide ReadString, ReadInteger, Huge;
    if data[pos] == 'i' {
      IntegerNeverCrashes(data, pos);
      assert false;
    } else if data[pos] == 'l' {
      q := ItemsCrashIsHuge(data, pos + 1, []);
    } else if data[pos] == 'd' {
      q := EntriesCrashIsHuge(data, pos + 1, map[]);
    } else {
      StringCrashes(data, pos);
      q := pos;
    }
  }

  lemma IntegerNeverCrashes(data: string, pos: int)
    requires 0 <= pos < |data|
    ensures ReadInteger(data, pos) != Malformed(Crash)
  {
    hide IndexFrom;
  }

  lemma ItemsCrashIsHuge(data: string, pos: int, before: seq<Node>) returns (q: int)
    requires 0 <= pos <= |data| <= MAX_INT64 && ReadItems(data, pos, before) == Malformed(Crash)
    ensures pos <= q && Huge(data, q)
    decreases |data| - pos, 1
  {
    hide ReadNode, Huge;
    var child := ReadNode(data, pos);
    if child.Malformed? {
      q := CrashIsHuge(data, pos);
    } else {
      q := ItemsCrashIsHuge(data, child.next, before + [child.node]);
    }
  }

  lemma EntriesCrashIsHuge(data: string, pos: int, before: map<string, Node>) returns (q: int)
    requires 0 <= pos <= |data| <= MAX_INT64 && ReadEntries(data, pos, before) == Malformed(Crash)
    ensures pos <= q && Huge(data, q)
    decreases |data| - pos, 1
  {
    hide ReadNode, Huge;
    var key := ReadNode(data, pos);
    if key.Malformed? {
      q := CrashIsHuge(data, pos);
    } else {
      var value := ReadNode(data, key.next);
      if value.Malformed? {
        q := CrashIsHuge(data, key.next);
      } else {
        q := EntriesCrashIsHuge(data, value.next, before[ValueOf(key.node) := value.node]);
      }
    }
  }

  /** Wherever the reader is started, a whole read panics only on a huge length;
      and no start from `from` on panics exactly when no huge length stands there. */
  lemma SafeExactlyWithoutHuge(data: string, from: int)
    requires |data| <= MAX_INT64
    ensures (forall pos :: from <= pos ==> ReadNode(data, pos) != Malformed(Crash)) <==> (forall q :: from <= q ==> !Huge(data, q))
  {
    hide ReadNode, ReadString, Huge;
    if pos :| from <= pos && ReadNode(data, pos) == Malformed(Crash) {
      var q := CrashIsHuge(data, pos);
      assert Huge(data, q);
    }
    if q :| from <= q && Huge(data, q) {
      HugeIsInside(data, q);
      HugeStartsString(data, q);
      StringCrashes(data, q);
      assert ReadNode(data, q) == Malformed(Crash);
    }
  }

  lemma HugeIsInside(data: string, q: int)
    requires Huge(data, q)
    ensures 0 <= q < |data|
  {
  }

  /** A dictionary whose first key announces a huge length panics the reader,
      whatever follows. */
  lemma HugeKeyCrashes(data: string, pos: int)
    requires 0 <= pos < |data| <= MAX_INT64 && data[pos] == 'd' && Huge(data, pos + 1)
    ensures ReadNode(data, pos) == Malformed(Crash)
  {
    HugeStartsString(data, pos + 1);
    StringCrashes(data, pos + 1);
    HugeIsNoEnd(data, pos + 1);
    hide Huge, ReadString;
    assert ReadNode(data, pos) == ReadEntries(data, pos + 1, map[]);
  }

  lemma HugeIsNoEnd(data: string, q: int)
    requires Huge(data, q)
    ensures 0 <= q < |data| && data[q] != 'e'
  {
    var colon := IndexFrom(data, q, ':');
    if data[q] == 'e' {
      assert colon > q && data[q..colon][0] == 'e';
      NotANumber(data[q..colon]);
    }
    hide IndexFrom, ParseInt;
  }

  /** The greatest length that parses does it, in a dictionary of twenty-one
      bytes and whatever follows them. */
  lemma HugeLengthCrashes(rest: string)
    requires |rest| <= MAX_INT64 - 21
    ensures var data := "d" + Decimal(MAX_INT64) + ":" + rest;
            |data| <= 21 + |rest| && Huge(data, 1) && ReadNode(data, 0) == Malformed(Crash)
  {
    hide Decimal, ReadNode, ReadString, ParseInt, At, IndexFrom;
    var d := Decimal(MAX_INT64);
    var data := "d" + d + ":" + rest;
    NineteenDigits();
    DecimalStart(MAX_INT64);
    assert data == "d" + (d + ":") + rest;
    Between("d", d + ":", rest);
    IndexFromText(data, 1, d, ':');
    ParseDecimal(MAX_INT64);
    HugeKeyCrashes(data, 0);
  }

  lemma Between(a: string, b: string, c: string)
    ensures At(a + b + c, |a|, b)
  {
  }

  lemma NineteenDigits()
    ensures |Decimal(MAX_INT64)| <= 19
  {
    assert PowerOfTen(5) == 100_000;
    assert PowerOfTen(10) == 100_000 * 100_000;
    assert PowerOfTen(15) == 100_000 * 100_000 * 100_000;
    assert PowerOfTen(19) == 100_000 * 100_000 * 100_000 * 10_000;
    DigitsWithin(MAX_INT64, 19);
  }

  function PowerOfTen(k: nat): int { if k == 0 then 1 else 10 * PowerOfTen(k - 1) }

  lemma {:induction false} DigitsWithin(n: nat, k: nat)
    requires 1 <= k && n < PowerOfTen(k)
    ensures 1 <= |Decimal(n)| <= k
  {
    if n >= 10 {
      assert k > 1;
      DigitsWithin(n / 10, k - 1);
      assert Decimal(n) == Decimal(n / 10) + ['0' + (n % 10) as char];
    }
  }

  lemma AtIsSlice(data: string, pos: int, s: string)
    requires At(data, pos, s)
    ensures 0 <= pos <= pos + |s| <= |data| && data[pos..pos + |s|] == s
  {
  }

  lemma DigitOpensString(data: string, pos: int)
    requires 0 <= pos < |data| && IsDigit(data[pos])
    ensures ReadNode(data, pos) == ReadString(data, pos)
  {
  }

  lemma DecimalStart(n: nat)
    ensures Decimal(n) != [] && IsDigit(Decimal(n)[0]) && ':' !in Decimal(n)
  {
    DecimalHasNo(n, ':');
    assert AllDigits(Decimal(n));
  }

  lemma StringParts(s: string)
    ensures EncodeString(s) == (Decimal(|s|) + ":") + s
  {
  }

  lemma ReadsString(data: string, pos: int, s: string)
    requires |data| <= MAX_INT64 && At(data, pos, EncodeString(s))
    ensures ReadNode(data, pos) == Read(Leaf(s), pos + |EncodeString(s)|)
  {
    hide *;
    var d := Decimal(|s|);
    StringParts(s);
    DecimalStart(|s|);
    AtHead(data, pos, d + ":", s);
    IndexFromText(data, pos, d, ':');
    AtIsSlice(data, pos + |d| + 1, s);
    ParseDecimal(|s|);
    ReadStringIs(data, pos, pos + |d|, |s|);
    DigitOpensString(data, pos);
  }

  lemma ReadsInt(data: string, pos: int, n: int)
    requires At(data, pos, Encode(Int(n)))
    ensures ReadNode(data, pos) == Read(Denote(Int(n)), pos + |Encode(Int(n))|)
  {
    AtChar(data, pos, Encode(Int(n)), 0);
    assert "i" + Signed(n) + "e" == "i" + (Signed(n) + "e");
    AtConcat(data, pos, "i", Signed(n) + "e");
    IndexFromText(data, pos + 1, Signed(n), 'e');
  }

  lemma StrParts(s: string)
    ensures Encode(Str(s)) == EncodeString(s) && Denote(Str(s)) == Leaf(s)
  {
  }

  lemma ManyParts(values: seq<Value>)
    ensures Encode(Many(values)) == "l" + (EncodeValues(values) + "e")
    ensures Denote(Many(values)) == List([] + DenoteValues(values))
  {
    assert [] + DenoteValues(values) == DenoteValues(values);
  }

  lemma KeyedParts(fields: seq<Field>)
    ensures Encode(Keyed(fields)) == "d" + (EncodeFields(fields) + "e")
    ensures Denote(Keyed(fields)) == Dict(DenoteFields(fields, map[]))
  {
  }

  lemma OpensList(data: string, pos: int)
    requires 0 <= pos < |data| && data[pos] == 'l'
    ensures ReadNode(data, pos) == ReadItems(data, pos + 1, [])
  {
  }

  lemma OpensDict(data: string, pos: int)
    requires 0 <= pos < |data| && data[pos] == 'd'
    ensures ReadNode(data, pos) == ReadEntries(data, pos + 1, map[])
  {
  }

  /** Reading the bencoding of any value, wherever it stands and whatever
      follows it, gives that value and stops exactly at its end. */
  lemma {:induction false} RoundTrip(data: string, pos: int, v: Value)
    requires |data| <= MAX_INT64 && At(data, pos, Encode(v))
    ensures ReadNode(data, pos) == Read(Denote(v), pos + |Encode(v)|)
    decreases v
  {
    hide *;
    match v
    case Int(n) => ReadsInt(data, pos, n);
    case Str(s) =>
      StrParts(s);
      ReadsString(data, pos, s);
    case Many(values) =>
      ManyParts(values);
      AtHead(data, pos, "l", EncodeValues(values) + "e");
      RoundTripValues(data, pos + 1, values, []);
      OpensList(data, pos);
    case Keyed(fields) =>
      KeyedParts(fields);
      AtHead(data, pos, "d", EncodeFields(fields) + "e");
      RoundTripFields(data, pos + 1, fields, map[]);
      OpensDict(data, pos);
  }

  lemma ItemsStep(data: string, pos: int, before: seq<Node>, node: Node, next: int)
    requires 0 <= pos < |data| && data[pos] != 'e' && ReadNode(data, pos) == Read(node, next)
    ensures 0 <= next <= |data|
    ensures ReadItems(data, pos, before) == ReadItems(data, next, before + [node])
  {
  }

  lemma EntriesStep(data: string, pos: int, before: map<string, Node>, key: string, at: int, node: Node, next: int)
    requires 0 <= pos < |data| && data[pos] != 'e' && ReadNode(data, pos) == Read(Leaf(key), at)
    requires ReadNode(data, at) == Read(node, next)
    ensures 0 <= next <= |data|
    ensures ReadEntries(data, pos, before) == ReadEntries(data, next, before[key := node])
  {
  }

  lemma ValuesNil(data: string, pos: int, values: seq<Value>, before: seq<Node>)
    requires values == [] && At(data, pos, EncodeValues(values) + "e")
    ensures pos >= 0
    ensures ReadItems(data, pos, before) == Read(List(before + DenoteValues(values)), pos + |EncodeValues(values) + "e"|)
  {
    AtChar(data, pos, "e", 0);
    assert before + DenoteValues(values) == before;
  }

  lemma FieldsNil(data: string, pos: int, fields: seq<Field>, before: map<string, Node>)
    requires fields == [] && At(data, pos, EncodeFields(fields) + "e")
    ensures pos >= 0
    ensures ReadEntries(data, pos, before) == Read(Dict(DenoteFields(fields, before)), pos + |EncodeFields(fields) + "e"|)
  {
    AtChar(data, pos, "e", 0);
  }

  lemma ValuesCons(values: seq<Value>, before: seq<Node>)
    requires values != []
    ensures EncodeValues(values) + "e" == Encode(values[0]) + (EncodeValues(values[1..]) + "e")
    ensures (before + [Denote(values[0])]) + DenoteValues(values[1..]) == before + DenoteValues(values)
  {
  }

  lemma FieldsCons(fields: seq<Field>, before: map<string, Node>)
    requires fields != []
    ensures DenoteFields(fields, before)
         == DenoteFields(fields[1..], before[fields[0].key := Denote(fields[0].value)])
    ensures EncodeFields(fields) + "e"
         == EncodeString(fields[0].key) + (Encode(fields[0].value) + (EncodeFields(fields[1..]) + "e"))
  {
    hide Encode, EncodeString;
  }

  lemma EncodedStringStart(s: string)
    ensures EncodeString(s) != [] && EncodeString(s)[0] != 'e'
  {
    assert EncodeString(s)[0] == Decimal(|s|)[0];
  }

  lemma {:induction false} RoundTripValues(data: string, pos: int, values: seq<Value>, before: seq<Node>)
    requires |data| <= MAX_INT64 && At(data, pos, EncodeValues(values) + "e")
    ensures pos >= 0
    ensures ReadItems(data, pos, before) == Read(List(before + DenoteValues(values)), pos + |EncodeValues(values) + "e"|)
    decreases values
  {
    hide *;
    if values == [] {
      ValuesNil(data, pos, values, before);
    } else {
      ValuesCons(values, before);
      var head, tail, node := Encode(values[0]), EncodeValues(values[1..]) + "e", Denote(values[0]);
      AtHead(data, pos, head, tail);
      RoundTrip(data, pos, values[0]);
      ItemsStep(data, pos, before, node, pos + |head|);
      RoundTripValues(data, pos + |head|, values[1..], before + [node]);
    }
  }

  lemma {:induction false} RoundTripFields(data: string, pos: int, fields: seq<Field>, before: map<string, Node>)
    requires |data| <= MAX_INT64 && At(data, pos, EncodeFields(fields) + "e")
    ensures ReadEntries(data, pos, before) == Read(Dict(DenoteFields(fields, before)), pos + |EncodeFields(fields) + "e"|)
    decreases fields
  {
    hide *;
    if fields == [] {
      FieldsNil(data, pos, fields, before);
    } else {
      var name, node := fields[0].key, Denote(fields[0].value);
      FieldsCons(fields, before);
      EncodedStringStart(name);
      var key, value, tail := EncodeString(name), Encode(fields[0].value), EncodeFields(fields[1..]) + "e";
      AtHead(data, pos, key, value + tail);
      AtHead(data, pos + |key|, value, tail);
      ReadsString(data, pos, name);
      RoundTrip(data, pos + |key|, fields[0].value);
      EntriesStep(data, pos, before, name, pos + |key|, node, pos + |key| + |value|);
      RoundTripFields(data, pos + |key| + |value|, fields[1..], before[name := node]);
    }
  }

  // ---- A read depends on the bytes it consumed and on nothing else ----

  /** From `pos` to `next` the bytes of `a` stand in `b`, `shift` further on. */
  predicate Same(a: string, pos: int, next: int, b: string, shift: int) {
    && 0 <= pos <= next <= |a|
    && 0 <= pos + shift && next + shift <= |b|
    && forall k :: pos <= k < next ==> a[k] == b[k + shift]
  }

  lemma SameSlice(a: string, pos: int, next: int, b: string, shift: int)
    requires Same(a, pos, next, b, shift)
    ensures a[pos..next] == b[pos + shift..next + shift]
  {
    assert |a[pos..next]| == |b[pos + shift..next + shift]|;
    forall k | 0 <= k < next - pos ensures a[pos..next][k] == b[pos + shift..next + shift][k] {
      assert a[pos + k] == b[pos + k + shift];
    }
  }

  lemma SamePart(a: string, pos: int, next: int, b: string, shift: int, from: int, to: int)
    requires Same(a, pos, next, b, shift) && pos <= from <= to <= next
    ensures Same(a, from, to, b, shift) && 0 <= from + shift && to + shift <= |b|
  {
  }

  lemma IndexFromShifts(a: string, from: int, c: char, b: string, shift: int)
    requires 0 <= from <= |a| && IndexFrom(a, from, c) < |a|
    requires Same(a, from, IndexFrom(a, from, c) + 1, b, shift)
    ensures IndexFrom(b, from + shift, c) == IndexFrom(a, from, c) + shift
  {
    var i := IndexFrom(a, from, c);
    assert a[i] == b[i + shift];
    forall k | from + shift <= k < i + shift ensures b[k] != c {
      assert a[k - shift] == b[k - shift + shift];
    }
    IndexFromIs(b, from + shift, c, i + shift);
  }

  function Shifted(r: Outcome, shift: int): Outcome
    requires r.Read?
  {
    Read(r.node, r.next + shift)
  }

  lemma StringReadParts(data: string, pos: int) returns (colon: int, length: int)
    requires 0 <= pos < |data| && ReadString(data, pos).Read?
    ensures pos < colon < |data| && IndexFrom(data, pos, ':') == colon
    ensures ParseInt(data[pos..colon]) == Some(length) && 0 <= length
    ensures ReadString(data, pos) == Read(Leaf(data[colon + 1..colon + 1 + length]), colon + 1 + length)
  {
    colon := IndexFrom(data, pos, ':');
    length := ParseInt(data[pos..colon]).value;
    hide IndexFrom;
    assert data[pos..pos] == [];
  }

  lemma ShiftedRead(node: Node, next: int, shift: int)
    ensures Shifted(Read(node, next), shift) == Read(node, next + shift)
  {
  }

  lemma StringReadIsLocal(a: string, pos: int, b: string, shift: int)
    requires 0 <= pos < |a| && ReadString(a, pos).Read?
    requires Same(a, pos, ReadString(a, pos).next, b, shift)
    ensures ReadString(b, pos + shift) == Shifted(ReadString(a, pos), shift)
  {
    hide *;
    var colon, length := StringReadParts(a, pos);
    var next := colon + 1 + length;
    SamePart(a, pos, next, b, shift, pos, colon + 1);
    SamePart(a, pos, next, b, shift, pos, colon);
    SamePart(a, pos, next, b, shift, colon + 1, next);
    IndexFromShifts(a, pos, ':', b, shift);
    SameSlice(a, pos, colon, b, shift);
    SameSlice(a, colon + 1, next, b, shift);
    ShiftedRead(Leaf(a[colon + 1..next]), next, shift);
    ReadStringIs(b, pos + shift, colon + shift, length);
  }

  lemma IntegerReadIsLocal(a: string, pos: int, b: string, shift: int)
    requires 0 <= pos < |a| && ReadInteger(a, pos).Read?
    requires Same(a, pos, ReadInteger(a, pos).next, b, shift)
    ensures ReadInteger(b, pos + shift) == Shifted(ReadInteger(a, pos), shift)
  {
    var end := IndexFrom(a, pos + 1, 'e');
    IndexFromShifts(a, pos + 1, 'e', b, shift);
    SameSlice(a, pos + 1, end, b, shift);
  }

  /** Whatever surrounds them, the same bytes are read as the same node. */
  lemma {:induction false} ReadIsLocal(a: string, pos: int, b: string, shift: int)
    requires ReadNode(a, pos).Read? && Same(a, pos, ReadNode(a, pos).next, b, shift)
    ensures ReadNode(b, pos + shift) == Shifted(ReadNode(a, pos), shift)
    decreases |a| - pos, 0
  {
    assert a[pos] == b[pos + shift];
    if a[pos] == 'i' {
      IntegerReadIsLocal(a, pos, b, shift);
    } else if a[pos] == 'l' {
      ItemsReadIsLocal(a, pos + 1, [], b, shift);
    } else if a[pos] == 'd' {
      EntriesReadIsLocal(a, pos + 1, map[], b, shift);
    } else {
      StringReadIsLocal(a, pos, b, shift);
    }
  }

  lemma {:induction false} ItemsReadIsLocal(a: string, pos: int, before: seq<Node>, b: string, shift: int)
    requires 0 <= pos <= |a| && ReadItems(a, pos, before).Read?
    requires Same(a, pos, ReadItems(a, pos, before).next, b, shift)
    ensures ReadItems(b, pos + shift, before) == Shifted(ReadItems(a, pos, before), shift)
    decreases |a| - pos, 1
  {
    assert a[pos] == b[pos + shift];
    if a[pos] != 'e' {
      var child := ReadNode(a, pos);
      ReadIsLocal(a, pos, b, shift);
      ItemsReadIsLocal(a, child.next, before + [child.node], b, shift);
    }
  }

  lemma {:induction false} EntriesReadIsLocal(a: string, pos: int, before: map<string, Node>, b: string, shift: int)
    requires 0 <= pos <= |a| && ReadEntries(a, pos, before).Read?
    requires Same(a, pos, ReadEntries(a, pos, before).next, b, shift)
    ensures ReadEntries(b, pos + shift, before) == Shifted(ReadEntries(a, pos, before), shift)
    decreases |a| - pos, 1
  {
    hide ReadNode, ReadItems;
    assert a[pos] == b[pos + shift];
    if a[pos] != 'e' {
      var key := ReadNode(a, pos);
      var value := ReadNode(a, key.next);
      ReadIsLocal(a, pos, b, shift);
      ReadIsLocal(a, key.next, b, shift);
      EntriesReadIsLocal(a, value.next, before[ValueOf(key.node) := value.node], b, shift);
    }
  }

  lemma PrefixIsSame(a: string, b: string)
    requires a <= b
    ensures Same(a, 0, |a|, b, 0)
  {
  }

  /** No text that is read to its end continues to another that is. */
  lemma NoEncodingExtendsAnother(a: string, b: string)
    requires ReadNode(a, 0).Read? && ReadNode(a, 0).next == |a|
    requires ReadNode(b, 0).Read? && ReadNode(b, 0).next == |b|
    requires a <= b
    ensures a == b
  {
    hide *;
    PrefixIsSame(a, b);
    ReadIsLocal(a, 0, b, 0);
    ShiftedRead(ReadNode(a, 0).node, |a|, 0);
    assert ReadNode(a, 0) == Read(ReadNode(a, 0).node, |a|);
  }

  /** Two values with the same bencoding are read as the same node. */
  lemma EncodingIsUnambiguous(v: Value, w: Value)
    requires |Encode(w)| <= MAX_INT64 && Encode(v) <= Encode(w)
    ensures Encode(v) == Encode(w) && Denote(v) == Denote(w)
  {
    RoundTrip(Encode(v), 0, v);
    RoundTrip(Encode(w), 0, w);
    NoEncodingExtendsAnother(Encode(v), Encode(w));
  }
}

/** Decimal text as Go's strconv reads and prints it. A Go string is a sequence
    of bytes; here each byte is one char. */
module Text {
  import opened Wrappers

  const MAX_INT64: int := 0x7fff_ffff_ffff_ffff

  const TWO64: int := 0x1_0000_0000_0000_0000

  /** Go's int64 addition wraps around. */
  function Wrap(n: int): int { (n + MAX_INT64 + 1) % TWO64 - MAX_INT64 - 1 }

  lemma WrapIsExact(n: int)
    requires 0 <= n
    ensures Wrap(n) <= n && (Wrap(n) == n <==> n <= MAX_INT64)
    ensures MAX_INT64 < n <= 2 * MAX_INT64 + 1 ==> Wrap(n) < 0
  {
  }

  /** A 64-bit bounds check of a sum: it fails only for a sum beyond the size that
      still fits 64 bits. */
  lemma WrappedCheck(n: int, size: int)
    requires 0 <= n <= 2 * MAX_INT64 + 1 && 0 <= size <= MAX_INT64
    ensures Wrap(n) > size <==> size < n <= MAX_INT64
  {
    WrapIsExact(n);
  }

  predicate IsDigit(c: char) { '0' <= c <= '9' }

  predicate AllDigits(s: string) { forall i :: 0 <= i < |s| ==> IsDigit(s[i]) }

  function DigitValue(c: char): (d: nat)
    requires IsDigit(c)
  {
    c as int - '0' as int
  }

  /** The number a run of digits denotes, leading zeros allowed. */
  function NumberOf(s: string): nat
    requires AllDigits(s)
  {
    if s == [] then 0 else NumberOf(s[..|s| - 1]) * 10 + DigitValue(s[|s| - 1])
  }

  /** strconv.ParseInt(s, 10, 64), which strconv.Atoi agrees with on a 64-bit
      platform: an optional sign, at least one digit, and a value in range. */
  function ParseInt(s: string): Option<int> {
    var signed := s != [] && (s[0] == '-' || s[0] == '+');
    var digits := if signed then s[1..] else s;
    if digits == [] || !AllDigits(digits) then
      None
    else
      var n: int := NumberOf(digits);
      if signed && s[0] == '-' then
        if n <= MAX_INT64 + 1 then Some(-(n as int)) else None
      else
        if n <= MAX_INT64 then Some(n) else None
  }

  /** strconv.FormatInt of a non-negative number. */
  function Decimal(n: nat): (s: string)
    ensures s != [] && AllDigits(s)
  {
    var last := ['0' + (n % 10) as char];
    if n < 10 then last else Decimal(n / 10) + last
  }

  lemma {:induction false} NumberOfDecimal(n: nat)
    ensures NumberOf(Decimal(n)) == n
  {
    var s := Decimal(n);
    if n >= 10 {
      NumberOfDecimal(n / 10);
      assert s[..|s| - 1] == Decimal(n / 10);
    } else {
      assert s[..|s| - 1] == [];
    }
  }

  /** Reading a printed number gives it back, up to the 64-bit limit, past
      which it is refused. */
  lemma ParseDecimal(n: nat)
    ensures ParseInt(Decimal(n)) == if n <= MAX_INT64 then Some(n) else None
  {
    NumberOfDecimal(n);
    assert IsDigit(Decimal(n)[0]);
  }

  /** So is one with a sign in front, and the limit for negative ones is one more. */
  lemma ParseSigned(n: nat)
    ensures ParseInt("+" + Decimal(n)) == if n <= MAX_INT64 then Some(n) else None
    ensures ParseInt("-" + Decimal(n)) == if n <= MAX_INT64 + 1 then Some(-(n as int)) else None
    ensures ParseInt("") == ParseInt("+") == ParseInt("-") == None
  {
    NumberOfDecimal(n);
    assert ("+" + Decimal(n))[1..] == Decimal(n) && ("-" + Decimal(n))[1..] == Decimal(n);
    hide Decimal, NumberOf;
  }

  /** The index of the first `c` in `s`, or |s| when there is none. */
  function IndexOf(s: string, c: char): (i: nat)
    ensures i <= |s|
    ensures i < |s| ==> s[i] == c
    ensures forall k :: 0 <= k < i ==> s[k] != c
  {
    if s == [] || s[0] == c then 0 else 1 + IndexOf(s[1..], c)
  }

  lemma {:induction false} IndexOfPrefix(a: string, c: char, b: string)
    requires c !in a
    ensures IndexOf(a + [c] + b, c) == |a|
  {
    var s := a + [c] + b;
    assert s[|a|] == c;
    assert forall k :: 0 <= k < |a| ==> s[k] == a[k];
  }

  /** strings.Split: the parts between the separators, empty ones included. */
  function SplitOn(s: string, c: char): (parts: seq<string>)
    ensures parts != []
  {
    var i := IndexOf(s, c);
    if i == |s| then [s] else [s[..i]] + SplitOn(s[i + 1..], c)
  }
}

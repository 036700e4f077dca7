/** Percent-encoding (section 2.1 of RFC 3986) as encodeURIComponent and the
    form serializer write it and as decodeURIComponent and URLSearchParams read
    it. Text is its UTF-8 bytes, one char each. */
module Percent {
  import opened Wrappers

  predicate IsByte(c: char) { c as int < 256 }

  predicate Bytes(s: string) { forall i :: 0 <= i < |s| ==> IsByte(s[i]) }

  predicate Ascii(s: string) { forall i :: 0 <= i < |s| ==> s[i] as int < 128 }

  predicate Alphanumeric(c: char) { '0' <= c <= '9' || 'A' <= c <= 'Z' || 'a' <= c <= 'z' }

  /** What is written as it is: the form serializer keeps a little less, and
      writes a space as a plus. */
  predicate Keeps(form: bool, c: char) {
    || Alphanumeric(c)
    || c in {'-', '_', '.', '*'}
    || (!form && c in {'!', '~', '\'', '(', ')'})
  }

  function HexDigit(n: int): char
    requires 0 <= n < 16
  {
    if n < 10 then '0' + n as char else 'A' + (n - 10) as char
  }

  function HexValue(c: char): Option<int> {
    if '0' <= c <= '9' then Some(c as int - '0' as int)
    else if 'A' <= c <= 'F' then Some(c as int - 'A' as int + 10)
    else if 'a' <= c <= 'f' then Some(c as int - 'a' as int + 10)
    else None
  }

  /** The characters that are written as they are, listed. */
  lemma KeepsJustThese(c: char)
    ensures Keeps(true, c)
       <==> c in {'0', '1', '2', '3', '4', '5', '6', '7', '8', '9', 'A', 'B', 'C', 'D', 'E', 'F', 'G', 'H', 'I', 'J',
                  'K', 'L', 'M', 'N', 'O', 'P', 'Q', 'R', 'S', 'T', 'U', 'V', 'W', 'X', 'Y', 'Z', 'a', 'b', 'c', 'd',
                  'e', 'f', 'g', 'h', 'i', 'j', 'k', 'l', 'm', 'n', 'o', 'p', 'q', 'r', 's', 't', 'u', 'v', 'w', 'x',
                  'y', 'z', '-', '_', '.', '*'}
    ensures Keeps(false, c) <==> Keeps(true, c) || c in {'!', '~', '\'', '(', ')'}
  {
  }

  /** The sixteen digits, in either case. */
  lemma HexDigitsAre(c: char)
    ensures HexValue(c).Some? <==> c in "0123456789ABCDEFabcdef"
    ensures forall n :: 0 <= n < 16 ==>
              && HexDigit(n) == "0123456789ABCDEF"[n]
              && HexValue("0123456789ABCDEF"[n]) == Some(n) && HexValue("0123456789abcdef"[n]) == Some(n)
  {
  }

  function EncodeByte(form: bool, c: char): (s: string)
    requires IsByte(c)
    ensures s != []
  {
    if Keeps(form, c) then [c]
    else if form && c == ' ' then "+"
    else ['%', HexDigit(c as int / 16), HexDigit(c as int % 16)]
  }

  function Encode(form: bool, s: string): string
    requires Bytes(s)
  {
    if s == [] then [] else EncodeByte(form, s[0]) + Encode(form, s[1..])
  }

  /** The byte an escape at the front stands for. */
  function Escape(s: string): Option<char> {
    if |s| < 3 || s[0] != '%' then None
    else
      var high, low := HexValue(s[1]), HexValue(s[2]);
      if high.None? || low.None? then None else Some((high.value * 16 + low.value) as char)
  }

  /** decodeURIComponent, up to the check of the UTF-8 that results. */
  function DecodeBytes(s: string): Option<string> {
    if s == [] then Some([])
    else if s[0] == '%' then
      if Escape(s).None? then None
      else
        var rest := DecodeBytes(s[3..]);
        if rest.None? then None else Some([Escape(s).value] + rest.value)
    else
      var rest := DecodeBytes(s[1..]);
      if rest.None? then None else Some([s[0]] + rest.value)
  }

  /** The form reader leaves a malformed escape as it is. */
  function FormDecode(s: string): string {
    if s == [] then []
    else if Escape(s).Some? then [Escape(s).value] + FormDecode(s[3..])
    else [if s[0] == '+' then ' ' else s[0]] + FormDecode(s[1..])
  }

  // ---- UTF-8 ----

  predicate Continues(s: string, i: int) {
    0 <= i < |s| && 0x80 <= s[i] as int < 0xC0
  }

  /** The length of the character at the front, 0 if there is none. */
  function Character(s: string): (n: nat)
    ensures n <= |s|
  {
    if s == [] then 0
    else
      var c := s[0] as int;
      if c < 0x80 then 1
      else if 0xC2 <= c < 0xE0 then if Continues(s, 1) then 2 else 0
      else if 0xE0 <= c < 0xF0 then
        if Continues(s, 1) && Continues(s, 2) && (c == 0xE0 ==> s[1] as int >= 0xA0) && (c == 0xED ==> s[1] as int < 0xA0) then 3 else 0
      else if 0xF0 <= c < 0xF5 then
        if Continues(s, 1) && Continues(s, 2) && Continues(s, 3)
           && (c == 0xF0 ==> s[1] as int >= 0x90) && (c == 0xF4 ==> s[1] as int < 0x90) then 4 else 0
      else 0
  }

  predicate Utf8(s: string) { s == [] || (Character(s) > 0 && Utf8(s[Character(s)..])) }

  lemma {:induction false} AsciiIsUtf8(s: string)
    requires Ascii(s)
    ensures Utf8(s)
  {
    if s != [] {
      AsciiIsUtf8(s[1..]);
    }
  }

  lemma {:induction false} Utf8IsBytes(s: string)
    requires Utf8(s)
    ensures Bytes(s)
    decreases |s|
  {
    if s != [] {
      var n := Character(s);
      Utf8IsBytes(s[n..]);
      forall i | 0 <= i < |s| ensures IsByte(s[i]) {
        assert i >= n ==> s[i] == s[n..][i - n];
      }
    }
  }

  /** decodeURIComponent: malformed escapes and malformed UTF-8 are errors. */
  function Decode(s: string): (r: Option<string>)
    ensures r.Some? ==> Utf8(r.value)
  {
    var bytes := DecodeBytes(s);
    if bytes.None? || !Utf8(bytes.value) then None else bytes
  }

  // ---- Round trips ----

  lemma HexRoundTrip(n: int)
    requires 0 <= n < 16
    ensures HexValue(HexDigit(n)) == Some(n)
  {
  }

  /** What an encoded byte is read as. */
  lemma EscapeOfByte(form: bool, c: char, rest: string)
    requires IsByte(c)
    ensures var s := EncodeByte(form, c) + rest;
            if Keeps(form, c) then Escape(s).None? && s[0] == c && c != '%' && s[1..] == rest
            else if form && c == ' ' then Escape(s).None? && s[0] == '+' && s[1..] == rest
            else Escape(s) == Some(c) && s[0] == '%' && s[3..] == rest
  {
    HexRoundTrip(c as int / 16);
    HexRoundTrip(c as int % 16);
    assert c as int / 16 * 16 + c as int % 16 == c as int;
  }

  lemma {:induction false} DecodeOfEncode(s: string)
    requires Bytes(s)
    ensures DecodeBytes(Encode(false, s)) == Some(s)
  {
    if s != [] {
      var rest := Encode(false, s[1..]);
      EscapeOfByte(false, s[0], rest);
      DecodeOfEncode(s[1..]);
      var text := EncodeByte(false, s[0]) + rest;
      assert text == Encode(false, s);
      assert [s[0]] + s[1..] == s;
      assert text != [];
    }
  }

  lemma {:induction false} FormDecodeOfEncode(form: bool, s: string)
    requires Bytes(s)
    ensures FormDecode(Encode(form, s)) == s
  {
    if s != [] {
      EscapeOfByte(form, s[0], Encode(form, s[1..]));
      FormDecodeOfEncode(form, s[1..]);
    }
  }

  /** Encoded text has none of the characters that structure a URL. */
  lemma {:induction false} EncodedIsOpaque(form: bool, s: string)
    requires Bytes(s)
    ensures forall c :: c in Encode(form, s) ==> c !in {'/', '?', '&', '=', '#'} && c as int < 128
    ensures s != [] ==> Encode(form, s) != []
  {
    if s != [] {
      EncodedIsOpaque(form, s[1..]);
    }
  }

  lemma {:induction false} PlainDecodes(s: string)
    requires '%' !in s && '+' !in s
    ensures FormDecode(s) == s
  {
    if s != [] {
      PlainDecodes(s[1..]);
    }
  }
}

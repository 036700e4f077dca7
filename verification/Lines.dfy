/** Text as Python splits it into lines, with the terminators kept, and as it
    strips whitespace. */
module Lines {
  /** The characters str.splitlines breaks at. */
  predicate IsBreak(c: char) {
    c in {'\n', '\r', '\U{0B}', '\U{0C}', '\U{1C}', '\U{1D}', '\U{1E}', '\U{85}', '\U{2028}', '\U{2029}'}
  }

  /** The characters str.strip removes. */
  predicate IsSpace(c: char) {
    || IsBreak(c)
    || c in {' ', '\t', '\U{1F}', '\U{A0}', '\U{1680}', '\U{202F}', '\U{205F}', '\U{3000}'}
    || '\U{2000}' <= c <= '\U{200A}'
  }

  function LeftStrip(s: string): string {
    if s != [] && IsSpace(s[0]) then LeftStrip(s[1..]) else s
  }

  function RightStrip(s: string): string {
    if s != [] && IsSpace(s[|s| - 1]) then RightStrip(s[..|s| - 1]) else s
  }

  function Strip(s: string): string { RightStrip(LeftStrip(s)) }

  /** Text up to a character that is not whitespace survives stripping. */
  lemma {:induction false} RightStripKeeps(p: string, s: string)
    requires p != [] && !IsSpace(p[|p| - 1])
    ensures p <= RightStrip(p + s)
    decreases |s|
  {
    var t := p + s;
    if s != [] && IsSpace(t[|t| - 1]) {
      assert t[..|t| - 1] == p + s[..|s| - 1];
      RightStripKeeps(p, s[..|s| - 1]);
    }
  }

  lemma {:induction false} RightStripDrops(p: string, s: string)
    requires p != [] && !IsSpace(p[|p| - 1]) && forall i :: 0 <= i < |s| ==> IsSpace(s[i])
    ensures RightStrip(p + s) == p
    decreases |s|
  {
    var t := p + s;
    if s == [] {
      assert t == p;
    } else {
      assert t[|t| - 1] == s[|s| - 1];
      assert t[..|t| - 1] == p + s[..|s| - 1];
      RightStripDrops(p, s[..|s| - 1]);
    }
  }

  /** How much of the text the first line takes, its terminator included. */
  function LineLength(text: string): (n: nat)
    requires text != []
    ensures 1 <= n <= |text|
    ensures n < |text| ==> IsBreak(text[n - 1])
  {
    if text[0] == '\r' && |text| > 1 && text[1] == '\n' then 2
    else if IsBreak(text[0]) || |text| == 1 then 1
    else 1 + LineLength(text[1..])
  }

  function SplitLines(text: string): seq<string> {
    if text == [] then [] else [text[..LineLength(text)]] + SplitLines(text[LineLength(text)..])
  }

  function JoinLines(lines: seq<string>): string {
    if lines == [] then [] else lines[0] + JoinLines(lines[1..])
  }

  /** One line, with or without a terminator. */
  predicate Line(s: string) { s != [] && LineLength(s) == |s| }

  /** A line with a terminator. */
  predicate Whole(s: string) { Line(s) && IsBreak(s[|s| - 1]) }

  /** Lines that stay apart when joined: each but the last is terminated, and no
      carriage return meets a line feed. */
  predicate Apart(lines: seq<string>) {
    && (forall i :: 0 <= i < |lines| ==> Line(lines[i]))
    && (forall i :: 0 <= i < |lines| - 1 ==> Whole(lines[i]))
    && (forall i :: 0 <= i < |lines| - 1 ==> lines[i][|lines[i]| - 1] == '\r' ==> lines[i + 1][0] != '\n')
  }

  lemma {:induction false} LineLengthOfConcat(a: string, b: string)
    requires Whole(a) && (b != [] && a[|a| - 1] == '\r' ==> b[0] != '\n')
    ensures LineLength(a + b) == |a|
  {
    var t := a + b;
    if |a| > 1 && !(a[0] == '\r' && a[1] == '\n') {
      assert !IsBreak(a[0]);
      assert t[1..] == a[1..] + b;
      LineLengthOfConcat(a[1..], b);
    } else if |a| == 1 {
      assert |t| > 1 ==> t[1] == b[0];
    }
  }

  lemma {:induction false} LineOfText(text: string)
    requires text != []
    ensures Line(text[..LineLength(text)])
    ensures var n := LineLength(text); n < |text| && text[n - 1] == '\r' ==> text[n] != '\n'
  {
    var n := LineLength(text);
    if n > 1 && !(text[0] == '\r' && text[1] == '\n') {
      LineOfText(text[1..]);
      assert text[..n][1..] == text[1..][..n - 1];
    }
  }

  /** Splitting loses nothing and yields lines that stay apart. */
  lemma {:induction false} SplitIsApart(text: string)
    ensures Apart(SplitLines(text)) && JoinLines(SplitLines(text)) == text
    ensures text != [] ==> SplitLines(text) != [] && SplitLines(text)[0][0] == text[0]
    decreases |text|
  {
    if text != [] {
      var n := LineLength(text);
      LineOfText(text);
      SplitIsApart(text[n..]);
      ApartCons(text[..n], SplitLines(text[n..]));
      assert text == text[..n] + text[n..];
    }
  }

  lemma ApartCons(line: string, rest: seq<string>)
    requires Line(line) && Apart(rest)
    requires rest != [] ==> Whole(line) && (line[|line| - 1] == '\r' ==> rest[0][0] != '\n')
    ensures Apart([line] + rest)
  {
    hide LineLength;
  }

  lemma {:induction false} JoinStart(lines: seq<string>)
    requires Apart(lines)
    ensures lines == [] <==> JoinLines(lines) == []
    ensures lines != [] ==> JoinLines(lines)[0] == lines[0][0]
  {
  }

  /** Lines that stay apart are found again in their concatenation. */
  lemma {:induction false} SplitOfJoin(lines: seq<string>)
    requires Apart(lines)
    ensures SplitLines(JoinLines(lines)) == lines
  {
    if lines != [] {
      var head, rest := lines[0], lines[1..];
      var tail := JoinLines(rest);
      assert Apart(rest) by { hide LineLength; }
      SplitOfJoin(rest);
      JoinStart(rest);
      var text := head + tail;
      if rest == [] {
        assert text == head;
      } else {
        LineLengthOfConcat(head, tail);
      }
      assert text[..|head|] == head && text[|head|..] == tail;
    }
  }

  lemma {:induction false} JoinOfConcat(a: seq<string>, b: seq<string>)
    ensures JoinLines(a + b) == JoinLines(a) + JoinLines(b)
  {
    if a == [] {
      assert a + b == b;
    } else {
      assert (a + b)[1..] == a[1..] + b;
      JoinOfConcat(a[1..], b);
    }
  }

  lemma ApartSnoc(lines: seq<string>, line: string)
    requires Apart(lines) && Line(line)
    requires lines != [] ==> Whole(lines[|lines| - 1]) && (lines[|lines| - 1][|lines[|lines| - 1]| - 1] == '\r' ==> line[0] != '\n')
    ensures Apart(lines + [line])
  {
    hide LineLength;
  }
}

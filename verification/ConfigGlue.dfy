/** Merging into a configuration whose last line is not terminated. */
module ConfigGlue {
  import opened ConfigMerge
  import opened Lines

  /** The last line has no terminator. */
  predicate Unclosed(lines: seq<string>) {
    LastOf(lines) != "" && !IsBreak(LastOf(lines)[|LastOf(lines)| - 1])
  }

  /** The text ends inside its first `[Preferences]` on an unterminated line, a
      managed key is missing there, and the last line is not one that is replaced. */
  predicate Glues(values: seq<Setting>, lines: seq<string>) {
    var w := WalkLines(values, lines);
    && Unclosed(lines)
    && w.phase.Inside? && !(Keys(values) <= w.phase.keys)
    && !IsManaged(values, WalkLines(values, lines[..|lines| - 1]).section, lines[|lines| - 1])
  }

  lemma {:induction false} UnterminatedIsUnbroken(s: string)
    requires Line(s) && !IsBreak(s[|s| - 1])
    ensures Unbroken(s)
  {
    if |s| > 1 {
      UnterminatedIsUnbroken(s[1..]);
      assert forall i :: 1 <= i < |s| ==> s[i] == s[1..][i - 1];
    }
  }

  lemma {:induction false} SomethingMissing(values: seq<Setting>, seen: set<string>, newline: string)
    ensures Missing(values, seen, newline) == [] <==> Keys(values) <= seen
  {
    if values != [] {
      SomethingMissing(values[..|values| - 1], seen, newline);
    }
  }

  /** What the last, unterminated line does to the scan. */
  lemma LastStep(values: seq<Setting>, newline: string, st: Scan, last: string, line: string)
    requires Clean(values) && newline in {"\n", "\r\n"} && Open(st.output, last)
    requires Line(line) && (last != "" && last[|last| - 1] == '\r' ==> line[0] != '\n')
    ensures var output := Step(values, newline, st, line).output;
            if IsManaged(values, st.section, line) then Open(output, last) && Ended(output)
            else output != [] && output[|output| - 1] == line && Open(output[..|output| - 1], last)
  {
    hide Strip, KeyOf, Missing, Clean, Replacement, Open, Whole, Line;
    if IsHeader(Strip(line)) {
      var before := if st.section == PREFERENCES then Insert(values, newline, st) else st;
      if st.section == PREFERENCES && !st.inserted {
        OpenMissing(values, st.seen, newline, st.output, last);
      }
      assert (before.output + [line])[..|before.output|] == before.output;
    } else if IsManaged(values, st.section, line) {
      ReplacementIsWritten(values, line, newline);
      OpenWritten(st.output, last, Replacement(values, line, newline));
      WrittenEnds(st.output, Replacement(values, line, newline));
    } else {
      assert (st.output + [line])[..|st.output|] == st.output;
    }
  }

  lemma ApartThenLine(lines: seq<string>, last: string, line: string)
    requires Open(lines, last) && Line(line) && (last != "" && last[|last| - 1] == '\r' ==> line[0] != '\n')
    ensures Apart(lines + [line])
  {
    hide Apart, LineLength;
    ApartSnoc(lines, line);
  }

  lemma GluedIsNotApart(lines: seq<string>, line: string, more: seq<string>)
    requires line != "" && !IsBreak(line[|line| - 1]) && more != []
    ensures !Apart(lines + [line] + more)
  {
    var all := lines + [line] + more;
    hide LineLength;
    assert all[|lines|] == line && !Whole(all[|lines|]) && |lines| < |all| - 1;
  }

  /** The frame of a text whose last line is not terminated. */
  predicate Unterminated(lines: seq<string>) {
    lines != [] && Apart(lines) && !IsBreak(lines[|lines| - 1][|lines[|lines| - 1]| - 1])
  }

  lemma ScanToLastLine(values: seq<Setting>, newline: string, lines: seq<string>)
    requires Clean(values) && newline in {"\n", "\r\n"} && Unterminated(lines)
    ensures var front, line := lines[..|lines| - 1], lines[|lines| - 1];
            var st, output := ScanLines(values, newline, front), ScanLines(values, newline, lines).output;
            && (LastOf(front) != "" && LastOf(front)[|LastOf(front)| - 1] == '\r' ==> line[0] != '\n')
            && st.section == WalkLines(values, front).section
            && if IsManaged(values, st.section, line) then Open(output, LastOf(front)) && Ended(output)
               else output != [] && output[|output| - 1] == line && Open(output[..|output| - 1], LastOf(front))
  {
    var front, line := lines[..|lines| - 1], lines[|lines| - 1];
    assert AllWhole(front) && Apart(front) by { hide LineLength; }
    assert front != [] ==> LastOf(front) == lines[|lines| - 2];
    var st := ScanLines(values, newline, front);
    assert ScanLines(values, newline, lines) == Step(values, newline, st, line);
    hide ScanLines, WalkLines, Step, Open, LineLength, IsManaged, Clean, AllWhole;
    ScanStaysOpen(values, newline, front);
    ScanIsRelated(values, newline, front);
    LastStep(values, newline, st, LastOf(front), line);
  }

  lemma TerminatedLine(lines: seq<string>, last: string, line: string, newline: string)
    requires Open(lines, last) && Unbroken(line) && line != "" && newline in {"\n", "\r\n"}
    ensures Terminated(lines + [line], newline) == lines + [line + newline]
    ensures Open(lines + [line + newline], line + newline)
  {
    LastCharacter(line);
    UnbrokenLineLength(line, newline);
    var written := line + newline;
    assert (lines + [line])[..|lines|] == lines;
    assert Written(written) by { hide LineLength; assert written[0] == line[0]; }
    OpenWritten(lines, last, written);
  }

  /** With an unterminated last line, the lines written are lines of the merged
      text, and so everything keeps its place, in all cases but one: then the
      first missing setting is glued to the last line. */
  lemma GluesExactlyWhen(values: seq<Setting>, text: string)
    requires Clean(values) && text != "" && !IsBreak(text[|text| - 1])
    ensures var lines := SplitLines(text);
            SplitLines(Merge(values, text)) == MergeLines(values, lines) <==> !Glues(values, lines)
  {
    hide *;
    var lines := SplitLines(text);
    UnterminatedText(text);
    var front, line := lines[..|lines| - 1], lines[|lines| - 1];
    var newline := NewlineOf(values, lines);
    var st := ScanLines(values, newline, lines);
    MergeIs(values, text);
    ScanToLastLine(values, newline, lines);
    ScanIsRelated(values, newline, lines);
    RelatedReads(values, st, WalkLines(values, lines));
    GluesIs(values, lines);
    var merged := MergeLines(values, lines);
    FinishApart(values, newline, st, LastOf(front), line, IsManaged(values, WalkLines(values, front).section, line));
    if Apart(merged) {
      SplitOfJoin(merged);
    } else {
      SplitIsApart(JoinLines(merged));
    }
  }

  lemma NewlineOf(values: seq<Setting>, lines: seq<string>) returns (newline: string)
    ensures newline in {"\n", "\r\n"}
    ensures MergeLines(values, lines) == Finish(values, newline, ScanLines(values, newline, lines))
  {
    newline := Newline(lines);
    hide Finish, ScanLines;
  }

  lemma UnterminatedText(text: string)
    requires text != "" && !IsBreak(text[|text| - 1])
    ensures var lines := SplitLines(text);
            && lines != [] && Unterminated(lines) && Unclosed(lines)
            && Line(lines[|lines| - 1]) && Unbroken(lines[|lines| - 1])
  {
    SplitIsApart(text);
    LastLineEnds(SplitLines(text));
    hide SplitLines, JoinLines, LineLength;
    var lines := SplitLines(text);
    assert Line(lines[|lines| - 1]);
    UnterminatedIsUnbroken(lines[|lines| - 1]);
  }

  lemma RelatedReads(values: seq<Setting>, st: Scan, read: Walk)
    requires Related(values, st, read, WalkLines(values, st.output))
    ensures read.phase.Inside? <==> st.section == PREFERENCES && !st.inserted
    ensures read.phase.Inside? ==> read.phase.keys == st.seen
  {
    hide WalkLines;
  }

  lemma GluesIs(values: seq<Setting>, lines: seq<string>)
    requires Unclosed(lines)
    ensures Glues(values, lines)
       <==> && WalkLines(values, lines).phase.Inside? && !(Keys(values) <= WalkLines(values, lines).phase.keys)
            && !IsManaged(values, WalkLines(values, lines[..|lines| - 1]).section, lines[|lines| - 1])
  {
    hide WalkLines, IsManaged;
  }

  lemma FinishApart(values: seq<Setting>, newline: string, st: Scan, last: string, line: string, managed: bool)
    requires Clean(values) && newline in {"\n", "\r\n"}
    requires Line(line) && Unbroken(line) && (last != "" && last[|last| - 1] == '\r' ==> line[0] != '\n')
    requires if managed then Open(st.output, last)
             else st.output != [] && st.output[|st.output| - 1] == line && Open(st.output[..|st.output| - 1], last)
    requires managed ==> Ended(st.output)
    ensures Apart(Finish(values, newline, st))
       <==> !(st.section == PREFERENCES && !st.inserted && !(Keys(values) <= st.seen) && !managed)
  {
    if managed {
      FinishCases(values, newline, st);
      hide *;
      OpenIsApart(st.output, last);
      OpenMissing(values, st.seen, newline, st.output, last);
      OpenIsApart(st.output + Missing(values, st.seen, newline), last);
      HeaderAndMissing(values, st.seen, newline, st.output, last);
    } else {
      var front := st.output[..|st.output| - 1];
      assert st.output == front + [line];
      var missing := Missing(values, st.seen, newline);
      assert Finish(values, newline, st) ==
        if st.inserted then st.output
        else if st.section == PREFERENCES then st.output + missing
        else Terminated(st.output, newline) + [HEADER + newline] + missing by { hide Missing, Terminated; }
      assert line != "" && !IsBreak(line[|line| - 1]) by { hide LineLength; }
      hide *;
      SomethingMissing(values, st.seen, newline);
      ApartThenLine(front, last, line);
      if missing != [] {
        GluedIsNotApart(front, line, missing);
      } else {
        assert st.output + missing == st.output;
      }
      TerminatedLine(front, last, line, newline);
      HeaderAndMissing(values, st.seen, newline, front + [line + newline], line + newline);
    }
  }

  lemma BareWalk(values: seq<Setting>)
    ensures WalkLines(values, [HEADER]).phase == Inside({})
  {
    BareHeaderStrips();
    hide Strip;
    assert [HEADER][..0] == [];
    assert WalkLines(values, [HEADER]) == WalkLine(values, WalkLines(values, []), HEADER);
  }

  lemma BareIsUnclosed()
    ensures Unclosed([HEADER]) && Unbroken(HEADER) && HEADER != ""
  {
  }

  lemma AKey(values: seq<Setting>)
    requires values != []
    ensures !(Keys(values) <= {})
  {
    assert values[|values| - 1].key in Keys(values);
  }

  /** It happens already when the file is nothing but an unterminated header. */
  lemma BareHeaderGlues(values: seq<Setting>)
    requires Clean(values) && values != []
    ensures Glues(values, SplitLines(HEADER))
  {
    hide *;
    BareIsUnclosed();
    UnbrokenIsOneLine(HEADER);
    BareWalk(values);
    AKey(values);
    BareIsUnmanaged(values, WalkLines(values, [HEADER][..0]).section);
    GluesIs(values, [HEADER]);
  }

  lemma BareHeaderStrips()
    ensures Strip(HEADER) == HEADER && IsHeader(HEADER) && HEADER[1..|HEADER| - 1] == PREFERENCES
  {
    assert LeftStrip(HEADER) == HEADER;
    assert HEADER == "[" + PREFERENCES + "]";
    hide LeftStrip, RightStrip;
    RightStripDrops(HEADER, "");
    assert HEADER + "" == HEADER;
  }

  lemma BareIsUnmanaged(values: seq<Setting>, section: string)
    ensures !IsManaged(values, section, HEADER)
  {
    BareHeaderStrips();
    hide Strip;
  }

  lemma {:induction false} UnbrokenIsOneLine(s: string)
    requires s != "" && Unbroken(s)
    ensures LineLength(s) == |s| && SplitLines(s) == [s]
  {
    if |s| > 1 {
      assert Unbroken(s[1..]);
      UnbrokenIsOneLine(s[1..]);
    }
    assert s[|s|..] == "" && s[..|s|] == s;
  }
}

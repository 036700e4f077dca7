/** The merge on every text, however its last line ends. */
module ConfigAnyText {
  import opened ConfigGlue
  import opened ConfigMerge
  import opened Lines

  // ---- Whitespace behind a line ----

  predicate Spaces(t: string) { forall i :: 0 <= i < |t| ==> IsSpace(t[i]) }

  lemma {:induction false} LeftStripOfSpaces(t: string)
    requires Spaces(t)
    ensures LeftStrip(t) == []
  {
    if t != [] {
      assert Spaces(t[1..]);
      LeftStripOfSpaces(t[1..]);
    }
  }

  lemma {:induction false} LeftStripOf(s: string, t: string)
    requires Spaces(t)
    ensures LeftStrip(s + t) == if LeftStrip(s) == [] then [] else LeftStrip(s) + t
  {
    if s == [] {
      assert s + t == t;
      LeftStripOfSpaces(t);
    } else if IsSpace(s[0]) {
      assert (s + t)[1..] == s[1..] + t;
      LeftStripOf(s[1..], t);
    }
  }

  lemma {:induction false} RightStripOf(s: string, t: string)
    requires Spaces(t)
    ensures RightStrip(s + t) == RightStrip(s)
    decreases |t|
  {
    if t == [] {
      assert s + t == s;
    } else {
      assert Spaces(t[..|t| - 1]);
      RightStripOf(s, t[..|t| - 1]);
      assert (s + t)[..|s + t| - 1] == s + t[..|t| - 1];
    }
  }

  lemma StripOf(s: string, newline: string)
    requires newline in {"\n", "\r\n"}
    ensures Strip(s + newline) == Strip(s)
  {
    assert Spaces(newline);
    LeftStripOf(s, newline);
    hide LeftStrip;
    RightStripOf(LeftStrip(s), newline);
  }

  lemma BlankStrips(newline: string)
    requires newline in {"\n", "\r\n"}
    ensures Strip(newline) == ""
  {
    StripOf("", newline);
    assert "" + newline == newline;
  }

  // ---- No section yet: the merge appends ----

  lemma BeforeStep(values: seq<Setting>, newline: string, output: seq<string>, w: Walk, line: string)
    requires w.phase.Before? && w.section != PREFERENCES && WalkLine(values, w, line).phase.Before?
    ensures var v := WalkLine(values, w, line);
            && v.section != PREFERENCES && v.canonical == w.canonical
            && Step(values, newline, Scan(w.section, {}, false, output), line) == Scan(v.section, {}, false, output + [line])
  {
    hide Strip, KeyOf, Replacement, IsCanonical;
  }

  lemma EarlierBefore(values: seq<Setting>, w: Walk, line: string)
    requires WalkLine(values, w, line).phase.Before?
    ensures w.phase.Before?
  {
    hide Strip, KeyOf, IsManaged, IsCanonical;
  }

  lemma NothingRead(values: seq<Setting>, newline: string)
    ensures WalkLines(values, []) == Walk("", Before, [], true) && ScanLines(values, newline, []) == START
  {
  }

  /** As long as there is no `[Preferences]`, lines are written as they are. */
  lemma {:induction false} BeforeIsKept(values: seq<Setting>, newline: string, lines: seq<string>)
    requires WalkLines(values, lines).phase.Before?
    ensures var w := WalkLines(values, lines);
            && w.section != PREFERENCES && w.canonical
            && ScanLines(values, newline, lines) == Scan(w.section, {}, false, lines)
  {
    hide WalkLines, ScanLines, WalkLine, Step;
    if lines == [] {
      NothingRead(values, newline);
    } else {
      var front, line := lines[..|lines| - 1], lines[|lines| - 1];
      LastOfBoth(values, newline, lines);
      EarlierBefore(values, WalkLines(values, front), line);
      BeforeIsKept(values, newline, front);
      BeforeStep(values, newline, front, WalkLines(values, front), line);
    }
  }

  /** The text with a terminated last line. */
  function Closed(text: string, newline: string): string { if NewlineTerminated(text) then text else text + newline }

  lemma JoinSnoc(lines: seq<string>, line: string)
    ensures JoinLines(lines + [line]) == JoinLines(lines) + line
  {
    JoinOfConcat(lines, [line]);
    assert JoinLines([line]) == line + JoinLines([line][1..]) == line;
  }

  lemma FrontAndLast(lines: seq<string>)
    requires lines != [] && Apart(lines)
    ensures var front, line := lines[..|lines| - 1], lines[|lines| - 1];
            && lines == front + [line] && LastOf(lines) == line && Apart(front) && Line(line) && line != ""
            && (front != [] ==> Whole(LastOf(front)) && (LastOf(front)[|LastOf(front)| - 1] == '\r' ==> line[0] != '\n'))
            && JoinLines(lines) == JoinLines(front) + line
  {
    JoinSnoc(lines[..|lines| - 1], lines[|lines| - 1]);
    hide JoinLines, LineLength;
    assert lines == lines[..|lines| - 1] + [lines[|lines| - 1]];
  }

  lemma TerminatedCases(lines: seq<string>, newline: string)
    ensures Ended(lines) ==> Terminated(lines, newline) == lines
    ensures !Ended(lines) ==> lines != [] && Terminated(lines, newline) == lines[..|lines| - 1] + [lines[|lines| - 1] + newline]
  {
    hide EndsWith;
  }

  lemma ClosedLines(lines: seq<string>, newline: string)
    requires Apart(lines)
    ensures JoinLines(Terminated(lines, newline)) == Closed(JoinLines(lines), newline)
  {
    hide *;
    LastLineEnds(lines);
    TerminatedCases(lines, newline);
    ClosedCases(JoinLines(lines), newline);
    if !Ended(lines) {
      var front, line := lines[..|lines| - 1], lines[|lines| - 1];
      FrontAndLast(lines);
      JoinSnoc(front, line + newline);
      assert JoinLines(front) + (line + newline) == JoinLines(front) + line + newline;
    }
  }

  /** A terminator behind a line belongs to it, or else is a blank line. */
  predicate Joins(line: string, newline: string)
    requires line != ""
  {
    !IsBreak(line[|line| - 1]) || (line[|line| - 1] == '\r' && newline == "\n")
  }

  lemma {:induction false} ReturnThenFeed(line: string)
    requires Line(line) && line[|line| - 1] == '\r'
    ensures Line(line + "\n")
  {
    var t := line + "\n";
    if |line| > 1 {
      assert !IsBreak(line[0]);
      ReturnThenFeed(line[1..]);
      assert t[1..] == line[1..] + "\n";
    }
  }

  lemma JoinedLine(line: string, newline: string)
    requires Line(line) && Joins(line, newline) && newline in {"\n", "\r\n"}
    ensures Line(line + newline) && (line + newline)[0] == line[0]
  {
    if IsBreak(line[|line| - 1]) {
      ReturnThenFeed(line);
    } else {
      UnterminatedIsUnbroken(line);
      UnbrokenLineLength(line, newline);
    }
  }

  lemma BlankIsLine(newline: string)
    requires newline in {"\n", "\r\n"}
    ensures Line(newline)
  {
    assert "\n"[1..] == "" && "\r\n"[2..] == "";
  }

  /** The lines of the closed text. */
  lemma SplitClosed(lines: seq<string>, newline: string)
    requires Apart(lines) && lines != [] && newline in {"\n", "\r\n"} && LastOf(lines)[|LastOf(lines)| - 1] != '\n'
    ensures SplitLines(JoinLines(lines) + newline)
         == if Joins(LastOf(lines), newline) then lines[..|lines| - 1] + [LastOf(lines) + newline] else lines + [newline]
  {
    hide *;
    FrontAndLast(lines);
    var front, line := lines[..|lines| - 1], lines[|lines| - 1];
    if Joins(line, newline) {
      JoinedLine(line, newline);
      LastIs(front);
      ApartSnoc(front, line + newline);
      JoinSnoc(front, line + newline);
      assert JoinLines(front) + (line + newline) == JoinLines(front) + line + newline;
      SplitOfJoin(front + [line + newline]);
    } else {
      BlankIsLine(newline);
      JoinsIs(line, newline);
      LastIs(lines);
      ApartSnoc(lines, newline);
      JoinSnoc(lines, newline);
      SplitOfJoin(lines + [newline]);
    }
  }

  lemma LastIs(lines: seq<string>)
    ensures lines != [] ==> LastOf(lines) == lines[|lines| - 1]
  {
  }

  lemma JoinsIs(line: string, newline: string)
    requires Line(line) && newline in {"\n", "\r\n"} && line[|line| - 1] != '\n' && !Joins(line, newline)
    ensures Whole(line) && (line[|line| - 1] == '\r' ==> newline[0] != '\n')
  {
    hide LineLength;
  }

  lemma SameStripSamePhase(values: seq<Setting>, w: Walk, a: string, b: string)
    requires Strip(a) == Strip(b) && w.section != PREFERENCES
    ensures WalkLine(values, w, a).phase == WalkLine(values, w, b).phase
    ensures WalkLine(values, w, a).canonical == WalkLine(values, w, b).canonical
  {
    hide Strip, KeyOf, IsCanonical;
  }

  lemma BlankChangesNothing(values: seq<Setting>, w: Walk, newline: string)
    requires newline in {"\n", "\r\n"}
    ensures var v := WalkLine(values, w, newline); v.phase == w.phase && v.canonical == w.canonical
  {
    BlankStrips(newline);
    hide Strip, KeyOf, IsCanonical;
  }

  lemma ClosedIsBefore(values: seq<Setting>, text: string, newline: string)
    requires newline in {"\n", "\r\n"} && WalkLines(values, SplitLines(text)).phase.Before?
    ensures var w := WalkLines(values, SplitLines(Closed(text, newline))); w.phase.Before? && w.canonical
  {
    hide *;
    var lines := SplitLines(text);
    SplitIsApart(text);
    LastLineEnds(lines);
    BeforeIsKept(values, newline, lines);
    ClosedCases(text, newline);
    if !NewlineTerminated(text) {
      LinesAreFull(lines);
      EndedCases(text, lines);
      var front, line := lines[..|lines| - 1], lines[|lines| - 1];
      LastIs(lines);
      SplitClosed(lines, newline);
      if Joins(line, newline) {
        LastOfBoth(values, newline, lines);
        EarlierBefore(values, WalkLines(values, front), line);
        BeforeIsKept(values, newline, front);
        StripOf(line, newline);
        SameStripSamePhase(values, WalkLines(values, front), line, line + newline);
        WalkSnoc(values, front, line + newline);
      } else {
        WalkSnoc(values, lines, newline);
        BlankChangesNothing(values, WalkLines(values, lines), newline);
      }
    }
  }

  lemma LinesAreFull(lines: seq<string>)
    requires Apart(lines)
    ensures lines != [] ==> LastOf(lines) != ""
  {
    hide LineLength;
  }

  lemma ClosedCases(text: string, newline: string)
    ensures Closed(text, newline) == if NewlineTerminated(text) then text else text + newline
  {
  }

  lemma EndedCases(text: string, lines: seq<string>)
    requires !NewlineTerminated(text) && text == JoinLines(lines)
    requires lines != [] ==> LastOf(lines) != "" && text[|text| - 1] == LastOf(lines)[|LastOf(lines)| - 1]
    ensures lines != [] && LastOf(lines) != "" && LastOf(lines)[|LastOf(lines)| - 1] != '\n'
  {
  }

  lemma ClosedEnds(text: string, newline: string)
    requires newline in {"\n", "\r\n"}
    ensures NewlineTerminated(Closed(text, newline))
  {
  }

  lemma EndedIsOpen(lines: seq<string>)
    requires Apart(lines) && Ended(lines)
    ensures Open(lines, LastOf(lines))
  {
    EndedIsWhole(lines);
    hide LineLength;
  }

  lemma FinishBefore(values: seq<Setting>, newline: string, section: string, lines: seq<string>)
    requires section != PREFERENCES
    ensures Finish(values, newline, Scan(section, {}, false, lines))
         == Terminated(lines, newline) + [HEADER + newline] + Missing(values, {}, newline)
  {
    hide Terminated, Missing;
  }

  /** Without a `[Preferences]` section the merge only appends: a terminator if the
      last line has none, a header and every setting. */
  lemma MergeAppends(values: seq<Setting>, text: string)
    requires Clean(values) && WalkLines(values, SplitLines(text)).phase.Before?
    ensures var newline := Newline(SplitLines(text));
            Merge(values, text)
              == Closed(text, newline) + JoinLines([HEADER + newline] + Missing(values, {}, newline))
    ensures Settled(values, SplitLines(Merge(values, text)))
  {
    var newline := Newline(SplitLines(text));
    hide *;
    var lines := SplitLines(text);
    var tail := [HEADER + newline] + Missing(values, {}, newline);
    SplitIsApart(text);
    BeforeIsKept(values, newline, lines);
    FinishBefore(values, newline, WalkLines(values, lines).section, lines);
    MergeLinesIs(values, lines);
    MergeIs(values, text);
    assert Terminated(lines, newline) + [HEADER + newline] + Missing(values, {}, newline) == Terminated(lines, newline) + tail;
    JoinOfConcat(Terminated(lines, newline), tail);
    ClosedLines(lines, newline);
    AppendedSettles(values, text, newline);
  }

  lemma MergeLinesIs(values: seq<Setting>, lines: seq<string>)
    ensures MergeLines(values, lines) == Finish(values, Newline(lines), ScanLines(values, Newline(lines), lines))
  {
    hide Finish, ScanLines;
  }

  lemma AppendedSettles(values: seq<Setting>, text: string, newline: string)
    requires Clean(values) && newline in {"\n", "\r\n"} && WalkLines(values, SplitLines(text)).phase.Before?
    ensures Settled(values, SplitLines(Closed(text, newline) + JoinLines([HEADER + newline] + Missing(values, {}, newline))))
  {
    hide *;
    var closed := SplitLines(Closed(text, newline));
    ClosedIsBefore(values, text, newline);
    SplitIsApart(Closed(text, newline));
    ClosedEnds(text, newline);
    LastLineEnds(closed);
    EndedIsOpen(closed);
    HeaderAndMissing(values, {}, newline, closed, LastOf(closed));
    var tail := [HEADER + newline] + Missing(values, {}, newline);
    assert closed + [HEADER + newline] + Missing(values, {}, newline) == closed + tail;
    JoinOfConcat(closed, tail);
    SplitOfJoin(closed + tail);
    HeaderOpens(values, newline, closed);
    AllMissing(values, Scan(PREFERENCES, {}, false, closed + [HEADER + newline]), newline);
    SettledWhen(values, closed + tail);
  }

  // ---- Behind a `[Preferences]` ----

  lemma FinishBehind(values: seq<Setting>, newline: string, st: Scan)
    requires st.inserted || st.section == PREFERENCES
    ensures Finish(values, newline, st) == if st.inserted then st.output else st.output + Missing(values, st.seen, newline)
  {
    hide Missing;
  }

  /** What is written is settled and keeps the unmanaged lines, however the last
      line ends. */
  lemma WrittenIsSettled(values: seq<Setting>, lines: seq<string>)
    requires Clean(values) && !WalkLines(values, lines).phase.Before?
    ensures Settled(values, MergeLines(values, lines))
    ensures WalkLines(values, MergeLines(values, lines)).others == WalkLines(values, lines).others
  {
    var newline := Newline(lines);
    hide *;
    var st := ScanLines(values, newline, lines);
    MergeLinesIs(values, lines);
    ScanIsRelated(values, newline, lines);
    RelatedCases(values, st, WalkLines(values, lines));
    FinishBehind(values, newline, st);
    if !st.inserted {
      AllMissing(values, st, newline);
    }
    SettledWhen(values, MergeLines(values, lines));
  }

  lemma ClosedIsWhole(lines: seq<string>)
    requires Apart(lines) && !Unclosed(lines)
    ensures AllWhole(lines)
  {
    hide LineLength;
  }

  lemma WholeMergeIsApart(values: seq<Setting>, lines: seq<string>)
    requires Clean(values) && Apart(lines) && AllWhole(lines) && !WalkLines(values, lines).phase.Before?
    ensures Apart(MergeLines(values, lines))
  {
    var newline := Newline(lines);
    hide *;
    var st := ScanLines(values, newline, lines);
    MergeLinesIs(values, lines);
    ScanIsRelated(values, newline, lines);
    RelatedCases(values, st, WalkLines(values, lines));
    FinishBehind(values, newline, st);
    ScanStaysOpen(values, newline, lines);
    OpenIsApart(st.output, LastOf(lines));
    OpenMissing(values, st.seen, newline, st.output, LastOf(lines));
    OpenIsApart(st.output + Missing(values, st.seen, newline), LastOf(lines));
  }

  lemma UnclosedText(text: string)
    ensures Unclosed(SplitLines(text)) <==> text != "" && !IsBreak(text[|text| - 1])
  {
    hide *;
    SplitIsApart(text);
    LastLineEnds(SplitLines(text));
    UnclosedIs(SplitLines(text), text);
  }

  lemma UnclosedIs(lines: seq<string>, text: string)
    requires text != [] ==> lines != []
    requires Apart(lines) && text == JoinLines(lines)
    requires lines != [] ==> text != [] && text[|text| - 1] == LastOf(lines)[|LastOf(lines)| - 1]
    ensures Unclosed(lines) <==> text != "" && !IsBreak(text[|text| - 1])
  {
    hide LineLength, JoinLines;
    assert lines != [] ==> Line(lines[|lines| - 1]);
  }

  /** The lines written are the lines of the merged text. */
  lemma WrittenLines(values: seq<Setting>, text: string)
    requires Clean(values)
    requires !WalkLines(values, SplitLines(text)).phase.Before? && !Glues(values, SplitLines(text))
    ensures SplitLines(Merge(values, text)) == MergeLines(values, SplitLines(text))
  {
    hide *;
    var lines := SplitLines(text);
    UnclosedText(text);
    if Unclosed(lines) {
      GluesExactlyWhen(values, text);
    } else {
      SplitIsApart(text);
      ClosedIsWhole(lines);
      WholeMergeIsApart(values, lines);
      MergeIs(values, text);
      SplitOfJoin(MergeLines(values, lines));
    }
  }

  // ---- The glued setting ----

  /** The first missing setting, and the others. */
  lemma {:induction false} FirstMissing(values: seq<Setting>, seen: set<string>, newline: string) returns (m: nat)
    requires Clean(values) && !(Keys(values) <= seen)
    ensures m < |values| && values[m].key !in seen
    ensures Missing(values, seen, newline)
         == [Assignment(values[m].key, values[m].value, newline)] + Missing(values, seen + {values[m].key}, newline)
  {
    var n := |values| - 1;
    var front, last := values[..n], values[n];
    KeysSnoc(values, n);
    assert values[..n + 1] == values && Clean(front);
    MissingSnoc(values, n, seen, newline);
    hide *;
    SomethingMissing(front, seen, newline);
    if Keys(front) <= seen {
      m := n;
      MissingSnoc(values, n, seen + {last.key}, newline);
      SomethingMissing(front, seen + {last.key}, newline);
    } else {
      m := FirstMissing(front, seen, newline);
      KeyDiffers(values, m, n);
      MissingSnoc(values, n, seen + {values[m].key}, newline);
      ThreeParts(Missing(front, seen + {values[m].key}, newline), Assignment(values[m].key, values[m].value, newline),
                 if last.key in seen then [] else [Assignment(last.key, last.value, newline)]);
    }
  }

  lemma KeyDiffers(values: seq<Setting>, m: nat, n: nat)
    requires Clean(values) && m < n < |values|
    ensures values[m].key != values[n].key
  {
  }

  lemma ThreeParts(s: seq<string>, first: string, t: seq<string>)
    ensures [first] + s + t == [first] + (s + t)
  {
  }

  /** The reading so far does not have the key where it belongs. */
  predicate Lacks(w: Walk, key: string) {
    !w.canonical || w.phase.Before? || key !in w.phase.keys
  }

  lemma OtherKeyLacks(values: seq<Setting>, w: Walk, line: string, key: string)
    requires Lacks(w, key)
    requires IsManaged(values, w.section, line) && IsCanonical(values, line) ==> KeyOf(Strip(line)) != key
    ensures Lacks(WalkLine(values, w, line), key)
  {
    hide Strip, KeyOf, IsCanonical;
  }

  lemma {:induction false} MissingLacks(values: seq<Setting>, seen: set<string>, newline: string, lines: seq<string>, n: nat, key: string)
    requires Clean(values) && newline in {"\n", "\r\n"} && n <= |values| && key in seen && Lacks(WalkLines(values, lines), key)
    ensures Lacks(WalkLines(values, lines + Missing(values[..n], seen, newline)), key)
  {
    hide *;
    if n == 0 {
      MissingNothing(values, seen, newline, lines);
    } else {
      MissingLacks(values, seen, newline, lines, n - 1, key);
      MissingSnoc(values, n - 1, seen, newline);
      var before := lines + Missing(values[..n - 1], seen, newline);
      if values[n - 1].key in seen {
        assert lines + Missing(values[..n], seen, newline) == before;
      } else {
        var line := Assignment(values[n - 1].key, values[n - 1].value, newline);
        KeysAreClean(values, n - 1);
        AssignmentParses(values[n - 1].key, values[n - 1].value, newline);
        WalkSnoc(values, before, line);
        OtherKeyLacks(values, WalkLines(values, before), line, key);
        assert lines + Missing(values[..n], seen, newline) == before + [line];
      }
    }
  }

  lemma KeysAreClean(values: seq<Setting>, n: nat)
    requires Clean(values) && n < |values|
    ensures CleanKey(values[n].key) && Unbroken(values[n].value) && values[n].key in Keys(values)
  {
    ValueAt(values, n);
    hide Keys, CleanKey;
  }

  /** A line that begins with the key and an equals sign sets that key. */
  lemma StartsWithKey(line: string, key: string)
    requires CleanKey(key) && |line| > |key| && line[..|key|] == key && line[|key|] == '='
    ensures var s := Strip(line); !IsHeader(s) && '=' in s && s[0] !in {'#', ';'} && KeyOf(s) == key
  {
    hide Strip, KeyOf, CleanKey;
    assert line == Assignment(key, line[|key| + 1..], "");
    AssignmentParses(key, line[|key| + 1..], "");
  }

  /** The line the setting is glued to is not one that sets the key, and neither
      is the glued line a right setting of it. */
  lemma GluedSetsAnother(values: seq<Setting>, line: string, key: string, value: string, newline: string)
    requires CleanKey(key) && line != "" && key in Keys(values)
    requires !IsManaged(values, PREFERENCES, line)
    requires KeyOf(Strip(line + Assignment(key, value, newline))) in Keys(values)
    requires IsCanonical(values, line + Assignment(key, value, newline))
    ensures KeyOf(Strip(line + Assignment(key, value, newline))) != key
  {
    var glued := line + Assignment(key, value, newline);
    CanonicalStarts(values, glued);
    hide Strip, KeyOf, CleanKey, IsCanonical;
    if |line| <= |key| {
      EqualsComesLater(line, key, value, newline);
    } else {
      assert glued[..|key|] == line[..|key|] && glued[|key|] == line[|key|];
      if line[..|key|] == key && line[|key|] == '=' {
        StartsWithKey(line, key);
      }
    }
  }

  lemma CanonicalStarts(values: seq<Setting>, line: string)
    requires KeyOf(Strip(line)) in Keys(values) && IsCanonical(values, line)
    ensures var key := KeyOf(Strip(line)); |line| > |key| && line[..|key|] == key && line[|key|] == '='
  {
    hide Strip, KeyOf, ValueOf;
  }

  lemma EqualsComesLater(line: string, key: string, value: string, newline: string)
    requires CleanKey(key) && 0 < |line| <= |key|
    ensures (line + Assignment(key, value, newline))[|key|] != '='
  {
    assert (line + Assignment(key, value, newline))[|key|] == key[|key| - |line|];
  }

  lemma GluedLacks(values: seq<Setting>, w: Walk, line: string, key: string, value: string, newline: string)
    requires CleanKey(key) && line != "" && key in Keys(values) && Lacks(w, key)
    requires !IsManaged(values, w.section, line)
    ensures Lacks(WalkLine(values, w, line + Assignment(key, value, newline)), key)
  {
    var glued := line + Assignment(key, value, newline);
    hide Strip, KeyOf, IsCanonical, Assignment, CleanKey, Keys, WalkLine;
    if IsManaged(values, w.section, glued) && IsCanonical(values, glued) {
      GluedSetsAnother(values, line, key, value, newline);
    }
    OtherKeyLacks(values, w, glued, key);
  }

  /** The glued line is one line, and the other settings follow it. */
  lemma GluedLines(values: seq<Setting>, seen: set<string>, newline: string, front: seq<string>, last: string, line: string, m: nat)
    requires Clean(values) && newline in {"\n", "\r\n"} && m < |values|
    requires Open(front, last) && Line(line) && Unbroken(line) && (last != "" && last[|last| - 1] == '\r' ==> line[0] != '\n')
    ensures var lines := front + [line + Assignment(values[m].key, values[m].value, newline)] + Missing(values, seen, newline);
            Apart(lines) && Ended(lines)
  {
    hide *;
    KeysAreClean(values, m);
    var key, value := values[m].key, values[m].value;
    var glued := line + Assignment(key, value, newline);
    GluedIsWritten(line, key, value, newline);
    OpenWritten(front, last, glued);
    OpenMissing(values, seen, newline, front + [glued], glued);
    OpenIsApart(front + [glued] + Missing(values, seen, newline), glued);
    WrittenEnds(front, glued);
    MissingEnds(values, seen, newline, front + [glued]);
  }

  lemma GluedIsWritten(line: string, key: string, value: string, newline: string)
    requires CleanKey(key) && Unbroken(value) && newline in {"\n", "\r\n"} && Line(line) && Unbroken(line)
    ensures Written(line + Assignment(key, value, newline))
  {
    hide LineLength;
    var s := line + (key + "=" + value);
    assert Unbroken(s);
    UnbrokenLineLength(s, newline);
    assert line + Assignment(key, value, newline) == s + newline;
    assert s[0] == line[0];
  }

  /** The scan at the last line of a text that glues. */
  lemma ScanOfGlued(values: seq<Setting>, newline: string, lines: seq<string>)
    requires Clean(values) && newline in {"\n", "\r\n"} && Unterminated(lines) && Glues(values, lines)
    ensures var front, line := lines[..|lines| - 1], lines[|lines| - 1];
            var st, done := ScanLines(values, newline, front), ScanLines(values, newline, lines);
            && !done.inserted && done.section == PREFERENCES && done.seen == WalkLines(values, lines).phase.keys
            && done.output == st.output + [line]
            && !IsManaged(values, st.section, line)
            && (forall key :: key !in done.seen ==> Lacks(WalkLines(values, st.output), key))
            && WalkLines(values, st.output).section == st.section
  {
    hide *;
    UnterminatedIsUnclosed(lines);
    var front, line := lines[..|lines| - 1], lines[|lines| - 1];
    var st, done := ScanLines(values, newline, front), ScanLines(values, newline, lines);
    LastOfBoth(values, newline, lines);
    GluesIs(values, lines);
    ScanIsRelated(values, newline, lines);
    RelatedReads(values, done, WalkLines(values, lines));
    ScanIsRelated(values, newline, front);
    RelatedCases(values, st, WalkLines(values, front));
    SectionsAgree(values, st, WalkLines(values, front));
    LastStepWrites(values, newline, st, line);
    forall key | key !in done.seen ensures Lacks(WalkLines(values, st.output), key) {
      LacksWhen(WalkLines(values, st.output), key, st.seen);
    }
  }

  lemma UnterminatedIsUnclosed(lines: seq<string>)
    requires Unterminated(lines)
    ensures Unclosed(lines) && lines != []
  {
    hide LineLength;
  }

  lemma SectionsAgree(values: seq<Setting>, st: Scan, read: Walk)
    requires Related(values, st, read, WalkLines(values, st.output))
    ensures st.section == read.section
  {
    hide WalkLines;
  }

  lemma LacksWhen(w: Walk, key: string, seen: set<string>)
    requires w.phase.Before? || w.phase == Inside(seen)
    requires key !in seen
    ensures Lacks(w, key)
  {
  }

  /** A step after which nothing has been inserted. */
  lemma LastStepWrites(values: seq<Setting>, newline: string, st: Scan, line: string)
    requires !Step(values, newline, st, line).inserted && !IsManaged(values, st.section, line)
    ensures var t := Step(values, newline, st, line);
            t.output == st.output + [line] && t.seen == st.seen && !st.inserted
  {
    hide Strip, Missing, Replacement;
  }

  /** A text that glues ends up terminated but not settled. */
  lemma GluedIsUnsettled(values: seq<Setting>, text: string)
    requires Clean(values) && Glues(values, SplitLines(text))
    ensures !Settled(values, SplitLines(Merge(values, text))) && NewlineTerminated(Merge(values, text))
  {
    var newline := Newline(SplitLines(text));
    hide *;
    var lines := SplitLines(text);
    GluesIsUnclosed(values, lines);
    UnclosedText(text);
    UnterminatedText(text);
    SplitIsApart(text);
    FrontAndLast(lines);
    var front, line := lines[..|lines| - 1], lines[|lines| - 1];
    var st, done := ScanLines(values, newline, front), ScanLines(values, newline, lines);
    ScanOfGlued(values, newline, lines);
    ScanToLastLine(values, newline, lines);
    SnocParts(st.output, line);
    GluesIs(values, lines);
    var m := FirstMissing(values, done.seen, newline);
    var key, value := values[m].key, values[m].value;
    var seen := done.seen + {key};
    var rest := Missing(values, seen, newline);
    var setting := Assignment(key, value, newline);
    MergeIs(values, text);
    MergeLinesIs(values, lines);
    FinishBehind(values, newline, done);
    GluedJoin(st.output, line, setting, rest);
    GluedLines(values, seen, newline, st.output, LastOf(front), line, m);
    var merged := st.output + [line + setting] + rest;
    SplitOfJoin(merged);
    LastLineEnds(merged);
    KeysAreClean(values, m);
    GluedLacks(values, WalkLines(values, st.output), line, key, value, newline);
    WalkSnoc(values, st.output, line + setting);
    MissingLacks(values, seen, newline, st.output + [line + setting], |values|, key);
    assert values[..|values|] == values;
    LackingIsUnsettled(values, merged, key);
  }

  lemma GluesIsUnclosed(values: seq<Setting>, lines: seq<string>)
    requires Glues(values, lines)
    ensures Unclosed(lines)
  {
    hide WalkLines, IsManaged;
  }

  lemma SnocParts(front: seq<string>, line: string)
    ensures (front + [line])[..|front + [line]| - 1] == front
  {
  }

  lemma GluedJoin(front: seq<string>, line: string, first: string, rest: seq<string>)
    ensures JoinLines(front + [line] + ([first] + rest)) == JoinLines(front + [line + first] + rest)
  {
    hide JoinLines;
    JoinOfConcat(front + [line + first], rest);
    JoinSnoc(front, line + first);
    assert front + [line] + ([first] + rest) == (front + [line] + [first]) + rest;
    JoinOfConcat(front + [line] + [first], rest);
    JoinSnoc(front + [line], first);
    JoinSnoc(front, line);
    assert JoinLines(front) + line + first == JoinLines(front) + (line + first);
  }

  lemma LackingIsUnsettled(values: seq<Setting>, lines: seq<string>, key: string)
    requires Lacks(WalkLines(values, lines), key) && key in Keys(values)
    ensures !Settled(values, lines)
  {
    hide WalkLines, Keys;
  }

  // ---- Every text ----

  /** For every text: the merge settles it exactly unless it glues. */
  lemma MergeSettlesExactly(values: seq<Setting>, text: string)
    requires Clean(values)
    ensures Settled(values, SplitLines(Merge(values, text))) <==> !Glues(values, SplitLines(text))
    ensures !Glues(values, SplitLines(text)) && !WalkLines(values, SplitLines(text)).phase.Before?
        ==> WalkLines(values, SplitLines(Merge(values, text))).others == WalkLines(values, SplitLines(text)).others
  {
    hide *;
    var lines := SplitLines(text);
    if Glues(values, lines) {
      GluedIsUnsettled(values, text);
    } else if WalkLines(values, lines).phase.Before? {
      MergeAppends(values, text);
    } else {
      WrittenLines(values, text);
      WrittenIsSettled(values, lines);
    }
  }

  /** For every text: the merge leaves it alone exactly when it is settled. */
  lemma FixedExactlyWhenSettledAlready(values: seq<Setting>, text: string)
    requires Clean(values)
    ensures Merge(values, text) == text <==> Settled(values, SplitLines(text))
  {
    hide *;
    if Settled(values, SplitLines(text)) {
      SettledIsFixed(values, SplitLines(text));
      SplitIsApart(text);
      MergeIs(values, text);
    } else if Glues(values, SplitLines(text)) {
      GluedIsUnsettled(values, text);
      GluesIsUnclosed(values, SplitLines(text));
      UnclosedText(text);
      UnclosedDiffers(text, Merge(values, text));
    } else {
      MergeSettlesExactly(values, text);
    }
  }

  lemma UnclosedDiffers(text: string, merged: string)
    requires text != "" && !IsBreak(text[|text| - 1]) && NewlineTerminated(merged)
    ensures text != merged
  {
  }

  /** For every text: merging twice is merging once exactly unless it glues. */
  lemma MergingTwice(values: seq<Setting>, text: string)
    requires Clean(values)
    ensures Merge(values, Merge(values, text)) == Merge(values, text) <==> !Glues(values, SplitLines(text))
  {
    hide *;
    MergeSettlesExactly(values, text);
    FixedExactlyWhenSettledAlready(values, Merge(values, text));
  }
}

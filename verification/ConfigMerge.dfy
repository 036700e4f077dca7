/** Merging the managed settings into a qBittorrent configuration. The text is
    the decoded file; lines keep their terminators. */
module ConfigMerge {
  import opened Lines
  import opened Text

  datatype Setting = Setting(key: string, value: string)

  const PREFERENCES: string := "Preferences"
  const HEADER: string := "[Preferences]"

  function Keys(values: seq<Setting>): set<string> {
    if values == [] then {} else Keys(values[..|values| - 1]) + {values[|values| - 1].key}
  }

  function ValueOf(values: seq<Setting>, key: string): string
    requires key in Keys(values)
  {
    if values[|values| - 1].key == key then values[|values| - 1].value else ValueOf(values[..|values| - 1], key)
  }

  predicate Unbroken(s: string) { forall i :: 0 <= i < |s| ==> !IsBreak(s[i]) }

  predicate CleanKey(key: string) {
    && key != "" && !IsSpace(key[0]) && key[0] !in {'#', ';', '['}
    && '=' !in key && Unbroken(key)
  }

  /** The managed settings as a dictionary in order: clean distinct keys, and
      values on one line. */
  predicate Clean(values: seq<Setting>) {
    && (forall i :: 0 <= i < |values| ==> CleanKey(values[i].key) && Unbroken(values[i].value))
    && (forall i, j :: 0 <= i < j < |values| ==> values[i].key != values[j].key)
  }

  // ---- One line ----

  predicate EndsWith(s: string, end: string) { |s| >= |end| && s[|s| - |end|..] == end }

  predicate IsHeader(stripped: string) {
    |stripped| >= 2 && stripped[0] == '[' && stripped[|stripped| - 1] == ']'
  }

  function KeyOf(stripped: string): string { stripped[..IndexOf(stripped, '=')] }

  /** A line of `[Preferences]` that sets a managed key. */
  predicate IsManaged(values: seq<Setting>, section: string, line: string) {
    var s := Strip(line);
    && !IsHeader(s) && section == PREFERENCES
    && '=' in s && s[0] !in {'#', ';'}
    && KeyOf(s) in Keys(values)
  }

  function Assignment(key: string, value: string, ending: string): string { key + "=" + value + ending }

  function Ending(line: string, newline: string): string {
    if EndsWith(line, "\r\n") then "\r\n" else if EndsWith(line, "\n") then "\n" else newline
  }

  function Replacement(values: seq<Setting>, line: string, newline: string): string
    requires KeyOf(Strip(line)) in Keys(values)
  {
    var key := KeyOf(Strip(line));
    Assignment(key, ValueOf(values, key), Ending(line, newline))
  }

  // ---- The merge ----

  datatype Scan = Scan(section: string, seen: set<string>, inserted: bool, output: seq<string>)

  const START: Scan := Scan("", {}, false, [])

  function Missing(values: seq<Setting>, seen: set<string>, newline: string): seq<string> {
    if values == [] then []
    else
      var last := values[|values| - 1];
      Missing(values[..|values| - 1], seen, newline)
      + if last.key in seen then [] else [Assignment(last.key, last.value, newline)]
  }

  function Insert(values: seq<Setting>, newline: string, st: Scan): Scan {
    if st.inserted then st else st.(output := st.output + Missing(values, st.seen, newline), inserted := true)
  }

  function Step(values: seq<Setting>, newline: string, st: Scan, line: string): Scan {
    var s := Strip(line);
    if IsHeader(s) then
      var before := if st.section == PREFERENCES then Insert(values, newline, st) else st;
      before.(section := s[1..|s| - 1], output := before.output + [line])
    else if IsManaged(values, st.section, line) then
      st.(output := st.output + [Replacement(values, line, newline)], seen := st.seen + {KeyOf(s)})
    else
      st.(output := st.output + [line])
  }

  function ScanLines(values: seq<Setting>, newline: string, lines: seq<string>): Scan {
    if lines == [] then START
    else Step(values, newline, ScanLines(values, newline, lines[..|lines| - 1]), lines[|lines| - 1])
  }

  /** The last line gets a terminator before a section is added behind it. */
  function Terminated(output: seq<string>, newline: string): seq<string> {
    if output != [] && !EndsWith(output[|output| - 1], "\n")
    then output[..|output| - 1] + [output[|output| - 1] + newline]
    else output
  }

  function Finish(values: seq<Setting>, newline: string, st: Scan): seq<string> {
    var done := if st.section == PREFERENCES then Insert(values, newline, st) else st;
    if done.inserted then done.output
    else Terminated(done.output, newline) + [HEADER + newline] + Missing(values, done.seen, newline)
  }

  function Newline(lines: seq<string>): (n: string)
    ensures n == "\n" || n == "\r\n"
  {
    if exists i :: 0 <= i < |lines| && EndsWith(lines[i], "\r\n") then "\r\n" else "\n"
  }

  function MergeLines(values: seq<Setting>, lines: seq<string>): seq<string> {
    Finish(values, Newline(lines), ScanLines(values, Newline(lines), lines))
  }

  function Merge(values: seq<Setting>, text: string): string {
    JoinLines(MergeLines(values, SplitLines(text)))
  }

  method InsertMissing(values: seq<Setting>, newline: string, seen: set<string>, before: seq<string>) returns (output: seq<string>)
    ensures output == before + Missing(values, seen, newline)
  {
    output := before;
    for i := 0 to |values|
      invariant output == before + Missing(values[..i], seen, newline)
    {
      assert values[..i + 1][..i] == values[..i];
      if values[i].key !in seen { output := output + [Assignment(values[i].key, values[i].value, newline)]; }
    }
    assert values[..|values|] == values;
  }

  method MergeConfig(values: seq<Setting>, text: string) returns (merged: string)
    ensures merged == Merge(values, text)
  {
    hide Strip, KeyOf, Missing, Newline, Terminated, SplitLines, JoinLines, Replacement;
    var lines := SplitLines(text);
    var newline := Newline(lines);
    var output: seq<string>, seen: set<string>, section, inserted := [], {}, "", false;
    for i := 0 to |lines|
      invariant Scan(section, seen, inserted, output) == ScanLines(values, newline, lines[..i])
    {
      var line := lines[i];
      assert lines[..i + 1][..i] == lines[..i];
      var stripped := Strip(line);
      if IsHeader(stripped) {
        if section == PREFERENCES && !inserted {
          output := InsertMissing(values, newline, seen, output);
          inserted := true;
        }
        section := stripped[1..|stripped| - 1];
        output := output + [line];
      } else if IsManaged(values, section, line) {
        output := output + [Replacement(values, line, newline)];
        seen := seen + {KeyOf(stripped)};
      } else {
        output := output + [line];
      }
    }
    assert lines[..|lines|] == lines;
    if section == PREFERENCES && !inserted {
      output := InsertMissing(values, newline, seen, output);
      inserted := true;
    }
    if !inserted {
      output := InsertMissing(values, newline, seen, Terminated(output, newline) + [HEADER + newline]);
    }
    return JoinLines(output);
  }

  // ---- What a configuration says, read line by line ----

  /** The managed keys of the first `[Preferences]` section, as far as it has been
      read. */
  datatype Phase = Before | Inside(keys: set<string>) | Past(keys: set<string>)

  /** `others` are the lines that are not managed ones; `canonical` says that
      every managed line carries the managed value. */
  datatype Walk = Walk(section: string, phase: Phase, others: seq<string>, canonical: bool)

  predicate IsCanonical(values: seq<Setting>, line: string)
    requires KeyOf(Strip(line)) in Keys(values)
  {
    var key := KeyOf(Strip(line));
    var value := ValueOf(values, key);
    line == Assignment(key, value, "\n") || line == Assignment(key, value, "\r\n")
  }

  function WalkLine(values: seq<Setting>, w: Walk, line: string): Walk {
    var s := Strip(line);
    if IsHeader(s) then
      var section := s[1..|s| - 1];
      Walk(section,
           if w.phase.Inside? then Past(w.phase.keys)
           else if w.phase.Before? && section == PREFERENCES then Inside({})
           else w.phase,
           w.others + [line],
           w.canonical)
    else if IsManaged(values, w.section, line) then
      w.(phase := if w.phase.Inside? then Inside(w.phase.keys + {KeyOf(s)}) else w.phase,
         canonical := w.canonical && IsCanonical(values, line))
    else
      w.(others := w.others + [line])
  }

  function WalkLines(values: seq<Setting>, lines: seq<string>): Walk {
    if lines == [] then Walk("", Before, [], true)
    else WalkLine(values, WalkLines(values, lines[..|lines| - 1]), lines[|lines| - 1])
  }

  /** Every managed line is right, and the first `[Preferences]` has every key. */
  predicate Settled(values: seq<Setting>, lines: seq<string>) {
    var w := WalkLines(values, lines);
    w.canonical && !w.phase.Before? && w.phase.keys == Keys(values)
  }

  // ---- Lines the merge writes ----

  lemma {:induction false} KeyIsClean(values: seq<Setting>, key: string)
    requires Clean(values) && key in Keys(values)
    ensures CleanKey(key) && Unbroken(ValueOf(values, key))
  {
    var front := values[..|values| - 1];
    if values[|values| - 1].key != key {
      assert Clean(front);
      KeyIsClean(front, key);
    }
  }

  /** Stripping a written line leaves its key in front of the first `=`. */
  lemma AssignmentParses(key: string, value: string, ending: string)
    requires CleanKey(key)
    ensures var s := Strip(Assignment(key, value, ending));
            !IsHeader(s) && '=' in s && s[0] !in {'#', ';'} && KeyOf(s) == key
  {
    var line := Assignment(key, value, ending);
    var p := key + "=";
    assert line == p + (value + ending);
    assert LeftStrip(line) == line;
    RightStripKeeps(p, value + ending);
    var s := Strip(line);
    assert s == p + s[|p|..];
    assert s == key + ['='] + s[|p|..];
    IndexOfPrefix(key, '=', s[|p|..]);
    assert s[|key|] == '=' && s[0] == key[0];
  }

  lemma AssignmentIsManaged(values: seq<Setting>, key: string, ending: string)
    requires Clean(values) && key in Keys(values) && ending in {"\n", "\r\n"}
    ensures var line := Assignment(key, ValueOf(values, key), ending);
            && IsManaged(values, PREFERENCES, line)
            && !IsHeader(Strip(line))
            && KeyOf(Strip(line)) == key
            && IsCanonical(values, line)
  {
    KeyIsClean(values, key);
    AssignmentParses(key, ValueOf(values, key), ending);
    hide Assignment, Strip;
  }

  lemma ReplacementIsManaged(values: seq<Setting>, line: string, newline: string)
    requires Clean(values) && newline in {"\n", "\r\n"} && KeyOf(Strip(line)) in Keys(values)
    ensures var key, rewritten := KeyOf(Strip(line)), Replacement(values, line, newline);
            && IsManaged(values, PREFERENCES, rewritten) && !IsHeader(Strip(rewritten))
            && KeyOf(Strip(rewritten)) == key && IsCanonical(values, rewritten)
  {
    AssignmentIsManaged(values, KeyOf(Strip(line)), Ending(line, newline));
  }

  /** A canonical line is replaced by itself. */
  lemma CanonicalIsKept(values: seq<Setting>, line: string, newline: string)
    requires Clean(values) && KeyOf(Strip(line)) in Keys(values) && IsCanonical(values, line)
    ensures Replacement(values, line, newline) == line
  {
    var key := KeyOf(Strip(line));
    KeyIsClean(values, key);
    var p := key + "=" + ValueOf(values, key);
    hide Strip, KeyOf;
    assert !IsBreak(p[|p| - 1]) by {
      if ValueOf(values, key) == "" {
        assert p[|p| - 1] == '=';
      }
    }
    if line == p + "\n" {
      assert line[|line| - 1..] == "\n" && line[|line| - 2] == p[|p| - 1];
      assert line[|line| - 2..][0] == line[|line| - 2];
    } else {
      assert line[|line| - 2..] == "\r\n";
    }
  }

  lemma HeaderStrips(newline: string)
    requires newline in {"\n", "\r\n"}
    ensures Strip(HEADER + newline) == HEADER && IsHeader(HEADER) && HEADER[1..|HEADER| - 1] == PREFERENCES
  {
    assert LeftStrip(HEADER + newline) == HEADER + newline;
    RightStripDrops(HEADER, newline);
    assert HEADER == "[" + PREFERENCES + "]";
  }

  /** A header is a name, possibly empty, between brackets. */
  lemma HeaderMeaning(stripped: string)
    ensures IsHeader(stripped) <==> exists name :: stripped == "[" + name + "]"
  {
    if IsHeader(stripped) {
      assert stripped == "[" + stripped[1..|stripped| - 1] + "]";
    }
  }

  // ---- The line ending that is used ----

  /** A carriage return and line feed stand somewhere in the text. */
  predicate HasCrLf(text: string) { exists i :: 0 <= i < |text| - 1 && text[i] == '\r' && text[i + 1] == '\n' }

  lemma {:induction false} FirstLineCrLf(text: string)
    requires text != []
    ensures var n := LineLength(text);
            && (EndsWith(text[..n], "\r\n") <==> n >= 2 && text[n - 2] == '\r' && text[n - 1] == '\n')
            && forall i :: 0 <= i < n && i < |text| - 1 && text[i] == '\r' && text[i + 1] == '\n' ==> i == n - 2
  {
    var n := LineLength(text);
    if n >= 2 {
      assert text[..n][n - 2..] == [text[n - 2], text[n - 1]];
    }
    if !(text[0] == '\r' && |text| > 1 && text[1] == '\n') && !IsBreak(text[0]) && |text| > 1 {
      FirstLineCrLf(text[1..]);
      forall i | 0 <= i < n && i < |text| - 1 && text[i] == '\r' && text[i + 1] == '\n' ensures i == n - 2 {
        assert i > 0 && text[1..][i - 1] == '\r' && text[1..][i] == '\n';
      }
    }
  }

  /** Added lines end like Windows lines exactly when some line of the text does. */
  lemma {:induction false} SomeLineCrLf(text: string)
    ensures (exists i :: 0 <= i < |SplitLines(text)| && EndsWith(SplitLines(text)[i], "\r\n")) <==> HasCrLf(text)
    decreases |text|
  {
    if text != [] {
      var n := LineLength(text);
      var head, rest := text[..n], text[n..];
      FirstLineCrLf(text);
      SomeLineCrLf(rest);
      CrLfParts(text, n);
      hide LineLength, EndsWith, HasCrLf;
      assert SplitLines(text) == [head] + SplitLines(rest);
      EitherPart(head, SplitLines(rest));
    }
  }

  lemma EitherPart(line: string, lines: seq<string>)
    ensures (exists i :: 0 <= i < |[line] + lines| && EndsWith(([line] + lines)[i], "\r\n"))
       <==> EndsWith(line, "\r\n") || exists i :: 0 <= i < |lines| && EndsWith(lines[i], "\r\n")
  {
    hide EndsWith;
    if i :| 0 <= i < |lines| && EndsWith(lines[i], "\r\n") {
      assert ([line] + lines)[i + 1] == lines[i];
    }
    if EndsWith(line, "\r\n") {
      assert ([line] + lines)[0] == line;
    }
    if i :| 0 <= i < |[line] + lines| && EndsWith(([line] + lines)[i], "\r\n") {
      assert i > 0 ==> ([line] + lines)[i] == lines[i - 1];
    }
  }

  lemma CrLfParts(text: string, n: nat)
    requires 0 < n <= |text|
    requires forall i :: 0 <= i < n && i < |text| - 1 && text[i] == '\r' && text[i + 1] == '\n' ==> i == n - 2
    ensures HasCrLf(text) <==> (n >= 2 && text[n - 2] == '\r' && text[n - 1] == '\n') || HasCrLf(text[n..])
  {
    if i :| 0 <= i < |text[n..]| - 1 && text[n..][i] == '\r' && text[n..][i + 1] == '\n' {
      assert text[n + i] == '\r' && text[n + i + 1] == '\n';
    }
    if i :| 0 <= i < |text| - 1 && text[i] == '\r' && text[i + 1] == '\n' {
      if i >= n {
        assert text[n..][i - n] == '\r' && text[n..][i - n + 1] == '\n';
      }
    }
  }

  lemma NewlineMeaning(text: string)
    ensures Newline(SplitLines(text)) == if HasCrLf(text) then "\r\n" else "\n"
  {
    SomeLineCrLf(text);
    hide HasCrLf, EndsWith;
  }

  // ---- What the merge keeps ----

  /** How the scan of a text and the two readings, of the text and of what has
      been written so far, hang together. */
  predicate Related(values: seq<Setting>, st: Scan, read: Walk, written: Walk) {
    && st.section == read.section == written.section
    && written.others == read.others
    && written.canonical
    && st.seen <= Keys(values)
    && (if st.inserted then written.phase == Past(Keys(values)) && read.phase.Past?
        else if st.section == PREFERENCES then written.phase == read.phase == Inside(st.seen)
        else written.phase == Before && read.phase.Before? && st.seen == {})
  }

  lemma WalkManaged(values: seq<Setting>, w: Walk, line: string)
    requires w.section == PREFERENCES && IsManaged(values, PREFERENCES, line) && IsCanonical(values, line)
    ensures WalkLine(values, w, line)
         == w.(phase := if w.phase.Inside? then Inside(w.phase.keys + {KeyOf(Strip(line))}) else w.phase)
  {
    hide Strip, KeyOf, IsCanonical;
  }

  lemma {:induction false} WalkSnoc(values: seq<Setting>, lines: seq<string>, line: string)
    ensures WalkLines(values, lines + [line]) == WalkLine(values, WalkLines(values, lines), line)
  {
    assert (lines + [line])[..|lines|] == lines;
    hide WalkLine;
  }

  lemma KeysSnoc(values: seq<Setting>, n: nat)
    requires n < |values| && Clean(values)
    ensures Keys(values[..n + 1]) == Keys(values[..n]) + {values[n].key}
    ensures values[n].key !in Keys(values[..n])
  {
    assert values[..n + 1][..n] == values[..n];
    NotAmongEarlier(values, n, n);
  }

  lemma {:induction false} NotAmongEarlier(values: seq<Setting>, n: nat, m: nat)
    requires m <= n < |values| && Clean(values)
    ensures values[n].key !in Keys(values[..m])
  {
    if m > 0 {
      assert values[..m][..m - 1] == values[..m - 1];
      NotAmongEarlier(values, n, m - 1);
    }
  }

  lemma {:induction false} ValueAt(values: seq<Setting>, n: nat)
    requires n < |values| && Clean(values)
    ensures values[n].key in Keys(values) && ValueOf(values, values[n].key) == values[n].value
  {
    if n < |values| - 1 {
      var front := values[..|values| - 1];
      assert front[n] == values[n] && Clean(front);
      ValueAt(front, n);
    }
  }

  lemma MissingSnoc(values: seq<Setting>, n: nat, seen: set<string>, newline: string)
    requires n < |values|
    ensures Missing(values[..n + 1], seen, newline)
         == Missing(values[..n], seen, newline)
            + if values[n].key in seen then [] else [Assignment(values[n].key, values[n].value, newline)]
  {
    assert values[..n + 1][..n] == values[..n];
  }

  lemma WalkAssignment(values: seq<Setting>, n: nat, newline: string, lines: seq<string>)
    requires Clean(values) && n < |values| && newline in {"\n", "\r\n"}
    requires var w := WalkLines(values, lines); w.section == PREFERENCES && w.phase.Inside?
    ensures WalkLines(values, lines + [Assignment(values[n].key, values[n].value, newline)])
         == WalkLines(values, lines).(phase := Inside(WalkLines(values, lines).phase.keys + {values[n].key}))
  {
    ValueAt(values, n);
    hide *;
    var line := Assignment(values[n].key, values[n].value, newline);
    AssignmentIsManaged(values, values[n].key, newline);
    WalkSnoc(values, lines, line);
    WalkManaged(values, WalkLines(values, lines), line);
  }

  /** Behind a first `[Preferences]` section with the keys seen so far, the missing
      lines complete it. */
  lemma {:induction false} WalkMissing(values: seq<Setting>, seen: set<string>, newline: string, lines: seq<string>, n: nat)
    requires Clean(values) && n <= |values| && newline in {"\n", "\r\n"}
    requires var w := WalkLines(values, lines); w.section == PREFERENCES && w.phase == Inside(seen)
    ensures WalkLines(values, lines + Missing(values[..n], seen, newline))
         == WalkLines(values, lines).(phase := Inside(seen + Keys(values[..n])))
  {
    hide *;
    if n == 0 {
      MissingNothing(values, seen, newline, lines);
    } else {
      WalkMissing(values, seen, newline, lines, n - 1);
      KeysSnoc(values, n - 1);
      MissingSnoc(values, n - 1, seen, newline);
      var before := lines + Missing(values[..n - 1], seen, newline);
      var line := Assignment(values[n - 1].key, values[n - 1].value, newline);
      assert (seen + Keys(values[..n - 1])) + {values[n - 1].key} == seen + Keys(values[..n]);
      if values[n - 1].key in seen {
        assert lines + Missing(values[..n], seen, newline) == before;
        assert seen + Keys(values[..n - 1]) == seen + Keys(values[..n]);
      } else {
        WalkAssignment(values, n - 1, newline, before);
        assert lines + Missing(values[..n], seen, newline) == before + [line];
      }
    }
  }

  lemma MissingNothing(values: seq<Setting>, seen: set<string>, newline: string, lines: seq<string>)
    ensures lines + Missing(values[..0], seen, newline) == lines
    ensures seen + Keys(values[..0]) == seen
  {
  }

  lemma AllMissing(values: seq<Setting>, st: Scan, newline: string)
    requires Clean(values) && newline in {"\n", "\r\n"} && st.seen <= Keys(values)
    requires var w := WalkLines(values, st.output); w.section == PREFERENCES && w.phase == Inside(st.seen)
    ensures WalkLines(values, st.output + Missing(values, st.seen, newline))
         == WalkLines(values, st.output).(phase := Inside(Keys(values)))
  {
    WalkMissing(values, st.seen, newline, st.output, |values|);
    assert values[..|values|] == values;
    assert st.seen + Keys(values) == Keys(values);
  }

  lemma StepKeepsRelated(values: seq<Setting>, newline: string, st: Scan, read: Walk, line: string)
    requires Clean(values) && newline in {"\n", "\r\n"}
    requires Related(values, st, read, WalkLines(values, st.output))
    ensures var t := Step(values, newline, st, line);
            Related(values, t, WalkLine(values, read, line), WalkLines(values, t.output))
  {
    hide Strip, KeyOf, Missing, WalkLines, Clean, Replacement, IsCanonical;
    var s := Strip(line);
    if IsHeader(s) {
      if st.section == PREFERENCES && !st.inserted {
        AllMissing(values, st, newline);
        WalkSnoc(values, st.output + Missing(values, st.seen, newline), line);
      } else {
        WalkSnoc(values, st.output, line);
      }
    } else if IsManaged(values, st.section, line) {
      var rewritten := Replacement(values, line, newline);
      ReplacementIsManaged(values, line, newline);
      WalkSnoc(values, st.output, rewritten);
      WalkManaged(values, WalkLines(values, st.output), rewritten);
    } else {
      WalkSnoc(values, st.output, line);
    }
  }

  lemma {:induction false} ScanIsRelated(values: seq<Setting>, newline: string, lines: seq<string>)
    requires Clean(values) && newline in {"\n", "\r\n"}
    ensures var st := ScanLines(values, newline, lines);
            Related(values, st, WalkLines(values, lines), WalkLines(values, st.output))
  {
    if lines != [] {
      hide Step, Related, WalkLine;
      var front := lines[..|lines| - 1];
      ScanIsRelated(values, newline, front);
      StepKeepsRelated(values, newline, ScanLines(values, newline, front), WalkLines(values, front), lines[|lines| - 1]);
    }
  }

  /** The last line, if there is one, ends with a line feed. */
  predicate Ended(lines: seq<string>) { lines == [] || EndsWith(lines[|lines| - 1], "\n") }

  /** What the merged lines say: every managed line of every `[Preferences]` carries
      the managed value, the first `[Preferences]` has every managed key, and the
      other lines are the original ones, in order, with one header added when
      there was none. */
  lemma MergeSettles(values: seq<Setting>, lines: seq<string>)
    requires Clean(values) && Ended(lines) && Apart(lines)
    ensures var merged, read := MergeLines(values, lines), WalkLines(values, lines);
            && Settled(values, merged)
            && WalkLines(values, merged).others
                 == read.others + if read.phase.Before? then [HEADER + Newline(lines)] else []
  {
    var newline := Newline(lines);
    var st := ScanLines(values, newline, lines);
    assert MergeLines(values, lines) == Finish(values, newline, st);
    ScanIsRelated(values, newline, lines);
    OutputIsApart(values, newline, lines);
    FinishCases(values, newline, st);
    RelatedCases(values, st, WalkLines(values, lines));
    hide *;
    if !st.inserted {
      if st.section == PREFERENCES {
        AllMissing(values, st, newline);
      } else {
        HeaderOpens(values, newline, st.output);
        AllMissing(values, st.(output := st.output + [HEADER + newline]), newline);
      }
    }
    SettledWhen(values, MergeLines(values, lines));
  }

  lemma RelatedCases(values: seq<Setting>, st: Scan, read: Walk)
    requires Related(values, st, read, WalkLines(values, st.output))
    ensures var w := WalkLines(values, st.output);
            && w.section == st.section && w.others == read.others && w.canonical && st.seen <= Keys(values)
            && (if st.inserted then w.phase == Past(Keys(values)) && read.phase.Past?
                else if st.section == PREFERENCES then w.phase == Inside(st.seen) && read.phase.Inside?
                else w.phase == Before && read.phase.Before? && st.seen == {})
  {
    hide WalkLines;
  }

  lemma SettledWhen(values: seq<Setting>, lines: seq<string>)
    ensures Settled(values, lines)
       <==> var w := WalkLines(values, lines); w.canonical && !w.phase.Before? && w.phase.keys == Keys(values)
  {
    hide WalkLines;
  }

  lemma HeaderOpens(values: seq<Setting>, newline: string, lines: seq<string>)
    requires newline in {"\n", "\r\n"} && WalkLines(values, lines).phase.Before?
    ensures WalkLines(values, lines + [HEADER + newline])
         == Walk(PREFERENCES, Inside({}), WalkLines(values, lines).others + [HEADER + newline], WalkLines(values, lines).canonical)
  {
    HeaderStrips(newline);
    WalkSnoc(values, lines, HEADER + newline);
    hide Strip, WalkLines;
  }

  // ---- The merged lines are lines ----

  lemma {:induction false} UnbrokenLineLength(s: string, ending: string)
    requires Unbroken(s) && ending in {"\n", "\r\n"}
    ensures LineLength(s + ending) == |s + ending|
    decreases |s|
  {
    var t := s + ending;
    if s == [] {
      assert t == ending;
    } else {
      assert t[0] == s[0] && !IsBreak(s[0]);
      assert t[1..] == s[1..] + ending;
      UnbrokenLineLength(s[1..], ending);
    }
  }

  predicate Written(line: string) {
    Whole(line) && line[|line| - 1] == '\n' && line[0] != '\n'
  }

  lemma AssignmentIsWritten(key: string, value: string, ending: string)
    requires CleanKey(key) && Unbroken(value) && ending in {"\n", "\r\n"}
    ensures Written(Assignment(key, value, ending))
  {
    var s := key + "=" + value;
    assert Unbroken(s);
    UnbrokenLineLength(s, ending);
    assert Assignment(key, value, ending) == s + ending;
    hide LineLength, Unbroken;
  }

  lemma HeaderIsWritten(newline: string)
    requires newline in {"\n", "\r\n"}
    ensures Written(HEADER + newline)
  {
    UnbrokenLineLength(HEADER, newline);
    hide LineLength;
  }

  /** All lines are terminated, so another may follow. */
  predicate Open(lines: seq<string>, last: string) {
    && Apart(lines)
    && (lines != [] ==> Whole(lines[|lines| - 1]))
    && (lines != [] && lines[|lines| - 1][|lines[|lines| - 1]| - 1] == '\r' ==> lines[|lines| - 1] == last)
  }

  lemma OpenWritten(lines: seq<string>, last: string, line: string)
    requires Open(lines, last) && Written(line)
    ensures forall any :: Open(lines + [line], any)
  {
    ApartSnoc(lines, line);
    hide Apart, LineLength;
  }

  lemma {:induction false} OpenMissing(values: seq<Setting>, seen: set<string>, newline: string, lines: seq<string>, last: string)
    requires Clean(values) && newline in {"\n", "\r\n"} && Open(lines, last)
    ensures Open(lines + Missing(values, seen, newline), last)
  {
    if values == [] {
      assert lines + Missing(values, seen, newline) == lines;
    } else {
      var n := |values| - 1;
      var key, value, front := values[n].key, values[n].value, Missing(values[..n], seen, newline);
      assert Clean(values[..n]) && CleanKey(key) && Unbroken(value);
      assert values[..n + 1] == values;
      MissingSnoc(values, n, seen, newline);
      hide *;
      OpenMissing(values[..n], seen, newline, lines, last);
      if key in seen {
        assert lines + (front + []) == lines + front;
      } else {
        var line := Assignment(key, value, newline);
        AssignmentIsWritten(key, value, newline);
        OpenWritten(lines + front, last, line);
        assert lines + (front + [line]) == (lines + front) + [line];
      }
    }
  }

  lemma OpenOriginal(lines: seq<string>, last: string, line: string)
    requires Open(lines, last) && Whole(line) && (last != "" && last[|last| - 1] == '\r' ==> line[0] != '\n')
    ensures Open(lines + [line], line)
  {
    ApartSnoc(lines, line);
    hide Apart, LineLength;
  }

  predicate AllWhole(lines: seq<string>) { forall i :: 0 <= i < |lines| ==> Whole(lines[i]) }

  lemma EndedIsWhole(lines: seq<string>)
    requires Ended(lines) && Apart(lines)
    ensures AllWhole(lines)
  {
    hide LineLength;
    if lines != [] {
      var last := lines[|lines| - 1];
      assert last[|last| - 1..][0] == last[|last| - 1];
    }
  }

  function LastOf(lines: seq<string>): string { if lines == [] then "" else lines[|lines| - 1] }

  lemma StepStaysOpen(values: seq<Setting>, newline: string, st: Scan, last: string, line: string)
    requires Clean(values) && newline in {"\n", "\r\n"} && Open(st.output, last)
    requires Whole(line) && (last != "" && last[|last| - 1] == '\r' ==> line[0] != '\n')
    ensures Open(Step(values, newline, st, line).output, line)
  {
    hide Strip, KeyOf, Missing, Clean, Replacement, Open, Whole;
    var s := Strip(line);
    if IsHeader(s) {
      if st.section == PREFERENCES && !st.inserted {
        OpenMissing(values, st.seen, newline, st.output, last);
        OpenOriginal(st.output + Missing(values, st.seen, newline), last, line);
      } else {
        OpenOriginal(st.output, last, line);
      }
    } else if IsManaged(values, st.section, line) {
      ReplacementIsWritten(values, line, newline);
      OpenWritten(st.output, last, Replacement(values, line, newline));
    } else {
      OpenOriginal(st.output, last, line);
    }
  }

  lemma ReplacementIsWritten(values: seq<Setting>, line: string, newline: string)
    requires Clean(values) && newline in {"\n", "\r\n"} && KeyOf(Strip(line)) in Keys(values)
    ensures Written(Replacement(values, line, newline))
  {
    var key := KeyOf(Strip(line));
    KeyIsClean(values, key);
    AssignmentIsWritten(key, ValueOf(values, key), Ending(line, newline));
  }

  lemma {:induction false} ScanStaysOpen(values: seq<Setting>, newline: string, lines: seq<string>)
    requires Clean(values) && newline in {"\n", "\r\n"} && AllWhole(lines) && Apart(lines)
    ensures Open(ScanLines(values, newline, lines).output, LastOf(lines))
  {
    if lines == [] {
      assert Open([], "");
    } else {
      var front, line := lines[..|lines| - 1], lines[|lines| - 1];
      assert AllWhole(front) && Apart(front) && Whole(line);
      assert front != [] ==> LastOf(front) == lines[|lines| - 2];
      hide Step, LineLength;
      ScanStaysOpen(values, newline, front);
      StepStaysOpen(values, newline, ScanLines(values, newline, front), LastOf(front), line);
    }
  }

  /** A scanned line that was kept still ends with a line feed if the text did. */
  lemma OutputIsApart(values: seq<Setting>, newline: string, lines: seq<string>)
    requires Clean(values) && newline in {"\n", "\r\n"} && Ended(lines) && Apart(lines)
    ensures var output := ScanLines(values, newline, lines).output;
            Open(output, LastOf(lines)) && Ended(output)
  {
    EndedIsWhole(lines);
    ScanStaysOpen(values, newline, lines);
    if lines != [] {
      StepEnds(values, newline, ScanLines(values, newline, lines[..|lines| - 1]), lines[|lines| - 1]);
    }
  }

  lemma StepEnds(values: seq<Setting>, newline: string, st: Scan, line: string)
    requires Clean(values) && newline in {"\n", "\r\n"} && EndsWith(line, "\n")
    ensures Ended(Step(values, newline, st, line).output)
  {
    hide Strip, KeyOf, Missing, Clean, Replacement;
    if !IsHeader(Strip(line)) && IsManaged(values, st.section, line) {
      ReplacementIsWritten(values, line, newline);
      var r := Replacement(values, line, newline);
      assert r[|r| - 1..] == "\n";
    }
  }

  // ---- What the merge adds, and where ----

  /** The lines one by one, each managed one replaced. */
  function Rewritten(values: seq<Setting>, newline: string, lines: seq<string>): (r: seq<string>)
    ensures |r| == |lines|
  {
    if lines == [] then []
    else
      var front, line := lines[..|lines| - 1], lines[|lines| - 1];
      Rewritten(values, newline, front)
      + [if IsManaged(values, WalkLines(values, front).section, line) then Replacement(values, line, newline) else line]
  }

  /** A replaced line sets the same key and keeps its terminator. */
  lemma ReplacementKeepsKeyAndEnding(values: seq<Setting>, line: string, newline: string)
    requires Clean(values) && newline in {"\n", "\r\n"} && KeyOf(Strip(line)) in Keys(values)
    ensures var r := Replacement(values, line, newline);
            && KeyOf(Strip(r)) == KeyOf(Strip(line))
            && IsCanonical(values, r)
            && (EndsWith(line, "\r\n") ==> EndsWith(r, "\r\n"))
            && (EndsWith(line, "\n") && !EndsWith(line, "\r\n") ==> EndsWith(r, "\n") && !EndsWith(r, "\r\n"))
  {
    ReplacementIsManaged(values, line, newline);
    var key := KeyOf(Strip(line));
    KeyIsClean(values, key);
    var value := ValueOf(values, key);
    hide Strip, KeyOf, IsManaged;
    AssignmentEnding(key, value, Ending(line, newline));
  }

  lemma AssignmentEnding(key: string, value: string, ending: string)
    requires Unbroken(value) && ending in {"\n", "\r\n"}
    ensures EndsWith(Assignment(key, value, ending), "\n")
    ensures EndsWith(Assignment(key, value, ending), "\r\n") <==> ending == "\r\n"
  {
    var line := Assignment(key, value, ending);
    assert line[|line| - 1] == '\n' && line[|line| - 1..] == "\n";
    var before := key + "=" + value;
    assert !IsBreak(before[|before| - 1]) by {
      assert value == "" ==> before[|before| - 1] == '=';
      assert value != "" ==> before[|before| - 1] == value[|value| - 1];
    }
    if ending == "\r\n" {
      assert line[|line| - 2..] == "\r\n";
    } else {
      assert line[|line| - 2] == before[|before| - 1];
      assert line[|line| - 2..][0] == line[|line| - 2];
    }
  }

  /** What has been written so far: the lines, and one block among them once the
      missing settings are in. */
  predicate OneBlock(output: seq<string>, lines: seq<string>, n: nat, block: seq<string>) {
    n <= |lines| && output == lines[..n] + block + lines[n..]
  }

  lemma BlockSnoc(output: seq<string>, lines: seq<string>, n: nat, block: seq<string>, line: string)
    requires OneBlock(output, lines, n, block)
    ensures OneBlock(output + [line], lines + [line], n, block)
  {
    assert (lines + [line])[..n] == lines[..n] && (lines + [line])[n..] == lines[n..] + [line];
  }

  lemma BlockAtEnd(lines: seq<string>, block: seq<string>)
    ensures OneBlock(lines + block, lines, |lines|, block)
  {
    assert lines[..|lines|] == lines && lines[|lines|..] == [];
  }

  lemma {:induction false} ScanInsertsOneBlock(values: seq<Setting>, newline: string, lines: seq<string>)
      returns (n: nat, seen: set<string>)
    requires Clean(values) && newline in {"\n", "\r\n"}
    ensures var st, all := ScanLines(values, newline, lines), Rewritten(values, newline, lines);
            if st.inserted then seen <= Keys(values) && OneBlock(st.output, all, n, Missing(values, seen, newline))
            else st.output == all
  {
    n, seen := 0, {};
    if lines != [] {
      var front, line := lines[..|lines| - 1], lines[|lines| - 1];
      var st := ScanLines(values, newline, front);
      n, seen := ScanInsertsOneBlock(values, newline, front);
      ScanIsRelated(values, newline, front);
      RelatedCases(values, st, WalkLines(values, front));
      var before := Rewritten(values, newline, front);
      var last := if IsManaged(values, WalkLines(values, front).section, line) then Replacement(values, line, newline) else line;
      assert Rewritten(values, newline, lines) == before + [last];
      StepWrites(values, newline, st, line);
      hide *;
      if st.inserted {
        BlockSnoc(st.output, before, n, Missing(values, seen, newline), last);
      } else if IsHeader(Strip(line)) && st.section == PREFERENCES {
        n, seen := |before|, st.seen;
        BlockAtEnd(before, Missing(values, seen, newline));
        BlockSnoc(st.output + Missing(values, seen, newline), before, n, Missing(values, seen, newline), last);
      }
    }
  }

  lemma StepWrites(values: seq<Setting>, newline: string, st: Scan, line: string)
    ensures var t := Step(values, newline, st, line);
            var last := if IsManaged(values, st.section, line) then Replacement(values, line, newline) else line;
            var inserts := IsHeader(Strip(line)) && st.section == PREFERENCES && !st.inserted;
            && t.output == (if inserts then st.output + Missing(values, st.seen, newline) else st.output) + [last]
            && (t.inserted <==> st.inserted || inserts)
  {
    hide Strip, KeyOf, Missing, Replacement;
  }

  /** The settings not among the seen ones, behind a new header if asked. */
  function Block(values: seq<Setting>, newline: string, header: bool, seen: set<string>): seq<string> {
    (if header then [HEADER + newline] else []) + Missing(values, seen, newline)
  }

  lemma PlainBlock(values: seq<Setting>, newline: string, seen: set<string>)
    ensures Block(values, newline, false, seen) == Missing(values, seen, newline)
  {
    hide Missing;
    assert [] + Missing(values, seen, newline) == Missing(values, seen, newline);
  }

  lemma HeadedBlock(values: seq<Setting>, newline: string, seen: set<string>, all: seq<string>)
    ensures all + [HEADER + newline] + Missing(values, seen, newline) == all + Block(values, newline, true, seen)
  {
    hide Missing;
  }

  /** The merge puts one block among the rewritten lines and touches nothing else:
      the missing settings, behind a new header if there was no section. */
  lemma MergeInsertsOneBlock(values: seq<Setting>, lines: seq<string>) returns (n: nat, seen: set<string>)
    requires Clean(values) && Ended(lines) && Apart(lines)
    ensures seen <= Keys(values)
    ensures OneBlock(MergeLines(values, lines), Rewritten(values, Newline(lines), lines), n,
                     Block(values, Newline(lines), WalkLines(values, lines).phase.Before?, seen))
  {
    var newline := Newline(lines);
    var st := ScanLines(values, newline, lines);
    assert MergeLines(values, lines) == Finish(values, newline, st);
    hide *;
    n, seen := ScanInsertsOneBlock(values, newline, lines);
    ScanIsRelated(values, newline, lines);
    RelatedCases(values, st, WalkLines(values, lines));
    OutputIsApart(values, newline, lines);
    FinishCases(values, newline, st);
    var all := Rewritten(values, newline, lines);
    if st.inserted {
      PlainBlock(values, newline, seen);
    } else {
      n, seen := |all|, st.seen;
      BlockAtEnd(all, Block(values, newline, st.section != PREFERENCES, seen));
      if st.section == PREFERENCES {
        PlainBlock(values, newline, seen);
      } else {
        HeadedBlock(values, newline, seen, all);
      }
    }
  }

  // ---- Settled configurations are left alone ----

  /** As settled as the lines read so far can be. */
  predicate Settling(values: seq<Setting>, w: Walk) {
    w.canonical && (w.phase.Past? ==> w.phase.keys == Keys(values))
  }

  lemma SettlingBackwards(values: seq<Setting>, w: Walk, line: string)
    requires Settling(values, WalkLine(values, w, line))
    ensures Settling(values, w)
    ensures IsHeader(Strip(line)) && w.phase.Inside? ==> w.phase.keys == Keys(values)
  {
    hide Strip, KeyOf, IsCanonical;
  }

  lemma {:induction false} NothingMissing(values: seq<Setting>, newline: string)
    ensures forall seen :: seen >= Keys(values) ==> Missing(values, seen, newline) == []
  {
    if values != [] {
      NothingMissing(values[..|values| - 1], newline);
    }
  }

  lemma InsertNothing(values: seq<Setting>, newline: string, st: Scan)
    requires st.seen >= Keys(values)
    ensures Insert(values, newline, st) == st.(inserted := true)
  {
    NothingMissing(values, newline);
    hide Missing, Keys;
    assert Missing(values, st.seen, newline) == [];
    assert st.output + [] == st.output;
  }

  lemma HeaderOfSettled(values: seq<Setting>, newline: string, st: Scan, w: Walk, line: string)
    requires Related(values, st, w, w) && Settling(values, WalkLine(values, w, line)) && IsHeader(Strip(line))
    ensures var t, v := Step(values, newline, st, line), WalkLine(values, w, line);
            t.output == st.output + [line] && Related(values, t, v, v)
  {
    SettlingBackwards(values, w, line);
    hide Strip, KeyOf, Insert, IsManaged, Settling, Keys;
    if st.section == PREFERENCES && !st.inserted {
      InsertNothing(values, newline, st);
    } else if st.inserted {
      InsertAgain(values, newline, st);
    }
  }

  lemma InsertAgain(values: seq<Setting>, newline: string, st: Scan)
    requires st.inserted
    ensures Insert(values, newline, st) == st
  {
  }

  lemma StepOfSettled(values: seq<Setting>, newline: string, st: Scan, w: Walk, line: string)
    requires Clean(values) && newline in {"\n", "\r\n"}
    requires Related(values, st, w, w) && Settling(values, WalkLine(values, w, line))
    ensures var t, v := Step(values, newline, st, line), WalkLine(values, w, line);
            t.output == st.output + [line] && Related(values, t, v, v)
  {
    hide Strip, KeyOf, Clean, Replacement, IsCanonical, Insert, Keys;
    if IsHeader(Strip(line)) {
      HeaderOfSettled(values, newline, st, w, line);
    } else if IsManaged(values, st.section, line) {
      CanonicalIsKept(values, line, newline);
    }
  }

  lemma NoLinesYet(values: seq<Setting>, newline: string)
    ensures ScanLines(values, newline, []) == START && Related(values, START, WalkLines(values, []), WalkLines(values, []))
  {
  }

  lemma LastOfBoth(values: seq<Setting>, newline: string, lines: seq<string>)
    requires lines != []
    ensures var front, line := lines[..|lines| - 1], lines[|lines| - 1];
            && lines == front + [line]
            && ScanLines(values, newline, lines) == Step(values, newline, ScanLines(values, newline, front), line)
            && WalkLines(values, lines) == WalkLine(values, WalkLines(values, front), line)
  {
    hide Step, WalkLine;
  }

  /** Scanning lines that are settling writes just those lines. */
  lemma {:induction false} ScanOfSettled(values: seq<Setting>, newline: string, lines: seq<string>)
    requires Clean(values) && newline in {"\n", "\r\n"} && Settling(values, WalkLines(values, lines))
    ensures var st, w := ScanLines(values, newline, lines), WalkLines(values, lines);
            && st.output == lines
            && Related(values, st, w, w)
  {
    hide ScanLines, WalkLines, Step, WalkLine, Settling, Related, Clean;
    if lines == [] {
      NoLinesYet(values, newline);
    } else {
      var front, line := lines[..|lines| - 1], lines[|lines| - 1];
      LastOfBoth(values, newline, lines);
      SettlingBackwards(values, WalkLines(values, front), line);
      ScanOfSettled(values, newline, front);
      StepOfSettled(values, newline, ScanLines(values, newline, front), WalkLines(values, front), line);
    }
  }

  lemma SettledIsFixed(values: seq<Setting>, lines: seq<string>)
    requires Clean(values) && Settled(values, lines)
    ensures MergeLines(values, lines) == lines
  {
    var newline := Newline(lines);
    ScanOfSettled(values, newline, lines);
    NothingMissing(values, newline);
    var st := ScanLines(values, newline, lines);
    hide WalkLines, ScanLines, Missing, Clean, Newline;
    assert Missing(values, Keys(values), newline) == [];
    assert lines + [] == lines;
  }

  lemma HeaderAndMissing(values: seq<Setting>, seen: set<string>, newline: string, lines: seq<string>, last: string)
    requires Clean(values) && newline in {"\n", "\r\n"} && Open(lines, last)
    ensures var merged := lines + [HEADER + newline] + Missing(values, seen, newline); Apart(merged) && Ended(merged)
  {
    var header := HEADER + newline;
    HeaderIsWritten(newline);
    WrittenEnds(lines, header);
    hide *;
    OpenWritten(lines, last, header);
    OpenMissing(values, seen, newline, lines + [header], header);
    OpenIsApart(lines + [header] + Missing(values, seen, newline), header);
    MissingEnds(values, seen, newline, lines + [header]);
  }

  lemma WrittenEnds(lines: seq<string>, line: string)
    requires Written(line)
    ensures Ended(lines + [line])
  {
    hide LineLength;
    LastCharacter(line);
  }

  lemma OpenIsApart(lines: seq<string>, last: string)
    requires Open(lines, last)
    ensures Apart(lines)
  {
  }

  lemma FinishCases(values: seq<Setting>, newline: string, st: Scan)
    requires Ended(st.output)
    ensures Finish(values, newline, st) ==
            if st.inserted then st.output
            else if st.section == PREFERENCES then st.output + Missing(values, st.seen, newline)
            else st.output + [HEADER + newline] + Missing(values, st.seen, newline)
  {
    hide Missing, EndsWith;
  }

  lemma MergedIsApart(values: seq<Setting>, lines: seq<string>)
    requires Clean(values) && Ended(lines) && Apart(lines)
    ensures Apart(MergeLines(values, lines)) && Ended(MergeLines(values, lines))
  {
    var newline := Newline(lines);
    var st := ScanLines(values, newline, lines);
    assert MergeLines(values, lines) == Finish(values, newline, st);
    hide *;
    OutputIsApart(values, newline, lines);
    FinishCases(values, newline, st);
    if st.inserted {
      OpenIsApart(st.output, LastOf(lines));
    } else if st.section == PREFERENCES {
      OpenMissing(values, st.seen, newline, st.output, LastOf(lines));
      OpenIsApart(st.output + Missing(values, st.seen, newline), LastOf(lines));
      MissingEnds(values, st.seen, newline, st.output);
    } else {
      HeaderAndMissing(values, st.seen, newline, st.output, LastOf(lines));
    }
  }

  lemma {:induction false} MissingEnds(values: seq<Setting>, seen: set<string>, newline: string, lines: seq<string>)
    requires newline in {"\n", "\r\n"} && Ended(lines)
    ensures Ended(lines + Missing(values, seen, newline))
  {
    if values == [] {
      assert lines + Missing(values, seen, newline) == lines;
    } else {
      var n := |values| - 1;
      assert values[..n + 1] == values;
      hide *;
      MissingEnds(values[..n], seen, newline, lines);
      MissingSnoc(values, n, seen, newline);
      var front, line := Missing(values[..n], seen, newline), Assignment(values[n].key, values[n].value, newline);
      if values[n].key in seen {
        assert lines + Missing(values, seen, newline) == lines + front;
      } else {
        assert lines + Missing(values, seen, newline) == (lines + front) + [line];
        AssignmentEnds(values[n].key, values[n].value, newline, lines + front);
      }
    }
  }

  lemma AssignmentEnds(key: string, value: string, newline: string, lines: seq<string>)
    requires newline in {"\n", "\r\n"}
    ensures Ended(lines + [Assignment(key, value, newline)])
  {
    var line := Assignment(key, value, newline);
    assert line[|line| - 1] == '\n';
    LastCharacter(line);
  }

  // ---- The text ----

  predicate NewlineTerminated(text: string) { text == "" || text[|text| - 1] == '\n' }

  lemma {:induction false} LastLineEnds(lines: seq<string>)
    requires Apart(lines)
    ensures NewlineTerminated(JoinLines(lines)) <==> Ended(lines)
    ensures lines != [] ==> JoinLines(lines) != [] && JoinLines(lines)[|JoinLines(lines)| - 1] == LastOf(lines)[|LastOf(lines)| - 1]
  {
    if |lines| == 1 {
      assert JoinLines(lines) == lines[0] + JoinLines(lines[1..]) == lines[0];
      LastCharacter(lines[0]);
    } else if |lines| > 1 {
      hide LineLength;
      LastLineEnds(lines[1..]);
      LastCharacter(LastOf(lines));
    }
  }

  lemma LastCharacter(s: string)
    requires s != ""
    ensures EndsWith(s, "\n") <==> s[|s| - 1] == '\n'
  {
    assert s[|s| - 1..][0] == s[|s| - 1];
    if s[|s| - 1] == '\n' {
      assert s[|s| - 1..] == "\n";
    }
  }

  lemma MergedLines(values: seq<Setting>, text: string)
    requires Clean(values) && NewlineTerminated(text)
    ensures SplitLines(Merge(values, text)) == MergeLines(values, SplitLines(text))
    ensures NewlineTerminated(Merge(values, text)) && Ended(SplitLines(text))
  {
    hide *;
    var lines := SplitLines(text);
    SplitIsApart(text);
    LastLineEnds(lines);
    MergedIsApart(values, lines);
    MergeIs(values, text);
    LastLineEnds(MergeLines(values, lines));
    SplitOfJoin(MergeLines(values, lines));
  }

  lemma MergeIs(values: seq<Setting>, text: string)
    ensures Merge(values, text) == JoinLines(MergeLines(values, SplitLines(text)))
  {
  }

  /** Merging a newline-terminated configuration: every managed line carries its
      value, the first `[Preferences]` is complete, and the unmanaged lines keep
      their bytes and order, a header being added when there was none. */
  lemma MergeMeaning(values: seq<Setting>, text: string)
    requires Clean(values) && NewlineTerminated(text)
    ensures var before, after := SplitLines(text), SplitLines(Merge(values, text));
            && Settled(values, after)
            && WalkLines(values, after).others
                 == WalkLines(values, before).others
                    + if WalkLines(values, before).phase.Before? then [HEADER + Newline(before)] else []
  {
    hide *;
    SplitIsApart(text);
    MergedLines(values, text);
    MergeSettles(values, SplitLines(text));
  }

  /** The merge changes nothing exactly when there is nothing left to settle. */
  lemma FixedExactlyWhenSettled(values: seq<Setting>, text: string)
    requires Clean(values) && NewlineTerminated(text)
    ensures Merge(values, text) == text <==> Settled(values, SplitLines(text))
  {
    hide *;
    if Settled(values, SplitLines(text)) {
      SettledIsFixed(values, SplitLines(text));
      SplitIsApart(text);
      MergeIs(values, text);
    } else {
      MergeMeaning(values, text);
    }
  }

  /** Merging twice is merging once. */
  lemma MergeIsIdempotent(values: seq<Setting>, text: string)
    requires Clean(values) && NewlineTerminated(text)
    ensures Merge(values, Merge(values, text)) == Merge(values, text)
  {
    hide *;
    MergedLines(values, text);
    MergeMeaning(values, text);
    FixedExactlyWhenSettled(values, Merge(values, text));
  }
}

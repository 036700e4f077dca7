/** Following a log file that only grows: complete lines from a byte offset on,
    at most a window of 256 KiB at a time. */
module LogTail {
  import opened Text
  import opened Wrappers

  const CAP: int := 0x4_0000

  datatype Tail = Tail(lines: seq<string>, next: int, size: int)

  /** The lines that are ended by a line feed; a partial last one is left out. */
  function CompleteLines(s: string): seq<string> {
    var i := IndexOf(s, '\n');
    if i == |s| then [] else [s[..i]] + CompleteLines(s[i + 1..])
  }

  /** How far the complete lines reach. */
  function Through(s: string): (n: nat)
    ensures n <= |s| && (n > 0 ==> s[n - 1] == '\n')
    ensures forall k :: n <= k < |s| ==> s[k] != '\n'
  {
    if s == [] || s[|s| - 1] == '\n' then |s| else Through(s[..|s| - 1])
  }

  /** An offset outside the file starts over. */
  function Valid(file: string, offset: int): (o: int)
    ensures 0 <= o <= |file|
  {
    if offset > |file| || offset < 0 then 0 else offset
  }

  predicate Capped(file: string, offset: int) { |file| - Valid(file, offset) > CAP }

  /** The cap cuts into a line that fills the whole window. */
  predicate Overlong(file: string, offset: int) {
    Capped(file, offset) && '\n' !in file[|file| - CAP..]
  }

  /** Where the lines are taken from: the offset, or behind the line the cap cuts
      into, or the end if that line fills the window. */
  function From(file: string, offset: int): (f: int)
    ensures Valid(file, offset) <= f <= |file|
  {
    if !Capped(file, offset) then Valid(file, offset)
    else
      var cut := |file| - CAP;
      var i := IndexOf(file[cut..], '\n');
      if i == CAP then |file| else cut + i + 1
  }

  function ReadTail(file: string, offset: int): Tail {
    var from := From(file, offset);
    Tail(CompleteLines(file[from..]), from + Through(file[from..]), |file|)
  }

  /** At most the last 256 KiB are looked at: a longer new part is cut, and a part that
      fits is taken as it is. */
  lemma LooksAtTheLastQuarterMebibyte(file: string, offset: int)
    ensures var added, from := |file| - Valid(file, offset), From(file, offset);
            && (added <= 262_144 ==> from == Valid(file, offset))
            && (added > 262_144 ==> |file| - 262_144 < from)
  {
  }

  // ---- Complete lines ----

  lemma IndexOfIs(s: string, c: char, i: nat)
    requires i < |s| && s[i] == c && forall k :: 0 <= k < i ==> s[k] != c
    ensures IndexOf(s, c) == i
  {
  }

  lemma CompleteLinesIs(s: string, i: nat)
    requires i < |s| && s[i] == '\n' && forall k :: 0 <= k < i ==> s[k] != '\n'
    ensures CompleteLines(s) == [s[..i]] + CompleteLines(s[i + 1..])
  {
    IndexOfIs(s, '\n', i);
    hide IndexOf;
  }

  /** The first line of what has a line feed in front. */
  lemma FirstLine(a: string, b: string) returns (i: nat)
    requires a != "" && a[|a| - 1] == '\n'
    ensures i < |a| && a[i + 1..] + b == (a + b)[i + 1..]
    ensures i + 1 < |a| ==> a[i + 1..][|a| - i - 2] == '\n'
    ensures CompleteLines(a) == [a[..i]] + CompleteLines(a[i + 1..])
    ensures CompleteLines(a + b) == [a[..i]] + CompleteLines((a + b)[i + 1..])
  {
    hide IndexOf, CompleteLines;
    i := IndexOf(a, '\n');
    var s := a + b;
    assert s[i] == a[i] && forall k :: 0 <= k < i ==> s[k] == a[k];
    CompleteLinesIs(a, i);
    CompleteLinesIs(s, i);
    assert s[..i] == a[..i];
  }

  lemma Associates(line: string, a: seq<string>, b: seq<string>)
    ensures [line] + (a + b) == ([line] + a) + b
  {
  }

  lemma {:induction false} CompleteLinesConcat(a: string, b: string)
    requires a == "" || a[|a| - 1] == '\n'
    ensures CompleteLines(a + b) == CompleteLines(a) + CompleteLines(b)
    decreases |a|
  {
    if a == "" {
      assert a + b == b;
      NoCompleteLines(a);
    } else {
      hide *;
      var i := FirstLine(a, b);
      CompleteLinesConcat(a[i + 1..], b);
      Associates(a[..i], CompleteLines(a[i + 1..]), CompleteLines(b));
    }
  }

  lemma NoCompleteLines(s: string)
    requires '\n' !in s
    ensures CompleteLines(s) == [] && Through(s) == 0
  {
  }

  lemma CompleteLinesReachThrough(s: string)
    ensures CompleteLines(s) == CompleteLines(s[..Through(s)])
  {
    var n := Through(s);
    assert s == s[..n] + s[n..];
    CompleteLinesConcat(s[..n], s[n..]);
    NoCompleteLines(s[n..]);
  }

  lemma SplitOnIs(s: string, i: nat)
    requires i <= |s| && (i < |s| ==> s[i] == '\n') && forall k :: 0 <= k < i ==> s[k] != '\n'
    ensures SplitOn(s, '\n') == if i == |s| then [s] else [s[..i]] + SplitOn(s[i + 1..], '\n')
  {
    assert IndexOf(s, '\n') == i;
    assert s[..|s|] == s;
  }

  /** Splitting at the line feeds what ends with one. */
  lemma {:induction false} SplitOfComplete(s: string)
    requires s != "" && s[|s| - 1] == '\n'
    ensures SplitOn(s[..|s| - 1], '\n') == CompleteLines(s)
    decreases |s|
  {
    hide *;
    var i, init := IndexOf(s, '\n'), s[..|s| - 1];
    SplitOnIs(init, i);
    CompleteLinesIs(s, i);
    if i == |s| - 1 {
      assert s[i + 1..] == "" && s[..i] == init;
      NoCompleteLines("");
    } else {
      assert init[..i] == s[..i] && init[i + 1..] == s[i + 1..][..|s| - i - 2];
      SplitOfComplete(s[i + 1..]);
    }
  }

  // ---- The reader ----

  /** The buffer without its partial last line, split into lines. */
  method SplitWhole(buffer: string) returns (lines: seq<string>, length: nat)
    ensures lines == CompleteLines(buffer) && length == Through(buffer)
  {
    hide CompleteLines, SplitOn, IndexOf, Through;
    var data := buffer;
    CompleteLinesReachThrough(buffer);
    var cut := Through(buffer);
    if cut != |data| { data := data[..cut]; }
    lines, length := [], |data|;
    if |data| > 0 {
      SplitOfComplete(data);
      lines := SplitOn(data[..|data| - 1], '\n');
    } else {
      NoCompleteLines(data);
    }
    assert data == buffer[..cut];
  }

  lemma SliceOfSlice(s: string, i: nat, j: nat)
    requires i + j <= |s|
    ensures s[i..][j..] == s[i + j..]
  {
  }

  /** The reader: it narrows a buffer to whole lines and splits it. */
  method ReadLogTail(file: Option<string>, offset: int) returns (tail: Tail)
    ensures tail == if file.None? then Tail([], 0, 0) else ReadTail(file.value, offset)
  {
    hide CompleteLines, IndexOf, Through;
    if file.None? { return Tail([], 0, 0); }
    var content := file.value;
    var size := |content|;
    var from := offset;
    if from > size || from < 0 { from := 0; }
    var start := from;
    if size - start > CAP { start := size - CAP; }
    var data := content[start..];
    if start != from {
      var i := IndexOf(data, '\n');
      if i < |data| {
        SliceOfSlice(content, start, i + 1);
        start := start + i + 1;
        data := data[i + 1..];
      } else {
        data, start := "", size;
      }
    }
    assert start == From(content, offset) && data == content[start..];
    var lines, length := SplitWhole(data);
    return Tail(lines, start + length, size);
  }

  // ---- What a follower sees ----

  predicate Boundary(file: string, at: int) { 0 <= at <= |file| && (at == 0 || file[at - 1] == '\n') }

  lemma FromIsBoundary(file: string, offset: int)
    requires Boundary(file, Valid(file, offset))
    ensures Boundary(file, From(file, offset)) <==> !Overlong(file, offset)
  {
    if Capped(file, offset) {
      var window := file[|file| - CAP..];
      var i := IndexOf(window, '\n');
      if i == CAP {
        assert window[CAP - 1] == file[|file| - 1];
      } else {
        assert window[i] == file[|file| - CAP + i];
      }
    }
  }

  lemma CutLines(file: string, at: int)
    requires Boundary(file, at)
    ensures CompleteLines(file) == CompleteLines(file[..at]) + CompleteLines(file[at..])
  {
    assert file == file[..at] + file[at..];
    CompleteLinesConcat(file[..at], file[at..]);
  }

  lemma CutPrefix(file: string, a: int, b: int)
    requires Boundary(file, a) && a <= b <= |file|
    ensures CompleteLines(file[..b]) == CompleteLines(file[..a]) + CompleteLines(file[a..b])
  {
    assert file[..b][..a] == file[..a] && file[..b][a..] == file[a..b];
    CutLines(file[..b], a);
  }

  lemma SkippedWhen(file: string, offset: int)
    requires !Overlong(file, offset)
    ensures CompleteLines(file[Valid(file, offset)..From(file, offset)]) != [] <==> Capped(file, offset)
  {
    var skipped := file[Valid(file, offset)..From(file, offset)];
    if Capped(file, offset) {
      var window := file[|file| - CAP..];
      var i := IndexOf(window, '\n');
      assert window[i] == file[|file| - CAP + i] == skipped[|skipped| - 1];
      assert IndexOf(skipped, '\n') < |skipped|;
    } else {
      assert skipped == "";
    }
  }

  lemma ThroughIs(s: string, n: nat)
    requires n <= |s| && (n > 0 ==> s[n - 1] == '\n')
    requires forall k :: n <= k < |s| ==> s[k] != '\n'
    ensures Through(s) == n
  {
  }

  lemma ThroughFrom(file: string, from: int)
    requires Boundary(file, from)
    ensures Through(file) == from + Through(file[from..])
  {
    var rest, m := file[from..], Through(file[from..]);
    assert m > 0 ==> file[from + m - 1] == rest[m - 1];
    forall k | from + m <= k < |file| ensures file[k] != '\n' {
      assert file[k] == rest[k - from];
    }
    ThroughIs(file, from + m);
  }

  lemma TailIs(file: string, offset: int)
    ensures ReadTail(file, offset)
         == Tail(CompleteLines(file[From(file, offset)..]), From(file, offset) + Through(file[From(file, offset)..]), |file|)
  {
  }

  /** One call from a line boundary: unless one line fills the window, what comes
      is a block of whole lines of the file, new ones only, up to the last
      complete one; lines are skipped exactly when the cap cuts in. */
  lemma BlockOfWholeLines(file: string, offset: int)
    requires Boundary(file, Valid(file, offset)) && !Overlong(file, offset)
    ensures var seen, from, tail := Valid(file, offset), From(file, offset), ReadTail(file, offset);
            && CompleteLines(file) == CompleteLines(file[..seen]) + CompleteLines(file[seen..from]) + tail.lines
            && tail.next == Through(file)
            && (CompleteLines(file[seen..from]) != [] <==> Capped(file, offset))
  {
    hide *;
    var seen, from := Valid(file, offset), From(file, offset);
    FromIsBoundary(file, offset);
    CutLines(file, from);
    CutPrefix(file, seen, from);
    SkippedWhen(file, offset);
    ThroughFrom(file, from);
    TailIs(file, offset);
  }

  /** The next offset is a line boundary again exactly when no line filled the
      window: then the next call would begin in the middle of that line. */
  lemma NextIsBoundary(file: string, offset: int)
    requires Boundary(file, Valid(file, offset))
    ensures Boundary(file, ReadTail(file, offset).next) <==> !Overlong(file, offset)
  {
    hide *;
    FromIsBoundary(file, offset);
    if Overlong(file, offset) {
      OverlongEnds(file, offset);
      NoBoundaryBehind(file);
    } else {
      TailIs(file, offset);
      ThroughFrom(file, From(file, offset));
      ThroughIsBoundary(file);
    }
  }

  lemma NoBoundaryBehind(file: string)
    requires file != "" && file[|file| - 1] != '\n'
    ensures !Boundary(file, |file|)
  {
  }

  lemma ThroughIsBoundary(file: string)
    ensures Boundary(file, Through(file))
  {
  }

  lemma OverlongEnds(file: string, offset: int)
    requires Overlong(file, offset)
    ensures ReadTail(file, offset).next == |file| && file[|file| - 1] != '\n' && |file| > 0
  {
    var window := file[|file| - CAP..];
    assert window[CAP - 1] == file[|file| - 1];
    assert file[|file|..] == "";
  }

  /** Wherever the last call stopped: when the cap cuts in and no line fills the
      window, what comes are the last whole lines of the file, from a line
      boundary up to the last complete one. */
  lemma CappedBlock(file: string, offset: int)
    requires Capped(file, offset) && !Overlong(file, offset)
    ensures var from, tail := From(file, offset), ReadTail(file, offset);
            && Boundary(file, from)
            && CompleteLines(file) == CompleteLines(file[..from]) + tail.lines
            && tail.next == Through(file)
  {
    hide *;
    BehindTheCut(file, offset);
    CutLines(file, From(file, offset));
    ThroughFrom(file, From(file, offset));
    TailIs(file, offset);
  }

  /** Behind a cap that cuts in, lines are taken from just after the window's
      first line feed. */
  lemma BehindTheCut(file: string, offset: int)
    requires Capped(file, offset) && !Overlong(file, offset)
    ensures 0 < |file| - CAP < From(file, offset) <= |file|
    ensures file[From(file, offset) - 1] == '\n' && Boundary(file, From(file, offset))
    ensures forall k :: |file| - CAP <= k < From(file, offset) - 1 ==> file[k] != '\n'
  {
    var cut := |file| - CAP;
    var window := file[cut..];
    var i := IndexOf(window, '\n');
    assert window[i] == file[cut + i];
    forall k | cut <= k < cut + i ensures file[k] != '\n' {
      assert window[k - cut] == file[k];
    }
  }

  lemma LineFrom(file: string, begin: nat, end: nat)
    requires begin <= end < |file| && file[end] == '\n' && forall k :: begin <= k < end ==> file[k] != '\n'
    ensures CompleteLines(file[begin..]) == [file[begin..end]] + CompleteLines(file[end + 1..])
  {
    hide CompleteLines;
    var rest, n := file[begin..], end - begin;
    assert rest[n] == file[end];
    forall k | 0 <= k < n ensures rest[k] != '\n' {
      assert rest[k] == file[begin + k];
    }
    CompleteLinesIs(rest, n);
    assert rest[..n] == file[begin..end] && rest[n + 1..] == file[end + 1..];
  }

  lemma NoLineFeedBehind(file: string, cut: nat)
    requires cut <= |file|
    ensures var begin := Through(file[..cut]); begin <= cut && Boundary(file, begin)
    ensures forall k :: Through(file[..cut]) <= k < cut ==> file[k] != '\n'
    ensures CompleteLines(file[..cut]) == CompleteLines(file[..Through(file[..cut])])
  {
    var before := file[..cut];
    var begin := Through(before);
    assert begin > 0 ==> file[begin - 1] == before[begin - 1];
    forall k | begin <= k < cut ensures file[k] != '\n' {
      assert before[k] == file[k];
    }
    hide CompleteLines, Through;
    CompleteLinesReachThrough(before);
    assert before[..begin] == file[..begin];
  }

  /** A line that begins at the last boundary before the cut and ends at the
      first line feed behind it. */
  lemma LineAcross(file: string, cut: nat, end: nat)
    requires cut <= end < |file| && file[end] == '\n'
    requires forall k :: cut <= k < end ==> file[k] != '\n'
    ensures Through(file[..cut]) <= cut
    ensures CompleteLines(file)
         == CompleteLines(file[..cut]) + [file[Through(file[..cut])..end]] + CompleteLines(file[end + 1..])
  {
    hide *;
    NoLineFeedBehind(file, cut);
    var begin := Through(file[..cut]);
    CutLines(file, begin);
    LineFrom(file, begin, end);
    Regroup(CompleteLines(file[..cut]), file[begin..end], CompleteLines(file[end + 1..]));
  }

  lemma Regroup(a: seq<string>, line: string, b: seq<string>)
    ensures a + ([line] + b) == a + [line] + b
  {
  }

  lemma DroppedAt(file: string, cut: nat, end: nat, shown: seq<string>)
    requires cut <= end < |file| && file[end] == '\n'
    requires forall k :: cut <= k < end ==> file[k] != '\n'
    requires shown == CompleteLines(file[end + 1..])
    ensures Through(file[..cut]) <= cut
    ensures CompleteLines(file) == CompleteLines(file[..cut]) + [file[Through(file[..cut])..end]] + shown
    ensures Boundary(file, cut) <==> CompleteLines(file) == CompleteLines(file[..cut]) + [file[cut..end]] + shown
  {
    hide *;
    LineAcross(file, cut, end);
    BoundaryIsThrough(file, cut);
    SameStart(file, Through(file[..cut]), cut, end);
    SameMiddle(CompleteLines(file), CompleteLines(file[..cut]), file[Through(file[..cut])..end], file[cut..end], shown);
  }

  /** When the cap cuts in, the line it cuts into, ending at the window's first
      line feed, is not shown: the file's complete lines are those before the cut,
      that line, and the ones shown. What of it lies in the window is the whole
      line, lost although it fits, exactly when the cut falls on a boundary. */
  lemma CutLineIsDropped(file: string, offset: int) returns (end: nat)
    requires Capped(file, offset) && !Overlong(file, offset)
    ensures 0 < |file| - CAP <= end < |file| && file[end] == '\n'
    ensures forall k :: |file| - CAP <= k < end ==> file[k] != '\n'
    ensures Through(file[..|file| - CAP]) <= |file| - CAP
    ensures CompleteLines(file)
         == CompleteLines(file[..|file| - CAP]) + [file[Through(file[..|file| - CAP])..end]] + ReadTail(file, offset).lines
    ensures Boundary(file, |file| - CAP)
       <==> CompleteLines(file)
            == CompleteLines(file[..|file| - CAP]) + [file[|file| - CAP..end]] + ReadTail(file, offset).lines
  {
    hide *;
    BehindTheCut(file, offset);
    TailIs(file, offset);
    end := From(file, offset) - 1;
    DroppedAt(file, |file| - CAP, end, ReadTail(file, offset).lines);
  }

  lemma SameStart(file: string, begin: nat, cut: nat, end: nat)
    requires begin <= cut <= end <= |file|
    ensures file[begin..end] == file[cut..end] <==> begin == cut
  {
    assert |file[begin..end]| == end - begin && |file[cut..end]| == end - cut;
  }

  lemma SameMiddle(all: seq<string>, a: seq<string>, x: string, y: string, b: seq<string>)
    requires all == a + [x] + b
    ensures all == a + [y] + b <==> x == y
  {
    assert (a + [x] + b)[|a|] == x && (a + [y] + b)[|a|] == y;
  }

  lemma BoundaryIsThrough(file: string, cut: nat)
    requires cut <= |file|
    ensures Boundary(file, cut) <==> Through(file[..cut]) == cut
  {
    assert cut > 0 ==> file[..cut][cut - 1] == file[cut - 1];
  }

  /** The lines and the next offset after polling a growing file, each poll from
      where the one before stopped. */
  function Poll(files: seq<string>): (seq<string>, int) {
    if files == [] then ([], 0)
    else
      var (lines, next) := Poll(files[..|files| - 1]);
      var tail := ReadTail(files[|files| - 1], next);
      (lines + tail.lines, tail.next)
  }

  predicate Grows(files: seq<string>) {
    forall i :: 0 < i < |files| ==> files[i - 1] <= files[i]
  }

  /** No poll found more unread than the window holds. */
  predicate KeepsUp(files: seq<string>) {
    files == []
    || (KeepsUp(files[..|files| - 1]) && !Capped(files[|files| - 1], Poll(files[..|files| - 1]).1))
  }

  lemma GrownBoundary(file: string, more: string, at: int)
    requires file <= more && Boundary(file, at)
    ensures Boundary(more, at) && file[..at] == more[..at] && Valid(more, at) == at
  {
  }

  /** A follower that keeps up gets every complete line of the file exactly once,
      in order and unsplit. */
  lemma {:induction false} FollowerSeesEveryLine(files: seq<string>)
    requires files != [] && Grows(files) && KeepsUp(files)
    ensures var (lines, next) := Poll(files);
            && lines == CompleteLines(files[|files| - 1])
            && next == Through(files[|files| - 1])
  {
    var front, file := files[..|files| - 1], files[|files| - 1];
    var next := Poll(front).1;
    assert Poll(files) == (Poll(front).0 + ReadTail(file, next).lines, ReadTail(file, next).next);
    if front == [] {
      NothingBefore(file);
    } else {
      assert Grows(front) && KeepsUp(front) && front[|front| - 1] == files[|files| - 2];
      FollowerSeesEveryLine(front);
      hide *;
      SeenSoFar(front[|front| - 1], file, next);
    }
    assert !Capped(file, next);
    hide *;
    NextPoll(file, next);
  }

  lemma SeenSoFar(last: string, file: string, next: int)
    requires last <= file && next == Through(last)
    ensures Boundary(file, next) && Valid(file, next) == next
    ensures CompleteLines(file[..next]) == CompleteLines(last)
  {
    GrownBoundary(last, file, next);
    CompleteLinesReachThrough(last);
  }

  lemma NextPoll(file: string, next: int)
    requires Boundary(file, next) && Valid(file, next) == next && !Capped(file, next)
    ensures CompleteLines(file) == CompleteLines(file[..next]) + ReadTail(file, next).lines
    ensures ReadTail(file, next).next == Through(file)
  {
    NotOverlong(file, next);
    hide Through, CompleteLines;
    CutLines(file, next);
    ThroughFrom(file, next);
  }

  lemma NotOverlong(file: string, next: int)
    requires !Capped(file, next)
    ensures !Overlong(file, next) && From(file, next) == Valid(file, next)
  {
  }

  lemma NothingBefore(file: string)
    ensures Valid(file, 0) == 0 && Boundary(file, 0) && CompleteLines(file[..0]) == []
  {
  }
}

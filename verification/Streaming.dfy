/** Serving a byte range of a file that is still being downloaded. Everything
    outside the server is a function of a tick that grows with every question
    asked of it. */
module Streaming {
  import opened Ranges
  import opened Wrappers

  datatype Poll = Failed | Pieces(size: int, states: seq<int>)

  /** What a stream meets on its way: `reaches` is the engine answering and
      preparing the range, `path` the safe content path it reports, `opens` the
      file being there, and `bytes` what a handle opened then reads now. */
  datatype World = World(
    polls: nat -> Poll,
    reaches: nat -> bool,
    path: nat -> Option<string>,
    opens: (string, nat) -> bool,
    bytes: (string, nat, nat) -> string,
    cancelled: nat -> bool,
    accepts: nat -> bool,
    pollLimit: nat,
    probeLimit: nat)

  datatype Download = Download(complete: bool, absolutePath: string, size: int, fileOffset: nat, pieceSize: int)

  const DOWNLOADED: int := 2
  const BUFFER: int := 0x10_0000

  // ---- Pieces ----

  /** The engine's piece size, or the one on record when it reports none. */
  function PieceSize(poll: Poll, d: Download): int {
    if poll.Failed? then 0 else if poll.size > 0 then poll.size else d.pieceSize
  }

  predicate Have(poll: Poll, i: int) {
    poll.Pieces? && 0 <= i < |poll.states| && poll.states[i] == DOWNLOADED
  }

  /** The piece holding byte `k` of the file is there. */
  predicate Complete(poll: Poll, d: Download, k: nat) {
    PieceSize(poll, d) > 0 && Have(poll, (d.fileOffset + k) / PieceSize(poll, d))
  }

  function FirstPiece(poll: Poll, d: Download, start: nat): int
    requires PieceSize(poll, d) > 0
  {
    (d.fileOffset + start) / PieceSize(poll, d)
  }

  function LastPiece(poll: Poll, d: Download, start: nat, count: int): int
    requires PieceSize(poll, d) > 0 && count > 0
  {
    (d.fileOffset + start + count - 1) / PieceSize(poll, d)
  }

  predicate Ready(poll: Poll, d: Download, start: nat, count: int)
    requires count > 0
  {
    && PieceSize(poll, d) > 0
    && forall i :: FirstPiece(poll, d, start) <= i <= LastPiece(poll, d, start, count) ==> Have(poll, i)
  }

  lemma TimesIsMonotone(a: int, b: int, size: int)
    requires a <= b && size > 0
    ensures a * size <= b * size
  {
    assert (b - a) * size >= 0;
  }

  lemma QuotientOf(b: int, size: int, i: int)
    requires size > 0 && i * size <= b < i * size + size
    ensures b / size == i
  {
    var q := b / size;
    assert q * size <= b < q * size + size;
    if q < i {
      TimesIsMonotone(q + 1, i, size);
    } else if i < q {
      TimesIsMonotone(i + 1, q, size);
    }
  }

  lemma DivisionIsMonotone(a: int, b: int, size: int)
    requires a <= b && size > 0
    ensures a / size <= b / size
  {
    var p, q := a / size, b / size;
    assert p * size <= a && b < q * size + size;
    if q < p {
      TimesIsMonotone(q + 1, p, size);
      assert false;
    }
  }

  /** Piece `i` holds a byte of the range: the range's first one, or else the
      piece's own first one. */
  lemma PieceHoldsByte(from: int, to: int, size: int, i: int) returns (b: int)
    requires 0 <= from <= to && size > 0 && from / size <= i <= to / size
    ensures from <= b <= to && b / size == i
  {
    var p, q := from / size, to / size;
    if i == p {
      b := from;
    } else {
      b := i * size;
      assert from < p * size + size && q * size <= to;
      TimesIsMonotone(p + 1, i, size);
      TimesIsMonotone(i, q, size);
      QuotientOf(b, size, i);
    }
  }

  /** The piece arithmetic is exact: the polled range is ready exactly when every
      byte of it, at its place in the whole torrent, lies in a piece that is
      there. */
  lemma ReadyMeansEveryByte(poll: Poll, d: Download, start: nat, count: int)
    requires count > 0
    ensures Ready(poll, d, start, count) <==> forall k :: start <= k < start + count ==> Complete(poll, d, k)
  {
    var size := PieceSize(poll, d);
    if size > 0 {
      var from, to := d.fileOffset + start, d.fileOffset + start + count - 1;
      forall k | start <= k < start + count && Ready(poll, d, start, count) ensures Complete(poll, d, k) {
        DivisionIsMonotone(from, d.fileOffset + k, size);
        DivisionIsMonotone(d.fileOffset + k, to, size);
        assert Have(poll, (d.fileOffset + k) / size);
      }
      if forall k :: start <= k < start + count ==> Complete(poll, d, k) {
        forall i | FirstPiece(poll, d, start) <= i <= LastPiece(poll, d, start, count) ensures Have(poll, i) {
          var b := PieceHoldsByte(from, to, size, i);
          assert Complete(poll, d, b - d.fileOffset);
        }
      }
    } else {
      assert !Complete(poll, d, start);
    }
  }

  /** In terms of the poll alone: with the engine's piece size, or the recorded one
      when it reports none, each byte's piece is in the list and in state 2. */
  lemma CompleteMeans(poll: Poll, d: Download, k: nat)
    ensures Complete(poll, d, k)
       <==> && poll.Pieces?
            && var size := if poll.size > 0 then poll.size else d.pieceSize;
            && size > 0 && (d.fileOffset + k) / size < |poll.states| && poll.states[(d.fileOffset + k) / size] == 2
  {
    if poll.Pieces? {
      var size := if poll.size > 0 then poll.size else d.pieceSize;
      if size > 0 {
        DivisionIsMonotone(0, d.fileOffset + k, size);
        assert 0 / size == 0;
      }
    }
  }

  /** The tick at which the wait ends well, if it does. */
  function Wait(w: World, d: Download, start: nat, count: int, t: nat, left: nat): Option<nat>
    requires count > 0
    decreases left
  {
    if PieceSize(w.polls(t), d) <= 0 then None
    else if Ready(w.polls(t), d, start, count) then Some(t)
    else if left == 0 || w.cancelled(t) then None
    else Wait(w, d, start, count, t + 1, left - 1)
  }

  /** The wait ends well at the first poll that has every byte of the range, and
      only if no poll before it failed and the caller stayed. */
  lemma {:induction false} WaitEndsAtFirstReady(w: World, d: Download, start: nat, count: int, t: nat, left: nat, at: nat)
    requires count > 0
    ensures Wait(w, d, start, count, t, left) == Some(at)
       <==> && t <= at <= t + left
            && (forall k :: start <= k < start + count ==> Complete(w.polls(at), d, k))
            && forall u :: t <= u < at ==>
                 PieceSize(w.polls(u), d) > 0 && !Ready(w.polls(u), d, start, count) && !w.cancelled(u)
    decreases left
  {
    ReadyMeansEveryByte(w.polls(at), d, start, count);
    hide Complete;
    if left > 0 && PieceSize(w.polls(t), d) > 0 && !Ready(w.polls(t), d, start, count) && !w.cancelled(t) {
      WaitEndsAtFirstReady(w, d, start, count, t + 1, left - 1, at);
    }
  }

  method AllThere(states: seq<int>, first: int, last: int) returns (ready: bool)
    requires 0 <= first <= last
    ensures ready <==> last < |states| && forall i :: first <= i <= last ==> states[i] == DOWNLOADED
  {
    ready := last < |states|;
    if ready {
      for i := first to last + 1
        invariant forall j :: first <= j < i ==> states[j] == DOWNLOADED
      {
        if states[i] != DOWNLOADED { return false; }
      }
    }
  }

  lemma ReadyIsAllThere(poll: Poll, d: Download, start: nat, count: int)
    requires count > 0 && PieceSize(poll, d) > 0
    ensures var first, last := FirstPiece(poll, d, start), LastPiece(poll, d, start, count);
            && 0 <= first <= last
            && (Ready(poll, d, start, count)
                <==> last < |poll.states| && forall i :: first <= i <= last ==> poll.states[i] == DOWNLOADED)
  {
    var first, last := FirstPiece(poll, d, start), LastPiece(poll, d, start, count);
    DivisionIsMonotone(d.fileOffset + start, d.fileOffset + start + count - 1, PieceSize(poll, d));
    if Ready(poll, d, start, count) {
      assert Have(poll, last);
      forall i | first <= i <= last ensures poll.states[i] == DOWNLOADED {
        assert Have(poll, i);
      }
    }
  }

  method WaitRange(w: World, d: Download, start: nat, count: int, from: nat) returns (ready: Option<nat>, now: nat)
    requires count > 0
    ensures ready == Wait(w, d, start, count, from, w.pollLimit)
    ensures from <= now && (ready.Some? ==> now == ready.value + 1)
  {
    hide Ready, Have;
    now := from;
    var left := w.pollLimit;
    while true
      invariant from <= now
      invariant Wait(w, d, start, count, from, w.pollLimit) == Wait(w, d, start, count, now, left)
      decreases left
    {
      var poll := w.polls(now);
      if poll.Failed? { return None, now + 1; }
      var size := poll.size;
      if size <= 0 { size := d.pieceSize; }
      if size <= 0 { return None, now + 1; }
      ReadyIsAllThere(poll, d, start, count);
      var there := AllThere(poll.states, (d.fileOffset + start) / size, (d.fileOffset + start + count - 1) / size);
      if there { return Some(now), now + 1; }
      if left == 0 || w.cancelled(now) { return None, now + 1; }
      left := left - 1;
      now := now + 1;
    }
  }

  // ---- One chunk ----

  /** What the engine owes the server: a byte whose piece it has reported there
      is, from then on, read as it should be, whatever path it is opened under;
      and so is every byte once the whole file is complete. */
  ghost predicate Honest(w: World, d: Download, data: string) {
    && |data| == d.size
    && (forall t: nat, k: nat, path: string, since: nat, at: nat ::
          k < d.size && t <= since <= at && Complete(w.polls(t), d, k) ==> ReadsTrue(w, data, path, since, at, k))
    && (d.complete ==> forall k: nat, path: string, since: nat, at: nat ::
          k < d.size ==> ReadsTrue(w, data, path, since, at, k))
  }

  predicate ReadsTrue(w: World, data: string, path: string, since: nat, at: nat, k: nat)
    requires k < |data|
  {
    k < |w.bytes(path, since, at)| ==> w.bytes(path, since, at)[k] == data[k]
  }

  /** A chunk that may be read: its place, and the poll that found it ready; or
      none, when the file as a whole was complete. */
  datatype Chunk = Chunk(start: nat, count: nat, ready: Option<nat>)

  ghost predicate Backed(w: World, d: Download, c: Chunk) {
    && c.count > 0
    && c.start + c.count <= d.size
    && (if c.ready.None? then d.complete
        else forall k :: c.start <= k < c.start + c.count ==> Complete(w.polls(c.ready.value), d, k))
  }

  /** The content path known at tick t: the one last reported before, or `first`. */
  function PathAt(w: World, first: string, from: nat, t: nat): string
    requires from <= t
    decreases t
  {
    if t == from then first
    else if w.path(t - 1).Some? then w.path(t - 1).value
    else PathAt(w, first, from, t - 1)
  }

  /** The path opens at tick t and byte `at` is there. */
  predicate Opens(w: World, path: string, at: nat, t: nat) {
    w.opens(path, t) && at < |w.bytes(path, t, t)|
  }

  /** The path then known opens at tick t with the byte there. */
  predicate Found(w: World, first: string, at: nat, from: nat, t: nat) {
    from <= t && Opens(w, PathAt(w, first, from, t), at, t)
  }

  /** The probing ends well at tick t: the first at which the path is found, the
      caller having stayed. */
  ghost predicate ProbeEnds(w: World, first: string, at: nat, from: nat, t: nat) {
    && from <= t <= from + w.probeLimit
    && Found(w, first, at, from, t)
    && forall u :: from <= u < t ==> !Found(w, first, at, from, u) && !w.cancelled(u)
  }

  ghost predicate ProbeSucceeds(w: World, first: string, at: nat, from: nat) {
    exists t :: ProbeEnds(w, first, at, from, t)
  }

  lemma NextPath(w: World, first: string, from: nat, t: nat)
    requires from <= t
    ensures PathAt(w, first, from, from) == first
    ensures PathAt(w, first, from, t + 1) == if w.path(t).Some? then w.path(t).value else PathAt(w, first, from, t)
  {
  }

  lemma FoundIs(w: World, first: string, at: nat, from: nat, t: nat)
    requires from <= t
    ensures Found(w, first, at, from, t) <==> w.opens(PathAt(w, first, from, t), t) && at < |w.bytes(PathAt(w, first, from, t), t, t)|
  {
  }

  method ProbePath(w: World, first: string, at: nat, from: nat) returns (path: Option<string>, now: nat)
    ensures from < now
    ensures path.Some? ==> ProbeEnds(w, first, at, from, now - 1) && path.value == PathAt(w, first, from, now - 1)
    ensures path.None? ==> !ProbeSucceeds(w, first, at, from)
  {
    hide Found, Opens, PathAt;
    now := from;
    var current := first;
    var left := w.probeLimit;
    NextPath(w, first, from, from);
    while true
      invariant from <= now && now + left == from + w.probeLimit
      invariant current == PathAt(w, first, from, now)
      invariant forall u :: from <= u < now ==> !Found(w, first, at, from, u) && !w.cancelled(u)
      decreases left
    {
      FoundIs(w, first, at, from, now);
      if w.opens(current, now) && at < |w.bytes(current, now, now)| { return Some(current), now + 1; }
      NextPath(w, first, from, now);
      if w.path(now).Some? { current := w.path(now).value; }
      if left == 0 || w.cancelled(now) { return None, now + 1; }
      left := left - 1;
      now := now + 1;
    }
  }

  // ---- When a range is granted ----

  /** The whole file is complete and lies at its recorded place. */
  predicate Local(w: World, d: Download, t: nat) {
    d.complete && d.absolutePath != "" && d.size > 0 && w.opens(d.absolutePath, t) && |w.bytes(d.absolutePath, t, t)| >= d.size
  }

  /** A complete file is read where it lies, if it is still long enough. */
  predicate LocalGrant(w: World, d: Download, start: nat, count: nat, from: nat) {
    && w.reaches(from + 1)
    && w.opens(d.absolutePath, from + 1) && |w.bytes(d.absolutePath, from + 1, from + 1)| >= start + count
  }

  /** Any other is read once the wait for its pieces and the probing of the path end
      well. */
  ghost predicate ProgressiveGrant(w: World, d: Download, start: nat, count: nat, from: nat)
    requires count > 0
  {
    && w.reaches(from + 1) && w.path(from + 1).Some?
    && var waited := Wait(w, d, start, count, from + 2, w.pollLimit);
    && waited.Some?
    && ProbeSucceeds(w, w.path(from + 1).value, start + count - 1, waited.value + 1)
  }

  ghost predicate Granted(w: World, d: Download, start: int, count: int, from: nat) {
    && 0 <= start && count > 0 && start + count <= d.size
    && if Local(w, d, from) then LocalGrant(w, d, start, count, from) else ProgressiveGrant(w, d, start, count, from)
  }

  /** The path is one the engine reported between the two ticks. */
  ghost predicate Reported(w: World, path: string, from: nat, now: nat) {
    exists t :: from <= t < now && w.path(t) == Some(path)
  }

  lemma PathIsReported(w: World, first: string, since: nat, from: nat, t: nat)
    requires since < from <= t && w.path(since) == Some(first)
    ensures Reported(w, PathAt(w, first, from, t), since, t + 1)
    decreases t
  {
    if t > from {
      PathIsReported(w, first, since, from, t - 1);
    }
  }

  /** The path to read the range from, once it may be read: the recorded one for a
      complete file, or else one the engine reported; and at the last tick it opened
      with the range's last byte there. */
  method ReadableRangePath(w: World, d: Download, start: int, count: int, from: nat)
    returns (path: Option<string>, ready: Option<nat>, now: nat)
    ensures from < now
    ensures path.Some? <==> Granted(w, d, start, count, from)
    ensures path.Some? ==> 0 <= start && count > 0 && Backed(w, d, Chunk(start, count, ready))
    ensures path.Some? && ready.Some? ==> ready.value < now
    ensures path.Some? ==> Opens(w, path.value, start + count - 1, now - 1)
    ensures path.Some? ==> if Local(w, d, from) then path.value == d.absolutePath else Reported(w, path.value, from, now)
  {
    hide Complete, Have, Ready, Found, Opens, PathAt, Reported;
    now := from + 1;
    var known := if w.opens(d.absolutePath, from) then |w.bytes(d.absolutePath, from, from)| else -1;
    var outside := count <= 0 || start < 0 || start + count > d.size;
    if d.complete && d.absolutePath != "" && d.size > 0 && known >= d.size {
      if outside || !w.reaches(now) { return None, None, now + 1; }
      if !w.opens(d.absolutePath, now) || |w.bytes(d.absolutePath, now, now)| < start + count { return None, None, now + 1; }
      OpensIs(w, d.absolutePath, start + count - 1, now);
      return Some(d.absolutePath), None, now + 1;
    }
    if outside || !w.reaches(now) || w.path(now).None? { return None, None, now + 1; }
    var first := w.path(now).value;
    ready, now := WaitRange(w, d, start, count, now + 1);
    if ready.None? { return None, None, now + 1; }
    WaitEndsAtFirstReady(w, d, start, count, from + 2, w.pollLimit, ready.value);
    ghost var probing := now;
    path, now := ProbePath(w, first, start + count - 1, now);
    if path.Some? {
      FoundIs(w, first, start + count - 1, probing, now - 1);
      OpensIs(w, path.value, start + count - 1, now - 1);
      PathIsReported(w, first, from + 1, probing, now - 1);
      ReportedEarlier(w, path.value, from, from + 1, now);
    }
  }

  lemma OpensIs(w: World, path: string, at: nat, t: nat)
    ensures Opens(w, path, at, t) <==> w.opens(path, t) && at < |w.bytes(path, t, t)|
  {
  }

  lemma ReportedEarlier(w: World, path: string, earlier: nat, from: nat, now: nat)
    requires Reported(w, path, from, now) && earlier <= from
    ensures Reported(w, path, earlier, now)
  {
  }

  /** The i-th buffer of a copy begun at `from` goes through: the caller is there, the
      file holds all of it, and it is taken. */
  predicate BufferPasses(w: World, path: string, offset: nat, count: int, from: nat, i: nat) {
    var t := from + i;
    !w.cancelled(t) && w.accepts(t) && |w.bytes(path, from, t)| >= offset + Smaller((i + 1) * BUFFER, count)
  }

  /** Copies the range through a buffer of one mebibyte, exactly when the file opens
      and every buffer passes. */
  method CopyRange(w: World, path: string, offset: nat, count: int, from: nat)
    returns (out: string, ok: bool, now: nat, ghost readAt: seq<nat>)
    ensures from <= now
    ensures |out| == |readAt| <= (if count > 0 then count else 0)
    ensures forall i :: 0 <= i < |out| ==>
              from <= readAt[i] && offset + i < |w.bytes(path, from, readAt[i])| && out[i] == w.bytes(path, from, readAt[i])[offset + i]
    ensures ok ==> count <= |out|
    ensures ok <==> w.opens(path, from) && forall i: nat :: i * BUFFER < count ==> BufferPasses(w, path, offset, count, from, i)
  {
    out, now, readAt := "", from, [];
    if !w.opens(path, from) { return out, false, now + 1, readAt; }
    var remaining := count;
    ghost var passed: nat := 0;
    while remaining > 0
      invariant from <= now == from + passed
      invariant |out| == |readAt| && (count > 0 ==> remaining + |out| == count && remaining >= 0) && (count <= 0 ==> out == "" && remaining == count)
      invariant if remaining > 0 then |out| == passed * BUFFER else passed * BUFFER >= count
      invariant forall i: nat :: i < passed ==> BufferPasses(w, path, offset, count, from, i)
      invariant forall i :: 0 <= i < |out| ==>
                  from <= readAt[i] && offset + i < |w.bytes(path, from, readAt[i])| && out[i] == w.bytes(path, from, readAt[i])[offset + i]
      decreases remaining
    {
      ghost var passes := BufferPasses(w, path, offset, count, from, passed);
      assert passed * BUFFER < count;
      if w.cancelled(now) { return out, false, now + 1, readAt; }
      var want := BUFFER;
      if remaining < want { want := remaining; }
      var bytes := w.bytes(path, from, now);
      var position := offset + |out|;
      var n := if |bytes| <= position then 0 else if |bytes| - position < want then |bytes| - position else want;
      if n > 0 {
        if !w.accepts(now) { return out, false, now + 1, readAt; }
        out := out + bytes[position..position + n];
        readAt := readAt + seq(n, _ => now);
        remaining := remaining - n;
      }
      if n < want { return out, false, now + 1, readAt; }
      assert passes;
      now := now + 1;
      passed := passed + 1;
    }
    return out, true, now + 1, readAt;
  }

  /** A backed chunk is copied truly, however far the copy gets. */
  lemma BackedCopyIsTrue(w: World, d: Download, data: string, c: Chunk, path: string, from: nat, out: string, readAt: seq<nat>)
    requires Honest(w, d, data) && Backed(w, d, c) && (c.ready.Some? ==> c.ready.value <= from)
    requires |out| == |readAt| <= c.count
    requires forall i :: 0 <= i < |out| ==>
               from <= readAt[i] && c.start + i < |w.bytes(path, from, readAt[i])|
               && out[i] == w.bytes(path, from, readAt[i])[c.start + i]
    ensures out == data[c.start..c.start + |out|]
  {
    hide Complete;
    forall i | 0 <= i < |out| ensures out[i] == data[c.start + i] {
      var k := c.start + i;
      if c.ready.Some? {
        assert Complete(w.polls(c.ready.value), d, k);
      }
      assert ReadsTrue(w, data, path, from, readAt[i], k);
    }
  }

  // ---- When nothing is in the way ----

  predicate CalmAt(w: World, t: nat) { w.reaches(t) && !w.cancelled(t) && w.accepts(t) }

  /** From a tick on the engine answers, the caller stays and takes what is written. */
  ghost predicate Calm(w: World, from: nat) {
    forall t: nat :: from <= t ==> CalmAt(w, t)
  }

  /** A handle opened at s reads more than `end` bytes at t. */
  predicate Reads(w: World, path: string, end: int, s: nat, t: nat) {
    w.opens(path, s) && |w.bytes(path, s, t)| > end
  }

  ghost predicate PathOpens(w: World, path: string, end: int, from: nat) {
    forall s: nat, t: nat :: from <= s <= t ==> Reads(w, path, end, s, t)
  }

  /** The file is complete and stays whole where it lies. */
  ghost predicate StaysWhole(w: World, d: Download, from: nat) {
    d.complete && d.absolutePath != "" && d.size > 0 && PathOpens(w, d.absolutePath, d.size - 1, from)
  }

  /** Every poll has the pieces of the bytes from start to end. */
  ghost predicate PiecesThere(w: World, d: Download, start: nat, end: nat, from: nat) {
    forall t: nat, k: nat :: from <= t && start <= k <= end ==> Complete(w.polls(t), d, k)
  }

  /** The path the engine reports at a tick opens from then on, with the bytes up to
      `end`. */
  ghost predicate ReportsOpen(w: World, end: nat, t: nat) { w.path(t).Some? && PathOpens(w, w.path(t).value, end, t) }

  /** The engine still loads the file, or has moved it, but the bytes from start to
      end are there, under whatever path it reports. */
  ghost predicate HasArrived(w: World, d: Download, start: nat, end: nat, from: nat) {
    && (forall t: nat :: from <= t ==> !Local(w, d, t))
    && PiecesThere(w, d, start, end, from)
    && (forall t: nat :: from <= t ==> ReportsOpen(w, end, t))
  }

  /** Nothing is in the way of the bytes from start to end. */
  ghost predicate Unhindered(w: World, d: Download, start: nat, end: nat, from: nat) {
    && end < d.size && Calm(w, from)
    && (StaysWhole(w, d, from) || HasArrived(w, d, start, end, from))
  }

  lemma OpensLater(w: World, path: string, end: int, from: nat, least: int, now: nat)
    requires PathOpens(w, path, end, from) && least <= end && from <= now
    ensures PathOpens(w, path, least, now)
  {
    forall s: nat, t: nat | now <= s <= t ensures Reads(w, path, least, s, t) {
      assert Reads(w, path, end, s, t);
    }
  }

  lemma ArrivedLater(w: World, d: Download, start: nat, end: nat, from: nat, later: nat, now: nat)
    requires HasArrived(w, d, start, end, from) && start <= later && from <= now
    ensures HasArrived(w, d, later, end, now)
  {
    hide Local, Complete, ReportsOpen;
  }

  lemma UnhinderedLater(w: World, d: Download, start: nat, end: nat, from: nat, later: nat, now: nat)
    requires Unhindered(w, d, start, end, from) && start <= later && from <= now
    ensures Unhindered(w, d, later, end, now)
  {
    hide CalmAt, PathOpens, HasArrived;
    if HasArrived(w, d, start, end, from) {
      ArrivedLater(w, d, start, end, from, later, now);
    } else {
      OpensLater(w, d.absolutePath, d.size - 1, from, d.size - 1, now);
    }
  }

  lemma WaitsForNothing(w: World, d: Download, start: nat, count: nat, t: nat)
    requires count > 0 && PiecesThere(w, d, start, start + count - 1, t)
    ensures Wait(w, d, start, count, t, w.pollLimit) == Some(t)
  {
    assert forall k :: start <= k < start + count ==> Complete(w.polls(t), d, k);
    ReadyMeansEveryByte(w.polls(t), d, start, count);
    hide Complete, PiecesThere, Ready;
    assert Ready(w.polls(t), d, start, count);
    ReadyHasSize(w.polls(t), d, start, count);
  }

  lemma ReadyHasSize(poll: Poll, d: Download, start: nat, count: int)
    requires count > 0 && Ready(poll, d, start, count)
    ensures PieceSize(poll, d) > 0
  {
  }

  lemma FewerPieces(w: World, d: Download, start: nat, end: nat, from: nat, last: nat, now: nat)
    requires PiecesThere(w, d, start, end, from) && last <= end && from <= now
    ensures PiecesThere(w, d, start, last, now)
  {
    hide Complete;
  }

  lemma PathOpensAt(w: World, path: string, end: int, from: nat, at: nat, t: nat)
    requires PathOpens(w, path, end, from) && at <= end && from <= t
    ensures Opens(w, path, at, t)
  {
    assert Reads(w, path, end, t, t);
  }

  lemma WholeIsLocal(w: World, d: Download, from: nat, t: nat)
    requires StaysWhole(w, d, from) && from <= t
    ensures Local(w, d, t)
  {
    assert Reads(w, d.absolutePath, d.size - 1, t, t);
  }

  /** A range in which nothing is in the way is granted. */
  lemma UnhinderedIsGranted(w: World, d: Download, start: nat, count: nat, end: nat, from: nat)
    requires Unhindered(w, d, start, end, from) && count > 0 && start + count <= end + 1
    ensures Granted(w, d, start, count, from)
    ensures Local(w, d, from) <==> StaysWhole(w, d, from)
  {
    hide Complete, Local, PiecesThere, PathOpens, Opens, Found, PathAt, Wait;
    assert CalmAt(w, from + 1);
    if StaysWhole(w, d, from) {
      WholeIsLocal(w, d, from, from);
      PathOpensAt(w, d.absolutePath, d.size - 1, from, start + count - 1, from + 1);
      OpensIs(w, d.absolutePath, start + count - 1, from + 1);
    } else {
      assert ReportsOpen(w, end, from + 1);
      var first := w.path(from + 1).value;
      FewerPieces(w, d, start, end, from, start + count - 1, from + 2);
      WaitsForNothing(w, d, start, count, from + 2);
      PathOpensAt(w, first, end, from + 1, start + count - 1, from + 3);
      FoundAtOnce(w, first, start + count - 1, from + 3);
    }
  }

  lemma FoundAtOnce(w: World, first: string, at: nat, from: nat)
    requires Opens(w, first, at, from)
    ensures ProbeSucceeds(w, first, at, from)
  {
    NextPath(w, first, from, from);
    assert Found(w, first, at, from, from);
    hide Found, Opens, PathAt;
    assert ProbeEnds(w, first, at, from, from);
  }

  lemma GrantedIsUsable(w: World, d: Download, start: nat, end: nat, from: nat, path: string, now: nat)
    requires Unhindered(w, d, start, end, from) && from <= now
    requires if StaysWhole(w, d, from) then path == d.absolutePath else Reported(w, path, from, now)
    ensures PathOpens(w, path, end, now)
  {
    hide Local, PiecesThere, PathOpens;
    if StaysWhole(w, d, from) {
      OpensLater(w, path, d.size - 1, from, end, now);
    } else {
      var t :| from <= t < now && w.path(t) == Some(path);
      assert ReportsOpen(w, end, t);
      OpensLater(w, path, end, t, end, now);
    }
  }

  lemma AllBuffersPass(w: World, path: string, offset: nat, count: nat, end: nat, from: nat)
    requires Calm(w, from) && PathOpens(w, path, end, from) && offset + count <= end + 1
    ensures w.opens(path, from)
    ensures forall i: nat :: i * BUFFER < count ==> BufferPasses(w, path, offset, count, from, i)
  {
    assert Reads(w, path, end, from, from);
    forall i: nat | i * BUFFER < count ensures BufferPasses(w, path, offset, count, from, i) {
      assert CalmAt(w, from + i) && Reads(w, path, end, from, from + i);
    }
  }

  // ---- The stream ----

  function Smaller(a: int, b: int): int { if a < b then a else b }

  /** How often the first chunk has to double to reach the read-ahead. */
  function Doublings(first: int, readAhead: int): (n: nat)
    requires first >= 1
    decreases readAhead - first
  {
    if first >= readAhead then 0 else 1 + Doublings(2 * first, readAhead)
  }

  function Power2(k: nat): (p: nat)
    ensures p >= 1
  {
    if k == 0 then 1 else 2 * Power2(k - 1)
  }

  lemma Power2Zero()
    ensures Power2(0) == 1
  {
  }

  lemma DoubleMovesOver(first: int, k: nat)
    ensures 2 * first * Power2(k) == first * Power2(k + 1)
  {
    var p := Power2(k);
    hide Power2;
    assert Power2(k + 1) == 2 * p by { Power2Next(k); }
  }

  lemma Power2Next(k: nat)
    ensures Power2(k + 1) == 2 * Power2(k)
  {
  }

  /** That is the logarithm of their quotient, rounded up. */
  lemma {:induction false} DoublingsIsLog(first: int, readAhead: int)
    requires first >= 1
    ensures var k := Doublings(first, readAhead);
            && first * Power2(k) >= readAhead
            && (k > 0 ==> first * Power2(k - 1) < readAhead)
    decreases readAhead - first
  {
    if first < readAhead {
      DoublingsIsLog(2 * first, readAhead);
      var k := Doublings(2 * first, readAhead);
      DoubleMovesOver(first, k);
      if k > 0 {
        DoubleMovesOver(first, k - 1);
      }
      hide Power2;
      assert k == 0 ==> Power2(0) == 1 by { Power2Zero(); }
    }
  }

  function CeilDiv(n: int, size: int): int
    requires size >= 1
  {
    (n + size - 1) / size
  }

  lemma CeilDivStep(n: int, size: int)
    requires size >= 1 && n >= 0
    ensures CeilDiv(n + size, size) == CeilDiv(n, size) + 1
    ensures n > 0 ==> CeilDiv(n, size) >= 1
  {
    var q := CeilDiv(n, size);
    assert q * size <= n + size - 1 < q * size + size;
    assert (q + 1) * size == q * size + size;
    QuotientOf(n + size + size - 1, size, q + 1);
    if n > 0 {
      DivisionIsMonotone(size, n + size - 1, size);
    }
  }

  /** The most chunks a stream may still need. */
  function ChunkBound(chunkSize: int, readAhead: int, remaining: int): int
    requires chunkSize >= 1 && readAhead >= 1
  {
    Doublings(chunkSize, readAhead) + CeilDiv(remaining, readAhead)
  }

  lemma ChunkLowersBound(chunkSize: int, readAhead: int, remaining: int)
    requires chunkSize >= 1 && readAhead >= 1 && remaining >= 1
    ensures var chunk := Smaller(Smaller(chunkSize, readAhead), remaining);
            && chunk >= 1
            && (remaining > chunk ==>
                  1 + ChunkBound(2 * chunk, readAhead, remaining - chunk) <= ChunkBound(chunkSize, readAhead, remaining))
            && 1 <= ChunkBound(chunkSize, readAhead, remaining)
  {
    var chunk := Smaller(Smaller(chunkSize, readAhead), remaining);
    CeilDivStep(remaining, readAhead);
    if remaining > chunk {
      if chunk == readAhead {
        CeilDivStep(remaining - readAhead, readAhead);
      } else {
        DivisionIsMonotone(remaining - chunk + readAhead - 1, remaining + readAhead - 1, readAhead);
      }
    }
  }

  /** Where the last of the chunks ends. */
  function Stop(chunks: seq<Chunk>, start: nat): nat {
    if chunks == [] then start else chunks[|chunks| - 1].start + chunks[|chunks| - 1].count
  }

  /** The chunks follow one another from `start` on, without gap or overlap. */
  predicate Contiguous(chunks: seq<Chunk>, start: nat) {
    forall i :: 0 <= i < |chunks| ==> chunks[i].start == Stop(chunks[..i], start)
  }

  ghost predicate AllBacked(w: World, d: Download, chunks: seq<Chunk>, readAhead: int) {
    forall i :: 0 <= i < |chunks| ==> Backed(w, d, chunks[i]) && chunks[i].count <= readAhead
  }

  lemma ContiguousSnoc(chunks: seq<Chunk>, start: nat, c: Chunk)
    requires Contiguous(chunks, start) && c.start == Stop(chunks, start)
    ensures Contiguous(chunks + [c], start) && Stop(chunks + [c], start) == c.start + c.count
  {
    var all := chunks + [c];
    forall i | 0 <= i < |all| ensures all[i].start == Stop(all[..i], start) {
      assert i < |chunks| ==> all[..i] == chunks[..i];
      assert i == |chunks| ==> all[..i] == chunks;
    }
  }

  lemma BackedPart(w: World, d: Download, c: Chunk, count: nat)
    requires Backed(w, d, c) && 0 < count <= c.count
    ensures Backed(w, d, c.(count := count))
  {
  }

  lemma ExtendTrue(data: string, start: nat, out: string, more: string)
    requires start + |out| + |more| <= |data|
    requires out == data[start..start + |out|] && more == data[start + |out|..start + |out| + |more|]
    ensures out + more == data[start..start + |out + more|]
  {
  }

  /** With an honest engine, what was written is the file's bytes from `start`. */
  ghost predicate OnlyFileBytes(w: World, d: Download, data: string, start: nat, out: string) {
    Honest(w, d, data) ==> start + |out| <= |data| && out == data[start..start + |out|]
  }

  /** Copies one granted chunk behind what was written before. */
  method CopyChunk(w: World, d: Download, c: Chunk, path: string, from: nat, start: nat, before: string, ghost data: string)
    returns (out: string, ok: bool, now: nat)
    requires Backed(w, d, c) && (c.ready.Some? ==> c.ready.value <= from)
    requires c.start == start + |before| && OnlyFileBytes(w, d, data, start, before)
    ensures from <= now && OnlyFileBytes(w, d, data, start, out)
    ensures before <= out && |out| <= |before| + c.count
    ensures ok ==> |out| == |before| + c.count
    ensures forall end: nat :: Calm(w, from) && PathOpens(w, path, end, from) && c.start + c.count <= end + 1 ==> ok
  {
    hide Complete, Calm, PathOpens, BufferPasses;
    ghost var readAt;
    var more: string;
    more, ok, now, readAt := CopyRange(w, path, c.start, c.count, from);
    forall end: nat | Calm(w, from) && PathOpens(w, path, end, from) && c.start + c.count <= end + 1 ensures ok {
      AllBuffersPass(w, path, c.start, c.count, end, from);
    }
    out := before + more;
    if Honest(w, d, data) {
      BackedCopyIsTrue(w, d, data, c, path, from, more, readAt);
      hide Honest;
      ExtendTrue(data, start, before, more);
    }
  }

  /** The chunk loop. Whatever happens, what was written is the file's own bytes
      from `start` on, in order; a stream that completes wrote all of them; and
      the chunks are few. */
  method Stream(w: World, d: Download, start: nat, end: nat, first: int, readAhead: int,
                preflight: string, ready: Option<nat>, from: nat, ghost data: string)
    returns (out: string, done: bool, chunks: seq<Chunk>)
    requires start <= end < d.size && readAhead >= 1
    requires 1 <= first <= end + 1 - start
    requires Backed(w, d, Chunk(start, first, ready)) && (ready.Some? ==> ready.value <= from)
    ensures OnlyFileBytes(w, d, data, start, out)
    ensures |out| <= Stop(chunks, start) - start <= end + 1 - start
    ensures done ==> |out| == end + 1 - start == Stop(chunks, start) - start
    ensures Contiguous(chunks, start) && AllBacked(w, d, chunks, readAhead)
    ensures |chunks| <= ChunkBound(first, readAhead, end + 1 - start)
    ensures Unhindered(w, d, start, end, from) && PathOpens(w, preflight, end, from) ==> done
  {
    hide Complete, Honest, ChunkBound, Backed, OnlyFileBytes, Contiguous, Stop, AllBacked,
      Unhindered, PathOpens, Granted, Reported, Local, StaysWhole, Opens, Calm;
    ghost var free := Unhindered(w, d, start, end, from) && PathOpens(w, preflight, end, from);
    out, chunks := "", [];
    var position, chunkSize, path, granted, now := start, first, preflight, ready, from;
    StreamStarts(w, d, data, start, readAhead);
    while position <= end
      invariant start <= position <= end + 1 && position == start + |out| == Stop(chunks, start)
      invariant chunkSize >= 1
      invariant position == start ==> chunkSize == first && path == preflight && granted == ready && now == from
      invariant from <= now
      invariant OnlyFileBytes(w, d, data, start, out)
      invariant Contiguous(chunks, start) && AllBacked(w, d, chunks, readAhead)
      invariant if position <= end
                then |chunks| + ChunkBound(chunkSize, readAhead, end + 1 - position) <= ChunkBound(first, readAhead, end + 1 - start)
                else |chunks| <= ChunkBound(first, readAhead, end + 1 - start)
      decreases end + 1 - position
    {
      var chunk := chunkSize;
      if chunk > readAhead { chunk := readAhead; }
      if chunk > end - position + 1 { chunk := end - position + 1; }
      ChunkLowersBound(chunkSize, readAhead, end + 1 - position);
      if position != start {
        var again: Option<string>;
        ghost var asked := now;
        if free {
          UnhinderedLater(w, d, start, end, from, position, now);
          UnhinderedIsGranted(w, d, position, chunk, end, now);
        }
        again, granted, now := ReadableRangePath(w, d, position, chunk, now);
        if free {
          GrantedIsUsable(w, d, position, end, asked, again.value, now);
        }
        if again.None? { return out, false, chunks; }
        path := again.value;
      } else {
        BackedPart(w, d, Chunk(start, first, ready), chunk);
      }
      var c := Chunk(position, chunk, granted);
      ContiguousSnoc(chunks, start, c);
      AllBackedSnoc(w, d, chunks, readAhead, c);
      chunks := chunks + [c];
      if free {
        UnhinderedLater(w, d, start, end, from, position, now);
        UnhinderedIsCalm(w, d, position, end, now);
      }
      var ok;
      out, ok, now := CopyChunk(w, d, c, path, now, start, out, data);
      if !ok { return out, false, chunks; }
      position := position + chunk;
      chunkSize := chunk * 2;
    }
    return out, true, chunks;
  }

  lemma UnhinderedIsCalm(w: World, d: Download, start: nat, end: nat, from: nat)
    requires Unhindered(w, d, start, end, from)
    ensures Calm(w, from)
  {
    hide Calm;
  }

  lemma StreamStarts(w: World, d: Download, data: string, start: nat, readAhead: int)
    requires start < d.size
    ensures OnlyFileBytes(w, d, data, start, "") && Contiguous([], start) && Stop([], start) == start && AllBacked(w, d, [], readAhead)
  {
    hide Complete;
  }

  lemma AllBackedSnoc(w: World, d: Download, chunks: seq<Chunk>, readAhead: int, c: Chunk)
    requires AllBacked(w, d, chunks, readAhead) && Backed(w, d, c) && c.count <= readAhead
    ensures AllBacked(w, d, chunks + [c], readAhead)
  {
    hide Backed;
  }

  lemma SmallerIs(a: int, b: int)
    ensures Smaller(a, b) == if a < b then a else b
  {
  }

  lemma WholeBody(w: World, d: Download, data: string, start: nat, out: string)
    requires Honest(w, d, data) && OnlyFileBytes(w, d, data, start, out)
    ensures start + |out| <= |data| == d.size && out == data[start..start + |out|]
  {
    hide Complete;
  }

  // ---- The request ----

  datatype Settings = Settings(streamStart: int, readAhead: int)

  datatype Response = Response(status: int, announced: int, body: string, done: bool, chunks: seq<Chunk>)

  /** The body of an answer: the wait for a small first slice, then the chunks. It is
      not begun exactly when that slice is not granted. */
  method ServeBody(w: World, d: Download, start: nat, end: nat, settings: Settings, from: nat, ghost data: string)
    returns (begun: bool, out: string, done: bool, chunks: seq<Chunk>)
    requires start <= end < d.size && settings.readAhead >= 1
    ensures begun <==> Granted(w, d, start, Smaller(settings.streamStart, end + 1 - start), from)
    ensures !begun ==> out == "" && !done && chunks == []
    ensures OnlyFileBytes(w, d, data, start, out)
    ensures Contiguous(chunks, start) && AllBacked(w, d, chunks, settings.readAhead)
    ensures |out| <= end + 1 - start && (done ==> |out| == end + 1 - start)
    ensures settings.streamStart >= 1 && Unhindered(w, d, start, end, from) ==> begun && done
    ensures done && Honest(w, d, data) ==> out == data[start..end + 1]
  {
    hide *;
    SmallerIs(settings.streamStart, end + 1 - start);
    StreamStarts(w, d, data, start, settings.readAhead);
    var first := settings.streamStart;
    if first > end - start + 1 { first := end - start + 1; }
    ghost var free := settings.streamStart >= 1 && Unhindered(w, d, start, end, from);
    if free {
      UnhinderedIsGranted(w, d, start, first, end, from);
    }
    var path, ready, now := ReadableRangePath(w, d, start, first, from);
    if path.None? { return false, "", false, []; }
    if free {
      GrantedIsUsable(w, d, start, end, from, path.value, now);
      UnhinderedLater(w, d, start, end, from, start, now);
    }
    BackedBounds(w, d, Chunk(start, first, ready));
    out, done, chunks := Stream(w, d, start, end, first, settings.readAhead, path.value, ready, now, data);
    begun := true;
    if Honest(w, d, data) {
      WholeBody(w, d, data, start, out);
    }
  }

  lemma BackedBounds(w: World, d: Download, c: Chunk)
    requires Backed(w, d, c)
    ensures c.count > 0 && c.start + c.count <= d.size
  {
    hide Complete;
  }

  /** A whole request: the range, the path check, the wait for a small first
      slice, the headers, the body. */
  method Serve(w: World, d: Download, header: string, head: bool, settings: Settings, validPath: bool, from: nat, ghost data: string)
    returns (r: Response)
    requires settings.readAhead >= 1
    ensures var a := ParseRange(header, d.size);
            && (r.status == 416 <==> a.Refused?)
            && (r.status == 409 <==> a.Served? && !validPath)
            && (r.status == 206 ==> a.Served? && a.partial)
            && (r.status == 200 ==> a.Served? && !a.partial)
            && (head ==> r.body == "" && r.status != 503)
            && (r.status !in {200, 206} ==> r.announced == 0 && r.body == "" && !r.done && r.chunks == [])
            && (r.status in {200, 206} ==>
                  && r.announced == a.end + 1 - a.start
                  && OnlyFileBytes(w, d, data, a.start, r.body)
                  && Contiguous(r.chunks, a.start) && AllBacked(w, d, r.chunks, settings.readAhead)
                  && |r.body| <= r.announced
                  && (r.done && !head ==> |r.body| == r.announced))
            && r.status in {200, 206, 409, 416, 503}
            && (r.status == 503 <==> a.Served? && validPath && !head
                                     && !Granted(w, d, a.start, Smaller(settings.streamStart, a.end + 1 - a.start), from))
            && (a.Served? && validPath && settings.streamStart >= 1 && Unhindered(w, d, a.start, a.end, from) ==>
                  && r.status == (if a.partial then 206 else 200) && r.done
                  && (!head && Honest(w, d, data) ==> r.body == data[a.start..a.end + 1]))
  {
    var a := ParseRange(header, d.size);
    if a.Refused? { return Response(416, 0, "", false, []); }
    hide *;
    if !validPath { return Response(409, 0, "", false, []); }
    var status := if a.partial then 206 else 200;
    StreamStarts(w, d, data, a.start, settings.readAhead);
    if head { return Response(status, a.end - a.start + 1, "", true, []); }
    var begun, out, done, chunks := ServeBody(w, d, a.start, a.end, settings, from, data);
    if !begun { return Response(503, 0, "", false, []); }
    return Response(status, a.end - a.start + 1, out, done, chunks);
  }
}

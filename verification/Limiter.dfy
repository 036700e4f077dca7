/** The tracker client's request limiter: at most 140 admissions in any hour and
    at least 750 ms between two. Times are integer nanoseconds. */
module Limiter {
  import opened Wrappers

  const HOUR: int := 3_600_000_000_000
  const SPACING: int := 750_000_000
  const CEILING: int := 140

  /** One call: the clock read on entry, read again for the spacing, and read on
      admission; and whether the caller gives up while waiting for the spacing. */
  datatype Call = Call(entry: int, spacing: int, admission: int, givesUp: bool)

  datatype Answer = Admitted(at: int) | Limited(retryAt: int) | GaveUp(at: int)

  datatype Window = Window(last: Option<int>, requests: seq<int>)

  const FRESH: Window := Window(None, [])

  /** The stamps younger than the cutoff, in order. */
  function Younger(stamps: seq<int>, cutoff: int): seq<int> {
    if stamps == [] then []
    else
      var before := Younger(stamps[..|stamps| - 1], cutoff);
      var at := stamps[|stamps| - 1];
      if at > cutoff then before + [at] else before
  }

  /** How long the call still has to wait for the spacing. */
  function Wait(w: Window, c: Call): int {
    if w.last.None? then 0 else SPACING - (c.spacing - w.last.value)
  }

  function AnswerTo(w: Window, c: Call): Answer {
    var kept := Younger(w.requests, c.entry - HOUR);
    if |kept| >= CEILING then Limited(kept[0] + HOUR)
    else if Wait(w, c) > 0 && c.givesUp then GaveUp(c.spacing)
    else Admitted(c.admission)
  }

  function After(w: Window, c: Call): Window {
    var kept := Younger(w.requests, c.entry - HOUR);
    match AnswerTo(w, c)
    case Admitted(at) => Window(Some(at), kept + [at])
    case _ => w.(requests := kept)
  }

  /** The last reading of the clock that the call took. */
  function Ends(w: Window, c: Call): int {
    match AnswerTo(w, c)
    case Admitted(at) => at
    case Limited(_) => c.entry
    case GaveUp(at) => at
  }

  /** The clock never runs backwards, neither within a call nor since `now`, and
      a wait that is sat out lasts at least as long as asked. */
  predicate Timely(w: Window, now: int, c: Call) {
    var answer := AnswerTo(w, c);
    && now <= c.entry
    && (!answer.Limited? ==> c.entry <= c.spacing)
    && (answer.Admitted? ==> c.spacing <= c.admission && c.spacing + Wait(w, c) <= c.admission)
  }

  // ---- Every history of calls ----

  datatype History = History(window: Window, now: int, admitted: seq<int>)

  function Next(h: History, c: Call): History {
    var answer := AnswerTo(h.window, c);
    History(After(h.window, c), Ends(h.window, c), if answer.Admitted? then h.admitted + [answer.at] else h.admitted)
  }

  /** The client after a list of calls, the clock having started at `start`. */
  function Replay(start: int, calls: seq<Call>): History {
    if calls == [] then History(FRESH, start, [])
    else Next(Replay(start, calls[..|calls| - 1]), calls[|calls| - 1])
  }

  predicate TimelyCalls(start: int, calls: seq<Call>) {
    if calls == [] then true
    else
      var h := Replay(start, calls[..|calls| - 1]);
      TimelyCalls(start, calls[..|calls| - 1]) && Timely(h.window, h.now, calls[|calls| - 1])
  }

  predicate Sorted(s: seq<int>) { forall i, j :: 0 <= i < j < |s| ==> s[i] <= s[j] }

  predicate Spaced(s: seq<int>) { forall i, j :: 0 <= i < j < |s| ==> s[i] + SPACING <= s[j] }

  /** No hour holds more than the ceiling: of any 141 admissions the first and
      the last are an hour apart or more. */
  predicate Hourly(s: seq<int>) { forall i, j :: 0 <= i && i + CEILING <= j < |s| ==> s[i] + HOUR <= s[j] }

  /** The stored stamps are a suffix of all admissions, and what is no longer
      stored is an hour old. */
  predicate Stored(all: seq<int>, kept: seq<int>, now: int) {
    && |kept| <= |all|
    && kept == all[|all| - |kept|..]
    && forall i :: 0 <= i < |all| - |kept| ==> all[i] + HOUR <= now
  }

  /** What holds after every history. */
  predicate Sound(h: History) {
    var all, kept := h.admitted, h.window.requests;
    && |kept| <= CEILING
    && Stored(all, kept, h.now)
    && h.window.last == (if all == [] then None else Some(all[|all| - 1]))
    && (all != [] ==> all[|all| - 1] <= h.now)
    && Spaced(all)
    && Hourly(all)
  }

  lemma YoungerSnoc(front: seq<int>, at: int, cutoff: int)
    ensures Younger(front + [at], cutoff) == if at > cutoff then Younger(front, cutoff) + [at] else Younger(front, cutoff)
    ensures Younger([], cutoff) == []
  {
    assert (front + [at])[..|front|] == front;
  }

  lemma SuffixGrows(front: seq<int>, at: int, k: nat)
    requires k <= |front|
    ensures (front + [at])[k..] == front[k..] + [at]
    ensures (front + [at])[|front| + 1..] == []
  {
  }

  /** On sorted stamps, keeping the younger ones cuts off a front part. */
  lemma {:induction false} YoungerIsSuffix(stamps: seq<int>, cutoff: int) returns (k: nat)
    requires Sorted(stamps)
    ensures k <= |stamps| && Younger(stamps, cutoff) == stamps[k..]
    ensures forall i :: 0 <= i < k ==> stamps[i] <= cutoff
    ensures forall i :: k <= i < |stamps| ==> stamps[i] > cutoff
  {
    if stamps == [] {
      k := 0;
    } else {
      var n := |stamps| - 1;
      var front, at := stamps[..n], stamps[n];
      assert stamps == front + [at] && Sorted(front);
      k := YoungerIsSuffix(front, cutoff);
      hide Younger;
      YoungerSnoc(front, at, cutoff);
      SuffixGrows(front, at, k);
      if at <= cutoff {
        assert forall i :: 0 <= i < n ==> front[i] == stamps[i] <= at;
        assert k == n;
        assert front[n..] == [];
        k := n + 1;
      }
    }
  }

  lemma StoredShrinks(all: seq<int>, stamps: seq<int>, now: int, entry: int)
    requires Spaced(all) && Stored(all, stamps, now) && now <= entry
    ensures Stored(all, Younger(stamps, entry - HOUR), entry)
    ensures |Younger(stamps, entry - HOUR)| <= |stamps|
  {
    var k := YoungerIsSuffix(stamps, entry - HOUR);
    var gone := |all| - |stamps|;
    assert stamps[k..] == all[gone + k..];
    forall i | 0 <= i < gone + k ensures all[i] + HOUR <= entry {
      if i >= gone {
        assert all[i] == stamps[i - gone];
      }
    }
  }

  lemma StoredGrows(all: seq<int>, kept: seq<int>, now: int, at: int)
    requires Stored(all, kept, now) && now <= at
    ensures Stored(all + [at], kept + [at], at)
  {
    var gone := |all| - |kept|;
    assert (all + [at])[gone..] == all[gone..] + [at];
  }

  lemma SpacedGrows(all: seq<int>, at: int)
    requires Spaced(all) && (all != [] ==> all[|all| - 1] + SPACING <= at)
    ensures Spaced(all + [at])
  {
  }

  /** With fewer than 140 stamps stored, the admission 140 places back is no
      longer among them, so it is an hour old. */
  lemma HourlyGrows(all: seq<int>, kept: seq<int>, now: int, at: int)
    requires Hourly(all) && Stored(all, kept, now) && |kept| < CEILING && now <= at
    ensures Hourly(all + [at])
  {
    forall i, j | 0 <= i && i + CEILING <= j < |all| + 1 ensures (all + [at])[i] + HOUR <= (all + [at])[j] {
      if j == |all| {
        assert i < |all| - |kept|;
      }
    }
  }

  lemma AdmissionFacts(h: History, c: Call)
    requires Timely(h.window, h.now, c) && AnswerTo(h.window, c).Admitted?
    ensures var kept := Younger(h.window.requests, c.entry - HOUR);
            && |kept| < CEILING && h.now <= c.entry <= c.admission
            && (h.window.last.Some? ==> h.window.last.value + SPACING <= c.admission)
            && Next(h, c) == History(Window(Some(c.admission), kept + [c.admission]), c.admission, h.admitted + [c.admission])
  {
    hide Younger;
  }

  lemma GrownIsSound(all: seq<int>, kept: seq<int>, at: int)
    requires |kept| < CEILING && Stored(all + [at], kept + [at], at) && Spaced(all + [at]) && Hourly(all + [at])
    ensures Sound(History(Window(Some(at), kept + [at]), at, all + [at]))
  {
    hide Stored, Spaced, Hourly;
    assert (all + [at])[|all + [at]| - 1] == at;
  }

  lemma SoundParts(h: History)
    requires Sound(h)
    ensures |h.window.requests| <= CEILING && Stored(h.admitted, h.window.requests, h.now)
    ensures h.window.last == if h.admitted == [] then None else Some(h.admitted[|h.admitted| - 1])
    ensures h.admitted != [] ==> h.admitted[|h.admitted| - 1] <= h.now
    ensures Spaced(h.admitted) && Hourly(h.admitted)
  {
  }

  lemma AdmissionKeepsSound(h: History, c: Call)
    requires Sound(h) && Timely(h.window, h.now, c) && AnswerTo(h.window, c).Admitted?
    ensures Sound(Next(h, c))
  {
    hide *;
    var all, kept := h.admitted, Younger(h.window.requests, c.entry - HOUR);
    SoundParts(h);
    AdmissionFacts(h, c);
    StoredShrinks(all, h.window.requests, h.now, c.entry);
    StoredGrows(all, kept, c.entry, c.admission);
    SpacedGrows(all, c.admission);
    HourlyGrows(all, kept, c.entry, c.admission);
    GrownIsSound(all, kept, c.admission);
  }

  lemma OtherwiseFacts(h: History, c: Call)
    requires Timely(h.window, h.now, c) && !AnswerTo(h.window, c).Admitted?
    ensures h.now <= c.entry <= Ends(h.window, c)
    ensures Next(h, c)
         == History(Window(h.window.last, Younger(h.window.requests, c.entry - HOUR)), Ends(h.window, c), h.admitted)
  {
    hide Younger;
  }

  lemma ShrunkIsSound(h: History, kept: seq<int>, now: int)
    requires Sound(h) && h.now <= now && |kept| <= CEILING && Stored(h.admitted, kept, now)
    ensures Sound(History(Window(h.window.last, kept), now, h.admitted))
  {
    hide Stored, Spaced, Hourly;
  }

  lemma OtherwiseSound(h: History, c: Call)
    requires Sound(h) && Timely(h.window, h.now, c) && !AnswerTo(h.window, c).Admitted?
    ensures Sound(Next(h, c))
  {
    hide *;
    var all, kept := h.admitted, Younger(h.window.requests, c.entry - HOUR);
    SoundParts(h);
    OtherwiseFacts(h, c);
    StoredShrinks(all, h.window.requests, h.now, c.entry);
    StoredStays(all, kept, c.entry, Ends(h.window, c));
    ShrunkIsSound(h, kept, Ends(h.window, c));
  }

  lemma CallKeepsSound(h: History, c: Call)
    requires Sound(h) && Timely(h.window, h.now, c)
    ensures Sound(Next(h, c))
  {
    hide *;
    if AnswerTo(h.window, c).Admitted? {
      AdmissionKeepsSound(h, c);
    } else {
      OtherwiseSound(h, c);
    }
  }

  lemma StoredStays(all: seq<int>, kept: seq<int>, now: int, later: int)
    requires Stored(all, kept, now) && now <= later
    ensures Stored(all, kept, later)
  {
  }

  /** Over every history of calls on a clock that does not run backwards: the
      stored stamps are a suffix, at most 140 long, of all admissions;
      admissions are 750 ms apart, and the admission 140 places later is an hour
      later. */
  lemma {:induction false} EveryHistoryIsSound(start: int, calls: seq<Call>)
    requires TimelyCalls(start, calls)
    ensures Sound(Replay(start, calls))
  {
    hide Sound;
    if calls == [] {
      FreshIsSound(start);
    } else {
      EveryHistoryIsSound(start, calls[..|calls| - 1]);
      CallKeepsSound(Replay(start, calls[..|calls| - 1]), calls[|calls| - 1]);
    }
  }

  lemma FreshIsSound(start: int)
    ensures Sound(History(FRESH, start, []))
  {
  }

  /** A refusal names the first instant at which a call would get past the
      ceiling: entered from then on it would, entered before it would not. */
  lemma RetryAtIsExact(h: History, c: Call, later: Call)
    requires Sound(h) && Timely(h.window, h.now, c) && AnswerTo(h.window, c).Limited?
    requires later.entry >= c.entry
    ensures AnswerTo(After(h.window, c), later).Limited? <==> later.entry < AnswerTo(h.window, c).retryAt
    ensures AnswerTo(h.window, c).retryAt > c.entry
  {
    hide *;
    var kept := Younger(h.window.requests, c.entry - HOUR);
    RefusalFacts(h, c);
    AnswerToIs(After(h.window, c), later);
    FullWindowIsSorted(h, c.entry);
    YoungerTwice(h.window.requests, c.entry - HOUR);
    FirstStampDecides(kept, later.entry - HOUR);
  }

  lemma RefusalFacts(h: History, c: Call)
    requires Timely(h.window, h.now, c) && AnswerTo(h.window, c).Limited?
    ensures var kept := Younger(h.window.requests, c.entry - HOUR);
            && h.now <= c.entry && |kept| >= CEILING
            && AnswerTo(h.window, c) == Limited(kept[0] + HOUR) && After(h.window, c).requests == kept
  {
    hide Younger;
  }

  lemma AnswerToIs(w: Window, c: Call)
    ensures AnswerTo(w, c).Limited? <==> |Younger(w.requests, c.entry - HOUR)| >= CEILING
  {
    hide Younger;
  }

  lemma FirstStampDecides(kept: seq<int>, cutoff: int)
    requires Sorted(kept) && |kept| == CEILING
    ensures |Younger(kept, cutoff)| >= CEILING <==> cutoff < kept[0]
  {
    var k := YoungerIsSuffix(kept, cutoff);
  }

  lemma FullWindowIsSorted(h: History, entry: int)
    requires Sound(h) && h.now <= entry
    ensures Sorted(Younger(h.window.requests, entry - HOUR))
    ensures |Younger(h.window.requests, entry - HOUR)| <= CEILING
  {
    StoredShrinks(h.admitted, h.window.requests, h.now, entry);
  }

  lemma {:induction false} YoungerTwice(stamps: seq<int>, cutoff: int)
    ensures Younger(Younger(stamps, cutoff), cutoff) == Younger(stamps, cutoff)
    ensures forall i :: 0 <= i < |Younger(stamps, cutoff)| ==> Younger(stamps, cutoff)[i] > cutoff
  {
    if stamps != [] {
      var front := stamps[..|stamps| - 1];
      YoungerTwice(front, cutoff);
      var kept := Younger(front, cutoff);
      assert (kept + [stamps[|stamps| - 1]])[..|kept|] == kept;
    }
  }

  // ---- What a call is answered ----

  /** 140 admissions lie after the instant. */
  predicate FullSince(admitted: seq<int>, instant: int) {
    |admitted| >= 140 && admitted[|admitted| - 140] > instant
  }

  lemma SuffixCounts(all: seq<int>, from: nat, instant: int)
    requires from <= |all| && Sorted(all) && |all| - from <= CEILING
    requires (forall i :: 0 <= i < from ==> all[i] <= instant) && (forall i :: from <= i < |all| ==> all[i] > instant)
    ensures |all[from..]| >= CEILING <==> FullSince(all, instant)
    ensures FullSince(all, instant) ==> all[from..][0] == all[|all| - 140]
  {
    if |all| >= 140 {
      var i := |all| - 140;
      assert from <= i ==> from == i;
    }
  }

  lemma SpacedIsSorted(all: seq<int>)
    requires Spaced(all)
    ensures Sorted(all)
  {
  }

  lemma StoredIs(all: seq<int>, stamps: seq<int>, now: int)
    requires Stored(all, stamps, now)
    ensures |stamps| <= |all| && stamps == all[|all| - |stamps|..]
    ensures forall i :: 0 <= i < |all| - |stamps| ==> all[i] + HOUR <= now
  {
  }

  lemma SortedSuffix(all: seq<int>, from: nat)
    requires Sorted(all) && from <= |all|
    ensures Sorted(all[from..])
  {
  }

  lemma StoredCountsRecent(all: seq<int>, stamps: seq<int>, now: int, entry: int)
    requires Spaced(all) && Stored(all, stamps, now) && now <= entry && |stamps| <= CEILING
    ensures var kept := Younger(stamps, entry - HOUR);
            && (|kept| >= CEILING <==> FullSince(all, entry - HOUR))
            && (FullSince(all, entry - HOUR) ==> |kept| > 0 && kept[0] == all[|all| - 140])
  {
    hide Younger, Sorted, Spaced, Stored, FullSince;
    SpacedIsSorted(all);
    StoredIs(all, stamps, now);
    var gone := |all| - |stamps|;
    SortedSuffix(all, gone);
    var k := YoungerIsSuffix(stamps, entry - HOUR);
    forall i | gone <= i < |all| ensures all[i] == stamps[i - gone] {
    }
    forall i | 0 <= i < gone + k ensures all[i] <= entry - HOUR {
    }
    assert stamps[k..] == all[gone + k..];
    SuffixCounts(all, gone + k, entry - HOUR);
  }

  lemma AnswerParts(w: Window, c: Call)
    ensures var kept := Younger(w.requests, c.entry - HOUR);
            AnswerTo(w, c) == if |kept| >= CEILING then Limited(kept[0] + HOUR)
                              else if w.last.Some? && c.spacing - w.last.value < 750_000_000 && c.givesUp then GaveUp(c.spacing)
                              else Admitted(c.admission)
  {
    hide Younger;
  }

  /** What a timely call is answered, in terms of the admissions so far: it is
      refused exactly when 140 of them lie within the last hour, until the oldest of
      these is an hour old; else it gives up exactly when its caller does while the
      last admission is less than 750 ms ago; else it is admitted. */
  lemma CallIsAnswered(h: History, c: Call)
    requires Sound(h) && Timely(h.window, h.now, c)
    ensures var answer, all := AnswerTo(h.window, c), h.admitted;
            && (answer.Limited? <==> FullSince(all, c.entry - 3_600_000_000_000))
            && (answer.Limited? ==> answer.retryAt == all[|all| - 140] + 3_600_000_000_000)
            && (answer.GaveUp? <==> !FullSince(all, c.entry - 3_600_000_000_000) && c.givesUp
                                    && all != [] && c.spacing - all[|all| - 1] < 750_000_000)
            && (answer.Admitted? ==> answer.at == c.admission)
            && Next(h, c).admitted == if answer.Admitted? then all + [c.admission] else all
  {
    NextAdmits(h, c);
    TimelyEntry(h, c);
    var hour := HOUR;
    hide *;
    SoundParts(h);
    StoredCountsRecent(h.admitted, h.window.requests, h.now, c.entry);
    AnswerParts(h.window, c);
  }

  lemma TimelyEntry(h: History, c: Call)
    requires Timely(h.window, h.now, c)
    ensures h.now <= c.entry
  {
    hide AnswerTo;
  }

  lemma NextAdmits(h: History, c: Call)
    ensures var answer := AnswerTo(h.window, c);
            Next(h, c).admitted == if answer.Admitted? then h.admitted + [answer.at] else h.admitted
  {
    hide AnswerTo, After;
  }

  /** So after every history of calls. */
  lemma EveryCallIsAnswered(start: int, calls: seq<Call>, c: Call)
    requires TimelyCalls(start, calls + [c])
    ensures var h := Replay(start, calls);
            var answer, all := AnswerTo(h.window, c), h.admitted;
            && (answer.Limited? <==> FullSince(all, c.entry - 3_600_000_000_000))
            && (answer.GaveUp? <==> !answer.Limited? && c.givesUp && all != [] && c.spacing - all[|all| - 1] < 750_000_000)
            && Replay(start, calls + [c]).admitted == if answer.Admitted? then all + [c.admission] else all
  {
    LastCall(start, calls, c);
    hide *;
    EveryHistoryIsSound(start, calls);
    CallIsAnswered(Replay(start, calls), c);
  }

  lemma LastCall(start: int, calls: seq<Call>, c: Call)
    requires TimelyCalls(start, calls + [c])
    ensures var h := Replay(start, calls);
            TimelyCalls(start, calls) && Timely(h.window, h.now, c) && Replay(start, calls + [c]) == Next(h, c)
  {
    assert (calls + [c])[..|calls|] == calls;
    hide Timely, Next;
  }

  // ---- The client ----

  /** The stamps live in one buffer that is compacted in place; the ceiling
      bounds its length. */
  class Client {
    var last: Option<int>
    var stamps: array<int>
    var len: nat

    ghost predicate Valid() reads this {
      len <= stamps.Length == CEILING
    }

    ghost function Contents(): Window
      requires Valid()
      reads this, stamps
    {
      Window(last, stamps[..len])
    }

    constructor ()
      ensures Valid() && fresh(stamps) && Contents() == FRESH
    {
      last, len := None, 0;
      stamps := new int[CEILING];
    }

    /** Moves the younger stamps to the front of the buffer, in order. */
    method DropOlder(cutoff: int)
      requires Valid()
      modifies this`len, stamps
      ensures Valid()
      ensures Contents() == old(Contents()).(requests := Younger(old(Contents()).requests, cutoff))
    {
      ghost var was := stamps[..len];
      var kept := 0;
      for i := 0 to len
        modifies stamps
        invariant 0 <= kept <= i
        invariant stamps[i..len] == was[i..]
        invariant stamps[..kept] == Younger(was[..i], cutoff)
      {
        assert was[..i + 1][..i] == was[..i];
        assert stamps[i] == stamps[i..len][0] == was[i];
        assert stamps[i + 1..len] == stamps[i..len][1..];
        if stamps[i] > cutoff {
          stamps[kept] := stamps[i];
          kept := kept + 1;
        }
      }
      assert was[..len] == was;
      len := kept;
    }

    method Request(c: Call) returns (answer: Answer)
      requires Valid()
      modifies this, stamps
      ensures Valid() && stamps == old(stamps)
      ensures answer == AnswerTo(old(Contents()), c)
      ensures Contents() == After(old(Contents()), c)
    {
      DropOlder(c.entry - HOUR);
      if len >= CEILING { return Limited(stamps[0] + HOUR); }
      if last.Some? && SPACING - (c.spacing - last.value) > 0 && c.givesUp { return GaveUp(c.spacing); }
      last := Some(c.admission);
      stamps[len] := c.admission;
      len := len + 1;
      answer := Admitted(c.admission);
    }
  }
}

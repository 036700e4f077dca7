/** The client's mirror of the portal snapshot and the update status. A recovery
    is two steps: it begins, and later both fetches have settled; events and
    disconnects may come in between. */
module PortalSync {
  import opened Wrappers

  datatype Kind = StateEvent(state: int) | StatusEvent(status: int) | FailureEvent(message: string) | OtherEvent

  datatype Event = Event(id: Option<int>, kind: Kind)

  datatype Sync = Sync(state: Option<int>, status: Option<int>, failure: string, connected: bool, refreshing: bool,
                       lastEventId: Option<int>, staleBefore: Option<int>)

  const NEW: Sync := Sync(None, None, "", true, false, None, None)

  function Greater(a: Option<int>, b: Option<int>): Option<int> {
    if a.None? then b else if b.None? then a else if b.value > a.value then b else a
  }

  /** Whether an event passes the two guards. */
  predicate Passes(s: Sync, e: Event) {
    && !s.refreshing
    && !(e.id.Some? && s.staleBefore.Some? && e.id.value <= s.staleBefore.value)
  }

  function Apply(s: Sync, kind: Kind): Sync {
    match kind
    case StateEvent(v) => s.(state := Some(v))
    case StatusEvent(v) => s.(status := Some(v), failure := "")
    case FailureEvent(m) => s.(failure := m)
    case OtherEvent => s
  }

  function Absorb(s: Sync, e: Event): Sync {
    if Passes(s, e) then Apply(s.(lastEventId := Greater(s.lastEventId, e.id)), e.kind) else s
  }

  function Disconnect(s: Sync): Sync {
    if s.connected then s.(connected := false, staleBefore := Greater(s.staleBefore, s.lastEventId)) else s
  }

  function Begin(s: Sync, staleBefore: Option<int>): Sync {
    s.(refreshing := true, staleBefore := Greater(s.staleBefore, staleBefore))
  }

  /** Each fetch may have failed on its own. */
  function End(s: Sync, state: Option<int>, status: Option<int>): Sync {
    s.(state := if state.Some? then state else s.state,
       status := if status.Some? then status else s.status,
       failure := if status.Some? then "" else s.failure,
       refreshing := false, connected := true)
  }

  class Mirror {
    var state: Option<int>
    var status: Option<int>
    var failure: string
    var connected: bool
    var refreshing: bool
    var lastEventId: Option<int>
    var staleBefore: Option<int>

    function Contents(): Sync reads this { Sync(state, status, failure, connected, refreshing, lastEventId, staleBefore) }

    constructor ()
      ensures Contents() == NEW
    {
      state, status, failure, connected, refreshing, lastEventId, staleBefore := None, None, "", true, false, None, None;
    }

    method AbsorbEvent(e: Event) returns (applied: bool)
      modifies this
      ensures Contents() == Absorb(old(Contents()), e)
      ensures applied <==> Passes(old(Contents()), e) && !e.kind.OtherEvent?
    {
      if refreshing { return false; }
      if e.id.Some? && staleBefore.Some? && e.id.value <= staleBefore.value { return false; }
      if e.id.Some? {
        lastEventId := if lastEventId.None? || e.id.value > lastEventId.value then e.id else lastEventId;
      }
      match e.kind {
        case StateEvent(v) => state := Some(v);
        case StatusEvent(v) => status, failure := Some(v), "";
        case FailureEvent(m) => failure := m;
        case OtherEvent => return false;
      }
      return true;
    }

    method DisconnectStream()
      modifies this
      ensures Contents() == Disconnect(old(Contents()))
    {
      if !connected { return; }
      connected := false;
      if lastEventId.Some? {
        staleBefore := if staleBefore.None? || lastEventId.value > staleBefore.value then lastEventId else staleBefore;
      }
    }

    method RecoverBegin(stale: Option<int>)
      modifies this
      ensures Contents() == Begin(old(Contents()), stale)
    {
      refreshing := true;
      if stale.Some? {
        staleBefore := if staleBefore.None? || stale.value > staleBefore.value then stale else staleBefore;
      }
    }

    method RecoverEnd(fetchedState: Option<int>, fetchedStatus: Option<int>)
      modifies this
      ensures Contents() == End(old(Contents()), fetchedState, fetchedStatus)
    {
      if fetchedState.Some? { state := fetchedState; }
      if fetchedStatus.Some? { status, failure := fetchedStatus, ""; }
      refreshing := false;
      connected := true;
    }
  }

  // ---- Runs ----

  datatype Action = Absorbs(event: Event) | Disconnects | Begins(stale: Option<int>) | Ends(state: Option<int>, status: Option<int>)

  /** What happened, one entry for each action. */
  datatype Entry =
    | Accepted(event: Event) | Refused(event: Event) | Down | StillDown
    | Begun(stale: Option<int>) | Fetched(state: Option<int>, status: Option<int>)

  datatype History = History(sync: Sync, trace: seq<Entry>)

  function Next(s: Sync, a: Action): (Sync, Entry) {
    match a
    case Absorbs(e) => (Absorb(s, e), if Passes(s, e) then Accepted(e) else Refused(e))
    case Disconnects => (Disconnect(s), if s.connected then Down else StillDown)
    case Begins(stale) => (Begin(s, stale), Begun(stale))
    case Ends(state, status) => (End(s, state, status), Fetched(state, status))
  }

  function Run(actions: seq<Action>): History {
    if actions == [] then History(NEW, [])
    else
      var h := Run(actions[..|actions| - 1]);
      var (sync, entry) := Next(h.sync, actions[|actions| - 1]);
      History(sync, h.trace + [entry])
  }

  /** How many recoveries are in flight after a list of actions. */
  function InFlight(actions: seq<Action>): int {
    if actions == [] then 0
    else
      InFlight(actions[..|actions| - 1])
      + match actions[|actions| - 1] { case Begins(_) => 1 case Ends(_, _) => -1 case _ => 0 }
  }

  /** At most one recovery is in flight at any time, and only a recovery in flight
      ends. */
  predicate OneAtATime(actions: seq<Action>) {
    forall n :: 0 <= n <= |actions| ==> 0 <= InFlight(actions[..n]) <= 1
  }

  // ---- What a run shows ----

  /** The highest event number that was accepted. */
  function Highest(trace: seq<Entry>): Option<int> {
    if trace == [] then None
    else
      var before, last := Highest(trace[..|trace| - 1]), trace[|trace| - 1];
      if last.Accepted? then Greater(before, last.event.id) else before
  }

  /** The highest one at the last disconnect. */
  function HighestAtDown(trace: seq<Entry>): Option<int> {
    if trace == [] then None
    else if trace[|trace| - 1].Down? then Highest(trace[..|trace| - 1])
    else HighestAtDown(trace[..|trace| - 1])
  }

  /** The snapshot written last, by an accepted event or a successful fetch. */
  function LatestState(trace: seq<Entry>): Option<int> {
    if trace == [] then None
    else
      match trace[|trace| - 1]
      case Accepted(e) => if e.kind.StateEvent? then Some(e.kind.state) else LatestState(trace[..|trace| - 1])
      case Fetched(state, _) => if state.Some? then state else LatestState(trace[..|trace| - 1])
      case _ => LatestState(trace[..|trace| - 1])
  }

  function LatestStatus(trace: seq<Entry>): Option<int> {
    if trace == [] then None
    else
      match trace[|trace| - 1]
      case Accepted(e) => if e.kind.StatusEvent? then Some(e.kind.status) else LatestStatus(trace[..|trace| - 1])
      case Fetched(_, status) => if status.Some? then status else LatestStatus(trace[..|trace| - 1])
      case _ => LatestStatus(trace[..|trace| - 1])
  }

  /** The failure reported since the last good status, if any. */
  function LatestFailure(trace: seq<Entry>): string {
    if trace == [] then ""
    else
      match trace[|trace| - 1]
      case Accepted(e) =>
        if e.kind.FailureEvent? then e.kind.message
        else if e.kind.StatusEvent? then ""
        else LatestFailure(trace[..|trace| - 1])
      case Fetched(_, status) => if status.Some? then "" else LatestFailure(trace[..|trace| - 1])
      case _ => LatestFailure(trace[..|trace| - 1])
  }

  /** Every number up to here is stale: the highest one accepted before a
      disconnect, or what a recovery was told. */
  function Barrier(trace: seq<Entry>): Option<int> {
    if trace == [] then None
    else
      var front := trace[..|trace| - 1];
      match trace[|trace| - 1]
      case Down => Greater(Barrier(front), Highest(front))
      case Begun(stale) => Greater(Barrier(front), stale)
      case _ => Barrier(front)
  }

  predicate Refreshing(trace: seq<Entry>) {
    trace != []
    && (trace[|trace| - 1].Begun? || (!trace[|trace| - 1].Fetched? && Refreshing(trace[..|trace| - 1])))
  }

  predicate Online(trace: seq<Entry>) {
    trace == [] || trace[|trace| - 1].Fetched? || (!trace[|trace| - 1].Down? && Online(trace[..|trace| - 1]))
  }

  predicate Above(id: Option<int>, bound: Option<int>) {
    id.Some? && bound.Some? ==> id.value > bound.value
  }

  predicate AtMost(a: Option<int>, b: Option<int>) {
    a.Some? ==> b.Some? && a.value <= b.value
  }

  /** No accepted event has a number at or below the highest one accepted before
      the last disconnect. */
  predicate NothingReplayed(trace: seq<Entry>) {
    forall n :: 0 <= n < |trace| && trace[n].Accepted? ==> Above(trace[n].event.id, HighestAtDown(trace[..n]))
  }

  /** An event is refused only during a refetch, or as a stale one. */
  predicate RefusedForCause(trace: seq<Entry>) {
    forall n :: 0 <= n < |trace| && trace[n].Refused? ==>
      Refreshing(trace[..n]) || (trace[n].event.id.Some? && AtMost(trace[n].event.id, Barrier(trace[..n])))
  }

  predicate Faithful(h: History) {
    && h.sync.state == LatestState(h.trace)
    && h.sync.status == LatestStatus(h.trace)
    && h.sync.failure == LatestFailure(h.trace)
    && h.sync.lastEventId == Highest(h.trace)
    && h.sync.staleBefore == Barrier(h.trace)
    && h.sync.refreshing == Refreshing(h.trace)
    && h.sync.connected == Online(h.trace)
    && AtMost(HighestAtDown(h.trace), h.sync.staleBefore)
    && NothingReplayed(h.trace)
    && RefusedForCause(h.trace)
  }

  lemma NextKeepsSnapshots(h: History, a: Action)
    requires h.sync.state == LatestState(h.trace) && h.sync.status == LatestStatus(h.trace) && h.sync.failure == LatestFailure(h.trace)
    ensures var (sync, entry) := Next(h.sync, a);
            var trace := h.trace + [entry];
            sync.state == LatestState(trace) && sync.status == LatestStatus(trace) && sync.failure == LatestFailure(trace)
  {
    hide Passes, Greater;
    var trace := h.trace + [Next(h.sync, a).1];
    assert trace[..|h.trace|] == h.trace;
  }

  lemma NextKeepsNumbers(h: History, a: Action)
    requires h.sync.lastEventId == Highest(h.trace) && h.sync.staleBefore == Barrier(h.trace)
    requires h.sync.refreshing == Refreshing(h.trace) && h.sync.connected == Online(h.trace)
    requires AtMost(HighestAtDown(h.trace), h.sync.staleBefore)
    ensures var (sync, entry) := Next(h.sync, a);
            var trace := h.trace + [entry];
            && sync.lastEventId == Highest(trace) && sync.staleBefore == Barrier(trace)
            && sync.refreshing == Refreshing(trace) && sync.connected == Online(trace)
            && AtMost(HighestAtDown(trace), sync.staleBefore)
  {
    hide Passes;
    var trace := h.trace + [Next(h.sync, a).1];
    assert trace[..|h.trace|] == h.trace;
  }

  lemma NextKeepsReadings(h: History, a: Action)
    requires Faithful(h)
    ensures var (sync, entry) := Next(h.sync, a);
            var trace := h.trace + [entry];
            && sync.state == LatestState(trace) && sync.status == LatestStatus(trace) && sync.failure == LatestFailure(trace)
            && sync.lastEventId == Highest(trace) && sync.staleBefore == Barrier(trace)
            && sync.refreshing == Refreshing(trace) && sync.connected == Online(trace)
            && AtMost(HighestAtDown(trace), sync.staleBefore)
  {
    hide LatestState, LatestStatus, LatestFailure, Highest, HighestAtDown, Barrier, Refreshing, Online, AtMost, Next,
      NothingReplayed, RefusedForCause;
    NextKeepsSnapshots(h, a);
    NextKeepsNumbers(h, a);
  }

  lemma NextKeepsReasons(h: History, a: Action)
    requires Faithful(h)
    ensures var (sync, entry) := Next(h.sync, a);
            NothingReplayed(h.trace + [entry]) && RefusedForCause(h.trace + [entry])
  {
    var (sync, entry) := Next(h.sync, a);
    var trace := h.trace + [entry];
    hide LatestState, LatestStatus, LatestFailure, Highest, HighestAtDown, Barrier, Refreshing, Online;
    forall n | 0 <= n < |trace|
      ensures trace[n].Accepted? ==> Above(trace[n].event.id, HighestAtDown(trace[..n]))
      ensures trace[n].Refused? ==>
                Refreshing(trace[..n]) || (trace[n].event.id.Some? && AtMost(trace[n].event.id, Barrier(trace[..n])))
    {
      assert trace[..n] == h.trace[..n];
      assert n < |h.trace| ==> trace[n] == h.trace[n];
      assert n == |h.trace| ==> h.trace[..n] == h.trace;
    }
  }

  lemma NextIsFaithful(h: History, a: Action)
    requires Faithful(h)
    ensures var (sync, entry) := Next(h.sync, a); Faithful(History(sync, h.trace + [entry]))
  {
    NextKeepsReadings(h, a);
    NextKeepsReasons(h, a);
  }

  /** In every run, whatever the order of events, disconnects and recoveries: the
      mirror shows what was written last; no event at or below the highest number
      seen at the last disconnect is accepted afterwards; and none is refused but
      during a refetch or as a stale one. */
  lemma {:induction false} EveryRunIsFaithful(actions: seq<Action>)
    ensures Faithful(Run(actions)) && |Run(actions).trace| == |actions|
  {
    hide Faithful, Next;
    if actions == [] {
      NewIsFaithful();
    } else {
      EveryRunIsFaithful(actions[..|actions| - 1]);
      NextIsFaithful(Run(actions[..|actions| - 1]), actions[|actions| - 1]);
    }
  }

  lemma NewIsFaithful()
    ensures Faithful(History(NEW, []))
  {
  }

  /** The two sides of a disconnect, event by event. */
  lemma NoEventCrossesADisconnect(actions: seq<Action>, i: nat, down: nat, j: nat)
    requires i < down < j < |actions|
    requires var trace := Run(actions).trace;
             && |trace| == |actions|
             && trace[i].Accepted? && trace[down].Down? && trace[j].Accepted?
    ensures var trace := Run(actions).trace; Above(trace[j].event.id, trace[i].event.id)
  {
    EveryRunIsFaithful(actions);
    var trace := Run(actions).trace;
    DownRemembers(trace[..j], i, down);
    assert trace[..j][i] == trace[i];
    hide Run, HighestAtDown;
  }

  lemma {:induction false} HighestCovers(trace: seq<Entry>, i: nat)
    requires i < |trace| && trace[i].Accepted?
    ensures AtMost(trace[i].event.id, Highest(trace))
  {
    if i < |trace| - 1 {
      HighestCovers(trace[..|trace| - 1], i);
    }
  }

  lemma {:induction false} DownRemembers(trace: seq<Entry>, i: nat, down: nat)
    requires i < down < |trace| && trace[i].Accepted? && trace[down].Down?
    ensures AtMost(trace[i].event.id, HighestAtDown(trace))
  {
    var front := trace[..|trace| - 1];
    if trace[|trace| - 1].Down? {
      HighestCovers(front, i);
    } else {
      DownRemembers(front, i, down);
    }
  }

  /** With at most one recovery in flight, the mirror refreshes exactly while one
      is, so nothing is accepted between the beginning of a refetch and its end. */
  lemma {:induction false} NothingDuringTheRefetch(actions: seq<Action>)
    requires OneAtATime(actions)
    ensures Run(actions).sync.refreshing <==> InFlight(actions) == 1
    ensures |Run(actions).trace| == |actions|
    ensures forall n :: 0 <= n < |actions| && InFlight(actions[..n]) == 1 ==> !Run(actions).trace[n].Accepted?
  {
    if actions != [] {
      var front := actions[..|actions| - 1];
      assert OneAtATime(front) by {
        forall n | 0 <= n <= |front| ensures 0 <= InFlight(front[..n]) <= 1 {
          assert actions[..n] == front[..n];
        }
      }
      NothingDuringTheRefetch(front);
      assert actions[..|actions|] == actions && actions[..|front|] == front;
      forall n | 0 <= n < |actions| && InFlight(actions[..n]) == 1 ensures !Run(actions).trace[n].Accepted? {
        assert n < |front| ==> front[..n] == actions[..n];
      }
    }
  }

  lemma {:induction false} TraceIsRun(actions: seq<Action>, n: nat)
    requires n < |actions|
    ensures |Run(actions).trace| == |actions| && |Run(actions[..n]).trace| == n
    ensures Run(actions).trace[..n] == Run(actions[..n]).trace
    ensures Run(actions).trace[n] == Next(Run(actions[..n]).sync, actions[n]).1
  {
    var front := actions[..|actions| - 1];
    EveryRunIsFaithful(actions);
    EveryRunIsFaithful(front);
    EveryRunIsFaithful(actions[..n]);
    hide Faithful, Next;
    if n < |front| {
      assert front[..n] == actions[..n] && front[n] == actions[n];
      TraceIsRun(front, n);
      assert Run(actions).trace[..n] == Run(front).trace[..n];
    } else {
      assert front == actions[..n];
    }
  }

  /** In every run, whatever overlaps: an event is accepted exactly when no
      refetch is open and its number, if it has one, is above every stale one. */
  lemma AcceptedExactlyWhenOpenAndFresh(actions: seq<Action>, n: nat)
    requires n < |actions| && actions[n].Absorbs?
    ensures |Run(actions).trace| == |actions|
    ensures var trace, id := Run(actions).trace, actions[n].event.id;
            trace[n].Accepted? <==> !Refreshing(trace[..n]) && !(id.Some? && AtMost(id, Barrier(trace[..n])))
  {
    TraceIsRun(actions, n);
    EveryRunIsFaithful(actions[..n]);
    hide Run, Refreshing, Barrier, NothingReplayed, RefusedForCause, LatestState, LatestStatus, LatestFailure, Highest, HighestAtDown;
  }

  /** Some recovery has ended since the last one began. */
  predicate Reopened(actions: seq<Action>) {
    exists e :: 0 <= e < |actions| && actions[e].Ends? && forall j :: e < j < |actions| ==> !actions[j].Begins?
  }

  lemma {:induction false} OpenAlthoughInFlight(actions: seq<Action>)
    requires InFlight(actions) >= 1
    ensures Refreshing(Run(actions).trace) <==> !Reopened(actions)
  {
    var front, last := actions[..|actions| - 1], actions[|actions| - 1];
    var trace := Run(actions).trace;
    assert trace[..|trace| - 1] == Run(front).trace;
    if last.Ends? {
      assert actions[|front|].Ends?;
    } else if !last.Begins? {
      OpenAlthoughInFlight(front);
      if Reopened(front) {
        var e :| 0 <= e < |front| && front[e].Ends? && forall j :: e < j < |front| ==> !front[j].Begins?;
        assert actions[e].Ends? && forall j :: e < j < |actions| ==> !actions[j].Begins?;
      }
      if Reopened(actions) {
        var e :| 0 <= e < |actions| && actions[e].Ends? && forall j :: e < j < |actions| ==> !actions[j].Begins?;
        assert front[e].Ends? && forall j :: e < j < |front| ==> !front[j].Begins?;
      }
    }
  }

  /** With a recovery in flight an event is accepted exactly when another
      recovery has ended since the last one began, and the number is fresh. */
  lemma AcceptedWithRecoveryInFlight(actions: seq<Action>, n: nat)
    requires n < |actions| && actions[n].Absorbs? && InFlight(actions[..n]) >= 1
    ensures |Run(actions).trace| == |actions|
    ensures var trace, id := Run(actions).trace, actions[n].event.id;
            trace[n].Accepted? <==> Reopened(actions[..n]) && !(id.Some? && AtMost(id, Barrier(trace[..n])))
  {
    AcceptedExactlyWhenOpenAndFresh(actions, n);
    TraceIsRun(actions, n);
    OpenAlthoughInFlight(actions[..n]);
    hide Run, Refreshing, Barrier, Reopened;
  }

  /** Two recoveries at once break this: the first to end reopens the mirror, an
      event is accepted, and the other's older fetch overwrites it. */
  lemma OverlapOverwritesAnEvent()
    ensures var actions := [Begins(None), Begins(None), Ends(Some(1), None), Absorbs(Event(Some(7), StateEvent(2))), Ends(Some(1), None)];
            && InFlight(actions[..3]) == 1
            && Run(actions[..4]).sync.state == Some(2)
            && Run(actions).sync.state == Some(1)
  {
    var five := [Begins(None), Begins(None), Ends(Some(1), None), Absorbs(Event(Some(7), StateEvent(2))), Ends(Some(1), None)];
    var four, three, two, one := five[..4], five[..3], five[..2], five[..1];
    assert four[..3] == three && three[..2] == two && two[..1] == one && one[..0] == [];
    assert InFlight(one) == 1;
    assert InFlight(two) == 2;
    assert Run(one).sync == Begin(NEW, None);
    assert Run(two).sync == Begin(Begin(NEW, None), None);
    assert Run(three).sync == End(Run(two).sync, Some(1), None);
    assert Run(four).sync.state == Some(2);
  }
}

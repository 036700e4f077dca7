/** The job workers and their two counting semaphores, as an interleaved
    machine: catalog synchronization (one at a time by its own mutex), the
    tracker workers, and the metadata workers. A semaphore is a buffered
    channel: taking a token sends, giving it back receives. */
module Workers {
  import opened Wrappers

  datatype Kind = Synchronizer | Tracker | Metadata

  /** Where a worker stands: `WantX` waits for X, `Body` runs the job, `GiveJob`
      and `GiveTracker` are about to hand a token back, `Unlock` the mutex. */
  datatype Pc = Idle | WantMutex | WantTracker | WantJob | Body | GiveJob | GiveTracker | Unlock

  datatype Worker = Worker(kind: Kind, pc: Pc)

  datatype State = State(workers: seq<Worker>, mutex: bool, trackerTokens: nat, jobTokens: nat)

  const TRACKER_SLOTS: nat := 1

  /** What a waiting worker does: take what it waits for, or give up because the
      context ended. Elsewhere there is no choice. */
  datatype Choice = Proceed | GiveUp

  function Enter(kind: Kind): Pc {
    match kind
    case Synchronizer => WantMutex
    case Tracker => WantTracker
    case Metadata => WantJob
  }

  function Leave(kind: Kind): Pc { if kind == Synchronizer then Unlock else Idle }

  function AfterJob(kind: Kind): Pc { if kind == Metadata then Idle else GiveTracker }

  function Move(s: State, i: nat, pc: Pc): State
    requires i < |s.workers|
  {
    s.(workers := s.workers[i := s.workers[i].(pc := pc)])
  }

  /** One step of worker `i`, or none if it has to wait. */
  function Step(limit: nat, s: State, i: nat, choice: Choice): Option<State>
    requires i < |s.workers|
  {
    var kind := s.workers[i].kind;
    match s.workers[i].pc
    case Idle => Some(Move(s, i, Enter(kind)))
    case WantMutex =>
      if s.mutex then None else Some(Move(s, i, WantTracker).(mutex := true))
    case WantTracker =>
      if choice == GiveUp then Some(Move(s, i, Leave(kind)))
      else if s.trackerTokens < TRACKER_SLOTS then Some(Move(s, i, WantJob).(trackerTokens := s.trackerTokens + 1))
      else None
    case WantJob =>
      if choice == GiveUp then Some(Move(s, i, AfterJob(kind)))
      else if s.jobTokens < limit then Some(Move(s, i, Body).(jobTokens := s.jobTokens + 1))
      else None
    case Body => Some(Move(s, i, GiveJob))
    case GiveJob =>
      if s.jobTokens == 0 then None else Some(Move(s, i, AfterJob(kind)).(jobTokens := s.jobTokens - 1))
    case GiveTracker =>
      if s.trackerTokens == 0 then None else Some(Move(s, i, Leave(kind)).(trackerTokens := s.trackerTokens - 1))
    case Unlock => Some(Move(s, i, Idle).(mutex := false))
  }

  predicate HoldsMutex(w: Worker) {
    w.kind == Synchronizer && w.pc !in {Idle, WantMutex}
  }

  predicate HoldsTracker(w: Worker) {
    w.kind != Metadata && w.pc in {WantJob, Body, GiveJob, GiveTracker}
  }

  predicate HoldsJob(w: Worker) { w.pc in {Body, GiveJob} }

  predicate InBody(w: Worker) { w.pc == Body }

  predicate InTrackerBody(w: Worker) { w.pc == Body && w.kind != Metadata }

  /** A worker only reaches the program points of its kind. */
  predicate OnTrack(w: Worker) {
    match w.kind
    case Synchronizer => true
    case Tracker => w.pc !in {WantMutex, Unlock}
    case Metadata => w.pc in {Idle, WantJob, Body, GiveJob}
  }

  function Count(workers: seq<Worker>, p: Worker -> bool): nat {
    if workers == [] then 0
    else Count(workers[..|workers| - 1], p) + if p(workers[|workers| - 1]) then 1 else 0
  }

  lemma {:induction false} CountUpdate(workers: seq<Worker>, i: nat, w: Worker, p: Worker -> bool)
    requires i < |workers|
    ensures Count(workers[i := w], p) + (if p(workers[i]) then 1 else 0)
         == Count(workers, p) + (if p(w) then 1 else 0)
  {
    var last, updated := |workers| - 1, workers[i := w];
    if i < last {
      CountUpdate(workers[..last], i, w, p);
      assert updated[..last] == workers[..last][i := w];
    } else {
      assert updated[..last] == workers[..last];
    }
  }

  lemma {:induction false} SomeoneCounts(workers: seq<Worker>, p: Worker -> bool) returns (i: nat)
    requires Count(workers, p) > 0
    ensures i < |workers| && p(workers[i])
  {
    var last := |workers| - 1;
    if p(workers[last]) {
      i := last;
    } else {
      i := SomeoneCounts(workers[..last], p);
    }
  }

  lemma {:induction false} NobodyCounts(workers: seq<Worker>, p: Worker -> bool, i: nat)
    requires Count(workers, p) == 0 && i < |workers|
    ensures !p(workers[i])
  {
    var last := |workers| - 1;
    if i < last {
      NobodyCounts(workers[..last], p, i);
      assert workers[..last][i] == workers[i];
    }
  }

  lemma {:induction false} CountIsMonotone(workers: seq<Worker>, p: Worker -> bool, q: Worker -> bool)
    requires forall w :: p(w) ==> q(w)
    ensures Count(workers, p) <= Count(workers, q)
  {
    if workers != [] {
      CountIsMonotone(workers[..|workers| - 1], p, q);
    }
  }

  // ---- Every run ----

  /** Tokens in a channel are exactly the workers holding one; no channel is over
      its capacity; the mutex is held by one worker or free. */
  predicate Sound(limit: nat, s: State) {
    && s.trackerTokens == Count(s.workers, HoldsTracker) <= TRACKER_SLOTS
    && s.jobTokens == Count(s.workers, HoldsJob) <= limit
    && Count(s.workers, HoldsMutex) == (if s.mutex then 1 else 0)
    && forall i :: 0 <= i < |s.workers| ==> OnTrack(s.workers[i])
  }

  lemma StepKeepsOnTrack(limit: nat, s: State, i: nat, choice: Choice)
    requires i < |s.workers| && OnTrack(s.workers[i]) && Step(limit, s, i, choice).Some?
    ensures var t := Step(limit, s, i, choice).value;
            && OnTrack(t.workers[i])
            && t.workers == s.workers[i := t.workers[i]]
  {
  }

  lemma StepKeepsTrackerTokens(limit: nat, s: State, i: nat, choice: Choice)
    requires Sound(limit, s) && i < |s.workers| && Step(limit, s, i, choice).Some?
    ensures var t := Step(limit, s, i, choice).value;
            t.trackerTokens == Count(t.workers, HoldsTracker) <= TRACKER_SLOTS
  {
    hide Count;
    var t := Step(limit, s, i, choice).value;
    assert OnTrack(s.workers[i]);
    StepKeepsOnTrack(limit, s, i, choice);
    CountUpdate(s.workers, i, t.workers[i], HoldsTracker);
  }

  lemma StepKeepsJobTokens(limit: nat, s: State, i: nat, choice: Choice)
    requires Sound(limit, s) && i < |s.workers| && Step(limit, s, i, choice).Some?
    ensures var t := Step(limit, s, i, choice).value;
            t.jobTokens == Count(t.workers, HoldsJob) <= limit
  {
    var t := Step(limit, s, i, choice).value;
    assert OnTrack(s.workers[i]);
    StepKeepsOnTrack(limit, s, i, choice);
    CountUpdate(s.workers, i, t.workers[i], HoldsJob);
    hide Count;
  }

  lemma StepKeepsMutex(limit: nat, s: State, i: nat, choice: Choice)
    requires Sound(limit, s) && i < |s.workers| && Step(limit, s, i, choice).Some?
    ensures var t := Step(limit, s, i, choice).value;
            Count(t.workers, HoldsMutex) == if t.mutex then 1 else 0
  {
    var t := Step(limit, s, i, choice).value;
    assert OnTrack(s.workers[i]);
    StepKeepsOnTrack(limit, s, i, choice);
    CountUpdate(s.workers, i, t.workers[i], HoldsMutex);
    hide Count;
  }

  lemma StepKeepsSound(limit: nat, s: State, i: nat, choice: Choice)
    requires Sound(limit, s) && i < |s.workers| && Step(limit, s, i, choice).Some?
    ensures Sound(limit, Step(limit, s, i, choice).value)
  {
    hide Count, Step;
    assert OnTrack(s.workers[i]);
    StepKeepsOnTrack(limit, s, i, choice);
    StepKeepsTrackerTokens(limit, s, i, choice);
    StepKeepsJobTokens(limit, s, i, choice);
    StepKeepsMutex(limit, s, i, choice);
  }

  /** A token is given back without waiting: the holder's own is in the channel. */
  lemma GivingBackNeverWaits(limit: nat, s: State, i: nat, choice: Choice)
    requires Sound(limit, s) && i < |s.workers| && s.workers[i].pc in {GiveJob, GiveTracker}
    ensures Step(limit, s, i, choice).Some?
  {
    assert OnTrack(s.workers[i]);
    if s.jobTokens == 0 {
      NobodyCounts(s.workers, HoldsJob, i);
    }
    if s.trackerTokens == 0 {
      NobodyCounts(s.workers, HoldsTracker, i);
    }
  }

  datatype Turn = Turn(worker: nat, choice: Choice)

  function Fresh(kinds: seq<Kind>): State {
    State(seq(|kinds|, i requires 0 <= i < |kinds| => Worker(kinds[i], Idle)), false, 0, 0)
  }

  /** A turn of a worker that has to wait, or does not exist, changes nothing. */
  function After(limit: nat, s: State, turn: Turn): State {
    if turn.worker < |s.workers| && Step(limit, s, turn.worker, turn.choice).Some?
    then Step(limit, s, turn.worker, turn.choice).value
    else s
  }

  function Run(limit: nat, s: State, turns: seq<Turn>): State
    decreases turns
  {
    if turns == [] then s else Run(limit, After(limit, s, turns[0]), turns[1..])
  }

  lemma {:induction false} NobodyIdleCounts(workers: seq<Worker>, p: Worker -> bool)
    requires forall i :: 0 <= i < |workers| ==> !p(workers[i])
    ensures Count(workers, p) == 0
  {
    if workers != [] {
      NobodyIdleCounts(workers[..|workers| - 1], p);
    }
  }

  lemma FreshIsSound(limit: nat, kinds: seq<Kind>)
    ensures Sound(limit, Fresh(kinds))
  {
    var workers := Fresh(kinds).workers;
    NobodyIdleCounts(workers, HoldsTracker);
    NobodyIdleCounts(workers, HoldsJob);
    NobodyIdleCounts(workers, HoldsMutex);
  }

  lemma {:induction false} RunKeepsSound(limit: nat, s: State, turns: seq<Turn>)
    requires Sound(limit, s)
    ensures Sound(limit, Run(limit, s, turns))
    decreases turns
  {
    hide Sound, Step;
    if turns != [] {
      var turn := turns[0];
      if turn.worker < |s.workers| && Step(limit, s, turn.worker, turn.choice).Some? {
        StepKeepsSound(limit, s, turn.worker, turn.choice);
      }
      RunKeepsSound(limit, After(limit, s, turn), turns[1..]);
    }
  }

  /** In every interleaving, cancelled waits included: at most `limit` job bodies
      run at once, at most one of them a tracker body, at most one
      synchronization is past its mutex, and tokens are conserved. */
  lemma EveryRunIsSound(limit: nat, kinds: seq<Kind>, turns: seq<Turn>)
    ensures var s := Run(limit, Fresh(kinds), turns);
            && Sound(limit, s)
            && Count(s.workers, InBody) <= limit
            && Count(s.workers, InTrackerBody) <= 1
            && Count(s.workers, HoldsMutex) <= 1
  {
    hide Sound;
    FreshIsSound(limit, kinds);
    RunKeepsSound(limit, Fresh(kinds), turns);
    SoundBounds(limit, Run(limit, Fresh(kinds), turns));
  }

  lemma SoundBounds(limit: nat, s: State)
    requires Sound(limit, s)
    ensures Count(s.workers, InBody) <= limit && Count(s.workers, InTrackerBody) <= 1 && Count(s.workers, HoldsMutex) <= 1
  {
    CountIsMonotone(s.workers, InBody, HoldsJob);
    CountIsMonotone(s.workers, InTrackerBody, HoldsTracker);
  }

  // ---- Progress ----

  predicate Busy(w: Worker) { w.pc != Idle }

  /** No deadlock: while any worker is busy, some busy worker can take its step
      without giving up. */
  lemma SomeoneCanProceed(limit: nat, s: State, busy: nat) returns (i: nat)
    requires limit >= 1 && Sound(limit, s) && busy < |s.workers| && Busy(s.workers[busy])
    ensures i < |s.workers| && Busy(s.workers[i]) && Step(limit, s, i, Proceed).Some?
  {
    hide Count;
    i := busy;
    if s.workers[busy].pc == WantMutex && s.mutex {
      i := SomeoneCounts(s.workers, HoldsMutex);
    }
    if s.workers[i].pc == WantTracker && s.trackerTokens >= TRACKER_SLOTS {
      i := SomeoneCounts(s.workers, HoldsTracker);
    }
    if s.workers[i].pc == WantJob && s.jobTokens >= limit {
      i := SomeoneCounts(s.workers, HoldsJob);
    }
    if s.workers[i].pc in {GiveJob, GiveTracker} {
      GivingBackNeverWaits(limit, s, i, Proceed);
    }
  }

  /** How many steps a worker is at most away from being idle. */
  function Distance(w: Worker): nat {
    match w.pc
    case Idle => 0
    case Unlock => 1
    case GiveTracker => 2
    case GiveJob => 3
    case Body => 4
    case WantJob => 5
    case WantTracker => 6
    case WantMutex => 7
  }

  function TotalDistance(workers: seq<Worker>): nat {
    if workers == [] then 0 else TotalDistance(workers[..|workers| - 1]) + Distance(workers[|workers| - 1])
  }

  lemma {:induction false} DistanceUpdate(workers: seq<Worker>, i: nat, w: Worker)
    requires i < |workers|
    ensures TotalDistance(workers[i := w]) + Distance(workers[i]) == TotalDistance(workers) + Distance(w)
  {
    var last, updated := |workers| - 1, workers[i := w];
    if i < last {
      DistanceUpdate(workers[..last], i, w);
      assert updated[..last] == workers[..last][i := w];
    } else {
      assert updated[..last] == workers[..last];
    }
  }

  /** Every step that does not start a new job brings all jobs nearer their end,
      whatever is chosen. */
  lemma StepsComeCloser(limit: nat, s: State, i: nat, choice: Choice)
    requires i < |s.workers| && Busy(s.workers[i]) && Step(limit, s, i, choice).Some?
    requires OnTrack(s.workers[i])
    ensures TotalDistance(Step(limit, s, i, choice).value.workers) < TotalDistance(s.workers)
  {
    var t := Step(limit, s, i, choice).value;
    DistanceUpdate(s.workers, i, t.workers[i]);
    hide TotalDistance;
  }

  predicate AllIdle(s: State) { forall i :: 0 <= i < |s.workers| ==> !Busy(s.workers[i]) }

  /** A turn in which a busy worker really takes a step. */
  predicate Works(limit: nat, s: State, turn: Turn) {
    && turn.worker < |s.workers| && Busy(s.workers[turn.worker])
    && Step(limit, s, turn.worker, turn.choice).Some?
  }

  predicate OnlyWorks(limit: nat, s: State, turns: seq<Turn>)
    decreases turns
  {
    turns == [] || (Works(limit, s, turns[0]) && OnlyWorks(limit, After(limit, s, turns[0]), turns[1..]))
  }

  /** However the busy workers are scheduled, without new jobs they stop after
      at most the total distance. */
  lemma {:induction false} WorkIsFinite(limit: nat, s: State, turns: seq<Turn>)
    requires Sound(limit, s) && OnlyWorks(limit, s, turns)
    ensures |turns| + TotalDistance(Run(limit, s, turns).workers) <= TotalDistance(s.workers)
    decreases turns
  {
    if turns != [] {
      var turn := turns[0];
      StepKeepsSound(limit, s, turn.worker, turn.choice);
      assert OnTrack(s.workers[turn.worker]);
      StepsComeCloser(limit, s, turn.worker, turn.choice);
      hide Sound, TotalDistance, Step;
      WorkIsFinite(limit, After(limit, s, turn), turns[1..]);
    }
  }

  lemma IdleHasNoTokens(limit: nat, s: State)
    requires Sound(limit, s) && AllIdle(s)
    ensures s.trackerTokens == 0 && s.jobTokens == 0 && !s.mutex
  {
    NobodyIdleCounts(s.workers, HoldsTracker);
    NobodyIdleCounts(s.workers, HoldsJob);
    NobodyIdleCounts(s.workers, HoldsMutex);
  }

  /** From every sound state the busy workers can finish all their jobs, none
      giving up, and then every token is back. */
  lemma {:induction false} JobsCanAllFinish(limit: nat, s: State) returns (turns: seq<Turn>)
    requires limit >= 1 && Sound(limit, s)
    ensures OnlyWorks(limit, s, turns) && forall i :: 0 <= i < |turns| ==> turns[i].choice == Proceed
    ensures var t := Run(limit, s, turns);
            Sound(limit, t) && AllIdle(t) && t.trackerTokens == 0 && t.jobTokens == 0 && !t.mutex
    decreases TotalDistance(s.workers)
  {
    if AllIdle(s) {
      IdleHasNoTokens(limit, s);
      turns := [];
    } else {
      var busy: nat :| busy < |s.workers| && Busy(s.workers[busy]);
      var i := SomeoneCanProceed(limit, s, busy);
      StepKeepsSound(limit, s, i, Proceed);
      assert OnTrack(s.workers[i]);
      StepsComeCloser(limit, s, i, Proceed);
      hide Sound, Step, TotalDistance;
      var turn := Turn(i, Proceed);
      var rest := JobsCanAllFinish(limit, After(limit, s, turn));
      turns := [turn] + rest;
      assert turns[0] == turn && turns[1..] == rest;
    }
  }

  // ---- Which jobs run ----

  /** How often worker `i` runs a job's body in a run. */
  function Bodies(limit: nat, s: State, turns: seq<Turn>, i: nat): nat
    requires OnlyWorks(limit, s, turns)
    decreases turns
  {
    if turns == [] then 0
    else
      Bodies(limit, After(limit, s, turns[0]), turns[1..], i)
      + if turns[0].worker == i && s.workers[i].pc == Body then 1 else 0
  }

  /** At some turn of the run worker `i`, waiting for a token, gives up. */
  predicate GaveUp(limit: nat, s: State, turns: seq<Turn>, i: nat)
    requires OnlyWorks(limit, s, turns)
    decreases turns
  {
    && turns != []
    && (|| (turns[0].worker == i && turns[0].choice == GiveUp && s.workers[i].pc in {WantTracker, WantJob})
        || GaveUp(limit, After(limit, s, turns[0]), turns[1..], i))
  }

  predicate Waits(pc: Pc) { pc in {WantMutex, WantTracker, WantJob} }

  lemma TurnMoves(limit: nat, s: State, turn: Turn, i: nat)
    requires Works(limit, s, turn) && i < |s.workers| && OnTrack(s.workers[i])
    ensures var was, t := s.workers[i].pc, After(limit, s, turn);
            && i < |t.workers| && OnTrack(t.workers[i])
            && (turn.worker != i ==> t.workers[i] == s.workers[i])
            && (turn.worker == i && Waits(was) && !(turn.choice == GiveUp && was != WantMutex) ==> Waits(t.workers[i].pc) || t.workers[i].pc == Body)
            && (turn.worker == i && Waits(was) && turn.choice == GiveUp && was != WantMutex ==>
                  t.workers[i].pc in {Idle, GiveTracker, Unlock})
            && (turn.worker == i && was == Body ==> t.workers[i].pc == GiveJob)
            && (was in {Idle, GiveJob, GiveTracker, Unlock} ==> t.workers[i].pc in {Idle, GiveJob, GiveTracker, Unlock})
  {
  }

  /** A worker that has a job runs its body once before it is idle again, unless it
      gave up waiting for a token, and then not at all. */
  lemma {:induction false} JobRunsOnceUnlessGivenUp(limit: nat, s: State, turns: seq<Turn>, i: nat)
    requires OnlyWorks(limit, s, turns) && i < |s.workers| && OnTrack(s.workers[i])
    requires i < |Run(limit, s, turns).workers| && Run(limit, s, turns).workers[i].pc == Idle
    ensures Bodies(limit, s, turns, i)
         == if Waits(s.workers[i].pc) then (if GaveUp(limit, s, turns, i) then 0 else 1)
            else if s.workers[i].pc == Body then 1 else 0
    ensures GaveUp(limit, s, turns, i) ==> Waits(s.workers[i].pc)
    decreases turns
  {
    hide Step, OnTrack;
    if turns != [] {
      TurnMoves(limit, s, turns[0], i);
      hide After;
      JobRunsOnceUnlessGivenUp(limit, After(limit, s, turns[0]), turns[1..], i);
    }
  }
}

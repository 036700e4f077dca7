/** Where calls of the lifecycle end when nothing disturbs them: no other call comes
    in between and no outside call fails. The steps of the caller and of the
    goroutines may still interleave in any way. */
module LifecycleEnds {
  import opened Wrappers
  import opened Lifecycle
  import opened LifecycleRuns

  // ---- Undisturbed runs ----

  predicate Resting(pc: Pc) { pc.Done? || pc.RunServe? }

  /** Nobody is busy, bar goroutines that serve. */
  predicate AtRest(s: State) { forall u :: u in s.threads ==> Resting(s.threads[u].pc) }

  /** A step of an existing thread in which no outside call fails. */
  predicate Smooth(a: Action) { a.Go? && !a.c.fails }

  predicate AllSmooth(actions: seq<Action>) { forall i :: 0 <= i < |actions| ==> Smooth(actions[i]) }

  /** A state to make a call in: at rest, with what every run keeps, the guard down and
      no data stranded. */
  predicate Settled(s: State) {
    && Coherent(s, None, None) && Tracked(s) && AllOwned(s) && AtRest(s)
    && !s.relocating && s.disk == s.holder && (s.app.Some? ==> s.app.value.dir == s.holder)
  }

  predicate InStart(pc: Pc) { pc.StartEnter? || pc.StartCheck? || pc.StartMissing? || pc.StartCommit? || pc.StartSpawn? }

  predicate InStop(pc: Pc) { pc.StopEnter? || pc.StopTeardown? || pc.StopFinish? }

  predicate InRun(pc: Pc) { pc.RunEnter? || pc.RunBuild? || pc.RunServe? || pc.RunFailed? || pc.RunClose? }

  /** Between the state check and the dropping of the guard. */
  predicate InMove(pc: Pc) { pc.Relocate? || pc.Remap? || pc.Swap? || pc.Autostart? || pc.DropGuard? }

  predicate BeforeStop(pc: Pc) { pc.MoveEnter? || pc.MoveGuard? || pc.MoveCheck? || InStop(pc) }

  /** The others rest, but for the goroutine the caller has spawned. */
  predicate OthersRest(s: State, t: Tid, known: set<Tid>) {
    && (forall u :: u in s.threads && u != t ==>
          || Resting(s.threads[u].pc)
          || (u !in known && (s.threads[u].pc.RunEnter? || (s.threads[u].pc.RunBuild? && s.threads[u].pc.dir == s.holder))))
    && known <= s.threads.Keys
  }

  /** What holds while the caller is at a place in its code; `renews` asks that the
      instance it leaves behind is one of its own. */
  predicate Placed(s: State, th: Thread, known: set<Tid>, renews: bool) {
    && (th.pc.Done? || th.pc.ClearGuard? || InStart(th.pc) || InStop(th.pc) || InMove(th.pc) || BeforeStop(th.pc))
    && Shaped(th) && !th.after.MoveResumed?
    && (s.relocating ==> th.pc.MoveCheck? || th.after.MoveOn? || InMove(th.pc) || th.pc.ClearGuard?)
    && (InStart(th.pc) ==> !s.relocating)
    && (s.phase.Starting? ==> th.pc.StartSpawn? || th.pc.ClearGuard? || th.pc.Done?)
    && (s.phase.Stopping? ==> th.pc.StopTeardown? || th.pc.StopFinish?)
    && (th.pc.StartEnter? && (renews || th.after.MoveRestarted?) ==> Idle(s.phase))
    && (th.after.MoveOn? ==> th.after.from == s.holder && th.after.to != s.disk && (th.pc.StopEnter? ==> s.phase.Running?))
    && (th.pc.MoveEnter? || th.pc.MoveGuard? || th.pc.MoveCheck? || th.pc.Relocate? ==> th.pc.to != s.disk)
    && (th.pc.MoveGuard? || th.pc.MoveCheck? || th.pc.Relocate? ==> th.pc.from == s.holder)
    && (InMove(th.pc) ==> Idle(s.phase))
    && (if th.pc.Remap? || th.pc.Swap? then s.disk == th.pc.to else s.disk == s.holder)
    && (s.app.Some? ==> s.app.value.dir == s.holder)
    && (renews && s.app.Some? && !BeforeStop(th.pc) ==> s.app.value.runner !in known)
  }

  /** The phase the call is heading for. */
  function EndPhase(s: State, th: Thread): Phase {
    if InStart(th.pc) then Running
    else if th.pc.StopEnter? then
      if !th.after.Return? then Running else if s.phase.Running? then Stopped else s.phase
    else if th.pc.StopTeardown? || th.pc.StopFinish? then (if th.after.Return? then Stopped else Running)
    else if InMove(th.pc) then (if th.pc.was then Running else s.phase)
    else if s.phase.Starting? then Running
    else s.phase
  }

  /** The directory it is heading for. */
  function EndDir(s: State, th: Thread): Dir {
    if th.after.MoveOn? then th.after.to
    else if th.pc.MoveEnter? || th.pc.MoveGuard? || th.pc.MoveCheck? || th.pc.Relocate? || th.pc.Remap? || th.pc.Swap? then th.pc.to
    else s.holder
  }

  /** Everything an undisturbed call keeps, `phase` and `dir` being where it heads. */
  predicate OnCourse(s: State, t: Tid, known: set<Tid>, renews: bool, phase: Phase, dir: Dir, b: Option<Tid>, d: Option<Tid>) {
    && t in s.threads && t !in known
    && Coherent(s, b, d) && Tracked(s) && AllOwned(s)
    && OthersRest(s, t, known) && Placed(s, s.threads[t], known, renews)
    && EndPhase(s, s.threads[t]) == phase && EndDir(s, s.threads[t]) == dir
  }

  // ---- One step ----

  /** What the caller's step does, in terms of its own entry and the shared state. */
  lemma StartOnCourse(s: State, t: Tid, th: Thread, c: Choice, known: set<Tid>, renews: bool)
    requires Placed(s, th, known, renews) && InStart(th.pc) && !c.fails && StartTurn(s, t, th, c).Some?
    requires th.pc.StartCheck? || th.pc.StartMissing? || th.pc.StartCommit? ==> Idle(s.phase)
    requires th.pc.StartSpawn? ==> s.phase.Starting?
    requires s.app.Some? <==> s.phase.Running? || s.phase.Stopping?
    ensures var turn := StartTurn(s, t, th, c).value;
            && Placed(turn.s, turn.th, known, renews)
            && EndPhase(turn.s, turn.th) == EndPhase(s, th) && EndDir(turn.s, turn.th) == EndDir(s, th)
  {
  }

  lemma StopOnCourse(s: State, th: Thread, known: set<Tid>, renews: bool)
    requires Placed(s, th, known, renews) && InStop(th.pc) && StopTurn(s, th).Some?
    requires th.pc.StopTeardown? || th.pc.StopFinish? ==> s.phase.Stopping?
    requires s.app.Some? <==> s.phase.Running? || s.phase.Stopping?
    ensures var turn := StopTurn(s, th).value;
            && Placed(turn.s, turn.th, known, renews)
            && EndPhase(turn.s, turn.th) == EndPhase(s, th) && EndDir(turn.s, turn.th) == EndDir(s, th)
  {
  }

  lemma MoveOnCourse(s: State, th: Thread, c: Choice, known: set<Tid>, renews: bool)
    requires Placed(s, th, known, renews) && !c.fails && MoveTurn(s, th, c).Some?
    requires s.app.Some? <==> s.phase.Running? || s.phase.Stopping?
    ensures var turn := MoveTurn(s, th, c).value;
            && Placed(turn.s, turn.th, known, renews)
            && EndPhase(turn.s, turn.th) == EndPhase(s, th) && EndDir(turn.s, turn.th) == EndDir(s, th)
  {
  }

  /** The caller's turn leaves the others at rest; what it adds is the goroutine it
      spawns, and the holder changes only when nothing is being built. */
  lemma TurnLeavesOthers(s: State, t: Tid, turn: Turn, known: set<Tid>)
    requires OthersRest(s, t, known) && t in s.threads
    requires turn.s.holder == s.holder || forall u :: u in s.threads ==> !s.threads[u].pc.RunBuild?
    requires turn.s.threads.Keys >= s.threads.Keys
    requires forall u :: u in turn.s.threads && u != t ==>
               if u in s.threads then turn.s.threads[u] == s.threads[u] else turn.s.threads[u].pc.RunEnter?
    ensures OthersRest(Put(turn, t), t, known)
  {
    var r := Put(turn, t);
    forall u | u in r.threads && u != t
      ensures || Resting(r.threads[u].pc)
              || (u !in known && (r.threads[u].pc.RunEnter? || (r.threads[u].pc.RunBuild? && r.threads[u].pc.dir == r.holder)))
    {
      assert u in turn.s.threads;
      if u in s.threads {
        assert turn.s.threads[u] == s.threads[u];
      }
    }
  }

  lemma PlacedParts(s: State, th: Thread, known: set<Tid>, renews: bool)
    requires Placed(s, th, known, renews)
    ensures Shaped(th) && !InRun(th.pc)
  {
  }

  /** Only the shared fields and the caller's own entry matter for its place. */
  lemma PutKeepsPlace(turn: Turn, t: Tid, known: set<Tid>, renews: bool)
    requires Placed(turn.s, turn.th, known, renews)
    ensures var r := Put(turn, t);
            && r.threads[t] == turn.th && Placed(r, r.threads[t], known, renews)
            && EndPhase(r, r.threads[t]) == EndPhase(turn.s, turn.th) && EndDir(r, r.threads[t]) == EndDir(turn.s, turn.th)
  {
  }

  lemma CoherentParts(s: State, t: Tid, b: Option<Tid>, d: Option<Tid>)
    requires Coherent(s, b, d) && t in s.threads
    ensures HoldsLock(s.threads[t].pc) ==> s.lock == Some(t) && Idle(s.phase)
    ensures Builds(s.threads[t].pc) ==> b == Some(t) && s.phase.Starting?
    ensures Tears(s.threads[t].pc) ==> d == Some(t) && s.phase.Stopping?
    ensures s.app.Some? <==> s.phase.Running? || s.phase.Stopping?
    ensures s.phase.Starting? ==> b.Some? && b.value in s.threads && Builds(s.threads[b.value].pc)
    ensures s.lock.Some? ==> s.lock.value in s.threads && HoldsLock(s.threads[s.lock.value].pc)
  {
    assert ThreadCoheres(s, b, d, t, s.threads[t]);
  }

  lemma NothingBuilt(s: State, b: Option<Tid>, d: Option<Tid>)
    requires Coherent(s, b, d) && Idle(s.phase)
    ensures forall u :: u in s.threads ==> !s.threads[u].pc.RunBuild?
  {
    forall u | u in s.threads ensures !s.threads[u].pc.RunBuild? {
      assert ThreadCoheres(s, b, d, u, s.threads[u]);
    }
  }

  lemma TurnIs(s: State, t: Tid, c: Choice)
    requires t in s.threads && Step(s, t, c).Some?
    ensures NextTurn(s, t, s.threads[t], c).Some?
    ensures Step(s, t, c).value == Put(NextTurn(s, t, s.threads[t], c).value, t)
  {
    hide NextTurn;
  }

  /** Which of the parts of the code a turn is in. */
  lemma TurnParts(s: State, t: Tid, th: Thread, c: Choice)
    ensures th.pc.Done? ==> NextTurn(s, t, th, c).None?
    ensures InStart(th.pc) ==> NextTurn(s, t, th, c) == StartTurn(s, t, th, c)
    ensures InStop(th.pc) ==> NextTurn(s, t, th, c) == StopTurn(s, th)
    ensures !th.pc.Done? && !InStart(th.pc) && !InStop(th.pc) && !InRun(th.pc) ==> NextTurn(s, t, th, c) == MoveTurn(s, th, c)
  {
    hide StartTurn, StopTurn, MoveTurn, RunTurn;
  }

  lemma StartTurnAdds(s: State, t: Tid, th: Thread, c: Choice)
    requires StartTurn(s, t, th, c).Some?
    ensures var turn := StartTurn(s, t, th, c).value;
            && turn.s.holder == s.holder && turn.s.threads.Keys >= s.threads.Keys
            && forall u :: u in turn.s.threads ==>
                 if u in s.threads then turn.s.threads[u] == s.threads[u] else turn.s.threads[u].pc.RunEnter?
  {
  }

  lemma OtherTurnsAdd(s: State, th: Thread, c: Choice)
    ensures StopTurn(s, th).Some? ==> StopTurn(s, th).value.s.holder == s.holder && StopTurn(s, th).value.s.threads == s.threads
    ensures MoveTurn(s, th, c).Some? ==> MoveTurn(s, th, c).value.s.threads == s.threads
    ensures MoveTurn(s, th, c).Some? && !th.pc.Swap? ==> MoveTurn(s, th, c).value.s.holder == s.holder
  {
  }

  /** A step of the caller keeps its place, its course, and the others at rest. */
  lemma CallerOnCourse(s: State, t: Tid, c: Choice, known: set<Tid>, renews: bool, b: Option<Tid>, d: Option<Tid>)
    requires t in s.threads && Coherent(s, b, d) && OthersRest(s, t, known) && Placed(s, s.threads[t], known, renews)
    requires !c.fails && Step(s, t, c).Some?
    ensures var r := Step(s, t, c).value;
            && t in r.threads && OthersRest(r, t, known) && Placed(r, r.threads[t], known, renews)
            && EndPhase(r, r.threads[t]) == EndPhase(s, s.threads[t]) && EndDir(r, r.threads[t]) == EndDir(s, s.threads[t])
  {
    hide *;
    var th := s.threads[t];
    TurnIs(s, t, c);
    TurnParts(s, t, th, c);
    PlacedParts(s, th, known, renews);
    PlacedFacts(s, th, known, renews, c);
    CoherentParts(s, t, b, d);
    var turn := NextTurn(s, t, th, c).value;
    if InStart(th.pc) {
      StartFacts(th.pc);
      StartOnCourse(s, t, th, c, known, renews);
      StartTurnAdds(s, t, th, c);
    } else if InStop(th.pc) {
      StopFacts(th.pc);
      StopOnCourse(s, th, known, renews);
      OtherTurnsAdd(s, th, c);
    } else {
      MoveOnCourse(s, th, c, known, renews);
      OtherTurnsAdd(s, th, c);
      if th.pc.Swap? {
        NothingBuilt(s, b, d);
      }
    }
    TurnLeavesOthers(s, t, turn, known);
    PutKeepsPlace(turn, t, known, renews);
    PutHas(turn, t);
  }

  lemma PutHas(turn: Turn, t: Tid)
    ensures t in Put(turn, t).threads
  {
  }

  lemma PlacedFacts(s: State, th: Thread, known: set<Tid>, renews: bool, c: Choice)
    requires Placed(s, th, known, renews)
    ensures th.pc.Swap? ==> Idle(s.phase)
    ensures !InStart(th.pc) && !InStop(th.pc) && !th.pc.Done? ==> MoveTurn(s, th, c).Some? || th.pc.MoveCheck?
  {
  }

  lemma StartFacts(pc: Pc)
    ensures pc.StartCheck? || pc.StartMissing? || pc.StartCommit? ==> HoldsLock(pc)
    ensures pc.StartSpawn? ==> Builds(pc)
  {
  }

  lemma StopFacts(pc: Pc)
    ensures pc.StopTeardown? || pc.StopFinish? <==> Tears(pc)
  {
  }

  /** A step of another goroutine: it returns from serving, or goes on building. */
  lemma OtherOnCourse(s: State, t: Tid, u: Tid, c: Choice, known: set<Tid>, renews: bool, b: Option<Tid>, d: Option<Tid>)
    requires t in s.threads && Coherent(s, b, d) && OthersRest(s, t, known) && Placed(s, s.threads[t], known, renews)
    requires u in s.threads && u != t && !c.fails && Step(s, u, c).Some?
    ensures var r := Step(s, u, c).value;
            && t in r.threads && OthersRest(r, t, known) && Placed(r, r.threads[t], known, renews)
            && EndPhase(r, r.threads[t]) == EndPhase(s, s.threads[t]) && EndDir(r, r.threads[t]) == EndDir(s, s.threads[t])
  {
    assert ThreadCoheres(s, b, d, u, s.threads[u]) && ThreadCoheres(s, b, d, t, s.threads[t]);
    var pc := s.threads[u].pc;
    assert Resting(pc) || u !in known;
    hide StartTurn, StopTurn, MoveTurn;
    if pc.RunBuild? {
      assert s.phase.Starting?;
    }
  }

  lemma NobodyFailed(s: State, t: Tid, known: set<Tid>, renews: bool, u: Tid)
    requires OthersRest(s, t, known) && t in s.threads && Placed(s, s.threads[t], known, renews) && u in s.threads
    ensures !s.threads[u].pc.RunFailed? && !s.threads[u].pc.RunClose?
  {
  }

  /** Every step of an undisturbed call keeps it on its course. */
  lemma StepOnCourse(s: State, t: Tid, u: Tid, c: Choice, known: set<Tid>, renews: bool, phase: Phase, dir: Dir,
                     b: Option<Tid>, d: Option<Tid>)
    requires OnCourse(s, t, known, renews, phase, dir, b, d) && u in s.threads && !c.fails && Step(s, u, c).Some?
    ensures OnCourse(Step(s, u, c).value, t, known, renews, phase, dir, NextBuilder(s, u, c, b), NextStopper(s, u, d))
  {
    hide Coherent, Tracked, AllOwned, OthersRest, Placed, EndPhase, EndDir, Step, NextBuilder, NextStopper, StaleFailure;
    StepKeepsCoherent(s, u, c, b, d);
    StepKeepsTracked(s, u, c, b, d);
    OwnershipLostOnlyByStaleFailure(s, u, c, b, d);
    NobodyFailed(s, t, known, renews, u);
    NotStale(s, u);
    if u == t {
      CallerOnCourse(s, t, c, known, renews, b, d);
    } else {
      OtherOnCourse(s, t, u, c, known, renews, b, d);
    }
  }

  lemma NotStale(s: State, u: Tid)
    requires u in s.threads && !s.threads[u].pc.RunFailed?
    ensures !StaleFailure(s, u)
  {
  }

  lemma RunSnoc(single: bool, s: State, actions: seq<Action>)
    requires actions != [] && Run(single, s, actions).Some?
    ensures Run(single, s, actions[..|actions| - 1]).Some?
    ensures Run(single, s, actions) == Act(single, Run(single, s, actions[..|actions| - 1]).value, actions[|actions| - 1])
  {
    hide Act;
  }

  lemma SmoothStep(single: bool, s: State, a: Action)
    requires Smooth(a) && Act(single, s, a).Some?
    ensures a.t in s.threads && Step(s, a.t, a.c) == Act(single, s, a) && !a.c.fails
  {
    hide Step;
  }

  /** So every undisturbed run does. */
  lemma {:induction false} RunOnCourse(s: State, actions: seq<Action>, t: Tid, known: set<Tid>, renews: bool, phase: Phase, dir: Dir,
                                       b: Option<Tid>, d: Option<Tid>) returns (b': Option<Tid>, d': Option<Tid>)
    requires OnCourse(s, t, known, renews, phase, dir, b, d) && AllSmooth(actions) && Run(true, s, actions).Some?
    ensures OnCourse(Run(true, s, actions).value, t, known, renews, phase, dir, b', d')
  {
    if actions == [] {
      b', d' := b, d;
    } else {
      var front, last := actions[..|actions| - 1], actions[|actions| - 1];
      assert Smooth(last) && AllSmooth(front);
      RunSnoc(true, s, actions);
      hide *;
      b', d' := RunOnCourse(s, front, t, known, renews, phase, dir, b, d);
      var mid := Run(true, s, front).value;
      SmoothStep(true, mid, last);
      StepOnCourse(mid, t, last.t, last.c, known, renews, phase, dir, b', d');
      b', d' := NextBuilder(mid, last.t, last.c, b'), NextStopper(mid, last.t, d');
    }
  }

  // ---- Where it ends ----

  /** The open instances are just the one held, which serves the data where the holder
      says. */
  predicate Whole(s: State) {
    && (s.app.Some? <==> s.phase.Running?)
    && s.open == (if s.app.Some? then {s.app.value.runner} else {})
    && s.disk == s.holder && (s.app.Some? ==> s.app.value.dir == s.holder)
  }

  lemma RestIsFree(s: State, b: Option<Tid>, d: Option<Tid>)
    requires Coherent(s, b, d) && AtRest(s)
    ensures b.None? && d.None? && s.lock.None?
  {
    forall u | u in s.threads ensures !Builds(s.threads[u].pc) && !Tears(s.threads[u].pc) && !HoldsLock(s.threads[u].pc) {
      assert Resting(s.threads[u].pc);
    }
  }

  lemma RestIsWhole(s: State, b: Option<Tid>, d: Option<Tid>)
    requires Coherent(s, b, d) && Tracked(s) && AllOwned(s) && AtRest(s)
    requires s.disk == s.holder && (s.app.Some? ==> s.app.value.dir == s.holder)
    ensures Whole(s) && (s.phase.Running? || Idle(s.phase)) && s.lock.None? && b.None? && d.None?
  {
    forall x | x in s.open ensures s.app.Some? && s.app.value.runner == x {
      assert Owned(s, x);
      assert x in s.threads ==> Resting(s.threads[x].pc);
    }
    RestIsFree(s, b, d);
    if s.app.Some? {
      assert s.open == {s.app.value.runner};
    } else {
      assert s.open == {};
    }
  }

  /** At rest the call has arrived. */
  lemma RestIsTheEnd(s: State, t: Tid, known: set<Tid>, renews: bool, phase: Phase, dir: Dir, b: Option<Tid>, d: Option<Tid>)
    requires OnCourse(s, t, known, renews, phase, dir, b, d) && AtRest(s)
    ensures Whole(s) && s.phase == phase && s.holder == dir && !s.relocating
    ensures renews && s.app.Some? ==> s.app.value.runner !in known
  {
    RestingIsDone(s, t, known, renews);
    hide Coherent, Tracked, AllOwned, Whole;
    RestIsWhole(s, b, d);
  }

  lemma RestingIsDone(s: State, t: Tid, known: set<Tid>, renews: bool)
    requires t in s.threads && Placed(s, s.threads[t], known, renews) && AtRest(s)
    ensures s.threads[t].pc.Done? && s.disk == s.holder && (s.app.Some? ==> s.app.value.dir == s.holder)
  {
  }

  lemma SettledParts(s: State)
    requires Settled(s)
    ensures Whole(s) && (s.phase.Running? || Idle(s.phase)) && s.lock.None?
  {
    hide Coherent, Tracked, AllOwned, Whole, AtRest;
    RestIsWhole(s, None, None);
  }

  /** Making the call puts its thread at the beginning of its code. */
  function Begun(call: Action): Thread
    requires !call.Go?
  {
    match call
    case CallStart(_) => Thread(StartEnter, Return)
    case CallStop(_) => Thread(StopEnter, Return)
    case CallRestart(_) => Thread(StopEnter, RestartStart)
    case CallMove(_, to) => Thread(MoveEnter(to), Return)
  }

  /** A call in a settled state, other than a move to where the data is already. */
  predicate Callable(s: State, call: Action) {
    !call.Go? && call.t !in s.threads && (call.CallMove? ==> call.to != s.holder)
  }

  lemma NobodyMoves(s: State)
    requires Settled(s)
    ensures forall u :: u in s.threads ==> !Moving(s.threads[u])
  {
    forall u | u in s.threads ensures !Moving(s.threads[u]) {
      assert ThreadCoheres(s, None, None, u, s.threads[u]);
    }
  }

  lemma CallBegins(s: State, call: Action)
    requires Settled(s) && Callable(s, call)
    ensures Act(true, s, call) == Some(Add(s, call.t, Begun(call)))
  {
    NobodyMoves(s);
    hide Settled, Moving;
  }

  /** Whether the call leaves an instance of its own: a Start of a running server does
      not. */
  predicate Renews(s: State, call: Action) { call.CallStart? ==> !s.phase.Running? }

  lemma CallIsPlaced(s: State, call: Action)
    requires Settled(s) && Callable(s, call)
    ensures Placed(s, Begun(call), s.threads.Keys, Renews(s, call))
  {
    SettledParts(s);
    assert s.app.Some? ==> s.phase.Running?;
  }

  lemma CallAddsOnly(s: State, call: Action)
    requires Settled(s) && Callable(s, call)
    ensures var r := Add(s, call.t, Begun(call));
            Coherent(r, None, None) && Tracked(r) && AllOwned(r) && OthersRest(r, call.t, s.threads.Keys)
  {
    SettledParts(s);
    var r := Add(s, call.t, Begun(call));
    hide Shaped;
    forall u | u in r.threads ensures ThreadCoheres(r, None, None, u, r.threads[u]) {
      assert u != call.t ==> ThreadCoheres(s, None, None, u, s.threads[u]);
      BegunIsNeutral(call);
    }
    forall u | u in r.threads ensures ThreadTracked(r, u, r.threads[u]) {
      assert u != call.t ==> ThreadTracked(s, u, s.threads[u]);
    }
    forall x | x in r.open ensures Owned(r, x) {
      assert Owned(s, x);
    }
  }

  lemma BegunIsNeutral(call: Action)
    requires !call.Go?
    ensures Neutral(Begun(call).pc) && Shaped(Begun(call))
  {
  }

  lemma CallOnCourse(s: State, call: Action)
    requires Settled(s) && Callable(s, call)
    ensures var r := Add(s, call.t, Begun(call));
            OnCourse(r, call.t, s.threads.Keys, Renews(s, call), EndPhase(s, Begun(call)), EndDir(s, Begun(call)), None, None)
  {
    var r := Add(s, call.t, Begun(call));
    CallIsPlaced(s, call);
    CallAddsOnly(s, call);
    hide Coherent, Tracked, AllOwned, OthersRest, Settled;
  }

  /** Where an undisturbed call ends: Start and Restart with the server running, Stop
      with it down, a move in the new directory with the server as it was before; the
      guard down, and nothing open but the instance held, which is a new one. */
  lemma UndisturbedCallEnds(s: State, call: Action, actions: seq<Action>)
    requires Settled(s) && Callable(s, call)
    requires AllSmooth(actions) && Run(true, Add(s, call.t, Begun(call)), actions).Some?
    requires AtRest(Run(true, Add(s, call.t, Begun(call)), actions).value)
    ensures Act(true, s, call) == Some(Add(s, call.t, Begun(call)))
    ensures var r := Run(true, Add(s, call.t, Begun(call)), actions).value;
            && !r.relocating && Whole(r)
            && r.holder == r.disk == (if call.CallMove? then call.to else s.holder)
            && (call.CallStart? || call.CallRestart? ==> r.phase == Running)
            && (call.CallStop? ==> r.phase == (if s.phase.Running? then Stopped else s.phase) && r.open == {})
            && (call.CallMove? ==> r.phase == s.phase)
            && (r.app.Some? ==> r.app.value.dir == r.holder)
            && (r.app.Some? && !(call.CallStart? && s.phase.Running?) ==> r.app.value.runner !in s.threads)
  {
    var begun := Add(s, call.t, Begun(call));
    CallBegins(s, call);
    CallOnCourse(s, call);
    SettledParts(s);
    hide OnCourse, Settled, AtRest, Run, Act, AllSmooth, Add;
    var b, d := RunOnCourse(begun, actions, call.t, s.threads.Keys, Renews(s, call), EndPhase(s, Begun(call)), EndDir(s, Begun(call)), None, None);
    RestIsTheEnd(Run(true, begun, actions).value, call.t, s.threads.Keys, Renews(s, call), EndPhase(s, Begun(call)), EndDir(s, Begun(call)), b, d);
  }

  // ---- It does end ----

  /** At most so many steps the caller has left, and the goroutine it spawned. */
  function Left(th: Thread): nat {
    match th.pc
    case MoveEnter(_) => 26
    case MoveGuard(_, _) => 25
    case MoveCheck(_, _) => 24
    case StopEnter => 22
    case StopTeardown(_) => 21
    case StopFinish => 20
    case Relocate(_, _, _) => 14
    case Remap(_, _) => 12
    case Swap(_, _) => 11
    case Autostart(_) => 10
    case DropGuard(_) => 9
    case StartEnter => 8
    case StartCheck => 7
    case StartMissing => 6
    case StartCommit => 5
    case StartSpawn => 4
    case ClearGuard => 1
    case _ => 0
  }

  function BuilderLeft(s: State, b: Option<Tid>): nat {
    if b.None? || b.value !in s.threads then 0
    else if s.threads[b.value].pc.RunEnter? then 2
    else if s.threads[b.value].pc.RunBuild? then 1
    else 0
  }

  lemma {:induction false} RunCons(s: State, a: Action, actions: seq<Action>)
    requires Act(true, s, a).Some?
    ensures Run(true, s, [a] + actions) == Run(true, Act(true, s, a).value, actions)
  {
    var all := [a] + actions;
    if actions == [] {
      assert all[..0] == [] && all[0] == a;
      assert Run(true, s, all[..0]) == Some(s);
    } else {
      assert all[..|all| - 1] == [a] + actions[..|actions| - 1];
      RunCons(s, a, actions[..|actions| - 1]);
    }
    hide Act;
  }

  lemma FreeId(ids: set<Tid>) returns (id: Tid)
    ensures id !in ids && forall x :: x in ids ==> x < id
    decreases |ids|
  {
    id := 0;
    if x :| x in ids {
      var rest := ids - {x};
      id := FreeId(rest);
      assert forall y :: y in ids ==> y == x || y in rest;
      if x >= id {
        id := x + 1;
      }
    }
  }

  /** The caller can always step on, unless it is done. */
  lemma CallerSteps(s: State, t: Tid, known: set<Tid>, renews: bool, b: Option<Tid>, d: Option<Tid>, c: Choice)
    requires t in s.threads && Coherent(s, b, d) && OthersRest(s, t, known) && Placed(s, s.threads[t], known, renews)
    requires !c.fails && c.id !in s.threads && !s.threads[t].pc.Done?
    ensures Step(s, t, c).Some?
    ensures var r := Step(s, t, c).value;
            t in r.threads && Left(r.threads[t]) + BuilderLeft(r, NextBuilder(s, t, c, b)) < Left(s.threads[t]) + BuilderLeft(s, b)
  {
    var th := s.threads[t];
    CoherentParts(s, t, b, d);
    OnlyCallerLocks(s, t, known, b, d);
    hide Coherent, OthersRest;
    if InStart(th.pc) {
      StartLeft(s, t, th, c, known, renews, b);
    } else if InStop(th.pc) {
      StopLeft(s, t, th, c, known, renews, b);
    } else {
      MoveLeft(s, t, th, c, known, renews, b);
    }
  }

  lemma OnlyCallerLocks(s: State, t: Tid, known: set<Tid>, b: Option<Tid>, d: Option<Tid>)
    requires Coherent(s, b, d) && OthersRest(s, t, known)
    ensures s.lock.Some? ==> s.lock.value == t
  {
  }

  lemma StartLeft(s: State, t: Tid, th: Thread, c: Choice, known: set<Tid>, renews: bool, b: Option<Tid>)
    requires t in s.threads && s.threads[t] == th && Placed(s, th, known, renews) && InStart(th.pc)
    requires !c.fails && c.id !in s.threads && (s.lock.Some? ==> s.lock.value == t && HoldsLock(th.pc))
    requires th.pc.StartSpawn? ==> b == Some(t)
    ensures Step(s, t, c).Some?
    ensures var r := Step(s, t, c).value;
            t in r.threads && Left(r.threads[t]) + BuilderLeft(r, NextBuilder(s, t, c, b)) < Left(s.threads[t]) + BuilderLeft(s, b)
  {
    hide StopTurn, RunTurn, MoveTurn;
  }

  lemma StopLeft(s: State, t: Tid, th: Thread, c: Choice, known: set<Tid>, renews: bool, b: Option<Tid>)
    requires t in s.threads && s.threads[t] == th && Placed(s, th, known, renews) && InStop(th.pc)
    requires s.lock.None? && (s.phase.Running? ==> s.app.Some?)
    ensures Step(s, t, c).Some?
    ensures var r := Step(s, t, c).value;
            t in r.threads && Left(r.threads[t]) + BuilderLeft(r, NextBuilder(s, t, c, b)) < Left(s.threads[t]) + BuilderLeft(s, b)
  {
    hide StartTurn, RunTurn, MoveTurn;
  }

  lemma MoveLeft(s: State, t: Tid, th: Thread, c: Choice, known: set<Tid>, renews: bool, b: Option<Tid>)
    requires t in s.threads && s.threads[t] == th && Placed(s, th, known, renews)
    requires !InStart(th.pc) && !InStop(th.pc) && !th.pc.Done? && s.lock.None? && !c.fails
    ensures Step(s, t, c).Some?
    ensures var r := Step(s, t, c).value;
            t in r.threads && Left(r.threads[t]) + BuilderLeft(r, NextBuilder(s, t, c, b)) < Left(s.threads[t]) + BuilderLeft(s, b)
  {
    hide StartTurn, RunTurn, StopTurn;
  }

  /** Once the caller is done, a goroutine still building can step on. */
  lemma BuilderSteps(s: State, t: Tid, u: Tid, known: set<Tid>, b: Option<Tid>, d: Option<Tid>, c: Choice)
    requires t in s.threads && Coherent(s, b, d) && OthersRest(s, t, known) && s.threads[t].pc.Done?
    requires u in s.threads && !Resting(s.threads[u].pc) && !c.fails
    ensures Step(s, u, c).Some?
    ensures var r := Step(s, u, c).value;
            t in r.threads && r.threads[t].pc.Done? && BuilderLeft(r, NextBuilder(s, u, c, b)) < BuilderLeft(s, b)
  {
    assert ThreadCoheres(s, b, d, u, s.threads[u]);
    OnlyCallerLocks(s, t, known, b, d);
    assert s.lock.None?;
    hide StartTurn, MoveTurn, StopTurn;
  }

  /** From wherever an undisturbed call is, it can go on to its end. */
  lemma CallCanFinish(s: State, t: Tid, known: set<Tid>, renews: bool, phase: Phase, dir: Dir, b: Option<Tid>, d: Option<Tid>)
      returns (actions: seq<Action>)
    requires OnCourse(s, t, known, renews, phase, dir, b, d)
    ensures AllSmooth(actions) && Run(true, s, actions).Some? && AtRest(Run(true, s, actions).value)
    decreases Left(s.threads[t]) + BuilderLeft(s, b)
  {
    var id := FreeId(s.threads.Keys);
    var c := Choice(false, false, id);
    if AtRest(s) {
      actions := [];
      assert Run(true, s, []) == Some(s);
    } else {
      var u := t;
      if s.threads[t].pc.Done? {
        u :| u in s.threads && !Resting(s.threads[u].pc);
        BuilderSteps(s, t, u, known, b, d, c);
      } else {
        CallerSteps(s, t, known, renews, b, d, c);
      }
      StepOnCourse(s, t, u, c, known, renews, phase, dir, b, d);
      hide OnCourse, Step, AtRest, BuilderLeft, Left, NextBuilder, NextStopper, Run;
      var r := Step(s, u, c).value;
      ActIsStep(s, u, c);
      actions := CallCanFinish(r, t, known, renews, phase, dir, NextBuilder(s, u, c, b), NextStopper(s, u, d));
      RunCons(s, Go(u, c), actions);
      actions := [Go(u, c)] + actions;
    }
  }

  lemma ActIsStep(s: State, u: Tid, c: Choice)
    requires u in s.threads
    ensures Act(true, s, Go(u, c)) == Step(s, u, c)
  {
    hide Step;
  }

  /** So an undisturbed call can always go on to the end that UndisturbedCallEnds names,
      however it was scheduled so far. */
  lemma UndisturbedCallCanEnd(s: State, call: Action, before: seq<Action>) returns (actions: seq<Action>)
    requires Settled(s) && Callable(s, call)
    requires AllSmooth(before) && Run(true, Add(s, call.t, Begun(call)), before).Some?
    ensures AllSmooth(actions)
    ensures var mid := Run(true, Add(s, call.t, Begun(call)), before).value;
            Run(true, mid, actions).Some? && AtRest(Run(true, mid, actions).value)
  {
    hide Settled, AllSmooth, Run, AtRest, OnCourse, Renews, EndPhase, EndDir, Begun, Add;
    CallOnCourse(s, call);
    var begun, known := Add(s, call.t, Begun(call)), s.threads.Keys;
    var b, d := RunOnCourse(begun, before, call.t, known, Renews(s, call), EndPhase(s, Begun(call)), EndDir(s, Begun(call)), None, None);
    actions := CallCanFinish(Run(true, begun, before).value, call.t, known, Renews(s, call), EndPhase(s, Begun(call)), EndDir(s, Begun(call)), b, d);
  }

  // ---- Settled states are those runs come to rest in ----

  /** The guard is up only while somebody who will drop it is under way. */
  predicate GuardHasUser(s: State) {
    s.relocating ==> exists u :: u in s.threads && Drops(s.threads[u])
  }

  predicate Drops(th: Thread) { Guarded(th) || th.pc.ClearGuard? }

  predicate KeepsUser(s: State, th: Thread, turn: Turn) {
    && (turn.s.relocating ==> (s.relocating && !Drops(th)) || Drops(turn.th))
    && turn.s.threads.Keys >= s.threads.Keys
    && forall u :: u in s.threads ==> turn.s.threads[u] == s.threads[u]
  }

  lemma StartKeepsUser(s: State, t: Tid, th: Thread, c: Choice)
    requires Shaped(th) && StartTurn(s, t, th, c).Some?
    ensures KeepsUser(s, th, StartTurn(s, t, th, c).value)
  {
  }

  lemma RunKeepsUser(s: State, t: Tid, th: Thread, c: Choice)
    requires Shaped(th) && RunTurn(s, t, th, c).Some?
    ensures KeepsUser(s, th, RunTurn(s, t, th, c).value)
  {
  }

  lemma StopKeepsUser(s: State, th: Thread)
    requires Shaped(th) && StopTurn(s, th).Some?
    ensures KeepsUser(s, th, StopTurn(s, th).value)
  {
  }

  lemma MoveKeepsUser(s: State, th: Thread, c: Choice)
    requires Shaped(th) && MoveTurn(s, th, c).Some?
    ensures KeepsUser(s, th, MoveTurn(s, th, c).value)
  {
  }

  lemma TurnKeepsUser(s: State, t: Tid, th: Thread, c: Choice)
    requires Shaped(th) && NextTurn(s, t, th, c).Some?
    ensures KeepsUser(s, th, NextTurn(s, t, th, c).value)
  {
    hide StartTurn, RunTurn, StopTurn, MoveTurn, KeepsUser, Shaped;
    if InStart(th.pc) {
      StartKeepsUser(s, t, th, c);
    } else if InStop(th.pc) {
      StopKeepsUser(s, th);
    } else if InRun(th.pc) {
      RunKeepsUser(s, t, th, c);
    } else {
      MoveKeepsUser(s, th, c);
    }
  }

  lemma StepKeepsUser(s: State, t: Tid, c: Choice)
    requires GuardHasUser(s) && t in s.threads && Shaped(s.threads[t]) && Step(s, t, c).Some?
    ensures GuardHasUser(Step(s, t, c).value)
  {
    hide NextTurn, Drops;
    TurnKeepsUser(s, t, s.threads[t], c);
    var turn, r := NextTurn(s, t, s.threads[t], c).value, Step(s, t, c).value;
    assert r.threads[t] == turn.th;
    if r.relocating && !Drops(turn.th) {
      var u :| u in s.threads && Drops(s.threads[u]);
      assert r.threads[u] == s.threads[u];
    }
  }

  lemma {:induction false} RunGuardHasUser(single: bool, dir: Dir, actions: seq<Action>)
    requires Run(single, Init(dir), actions).Some?
    ensures GuardHasUser(Run(single, Init(dir), actions).value)
  {
    if actions != [] {
      var front, last := actions[..|actions| - 1], actions[|actions| - 1];
      RunSnoc(single, Init(dir), actions);
      RunGuardHasUser(single, dir, front);
      var b, d := RunIsCoherent(single, dir, front);
      var s := Run(single, Init(dir), front).value;
      hide Run, Coherent, Drops, Step;
      if last.Go? {
        CoherentIsShaped(s, last.t, b, d);
        StepKeepsUser(s, last.t, last.c);
      } else if s.relocating {
        var u :| u in s.threads && Drops(s.threads[u]);
        assert Act(single, s, last).value.threads[u] == s.threads[u];
      }
    }
  }

  lemma CoherentIsShaped(s: State, t: Tid, b: Option<Tid>, d: Option<Tid>)
    requires Coherent(s, b, d) && t in s.threads
    ensures Shaped(s.threads[t])
  {
    assert ThreadCoheres(s, b, d, t, s.threads[t]);
  }

  lemma NobodyDrops(s: State, b: Option<Tid>, d: Option<Tid>)
    requires Coherent(s, b, d) && AtRest(s) && GuardHasUser(s)
    ensures !s.relocating
  {
    forall u | u in s.threads ensures !Drops(s.threads[u]) {
      assert Resting(s.threads[u].pc) && ThreadCoheres(s, b, d, u, s.threads[u]);
    }
  }

  /** Any run with one move at a time and no stale serve failure that comes to rest has
      settled, unless a move has stranded the data. */
  lemma RunsSettle(dir: Dir, actions: seq<Action>)
    requires Run(true, Init(dir), actions).Some? && NoStaleFailure(true, dir, actions)
    requires var s := Run(true, Init(dir), actions).value; AtRest(s) && !s.stranded
    ensures Settled(Run(true, Init(dir), actions).value)
  {
    hide *;
    var s := Run(true, Init(dir), actions).value;
    var b, d := RunIsCoherent(true, dir, actions);
    var m := RunKeepsGuardUp(dir, actions);
    RunIsTracked(true, dir, actions);
    EveryInstanceIsOwned(true, dir, actions);
    RunGuardHasUser(true, dir, actions);
    NobodyDrops(s, b, d);
    RestIsFree(s, b, d);
    GuardAtRest(s, m);
    SettledIs(s);
  }

  lemma GuardAtRest(s: State, m: Option<Tid>)
    requires GuardHolds(s, m) && AtRest(s) && !s.stranded
    ensures s.disk == s.holder && (s.app.Some? ==> s.app.value.dir == s.holder)
  {
    forall u | u in s.threads ensures !s.threads[u].pc.Remap? && !s.threads[u].pc.Swap? {
      assert Resting(s.threads[u].pc);
    }
  }

  lemma SettledIs(s: State)
    ensures Settled(s)
       <==> && Coherent(s, None, None) && Tracked(s) && AllOwned(s) && AtRest(s)
            && !s.relocating && s.disk == s.holder && (s.app.Some? ==> s.app.value.dir == s.holder)
  {
    hide Coherent, Tracked, AllOwned, AtRest;
  }

  // ---- When an outside call fails ----

  /** A Start refused for the guard or for missing settings changes nothing but its own
      place and the lock it gives back. */
  lemma RefusedStartChangesNothing(s: State, t: Tid, c: Choice)
    requires t in s.threads && Shaped(s.threads[t]) && Step(s, t, c).Some?
    requires (s.threads[t].pc.StartCheck? && s.relocating) || (s.threads[t].pc.StartMissing? && c.fails)
    ensures var r := Step(s, t, c).value;
            && r == s.(lock := None, threads := s.threads[t := r.threads[t]])
            && !InStart(r.threads[t].pc) && (s.threads[t].after.Return? ==> r.threads[t].pc.Done?)
  {
  }

  /** A server that cannot be built leaves the supervisor failed and nothing more open
      than before. */
  lemma FailedBuildFails(s: State, t: Tid, c: Choice)
    requires t in s.threads && s.threads[t].pc.RunBuild? && c.fails && Step(s, t, c).Some?
    ensures var r := Step(s, t, c).value;
            r.phase == Failed && r.app == s.app && r.open == s.open && r.threads[t].pc.Done? && r.holder == s.holder
  {
  }

  /** A serve error of the running server makes the supervisor failed without an app,
      and its goroutine goes on to close the instance; during a Stop it does nothing. */
  lemma ServeErrorFails(s: State, t: Tid, c: Choice)
    requires t in s.threads && s.threads[t].pc.RunFailed? && Step(s, t, c).Some?
    ensures var r := Step(s, t, c).value;
            if s.phase.Running? then r.phase == Failed && r.app.None? && r.threads[t].pc == RunClose(s.threads[t].pc.app) && r.open == s.open
            else r == s.(threads := s.threads[t := r.threads[t]]) && r.threads[t].pc.Done?
  {
  }

  /** The goroutine closes its own instance and is done; nothing else changes. */
  lemma CloseEndsTheGoroutine(s: State, t: Tid, c: Choice)
    requires t in s.threads && s.threads[t].pc.RunClose? && Step(s, t, c).Some?
    ensures var r := Step(s, t, c).value;
            r == s.(open := s.open - {s.threads[t].pc.app.runner}, threads := s.threads[t := r.threads[t]]) && r.threads[t].pc.Done?
  {
  }

  /** A move of which a step fails after the check drops the guard without a restart,
      or, while the data is still there, tries the Start that the guard refuses; the
      holder still names the old directory unless the swap was done. */
  lemma FailedMoveGivesUp(s: State, t: Tid, c: Choice)
    requires t in s.threads && c.fails && Step(s, t, c).Some?
    requires var pc := s.threads[t].pc; pc.Relocate? || pc.Remap? || pc.Autostart?
    ensures var pc, r := s.threads[t].pc, Step(s, t, c).value;
            && r.holder == s.holder && r.phase == s.phase && r.relocating == s.relocating
            && (if pc.Relocate? && !c.gone && pc.was then r.threads[t] == Thread(StartEnter, MoveResumed)
                else r.threads[t].pc == ClearGuard)
            && (pc.Relocate? && !c.gone ==> r.disk == s.disk)
  {
  }

  // ---- What a move remembers ----

  /** In the run the thread has completed a Stop. */
  predicate HasStopped(single: bool, s: State, actions: seq<Action>, t: Tid)
    requires Run(single, s, actions).Some?
  {
    if actions == [] then false
    else
      RunSnoc(single, s, actions);
      var front, last := actions[..|actions| - 1], actions[|actions| - 1];
      || HasStopped(single, s, front, t)
      || (var mid := Run(single, s, front).value; last.Go? && last.t == t && t in mid.threads && mid.threads[t].pc.StopFinish?)
  }

  /** A move restarts the server, or means to, exactly when its own Stop is done. */
  predicate Remembers(th: Thread, stopped: bool) {
    && (InMove(th.pc) ==> (th.pc.was <==> stopped))
    && (th.pc.MoveEnter? || th.pc.MoveGuard? || th.pc.MoveCheck? || th.after.MoveOn? ==> !stopped)
    && (th.after.MoveRestarted? || th.after.MoveResumed? ==> stopped)
  }

  lemma StartRemembers(s: State, t: Tid, th: Thread, c: Choice, stopped: bool)
    requires Shaped(th) && Remembers(th, stopped) && StartTurn(s, t, th, c).Some?
    ensures Remembers(StartTurn(s, t, th, c).value.th, stopped) && !th.pc.StopFinish?
  {
  }

  lemma RunRemembers(s: State, t: Tid, th: Thread, c: Choice, stopped: bool)
    requires Shaped(th) && Remembers(th, stopped) && RunTurn(s, t, th, c).Some?
    ensures Remembers(RunTurn(s, t, th, c).value.th, stopped) && !th.pc.StopFinish?
  {
  }

  lemma StopRemembers(s: State, th: Thread, stopped: bool)
    requires Shaped(th) && Remembers(th, stopped) && StopTurn(s, th).Some?
    ensures Remembers(StopTurn(s, th).value.th, stopped || th.pc.StopFinish?)
  {
  }

  lemma MoveRemembers(s: State, th: Thread, c: Choice, stopped: bool)
    requires Shaped(th) && Remembers(th, stopped) && MoveTurn(s, th, c).Some?
    ensures Remembers(MoveTurn(s, th, c).value.th, stopped) && !th.pc.StopFinish?
  {
  }

  lemma TurnRemembers(s: State, t: Tid, th: Thread, c: Choice, stopped: bool)
    requires Shaped(th) && Remembers(th, stopped) && NextTurn(s, t, th, c).Some?
    ensures Remembers(NextTurn(s, t, th, c).value.th, stopped || th.pc.StopFinish?)
  {
    hide StartTurn, RunTurn, StopTurn, MoveTurn, Remembers, Shaped;
    if InStart(th.pc) {
      StartRemembers(s, t, th, c, stopped);
    } else if InStop(th.pc) {
      StopRemembers(s, th, stopped);
    } else if InRun(th.pc) {
      RunRemembers(s, t, th, c, stopped);
    } else {
      MoveRemembers(s, th, c, stopped);
    }
  }

  lemma StepThreads(s: State, t: Tid, c: Choice)
    requires t in s.threads && Step(s, t, c).Some?
    ensures NextTurn(s, t, s.threads[t], c).Some?
    ensures var turn := NextTurn(s, t, s.threads[t], c).value;
            Step(s, t, c).value.threads == turn.s.threads[t := turn.th]
  {
    hide NextTurn;
  }

  lemma HasStoppedSnoc(single: bool, s: State, actions: seq<Action>, t: Tid)
    requires actions != [] && Run(single, s, actions).Some?
    ensures Run(single, s, actions[..|actions| - 1]).Some?
    ensures var front, last := actions[..|actions| - 1], actions[|actions| - 1];
            var mid := Run(single, s, front).value;
            HasStopped(single, s, actions, t) ==
              (HasStopped(single, s, front, t) || (last.Go? && last.t == t && t in mid.threads && mid.threads[t].pc.StopFinish?))
  {
    RunSnoc(single, s, actions);
    hide Run;
  }

  /** Whatever interleaves: at every place from the relocation to the guard's dropping
      a move's flag says whether its own Stop was completed, and it calls Start only
      if it was. */
  lemma {:induction false} MovesRemember(single: bool, dir: Dir, actions: seq<Action>, t: Tid)
    requires Run(single, Init(dir), actions).Some?
    ensures var s := Run(single, Init(dir), actions).value;
            if t in s.threads then Remembers(s.threads[t], HasStopped(single, Init(dir), actions, t))
            else !HasStopped(single, Init(dir), actions, t)
  {
    if actions != [] {
      var front, last := actions[..|actions| - 1], actions[|actions| - 1];
      HasStoppedSnoc(single, Init(dir), actions, t);
      RunSnoc(single, Init(dir), actions);
      MovesRemember(single, dir, front, t);
      var b, d := RunIsCoherent(single, dir, front);
      var s := Run(single, Init(dir), front).value;
      hide Run, Coherent, HasStopped, NextTurn, Step;
      if last.Go? {
        CoherentIsShaped(s, last.t, b, d);
        StepThreads(s, last.t, last.c);
        if t == last.t {
          TurnRemembers(s, t, s.threads[t], last.c, HasStopped(single, Init(dir), front, t));
        } else {
          TurnLeavesThreads(s, last.t, s.threads[last.t], last.c);
        }
      }
    }
  }

  lemma TurnLeavesThreads(s: State, t: Tid, th: Thread, c: Choice)
    requires NextTurn(s, t, th, c).Some?
    ensures forall u :: u in s.threads ==> u in NextTurn(s, t, th, c).value.s.threads
    ensures forall u :: u in NextTurn(s, t, th, c).value.s.threads ==>
              if u in s.threads then NextTurn(s, t, th, c).value.s.threads[u] == s.threads[u]
              else NextTurn(s, t, th, c).value.s.threads[u] == Thread(RunEnter, Return)
  {
  }
}

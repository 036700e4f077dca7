/** Who closes a server instance, and the runs that show how far the lifecycle's
    guarantees reach. */
module LifecycleRuns {
  import opened Wrappers
  import opened Lifecycle

  // ---- Closing each instance ----

  /** The held app is open while running and its goroutine is in, or has
      returned from, serving it; a thread taking an app down takes down the
      held one; serving goroutines know their own app. */
  predicate ThreadTracked(s: State, t: Tid, th: Thread) {
    && (th.pc.RunServe? || th.pc.RunFailed? || th.pc.RunClose? ==> th.pc.app.runner == t)
    && (th.pc.StopTeardown? ==> s.app == Some(th.pc.app))
    && (th.pc.StopFinish? && s.app.Some? ==> s.app.value.runner !in s.open)
    && (s.app.Some? && s.app.value.runner == t ==> th.pc.RunServe? || th.pc.RunFailed? || th.pc.Done?)
  }

  predicate Tracked(s: State) {
    && (forall t :: t in s.threads ==> ThreadTracked(s, t, s.threads[t]))
    && (s.app.Some? ==> s.app.value.runner in s.threads)
    && (s.phase.Running? && s.app.Some? ==> s.app.value.runner in s.open)
  }

  /** Somebody will close the instance: it is the held one, or its goroutine is
      about to. */
  predicate Owned(s: State, x: Tid) {
    (s.app.Some? && s.app.value.runner == x) || (x in s.threads && s.threads[x].pc.RunClose?)
  }

  predicate AllOwned(s: State) { forall x :: x in s.open ==> Owned(s, x) }

  /** A serving goroutine whose error arrives when another instance is running:
      the state test passes though the app is not its own. */
  predicate StaleFailure(s: State, t: Tid)
    requires t in s.threads
  {
    s.threads[t].pc.RunFailed? && s.phase.Running? && s.app.Some? && s.app.value.runner != t
  }

  lemma RunKeepsTracked(s: State, t: Tid, c: Choice, b: Option<Tid>, d: Option<Tid>)
    requires Coherent(s, b, d) && Tracked(s) && t in s.threads && RunTurn(s, t, s.threads[t], c).Some?
    ensures Tracked(Put(RunTurn(s, t, s.threads[t], c).value, t))
  {
    var r := Put(RunTurn(s, t, s.threads[t], c).value, t);
    assert ThreadCoheres(s, b, d, t, s.threads[t]) && ThreadTracked(s, t, s.threads[t]);
    forall u | u in r.threads ensures ThreadTracked(r, u, r.threads[u]) {
      assert ThreadTracked(s, u, s.threads[u]) && ThreadCoheres(s, b, d, u, s.threads[u]);
    }
  }

  lemma StopKeepsTracked(s: State, t: Tid, b: Option<Tid>, d: Option<Tid>)
    requires Coherent(s, b, d) && Tracked(s) && t in s.threads && StopTurn(s, s.threads[t]).Some?
    ensures Tracked(Put(StopTurn(s, s.threads[t]).value, t))
  {
    var r := Put(StopTurn(s, s.threads[t]).value, t);
    assert ThreadCoheres(s, b, d, t, s.threads[t]) && ThreadTracked(s, t, s.threads[t]);
    forall u | u in r.threads ensures ThreadTracked(r, u, r.threads[u]) {
      assert ThreadTracked(s, u, s.threads[u]) && ThreadCoheres(s, b, d, u, s.threads[u]);
    }
  }

  /** A turn by a thread that is not serving, closing or stopping anything. */
  lemma OtherTurnKeepsTracked(s: State, t: Tid, turn: Turn)
    requires Tracked(s) && t in s.threads && !(s.app.Some? && s.app.value.runner == t)
    requires turn.s.app == s.app && turn.s.open == s.open && (turn.s.phase == s.phase || !turn.s.phase.Running?)
    requires turn.s.threads.Keys >= s.threads.Keys
    requires forall u :: u in turn.s.threads && u != t ==>
               if u in s.threads then turn.s.threads[u] == s.threads[u] else turn.s.threads[u].pc.RunEnter? 
    requires forall u :: u in turn.s.threads && u !in s.threads ==> !(s.app.Some? && s.app.value.runner == u)
    requires !turn.th.pc.RunServe? && !turn.th.pc.RunFailed? && !turn.th.pc.RunClose? && !Tears(turn.th.pc)
    ensures Tracked(Put(turn, t))
  {
    var r := Put(turn, t);
    forall u | u in r.threads ensures ThreadTracked(r, u, r.threads[u]) {
      assert u in s.threads ==> ThreadTracked(s, u, s.threads[u]);
    }
  }

  lemma MoveKeepsTracked(s: State, t: Tid, c: Choice)
    requires Tracked(s) && t in s.threads && Shaped(s.threads[t]) && MoveTurn(s, s.threads[t], c).Some?
    ensures Tracked(Put(MoveTurn(s, s.threads[t], c).value, t))
  {
    MoveTurnIsNeutral(s, s.threads[t], c);
    assert ThreadTracked(s, t, s.threads[t]);
    hide Tracked;
    OtherTurnKeepsTracked(s, t, MoveTurn(s, s.threads[t], c).value);
  }

  lemma StartKeepsTracked(s: State, t: Tid, c: Choice)
    requires Tracked(s) && t in s.threads && Shaped(s.threads[t]) && StartTurn(s, t, s.threads[t], c).Some?
    ensures Tracked(Put(StartTurn(s, t, s.threads[t], c).value, t))
  {
    assert ThreadTracked(s, t, s.threads[t]);
    assert s.app.Some? ==> s.app.value.runner in s.threads;
    hide Tracked;
    OtherTurnKeepsTracked(s, t, StartTurn(s, t, s.threads[t], c).value);
  }

  lemma StepKeepsTracked(s: State, t: Tid, c: Choice, b: Option<Tid>, d: Option<Tid>)
    requires Coherent(s, b, d) && Tracked(s) && t in s.threads && Step(s, t, c).Some?
    ensures Tracked(Step(s, t, c).value)
  {
    assert ThreadCoheres(s, b, d, t, s.threads[t]);
    hide Coherent, Tracked, RunTurn, StopTurn, StartTurn, MoveTurn;
    var pc := s.threads[t].pc;
    if pc.RunEnter? || pc.RunBuild? || pc.RunServe? || pc.RunFailed? || pc.RunClose? {
      RunKeepsTracked(s, t, c, b, d);
    } else if pc.StopEnter? || pc.StopTeardown? || pc.StopFinish? {
      StopKeepsTracked(s, t, b, d);
    } else if pc.StartEnter? || pc.StartCheck? || pc.StartMissing? || pc.StartCommit? || pc.StartSpawn? {
      StartKeepsTracked(s, t, c);
    } else {
      MoveKeepsTracked(s, t, c);
    }
  }

  lemma StaleFailureOrphans(s: State, t: Tid, c: Choice)
    requires Tracked(s) && t in s.threads && StaleFailure(s, t) && Step(s, t, c).Some?
    ensures !AllOwned(Step(s, t, c).value)
  {
    var x := s.app.value.runner;
    assert ThreadTracked(s, x, s.threads[x]) && ThreadTracked(s, t, s.threads[t]);
    assert x in Step(s, t, c).value.open && !Owned(Step(s, t, c).value, x);
  }

  /** From any tracked state in which every open instance will be closed, a step
      keeps that so exactly when it is not a stale serve failure. */
  lemma OwnershipLostOnlyByStaleFailure(s: State, t: Tid, c: Choice, b: Option<Tid>, d: Option<Tid>)
    requires Coherent(s, b, d) && Tracked(s) && AllOwned(s) && t in s.threads && Step(s, t, c).Some?
    ensures AllOwned(Step(s, t, c).value) <==> !StaleFailure(s, t)
  {
    var r := Step(s, t, c).value;
    if StaleFailure(s, t) {
      StaleFailureOrphans(s, t, c);
    } else {
      assert ThreadCoheres(s, b, d, t, s.threads[t]) && ThreadTracked(s, t, s.threads[t]);
      assert s.app.Some? <==> s.phase.Running? || s.phase.Stopping?;
      assert s.phase.Starting? <==> b.Some?;
      hide Coherent, Tracked, MoveTurn, StartTurn;
      var pc := s.threads[t].pc;
      if pc.StartEnter? || pc.StartCheck? || pc.StartMissing? || pc.StartCommit? || pc.StartSpawn? {
        StartLeavesInstances(s, t, c);
      } else if !(pc.RunEnter? || pc.RunBuild? || pc.RunServe? || pc.RunFailed? || pc.RunClose? || pc.StopEnter? || Tears(pc)) {
        MoveTurnIsNeutral(s, s.threads[t], c);
      }
      forall x | x in r.open ensures Owned(r, x) {
        assert x in s.open ==> Owned(s, x);
      }
    }
  }

  lemma StartLeavesInstances(s: State, t: Tid, c: Choice)
    requires t in s.threads && StartTurn(s, t, s.threads[t], c).Some?
    ensures var turn := StartTurn(s, t, s.threads[t], c).value;
            && turn.s.app == s.app && turn.s.open == s.open && !s.threads[t].pc.RunClose?
            && forall u :: u in s.threads ==> u in turn.s.threads && turn.s.threads[u] == s.threads[u]
  {
  }

  predicate NoStaleFailure(single: bool, dir: Dir, actions: seq<Action>)
    requires Run(single, Init(dir), actions).Some?
  {
    if actions == [] then true
    else
      var before := actions[..|actions| - 1];
      var s, a := Run(single, Init(dir), before).value, actions[|actions| - 1];
      NoStaleFailure(single, dir, before) && (a.Go? && a.t in s.threads ==> !StaleFailure(s, a.t))
  }

  lemma {:induction false} RunIsTracked(single: bool, dir: Dir, actions: seq<Action>)
    requires Run(single, Init(dir), actions).Some?
    ensures Tracked(Run(single, Init(dir), actions).value)
  {
    if actions != [] {
      var n := |actions| - 1;
      var s, a := Run(single, Init(dir), actions[..n]).value, actions[n];
      RunIsTracked(single, dir, actions[..n]);
      if a.Go? {
        var b, d := RunIsCoherent(single, dir, actions[..n]);
        hide Tracked, Coherent, Step;
        StepKeepsTracked(s, a.t, a.c, b, d);
      } else {
        var r := Act(single, s, a).value;
        forall u | u in r.threads ensures ThreadTracked(r, u, r.threads[u]) {
          assert u in s.threads ==> ThreadTracked(s, u, s.threads[u]);
        }
      }
    }
  }

  /** In every run without a stale serve failure each instance built and not yet
      closed is held by the supervisor or about to be closed by its goroutine. */
  lemma {:induction false} EveryInstanceIsOwned(single: bool, dir: Dir, actions: seq<Action>)
    requires Run(single, Init(dir), actions).Some? && NoStaleFailure(single, dir, actions)
    ensures AllOwned(Run(single, Init(dir), actions).value)
  {
    if actions != [] {
      var n := |actions| - 1;
      var s, a := Run(single, Init(dir), actions[..n]).value, actions[n];
      EveryInstanceIsOwned(single, dir, actions[..n]);
      if a.Go? {
        var b, d := RunIsCoherent(single, dir, actions[..n]);
        RunIsTracked(single, dir, actions[..n]);
        hide Tracked, Coherent, Step, AllOwned;
        OwnershipLostOnlyByStaleFailure(s, a.t, a.c, b, d);
      } else {
        var r := Act(single, s, a).value;
        forall x | x in r.open ensures Owned(r, x) {
          assert Owned(s, x);
        }
      }
    }
  }

  // ---- What is still open during a move ----

  /** A goroutine about to close its instance has it open. */
  predicate ClosingIsOpen(s: State) {
    forall t :: t in s.threads && s.threads[t].pc.RunClose? ==> t in s.open
  }

  lemma RunKeepsClosing(s: State, t: Tid, c: Choice, b: Option<Tid>, d: Option<Tid>)
    requires Coherent(s, b, d) && Tracked(s) && ClosingIsOpen(s) && t in s.threads && !StaleFailure(s, t)
    requires RunTurn(s, t, s.threads[t], c).Some?
    ensures ClosingIsOpen(Put(RunTurn(s, t, s.threads[t], c).value, t))
  {
    assert ThreadTracked(s, t, s.threads[t]);
    hide Coherent;
  }

  lemma StopKeepsClosing(s: State, t: Tid)
    requires Tracked(s) && ClosingIsOpen(s) && t in s.threads && StopTurn(s, s.threads[t]).Some?
    ensures ClosingIsOpen(Put(StopTurn(s, s.threads[t]).value, t))
  {
    assert ThreadTracked(s, t, s.threads[t]);
    if s.threads[t].pc.StopTeardown? {
      var x := s.app.value.runner;
      assert ThreadTracked(s, x, s.threads[x]);
    }
  }

  /** A turn that leaves the open instances alone and starts no closing. */
  lemma OtherTurnKeepsClosing(s: State, t: Tid, c: Choice)
    requires ClosingIsOpen(s) && t in s.threads && Step(s, t, c).Some?
    requires var pc := s.threads[t].pc;
             !pc.RunEnter? && !pc.RunBuild? && !pc.RunServe? && !pc.RunFailed? && !pc.RunClose?
             && !pc.StopEnter? && !pc.StopTeardown? && !pc.StopFinish?
    ensures ClosingIsOpen(Step(s, t, c).value)
  {
    hide RunTurn, StopTurn;
    OtherTurnsLeaveOpen(s, t, s.threads[t], c);
  }

  lemma OtherTurnsLeaveOpen(s: State, t: Tid, th: Thread, c: Choice)
    ensures MoveTurn(s, th, c).Some? ==>
              var turn := MoveTurn(s, th, c).value;
              turn.s.open == s.open && turn.s.threads == s.threads && !turn.th.pc.RunClose?
    ensures StartTurn(s, t, th, c).Some? ==>
              var turn := StartTurn(s, t, th, c).value;
              && turn.s.open == s.open && !turn.th.pc.RunClose?
              && (turn.s.threads == s.threads
                  || (c.id !in s.threads && turn.s.threads == s.threads[c.id := Thread(RunEnter, Return)]))
  {
  }

  lemma StepKeepsClosing(s: State, t: Tid, c: Choice, b: Option<Tid>, d: Option<Tid>)
    requires Coherent(s, b, d) && Tracked(s) && ClosingIsOpen(s) && t in s.threads && !StaleFailure(s, t)
    requires Step(s, t, c).Some?
    ensures ClosingIsOpen(Step(s, t, c).value)
  {
    hide Coherent, Tracked, ClosingIsOpen, StartTurn, RunTurn, StopTurn, MoveTurn, StaleFailure;
    var pc := s.threads[t].pc;
    if pc.RunEnter? || pc.RunBuild? || pc.RunServe? || pc.RunFailed? || pc.RunClose? {
      RunKeepsClosing(s, t, c, b, d);
    } else if pc.StopEnter? || pc.StopTeardown? || pc.StopFinish? {
      StopKeepsClosing(s, t);
    } else {
      OtherTurnKeepsClosing(s, t, c);
    }
  }

  lemma {:induction false} RunClosingIsOpen(single: bool, dir: Dir, actions: seq<Action>)
    requires Run(single, Init(dir), actions).Some? && NoStaleFailure(single, dir, actions)
    ensures ClosingIsOpen(Run(single, Init(dir), actions).value)
  {
    if actions != [] {
      var n := |actions| - 1;
      var s, a := Run(single, Init(dir), actions[..n]).value, actions[n];
      RunClosingIsOpen(single, dir, actions[..n]);
      if a.Go? {
        var b, d := RunIsCoherent(single, dir, actions[..n]);
        RunIsTracked(single, dir, actions[..n]);
        hide Tracked, Coherent, Step, ClosingIsOpen;
        StepKeepsClosing(s, a.t, a.c, b, d);
      }
    }
  }

  /** While a move is in its window, the instances still open are exactly those of
      failed servers that are about to be closed; so the directory is free of
      open instances exactly when no such close is pending. */
  lemma WindowOpenExactlyPendingCloses(dir: Dir, actions: seq<Action>, t: Tid)
    requires Run(true, Init(dir), actions).Some? && NoStaleFailure(true, dir, actions)
    requires t in Run(true, Init(dir), actions).value.threads && InWindow(Run(true, Init(dir), actions).value.threads[t])
    ensures var s := Run(true, Init(dir), actions).value;
            && (forall x :: x in s.open <==> x in s.threads && s.threads[x].pc.RunClose?)
            && (s.open == {} <==> forall x :: x in s.threads ==> !s.threads[x].pc.RunClose?)
  {
    MoveWindowIsQuiet(dir, actions, t);
    EveryInstanceIsOwned(true, dir, actions);
    RunClosingIsOpen(true, dir, actions);
    hide Run, NoStaleFailure;
    OpenExactly(Run(true, Init(dir), actions).value);
  }

  lemma OpenExactly(s: State)
    requires s.app.None? && AllOwned(s) && ClosingIsOpen(s)
    ensures forall x :: x in s.open <==> x in s.threads && s.threads[x].pc.RunClose?
    ensures s.open == {} <==> forall x :: x in s.threads ==> !s.threads[x].pc.RunClose?
  {
    forall x | x in s.open ensures x in s.threads && s.threads[x].pc.RunClose? {
      assert Owned(s, x);
    }
    if forall x :: x in s.threads ==> !s.threads[x].pc.RunClose? {
      assert s.open == {};
    }
  }

  // ---- When the guard is lost ----

  /** Every move that relies on the guard has it up. */
  predicate GuardsUp(s: State) { forall t :: t in s.threads && Guarded(s.threads[t]) ==> s.relocating }

  /** A move about to clear the flag while another one relies on it. */
  predicate ClearsAnothersGuard(s: State, t: Tid)
    requires t in s.threads
  {
    && (s.threads[t].pc.DropGuard? || s.threads[t].pc.ClearGuard?)
    && exists u :: u in s.threads && u != t && Guarded(s.threads[u])
  }

  /** What a turn may do to the flag and to its own thread. */
  predicate GuardTurn(s: State, th: Thread, turn: Turn) {
    if th.pc.DropGuard? || th.pc.ClearGuard? then !turn.s.relocating && !Guarded(turn.th)
    else if th.pc.MoveGuard? then turn.s.relocating
    else turn.s.relocating == s.relocating && (Guarded(turn.th) ==> Guarded(th))
  }

  lemma MoveGuardTurn(s: State, th: Thread, c: Choice)
    requires Shaped(th) && MoveTurn(s, th, c).Some?
    ensures GuardTurn(s, th, MoveTurn(s, th, c).value) && MoveTurn(s, th, c).value.s.threads == s.threads
  {
  }

  lemma OtherGuardTurn(s: State, t: Tid, th: Thread, c: Choice)
    requires Shaped(th)
    ensures StartTurn(s, t, th, c).Some? ==> GuardTurn(s, th, StartTurn(s, t, th, c).value)
    ensures RunTurn(s, t, th, c).Some? ==> GuardTurn(s, th, RunTurn(s, t, th, c).value) && RunTurn(s, t, th, c).value.s.threads == s.threads
    ensures StopTurn(s, th).Some? ==> GuardTurn(s, th, StopTurn(s, th).value) && StopTurn(s, th).value.s.threads == s.threads
  {
  }

  /** What a step does to the flag, to its own thread and to the others. */
  lemma TurnAndGuard(s: State, t: Tid, c: Choice)
    requires t in s.threads && Shaped(s.threads[t]) && Step(s, t, c).Some?
    ensures var r := Step(s, t, c).value;
            && t in r.threads && (forall u :: u in s.threads ==> u in r.threads)
            && (forall u :: u in r.threads && u != t ==>
                  if u in s.threads then r.threads[u] == s.threads[u] else !Guarded(r.threads[u]))
            && GuardTurn(s, s.threads[t], Turn(r.threads[t], r))
  {
    var th := s.threads[t];
    OtherGuardTurn(s, t, th, c);
    OtherTurnsLeaveOpen(s, t, th, c);
    if MoveTurn(s, th, c).Some? {
      MoveGuardTurn(s, th, c);
    }
    hide StartTurn, RunTurn, StopTurn, MoveTurn;
  }

  /** From any state in which every relying move has its guard, a step keeps that
      so exactly when it is not a move clearing the flag another one relies on. */
  lemma GuardLostOnlyByAnotherMove(s: State, t: Tid, c: Choice, b: Option<Tid>, d: Option<Tid>)
    requires Coherent(s, b, d) && GuardsUp(s) && t in s.threads && Step(s, t, c).Some?
    ensures GuardsUp(Step(s, t, c).value) <==> !ClearsAnothersGuard(s, t)
  {
    assert ThreadCoheres(s, b, d, t, s.threads[t]);
    TurnAndGuard(s, t, c);
    hide Step, Guarded, Coherent;
    var r := Step(s, t, c).value;
    if ClearsAnothersGuard(s, t) {
      var u :| u in s.threads && u != t && Guarded(s.threads[u]);
      assert u in r.threads && Guarded(r.threads[u]);
    }
  }

  predicate NobodyClearsAnothersGuard(single: bool, dir: Dir, actions: seq<Action>)
    requires Run(single, Init(dir), actions).Some?
  {
    if actions == [] then true
    else
      var before := actions[..|actions| - 1];
      var s, a := Run(single, Init(dir), before).value, actions[|actions| - 1];
      NobodyClearsAnothersGuard(single, dir, before) && (a.Go? && a.t in s.threads ==> !ClearsAnothersGuard(s, a.t))
  }

  /** However many moves overlap, in a run without such a step no relying move
      ever finds its guard down. */
  lemma {:induction false} GuardStaysUp(single: bool, dir: Dir, actions: seq<Action>)
    requires Run(single, Init(dir), actions).Some? && NobodyClearsAnothersGuard(single, dir, actions)
    ensures GuardsUp(Run(single, Init(dir), actions).value)
  {
    if actions != [] {
      var n := |actions| - 1;
      var s, a := Run(single, Init(dir), actions[..n]).value, actions[n];
      GuardStaysUp(single, dir, actions[..n]);
      if a.Go? {
        var b, d := RunIsCoherent(single, dir, actions[..n]);
        hide Step, GuardsUp, ClearsAnothersGuard, Coherent;
        GuardLostOnlyByAnotherMove(s, a.t, a.c, b, d);
      }
    }
  }

  // ---- Runs that bound the guarantees ----

  const GO: Choice := Choice(false, false, 0)
  const FAIL: Choice := Choice(true, false, 0)

  lemma Extend(single: bool, dir: Dir, actions: seq<Action>, a: Action)
    requires Run(single, Init(dir), actions).Some?
    ensures Run(single, Init(dir), actions + [a]) == Act(single, Run(single, Init(dir), actions).value, a)
  {
    assert (actions + [a])[..|actions|] == actions;
  }

  /** One step of t, whose entry is all that differs from s; `next` is the rest
      of the state afterwards. */
  lemma Advance(single: bool, dir: Dir, actions: seq<Action>, s: State, t: Tid, th: Thread, c: Choice, next: State, th': Thread)
    requires Run(single, Init(dir), actions) == Some(Add(s, t, th)) && next.threads == s.threads
    requires NextTurn(Add(s, t, th), t, th, c) == Some(Turn(th', Add(next, t, th)))
    ensures Run(single, Init(dir), actions + [Go(t, c)]) == Some(Add(next, t, th'))
  {
    Extend(single, dir, actions, Go(t, c));
    assert s.threads[t := th][t := th'] == s.threads[t := th'];
  }

  /** The state a finished Start by `caller` leaves, its server built by `runner`. */
  function Started(s: State, caller: Tid, runner: Tid): State {
    Add(Add(s, caller, Thread(Done, Return)), runner, Thread(RunServe(App(runner, s.holder)), Return))
    .(phase := Running, app := Some(App(runner, s.holder)), open := s.open + {runner})
  }

  /** With nothing in the way a called Start brings the server up. */
  lemma StartBringsUp(single: bool, dir: Dir, before: seq<Action>, s: State, caller: Tid, runner: Tid) returns (actions: seq<Action>)
    requires Run(single, Init(dir), before) == Some(s)
    requires Idle(s.phase) && s.app.None? && s.lock.None? && !s.relocating && caller !in s.threads && runner !in s.threads && caller != runner
    ensures Run(single, Init(dir), actions) == Some(Started(s, caller, runner))
  {
    hide Run;
    var th := Thread(StartEnter, Return);
    Extend(single, dir, before, CallStart(caller));
    actions := before + [CallStart(caller)];
    Advance(single, dir, actions, s, caller, th, GO, s.(lock := Some(caller)), th.(pc := StartCheck));
    actions := actions + [Go(caller, GO)];
    Advance(single, dir, actions, s.(lock := Some(caller)), caller, th.(pc := StartCheck), GO, s.(lock := Some(caller)), th.(pc := StartMissing));
    actions := actions + [Go(caller, GO)];
    Advance(single, dir, actions, s.(lock := Some(caller)), caller, th.(pc := StartMissing), GO, s.(lock := Some(caller)), th.(pc := StartCommit));
    actions := actions + [Go(caller, GO)];
    Advance(single, dir, actions, s.(lock := Some(caller)), caller, th.(pc := StartCommit), GO, s.(phase := Starting), th.(pc := StartSpawn));
    actions := actions + [Go(caller, GO)];
    actions := SpawnBringsUp(single, dir, actions, s, caller, runner);
  }

  lemma SpawnBringsUp(single: bool, dir: Dir, before: seq<Action>, s: State, caller: Tid, runner: Tid) returns (actions: seq<Action>)
    requires Run(single, Init(dir), before) == Some(Add(s.(phase := Starting), caller, Thread(StartSpawn, Return)))
    requires s.app.None? && s.lock.None? && caller !in s.threads && runner !in s.threads && caller != runner
    ensures Run(single, Init(dir), actions) == Some(Started(s, caller, runner))
  {
    hide Run;
    var spawn := Choice(false, false, runner);
    var building := Add(s.(phase := Starting), caller, Thread(Done, Return));
    Extend(single, dir, before, Go(caller, spawn));
    actions := before + [Go(caller, spawn)];
    assert s.threads[caller := Thread(StartSpawn, Return)][runner := Thread(RunEnter, Return)][caller := Thread(Done, Return)]
        == s.threads[caller := Thread(Done, Return)][runner := Thread(RunEnter, Return)];
    assert Run(single, Init(dir), actions) == Some(Add(building, runner, Thread(RunEnter, Return)));
    Advance(single, dir, actions, building, runner, Thread(RunEnter, Return), GO, building, Thread(RunBuild(s.holder), Return));
    actions := actions + [Go(runner, GO)];
    var up := building.(phase := Running, app := Some(App(runner, s.holder)), open := s.open + {runner});
    Advance(single, dir, actions, building, runner, Thread(RunBuild(s.holder), Return), GO, up, Thread(RunServe(App(runner, s.holder)), Return));
    actions := actions + [Go(runner, GO)];
  }

  /** A called ChangeDataDir over an idle server reaches its relocation. */
  lemma MoveReachesRelocate(single: bool, dir: Dir, before: seq<Action>, s: State, t: Tid, to: Dir) returns (actions: seq<Action>)
    requires Run(single, Init(dir), before) == Some(s)
    requires Idle(s.phase) && s.lock.None? && t !in s.threads && (single ==> forall u :: u in s.threads ==> !Moving(s.threads[u]))
    ensures Run(single, Init(dir), actions) == Some(Add(s.(relocating := true), t, Thread(Relocate(s.holder, to, false), Return)))
  {
    hide Run;
    var th := Thread(MoveEnter(to), Return);
    Extend(single, dir, before, CallMove(t, to));
    actions := before + [CallMove(t, to)];
    Advance(single, dir, actions, s, t, th, GO, s, th.(pc := MoveGuard(s.holder, to)));
    actions := actions + [Go(t, GO)];
    Advance(single, dir, actions, s, t, th.(pc := MoveGuard(s.holder, to)), GO, s.(relocating := true), th.(pc := MoveCheck(s.holder, to)));
    actions := actions + [Go(t, GO)];
    Advance(single, dir, actions, s.(relocating := true), t, th.(pc := MoveCheck(s.holder, to)), GO, s.(relocating := true),
            th.(pc := Relocate(s.holder, to, false)));
    actions := actions + [Go(t, GO)];
  }

  /** A called Stop of a running server reaches stopped. */
  lemma StopBringsDown(single: bool, dir: Dir, before: seq<Action>, s: State, t: Tid) returns (actions: seq<Action>)
    requires Run(single, Init(dir), before) == Some(s)
    requires s.phase.Running? && s.app.Some? && s.lock.None? && t !in s.threads
    ensures Run(single, Init(dir), actions) ==
              Some(Add(s.(phase := Stopped, app := None, open := s.open - {s.app.value.runner}), t, Thread(Done, Return)))
  {
    hide Run;
    var th := Thread(StopEnter, Return);
    Extend(single, dir, before, CallStop(t));
    actions := before + [CallStop(t)];
    Advance(single, dir, actions, s, t, th, GO, s.(phase := Stopping), th.(pc := StopTeardown(s.app.value)));
    actions := actions + [Go(t, GO)];
    var closed := s.(phase := Stopping, open := s.open - {s.app.value.runner});
    Advance(single, dir, actions, s.(phase := Stopping), t, th.(pc := StopTeardown(s.app.value)), GO, closed, th.(pc := StopFinish));
    actions := actions + [Go(t, GO)];
    Advance(single, dir, actions, closed, t, th.(pc := StopFinish), GO, closed.(phase := Stopped, app := None), Thread(Done, Return));
    actions := actions + [Go(t, GO)];
  }

  /** From nothing: caller 1 has started a server that goroutine 2 serves, and
      whose serving has just returned an error. */
  lemma ServeError(dir: Dir) returns (actions: seq<Action>, up: State)
    ensures up == Add(Init(dir), 1, Thread(Done, Return)).(phase := Running, app := Some(App(2, dir)), open := {2})
    ensures Run(true, Init(dir), actions) == Some(Add(up, 2, Thread(RunFailed(App(2, dir)), Return)))
  {
    assert Run(true, Init(dir), []) == Some(Init(dir));
    hide Run;
    actions := StartBringsUp(true, dir, [], Init(dir), 1, 2);
    up := Add(Init(dir), 1, Thread(Done, Return)).(phase := Running, app := Some(App(2, dir)), open := {2});
    var th := Thread(RunServe(App(2, dir)), Return);
    assert {} + {2} == {2};
    assert Started(Init(dir), 1, 2) == Add(up, 2, th);
    Advance(true, dir, actions, up, 2, th, FAIL, up, th.(pc := RunFailed(App(2, dir))));
    actions := actions + [Go(2, FAIL)];
  }

  /** The guard says nothing about closing: a server whose serving failed may
      still be closing, in the directory being moved, during the relocation. */
  lemma FailedServerMayCloseDuringMove(dir: Dir, to: Dir) returns (actions: seq<Action>)
    ensures Run(true, Init(dir), actions).Some?
    ensures var s := Run(true, Init(dir), actions).value;
            && 2 in s.open && 2 in s.threads && s.threads[2].pc == RunClose(App(2, dir))
            && 3 in s.threads && s.threads[3].pc == Relocate(dir, to, false)
  {
    var before, up := ServeError(dir);
    actions := before;
    hide Run;
    var th := Thread(RunFailed(App(2, dir)), Return);
    var failed := up.(phase := Failed, app := None);
    Advance(true, dir, actions, up, 2, th, GO, failed, th.(pc := RunClose(App(2, dir))));
    actions := actions + [Go(2, GO)];
    actions := MoveReachesRelocate(true, dir, actions, Add(failed, 2, th.(pc := RunClose(App(2, dir)))), 3, to);
  }

  /** A stale serve failure does happen: the server is stopped and started again
      before the old goroutine takes the lock, and the new instance is left
      serving while the supervisor reports failed and holds no app. */
  lemma StaleFailureHappens(dir: Dir) returns (actions: seq<Action>)
    ensures Run(true, Init(dir), actions).Some?
    ensures var s := Run(true, Init(dir), actions).value;
            && s.phase == Failed && s.app.None?
            && 5 in s.open && 5 in s.threads && s.threads[5].pc == RunServe(App(5, dir))
            && !Owned(s, 5)
  {
    var before, up := ServeError(dir);
    actions := before;
    hide Run;
    var th := Thread(RunFailed(App(2, dir)), Return);
    var s := Add(up, 2, th);
    actions := StopBringsDown(true, dir, actions, s, 3);
    var down := Add(s.(phase := Stopped, app := None, open := s.open - {2}), 3, Thread(Done, Return));
    actions := StartBringsUp(true, dir, actions, down, 4, 5);
    var again := Started(down, 4, 5);
    assert Add(again, 2, th) == again by { assert again.threads[2 := th] == again.threads; }
    Advance(true, dir, actions, again, 2, th, GO, again.(phase := Failed, app := None), th.(pc := RunClose(App(2, dir))));
    actions := actions + [Go(2, GO)];
  }

  /** Two moves at once break the guard: the one that fails clears the flag the
      other relies on, and a Start then builds a server during the relocation. */
  lemma TwoMovesBreakTheGuard(dir: Dir, to: Dir, other: Dir) returns (actions: seq<Action>)
    ensures Run(false, Init(dir), actions).Some?
    ensures var s := Run(false, Init(dir), actions).value;
            && 1 in s.threads && s.threads[1].pc == Relocate(dir, to, false)
            && s.phase == Running && s.app == Some(App(4, dir))
  {
    assert Run(false, Init(dir), []) == Some(Init(dir));
    hide Run;
    actions := MoveReachesRelocate(false, dir, [], Init(dir), 1, to);
    var one := Add(Init(dir).(relocating := true), 1, Thread(Relocate(dir, to, false), Return));
    actions := MoveReachesRelocate(false, dir, actions, one, 2, other);
    var th := Thread(Relocate(dir, other, false), Return);
    Advance(false, dir, actions, one, 2, th, FAIL, one, th.(pc := ClearGuard));
    actions := actions + [Go(2, FAIL)];
    Advance(false, dir, actions, one, 2, th.(pc := ClearGuard), GO, one.(relocating := false), Thread(Done, Return));
    actions := actions + [Go(2, GO)];
    actions := StartBringsUp(false, dir, actions, Add(one.(relocating := false), 2, Thread(Done, Return)), 3, 4);
  }

  lemma MoveReachesRemap(dir: Dir, to: Dir) returns (actions: seq<Action>)
    requires to != dir
    ensures Run(true, Init(dir), actions)
         == Some(Add(Init(dir).(relocating := true, disk := to), 1, Thread(Remap(to, false), Return)))
  {
    var s := Init(dir);
    assert Run(true, Init(dir), []) == Some(s);
    hide Run;
    actions := MoveReachesRelocate(true, dir, [], s, 1, to);
    var th := Thread(Relocate(dir, to, false), Return);
    s := s.(relocating := true);
    Advance(true, dir, actions, s, 1, th, GO, s.(disk := to), th.(pc := Remap(to, false)));
    actions := actions + [Go(1, GO)];
  }

  /** A move whose data left, but whose remapping failed. */
  lemma MoveStrands(dir: Dir, to: Dir) returns (actions: seq<Action>)
    requires to != dir
    ensures Run(true, Init(dir), actions)
         == Some(Add(Init(dir).(disk := to, stranded := true), 1, Thread(Done, Return)))
  {
    hide Run;
    actions := MoveReachesRemap(dir, to);
    var s, th := Init(dir).(relocating := true, disk := to), Thread(Remap(to, false), Return);
    Advance(true, dir, actions, s, 1, th, FAIL, s.(stranded := true), th.(pc := ClearGuard));
    actions := actions + [Go(1, FAIL)];
    s := s.(stranded := true);
    Advance(true, dir, actions, s, 1, th.(pc := ClearGuard), GO, s.(relocating := false), Thread(Done, Return));
    actions := actions + [Go(1, GO)];
  }

  /** After a move that failed once the data had left, a Start serves the
      directory the data has left. */
  lemma StrandedStartServesOldDirectory(dir: Dir, to: Dir) returns (actions: seq<Action>)
    requires to != dir
    ensures Run(true, Init(dir), actions).Some?
    ensures var s := Run(true, Init(dir), actions).value;
            s.stranded && s.disk == to && s.phase == Running && s.app == Some(App(3, dir))
  {
    hide Run;
    actions := MoveStrands(dir, to);
    actions := StartBringsUp(true, dir, actions, Add(Init(dir).(disk := to, stranded := true), 1, Thread(Done, Return)), 2, 3);
  }
}

/** The desktop server's lifecycle and the data-directory move, as threads that
    interleave. The supervisor's mutex is held across several steps only by
    Start, so it is explicit there; every other critical section is one step
    that waits for it. The bindings' mutex guards single reads and writes, each
    of which is one step. */
module Lifecycle {
  import opened Wrappers

  type Tid = int
  type Dir = string

  datatype Phase = Stopped | Starting | Running | Stopping | Failed

  /** A server instance: the goroutine that built it, and the directory whose
      settings it was built from. */
  datatype App = App(runner: Tid, dir: Dir)

  datatype Pc =
    | Done
    // Start
    | StartEnter | StartCheck | StartMissing | StartCommit | StartSpawn
    // run, on its own goroutine
    | RunEnter | RunBuild(dir: Dir) | RunServe(app: App) | RunFailed(app: App) | RunClose(app: App)
    // Stop
    | StopEnter | StopTeardown(app: App) | StopFinish
    // ChangeDataDir
    | MoveEnter(to: Dir) | MoveGuard(from: Dir, to: Dir) | MoveCheck(from: Dir, to: Dir)
    | Relocate(from: Dir, to: Dir, was: bool) | Remap(to: Dir, was: bool) | Swap(to: Dir, was: bool)
    | Autostart(was: bool) | DropGuard(was: bool) | ClearGuard

  /** What a thread goes on with when the Start or Stop it is in returns. */
  datatype After = Return | RestartStart | MoveOn(from: Dir, to: Dir) | MoveResumed | MoveRestarted

  datatype Thread = Thread(pc: Pc, after: After)

  /** holder is the directory the bindings name; disk is where the data lies;
      stranded records that a move failed after the data had left. open holds
      the runners of instances built and not yet closed. */
  datatype State = State(phase: Phase, app: Option<App>, lock: Option<Tid>, relocating: bool,
                         holder: Dir, disk: Dir, stranded: bool, open: set<Tid>, threads: map<Tid, Thread>)

  /** How the outside answers a step: whether its call fails, whether a failing
      relocation has already taken the source away, and a spawned thread's id. */
  datatype Choice = Choice(fails: bool, gone: bool, id: Tid)

  function Returned(after: After, ok: bool): Thread {
    match after
    case RestartStart => Thread(StartEnter, Return)
    case MoveOn(from, to) => if ok then Thread(Relocate(from, to, true), Return) else Thread(ClearGuard, Return)
    case MoveResumed => Thread(ClearGuard, Return)
    case MoveRestarted => Thread(ClearGuard, Return)
    case Return => Thread(Done, Return)
  }

  /** The stepping thread afterwards, and the rest of the state afterwards. */
  datatype Turn = Turn(th: Thread, s: State)

  /** One step of thread t; None when it is finished or must wait. */
  function Step(s: State, t: Tid, c: Choice): Option<State>
    requires t in s.threads
  {
    match NextTurn(s, t, s.threads[t], c)
    case None => None
    case Some(turn) => Some(turn.s.(threads := turn.s.threads[t := turn.th]))
  }

  function NextTurn(s: State, t: Tid, th: Thread, c: Choice): Option<Turn> {
    var pc := th.pc;
    if pc.Done? then None
    else if pc.StartEnter? || pc.StartCheck? || pc.StartMissing? || pc.StartCommit? || pc.StartSpawn? then StartTurn(s, t, th, c)
    else if pc.RunEnter? || pc.RunBuild? || pc.RunServe? || pc.RunFailed? || pc.RunClose? then RunTurn(s, t, th, c)
    else if pc.StopEnter? || pc.StopTeardown? || pc.StopFinish? then StopTurn(s, th)
    else MoveTurn(s, th, c)
  }

  function StartTurn(s: State, t: Tid, th: Thread, c: Choice): Option<Turn> {
    match th.pc
    case StartEnter =>
      if s.lock.Some? then None
      else if s.phase.Stopped? || s.phase.Failed? then Some(Turn(th.(pc := StartCheck), s.(lock := Some(t))))
      else Some(Turn(Returned(th.after, false), s))
    case StartCheck =>
      if s.relocating then Some(Turn(Returned(th.after, false), s.(lock := None))) else Some(Turn(th.(pc := StartMissing), s))
    case StartMissing =>
      if c.fails then Some(Turn(Returned(th.after, false), s.(lock := None))) else Some(Turn(th.(pc := StartCommit), s))
    case StartCommit => Some(Turn(th.(pc := StartSpawn), s.(phase := Starting, lock := None)))
    case StartSpawn =>
      if c.id in s.threads then None
      else Some(Turn(Returned(th.after, true), s.(threads := s.threads[c.id := Thread(RunEnter, Return)])))
    case _ => None
  }

  function RunTurn(s: State, t: Tid, th: Thread, c: Choice): Option<Turn> {
    match th.pc
    case RunEnter => Some(Turn(th.(pc := RunBuild(s.holder)), s))
    case RunBuild(dir) =>
      if s.lock.Some? then None
      else if c.fails then Some(Turn(th.(pc := Done), s.(phase := Failed)))
      else Some(Turn(th.(pc := RunServe(App(t, dir))), s.(phase := Running, app := Some(App(t, dir)), open := s.open + {t})))
    case RunServe(app) => Some(Turn(th.(pc := if c.fails then RunFailed(app) else Done), s))
    case RunFailed(app) =>
      if s.lock.Some? then None
      else if s.phase.Running? then Some(Turn(th.(pc := RunClose(app)), s.(phase := Failed, app := None)))
      else Some(Turn(th.(pc := Done), s))
    case RunClose(app) => Some(Turn(th.(pc := Done), s.(open := s.open - {app.runner})))
    case _ => None
  }

  function StopTurn(s: State, th: Thread): Option<Turn> {
    match th.pc
    case StopEnter =>
      if s.lock.Some? then None
      else if !s.phase.Running? then Some(Turn(Returned(th.after, false), s))
      else if s.app.None? then None
      else Some(Turn(th.(pc := StopTeardown(s.app.value)), s.(phase := Stopping)))
    case StopTeardown(app) => Some(Turn(th.(pc := StopFinish), s.(open := s.open - {app.runner})))
    case StopFinish => if s.lock.Some? then None else Some(Turn(Returned(th.after, true), s.(phase := Stopped, app := None)))
    case _ => None
  }

  function MoveTurn(s: State, th: Thread, c: Choice): Option<Turn> {
    match th.pc
    case MoveEnter(to) => Some(Turn(th.(pc := MoveGuard(s.holder, to)), s))
    case MoveGuard(from, to) => Some(Turn(th.(pc := MoveCheck(from, to)), s.(relocating := true)))
    case MoveCheck(from, to) =>
      if s.lock.Some? then None
      else (match s.phase
            case Running => Some(Turn(Thread(StopEnter, MoveOn(from, to)), s))
            case Starting => Some(Turn(th.(pc := ClearGuard), s))
            case Stopping => Some(Turn(th.(pc := ClearGuard), s))
            case _ => Some(Turn(th.(pc := Relocate(from, to, false)), s)))
    case Relocate(from, to, was) =>
      // a target that holds the data is not empty, so it is refused; and what
      // moves is the data only if it lies in the source
      var moves := s.disk == from && to != s.disk;
      var disk := if moves then to else s.disk;
      if !c.fails && to != s.disk then Some(Turn(th.(pc := Remap(to, was)), s.(disk := disk)))
      else if c.gone then Some(Turn(th.(pc := ClearGuard), s.(disk := disk, stranded := s.stranded || moves)))
      else if was then Some(Turn(Thread(StartEnter, MoveResumed), s))
      else Some(Turn(th.(pc := ClearGuard), s))
    case Remap(to, was) =>
      if c.fails then Some(Turn(th.(pc := ClearGuard), s.(stranded := true))) else Some(Turn(th.(pc := Swap(to, was)), s))
    case Swap(to, was) => Some(Turn(th.(pc := Autostart(was)), s.(holder := to)))
    case Autostart(was) => Some(Turn(th.(pc := if c.fails then ClearGuard else DropGuard(was)), s))
    case DropGuard(was) =>
      Some(Turn(if was then Thread(StartEnter, MoveRestarted) else th.(pc := ClearGuard), s.(relocating := false)))
    case ClearGuard => Some(Turn(th.(pc := Done), s.(relocating := false)))
    case _ => None
  }

  // ---- Runs ----

  /** A run mixes steps of existing threads with new calls of Start, Stop,
      Restart and ChangeDataDir. The completing-save auto-start is a Start. */
  datatype Action = Go(t: Tid, c: Choice) | CallStart(t: Tid) | CallStop(t: Tid) | CallRestart(t: Tid) | CallMove(t: Tid, to: Dir)

  function Init(dir: Dir): State { State(Stopped, None, None, false, dir, dir, false, {}, map[]) }

  /** A ChangeDataDir call that has not returned. */
  predicate Moving(th: Thread) {
    th.pc.MoveEnter? || th.pc.MoveGuard? || th.pc.ClearGuard? || Guarded(th) || th.after.MoveRestarted?
  }

  /** A move that has set the guard and still relies on it. */
  predicate Guarded(th: Thread) { th.pc.MoveCheck? || Checked(th) }

  /** A move past its look at the server's state. */
  predicate Checked(th: Thread) { InWindow(th) || th.after.MoveOn? }

  /** From the state check, or the completed Stop, until the guard drops. */
  predicate InWindow(th: Thread) {
    th.pc.Relocate? || th.pc.Remap? || th.pc.Swap? || th.pc.Autostart? || th.pc.DropGuard? || th.after.MoveResumed?
  }

  function Add(s: State, t: Tid, th: Thread): State { s.(threads := s.threads[t := th]) }

  /** One action; with `single`, ChangeDataDir is not called while another is
      under way. */
  function Act(single: bool, s: State, a: Action): Option<State> {
    match a
    case Go(t, c) => if t in s.threads then Step(s, t, c) else None
    case CallStart(t) => if t in s.threads then None else Some(Add(s, t, Thread(StartEnter, Return)))
    case CallStop(t) => if t in s.threads then None else Some(Add(s, t, Thread(StopEnter, Return)))
    case CallRestart(t) => if t in s.threads then None else Some(Add(s, t, Thread(StopEnter, RestartStart)))
    case CallMove(t, to) =>
      if t in s.threads || (single && exists u :: u in s.threads && Moving(s.threads[u])) then None
      else Some(Add(s, t, Thread(MoveEnter(to), Return)))
  }

  function Run(single: bool, s: State, actions: seq<Action>): Option<State> {
    if actions == [] then Some(s)
    else
      match Run(single, s, actions[..|actions| - 1])
      case None => None
      case Some(mid) => Act(single, mid, actions[|actions| - 1])
  }

  // ---- What every step keeps ----

  predicate Idle(phase: Phase) { phase.Stopped? || phase.Failed? }

  predicate HoldsLock(pc: Pc) { pc.StartCheck? || PastGuard(pc) }

  /** Start has read the relocation guard and found it clear. */
  predicate PastGuard(pc: Pc) { pc.StartMissing? || pc.StartCommit? }

  predicate Builds(pc: Pc) { pc.StartSpawn? || pc.RunEnter? || pc.RunBuild? }

  predicate Tears(pc: Pc) { pc.StopTeardown? || pc.StopFinish? }

  /** Which continuation can belong to which code. */
  predicate Shaped(th: Thread) {
    match th.after
    case Return => true
    case RestartStart => th.pc.StopEnter? || Tears(th.pc)
    case MoveOn(_, _) => th.pc.StopEnter? || Tears(th.pc)
    case MoveResumed => th.pc.StartEnter? || HoldsLock(th.pc) || th.pc.StartSpawn?
    case MoveRestarted => th.pc.StartEnter? || HoldsLock(th.pc) || th.pc.StartSpawn?
  }

  /** b is the thread building a server, d the one taking it down. */
  predicate ThreadCoheres(s: State, b: Option<Tid>, d: Option<Tid>, t: Tid, th: Thread) {
    && Shaped(th)
    && (HoldsLock(th.pc) ==> s.lock == Some(t))
    && (Builds(th.pc) ==> b == Some(t))
    && (Tears(th.pc) ==> d == Some(t))
  }

  /** Starting means exactly one thread is building, stopping exactly one is
      tearing down, and there is an app just while running or stopping. */
  predicate Coherent(s: State, b: Option<Tid>, d: Option<Tid>) {
    && (forall t :: t in s.threads ==> ThreadCoheres(s, b, d, t, s.threads[t]))
    && (s.lock.Some? ==> s.lock.value in s.threads && HoldsLock(s.threads[s.lock.value].pc) && Idle(s.phase))
    && (b.Some? ==> b.value in s.threads && Builds(s.threads[b.value].pc))
    && (d.Some? ==> d.value in s.threads && Tears(s.threads[d.value].pc))
    && (s.phase.Starting? <==> b.Some?)
    && (s.phase.Stopping? <==> d.Some?)
    && (s.app.Some? <==> s.phase.Running? || s.phase.Stopping?)
  }

  /** The builder after a step: the committing Start, then the goroutine it
      spawns, then nobody. */
  function NextBuilder(s: State, t: Tid, c: Choice, b: Option<Tid>): Option<Tid>
    requires t in s.threads
  {
    match s.threads[t].pc
    case StartCommit => Some(t)
    case StartSpawn => Some(c.id)
    case RunBuild(_) => None
    case _ => b
  }

  function NextStopper(s: State, t: Tid, d: Option<Tid>): Option<Tid>
    requires t in s.threads
  {
    match s.threads[t].pc
    case StopEnter => if s.phase.Running? then Some(t) else d
    case StopFinish => None
    case _ => d
  }

  function Put(turn: Turn, t: Tid): State { turn.s.(threads := turn.s.threads[t := turn.th]) }

  lemma StartKeepsCoherent(s: State, t: Tid, c: Choice, b: Option<Tid>, d: Option<Tid>)
    requires Coherent(s, b, d) && t in s.threads && StartTurn(s, t, s.threads[t], c).Some?
    requires s.threads[t].pc.StartEnter? || s.threads[t].pc.StartCheck? || s.threads[t].pc.StartMissing?
    ensures Coherent(Put(StartTurn(s, t, s.threads[t], c).value, t), b, d)
  {
  }

  lemma SpawnKeepsCoherent(s: State, t: Tid, c: Choice, b: Option<Tid>, d: Option<Tid>)
    requires Coherent(s, b, d) && t in s.threads && StartTurn(s, t, s.threads[t], c).Some?
    requires s.threads[t].pc.StartCommit? || s.threads[t].pc.StartSpawn?
    ensures Coherent(Put(StartTurn(s, t, s.threads[t], c).value, t), NextBuilder(s, t, c, b), d)
  {
  }

  lemma BuildKeepsCoherent(s: State, t: Tid, c: Choice, b: Option<Tid>, d: Option<Tid>)
    requires Coherent(s, b, d) && t in s.threads && RunTurn(s, t, s.threads[t], c).Some?
    requires s.threads[t].pc.RunEnter? || s.threads[t].pc.RunBuild?
    ensures Coherent(Put(RunTurn(s, t, s.threads[t], c).value, t), NextBuilder(s, t, c, b), d)
  {
  }

  lemma ServeKeepsCoherent(s: State, t: Tid, c: Choice, b: Option<Tid>, d: Option<Tid>)
    requires Coherent(s, b, d) && t in s.threads && RunTurn(s, t, s.threads[t], c).Some?
    requires s.threads[t].pc.RunServe? || s.threads[t].pc.RunFailed? || s.threads[t].pc.RunClose?
    ensures Coherent(Put(RunTurn(s, t, s.threads[t], c).value, t), b, d)
  {
  }

  lemma StopKeepsCoherent(s: State, t: Tid, b: Option<Tid>, d: Option<Tid>)
    requires Coherent(s, b, d) && t in s.threads && StopTurn(s, s.threads[t]).Some?
    ensures Coherent(Put(StopTurn(s, s.threads[t]).value, t), b, NextStopper(s, t, d))
  {
  }

  predicate Neutral(pc: Pc) { !HoldsLock(pc) && !Builds(pc) && !Tears(pc) }

  /** A turn that leaves phase, app and lock alone and neither enters nor leaves
      a critical section, construction or teardown. */
  lemma NeutralTurnKeepsCoherent(s: State, t: Tid, turn: Turn, b: Option<Tid>, d: Option<Tid>)
    requires Coherent(s, b, d) && t in s.threads && Neutral(s.threads[t].pc)
    requires Neutral(turn.th.pc) && Shaped(turn.th)
    requires turn.s == s.(relocating := turn.s.relocating, holder := turn.s.holder, disk := turn.s.disk, stranded := turn.s.stranded)
    ensures Coherent(Put(turn, t), b, d)
  {
    var r := Put(turn, t);
    forall u | u in r.threads ensures ThreadCoheres(r, b, d, u, r.threads[u]) {
      assert u == t || ThreadCoheres(s, b, d, u, s.threads[u]);
    }
  }

  lemma MoveTurnIsNeutral(s: State, th: Thread, c: Choice)
    requires Shaped(th) && MoveTurn(s, th, c).Some?
    ensures var turn := MoveTurn(s, th, c).value;
            && Neutral(th.pc) && !th.pc.StopEnter? && Neutral(turn.th.pc) && Shaped(turn.th)
            && turn.s == s.(relocating := turn.s.relocating, holder := turn.s.holder, disk := turn.s.disk, stranded := turn.s.stranded)
  {
  }

  /** Every step of every thread keeps the lifecycle coherent. */
  lemma StepKeepsCoherent(s: State, t: Tid, c: Choice, b: Option<Tid>, d: Option<Tid>)
    requires Coherent(s, b, d) && t in s.threads && Step(s, t, c).Some?
    ensures Coherent(Step(s, t, c).value, NextBuilder(s, t, c, b), NextStopper(s, t, d))
  {
    var th := s.threads[t];
    assert ThreadCoheres(s, b, d, t, th);
    hide Coherent, StartTurn, RunTurn, StopTurn, MoveTurn;
    if th.pc.StartEnter? || th.pc.StartCheck? || th.pc.StartMissing? {
      StartKeepsCoherent(s, t, c, b, d);
    } else if th.pc.StartCommit? || th.pc.StartSpawn? {
      SpawnKeepsCoherent(s, t, c, b, d);
    } else if th.pc.RunEnter? || th.pc.RunBuild? {
      BuildKeepsCoherent(s, t, c, b, d);
    } else if th.pc.RunServe? || th.pc.RunFailed? || th.pc.RunClose? {
      ServeKeepsCoherent(s, t, c, b, d);
    } else if th.pc.StopEnter? || th.pc.StopTeardown? || th.pc.StopFinish? {
      StopKeepsCoherent(s, t, b, d);
    } else {
      MoveTurnIsNeutral(s, th, c);
      NeutralTurnKeepsCoherent(s, t, MoveTurn(s, th, c).value, b, d);
    }
  }

  // ---- The relocation guard, one move at a time ----

  predicate CheckedBy(s: State, m: Option<Tid>) {
    m.Some? && m.value in s.threads && Checked(s.threads[m.value])
  }

  /** m is the thread of the one move under way. */
  predicate ThreadGuarded(s: State, m: Option<Tid>, t: Tid, th: Thread) {
    && (Moving(th) ==> m == Some(t))
    && (Guarded(th) ==> s.relocating)
    && (PastGuard(th.pc) ==> !CheckedBy(s, m))
    && (InWindow(th) ==> Idle(s.phase))
    && (th.pc.RunBuild? ==> th.pc.dir == s.holder)
    && FromIsHolder(s, th)
    && (th.pc.Remap? || th.pc.Swap? ==>
          if s.stranded then s.disk != th.pc.to && s.disk != s.holder else s.disk == th.pc.to && s.disk != s.holder)
  }

  /** A move works from the directory the holder names. */
  predicate FromIsHolder(s: State, th: Thread) {
    && (th.pc.MoveGuard? || th.pc.MoveCheck? || th.pc.Relocate? ==> th.pc.from == s.holder)
    && (th.after.MoveOn? ==> th.after.from == s.holder)
  }

  predicate AtSwap(s: State, m: Option<Tid>) {
    m.Some? && m.value in s.threads && (s.threads[m.value].pc.Remap? || s.threads[m.value].pc.Swap?)
  }

  /** Except between the relocation and the swap, the data lies where the holder
      says exactly when no move has stranded it. */
  predicate DiskAgrees(s: State, m: Option<Tid>) {
    AtSwap(s, m) || (s.stranded <==> s.disk != s.holder)
  }

  predicate GuardHolds(s: State, m: Option<Tid>) {
    && (forall t :: t in s.threads ==> ThreadGuarded(s, m, t, s.threads[t]))
    && (m.Some? ==> m.value in s.threads && Moving(s.threads[m.value]))
    && (s.app.Some? ==> s.app.value.dir == s.holder)
    && DiskAgrees(s, m)
  }

  function NextMover(s: State, t: Tid, m: Option<Tid>): Option<Tid>
    requires t in s.threads
  {
    if s.threads[t].pc.ClearGuard? then None else m
  }

  /** A turn that touches nothing the move owns, makes the server busy only when
      it already was, and serves only the holder's directory. */
  lemma TurnKeepsGuard(s: State, t: Tid, turn: Turn, m: Option<Tid>)
    requires GuardHolds(s, m) && t in s.threads
    requires turn.s == s.(lock := turn.s.lock, open := turn.s.open, phase := turn.s.phase, app := turn.s.app)
    requires Idle(turn.s.phase) || !Idle(s.phase)
    requires turn.s.app.Some? ==> turn.s.app.value.dir == s.holder
    requires turn.th.pc.RunBuild? ==> turn.th.pc.dir == s.holder
    requires (Moving(turn.th) <==> Moving(s.threads[t])) && (Guarded(turn.th) ==> Guarded(s.threads[t]))
    requires (Checked(turn.th) ==> Checked(s.threads[t])) && (InWindow(turn.th) ==> InWindow(s.threads[t]) || Idle(turn.s.phase))
    requires PastGuard(turn.th.pc) ==> PastGuard(s.threads[t].pc) || !s.relocating
    requires FromIsHolder(s, turn.th)
    requires var pc := s.threads[t].pc; !pc.Remap? && !pc.Swap? && !turn.th.pc.Remap? && !turn.th.pc.Swap?
    ensures GuardHolds(Put(turn, t), m)
  {
    var r := Put(turn, t);
    if m.Some? {
      assert ThreadGuarded(s, m, m.value, s.threads[m.value]);
    }
    forall u | u in r.threads ensures ThreadGuarded(r, m, u, r.threads[u]) {
      assert ThreadGuarded(s, m, u, s.threads[u]);
    }
  }

  predicate DirAgrees(s: State, m: Option<Tid>, t: Tid)
    requires t in s.threads
  {
    (s.app.Some? ==> s.app.value.dir == s.holder) && ThreadGuarded(s, m, t, s.threads[t])
  }

  /** Up to the commit, Start changes nothing but the lock, and passes the guard
      only when it is down. */
  lemma StartTurnOnlyLocks(s: State, t: Tid, th: Thread, c: Choice)
    requires Shaped(th) && (th.pc.StartEnter? || th.pc.StartCheck? || th.pc.StartMissing?) && StartTurn(s, t, th, c).Some?
    ensures var turn := StartTurn(s, t, th, c).value;
            && turn.s == s.(lock := turn.s.lock)
            && (Moving(turn.th) <==> Moving(th)) && (Guarded(turn.th) ==> Guarded(th))
            && (Checked(turn.th) ==> Checked(th)) && (InWindow(turn.th) ==> InWindow(th))
            && (PastGuard(turn.th.pc) ==> PastGuard(th.pc) || !s.relocating)
            && FromIsHolder(s, turn.th)
            && !turn.th.pc.RunBuild? && !turn.th.pc.Remap? && !turn.th.pc.Swap?
  {
  }

  lemma StartKeepsGuard(s: State, t: Tid, c: Choice, b: Option<Tid>, d: Option<Tid>, m: Option<Tid>)
    requires Coherent(s, b, d) && GuardHolds(s, m) && t in s.threads && StartTurn(s, t, s.threads[t], c).Some?
    requires s.threads[t].pc.StartEnter? || s.threads[t].pc.StartCheck? || s.threads[t].pc.StartMissing?
    ensures GuardHolds(Put(StartTurn(s, t, s.threads[t], c).value, t), m)
  {
    assert ThreadCoheres(s, b, d, t, s.threads[t]) && DirAgrees(s, m, t);
    StartTurnOnlyLocks(s, t, s.threads[t], c);
    hide *;
    TurnKeepsGuard(s, t, StartTurn(s, t, s.threads[t], c).value, m);
  }

  lemma CommitKeepsGuard(s: State, t: Tid, c: Choice, b: Option<Tid>, d: Option<Tid>, m: Option<Tid>)
    requires Coherent(s, b, d) && GuardHolds(s, m) && t in s.threads && StartTurn(s, t, s.threads[t], c).Some?
    requires s.threads[t].pc.StartCommit?
    ensures GuardHolds(Put(StartTurn(s, t, s.threads[t], c).value, t), m)
  {
    var th, r := s.threads[t], Put(StartTurn(s, t, s.threads[t], c).value, t);
    assert ThreadCoheres(s, b, d, t, th) && ThreadGuarded(s, m, t, th);
    forall u | u in r.threads ensures ThreadGuarded(r, m, u, r.threads[u]) {
      assert ThreadGuarded(s, m, u, s.threads[u]);
    }
  }

  lemma SpawnKeepsGuard(s: State, t: Tid, c: Choice, b: Option<Tid>, d: Option<Tid>, m: Option<Tid>)
    requires Coherent(s, b, d) && GuardHolds(s, m) && t in s.threads && StartTurn(s, t, s.threads[t], c).Some?
    requires s.threads[t].pc.StartSpawn?
    ensures GuardHolds(Put(StartTurn(s, t, s.threads[t], c).value, t), m)
  {
    var th, r := s.threads[t], Put(StartTurn(s, t, s.threads[t], c).value, t);
    assert ThreadCoheres(s, b, d, t, th) && ThreadGuarded(s, m, t, th);
    forall u | u in r.threads ensures ThreadGuarded(r, m, u, r.threads[u]) {
      assert u in s.threads ==> ThreadGuarded(s, m, u, s.threads[u]);
    }
  }

  lemma BuildKeepsGuard(s: State, t: Tid, c: Choice, b: Option<Tid>, d: Option<Tid>, m: Option<Tid>)
    requires Coherent(s, b, d) && GuardHolds(s, m) && t in s.threads && RunTurn(s, t, s.threads[t], c).Some?
    requires s.threads[t].pc.RunEnter? || s.threads[t].pc.RunBuild?
    ensures GuardHolds(Put(RunTurn(s, t, s.threads[t], c).value, t), m)
  {
    assert ThreadCoheres(s, b, d, t, s.threads[t]) && DirAgrees(s, m, t);
    assert s.threads[t].pc.RunBuild? ==> s.phase.Starting?;
    hide Coherent, GuardHolds;
    TurnKeepsGuard(s, t, RunTurn(s, t, s.threads[t], c).value, m);
  }

  lemma ServeKeepsGuard(s: State, t: Tid, c: Choice, b: Option<Tid>, d: Option<Tid>, m: Option<Tid>)
    requires Coherent(s, b, d) && GuardHolds(s, m) && t in s.threads && RunTurn(s, t, s.threads[t], c).Some?
    requires s.threads[t].pc.RunServe? || s.threads[t].pc.RunFailed? || s.threads[t].pc.RunClose?
    ensures GuardHolds(Put(RunTurn(s, t, s.threads[t], c).value, t), m)
  {
    assert ThreadCoheres(s, b, d, t, s.threads[t]) && DirAgrees(s, m, t);
    hide Coherent, GuardHolds;
    TurnKeepsGuard(s, t, RunTurn(s, t, s.threads[t], c).value, m);
  }

  /** A step of Stop owns nothing a move owns, and returns into the window of a
      move only with the server stopped. */
  lemma StopTurnFacts(s: State, th: Thread)
    requires Shaped(th) && FromIsHolder(s, th) && StopTurn(s, th).Some?
    ensures var turn := StopTurn(s, th).value;
            && turn.s == s.(lock := turn.s.lock, open := turn.s.open, phase := turn.s.phase, app := turn.s.app)
            && (Idle(turn.s.phase) || !Idle(s.phase))
            && (turn.s.app.Some? ==> turn.s.app == s.app)
            && (Moving(turn.th) <==> Moving(th)) && (Guarded(turn.th) ==> Guarded(th))
            && (Checked(turn.th) ==> Checked(th)) && (InWindow(turn.th) ==> InWindow(th) || Idle(turn.s.phase))
            && !PastGuard(turn.th.pc) && !turn.th.pc.RunBuild? && FromIsHolder(s, turn.th)
            && !th.pc.Remap? && !th.pc.Swap? && !turn.th.pc.Remap? && !turn.th.pc.Swap?
  {
  }

  lemma StopKeepsGuard(s: State, t: Tid, b: Option<Tid>, d: Option<Tid>, m: Option<Tid>)
    requires Coherent(s, b, d) && GuardHolds(s, m) && t in s.threads && StopTurn(s, s.threads[t]).Some?
    ensures GuardHolds(Put(StopTurn(s, s.threads[t]).value, t), m)
  {
    assert ThreadCoheres(s, b, d, t, s.threads[t]) && DirAgrees(s, m, t);
    StopTurnFacts(s, s.threads[t]);
    hide *;
    TurnKeepsGuard(s, t, StopTurn(s, s.threads[t]).value, m);
  }

  lemma MoveEntryKeepsGuard(s: State, t: Tid, c: Choice, b: Option<Tid>, d: Option<Tid>, m: Option<Tid>)
    requires Coherent(s, b, d) && GuardHolds(s, m) && t in s.threads && MoveTurn(s, s.threads[t], c).Some?
    requires var pc := s.threads[t].pc; pc.MoveEnter? || pc.MoveGuard? || pc.MoveCheck?
    ensures GuardHolds(Put(MoveTurn(s, s.threads[t], c).value, t), m)
  {
    var th, r := s.threads[t], Put(MoveTurn(s, s.threads[t], c).value, t);
    assert ThreadCoheres(s, b, d, t, th) && ThreadGuarded(s, m, t, th);
    forall u | u in r.threads ensures ThreadGuarded(r, m, u, r.threads[u]) {
      assert ThreadGuarded(s, m, u, s.threads[u]) && ThreadCoheres(s, b, d, u, s.threads[u]);
    }
  }

  lemma MoveExitKeepsGuard(s: State, t: Tid, c: Choice, b: Option<Tid>, d: Option<Tid>, m: Option<Tid>)
    requires Coherent(s, b, d) && GuardHolds(s, m) && t in s.threads && MoveTurn(s, s.threads[t], c).Some?
    requires var pc := s.threads[t].pc; pc.Autostart? || pc.DropGuard? || pc.ClearGuard?
    ensures GuardHolds(Put(MoveTurn(s, s.threads[t], c).value, t), NextMover(s, t, m))
  {
    var th, r := s.threads[t], Put(MoveTurn(s, s.threads[t], c).value, t);
    assert ThreadCoheres(s, b, d, t, th) && ThreadGuarded(s, m, t, th);
    forall u | u in r.threads ensures ThreadGuarded(r, NextMover(s, t, m), u, r.threads[u]) {
      assert ThreadGuarded(s, m, u, s.threads[u]) && ThreadCoheres(s, b, d, u, s.threads[u]);
    }
  }

  lemma DataMoveKeepsGuard(s: State, t: Tid, c: Choice, b: Option<Tid>, d: Option<Tid>, m: Option<Tid>)
    requires Coherent(s, b, d) && GuardHolds(s, m) && t in s.threads && MoveTurn(s, s.threads[t], c).Some?
    requires var pc := s.threads[t].pc; pc.Relocate? || pc.Remap? || pc.Swap?
    ensures GuardHolds(Put(MoveTurn(s, s.threads[t], c).value, t), m)
  {
    var th, r := s.threads[t], Put(MoveTurn(s, s.threads[t], c).value, t);
    assert ThreadCoheres(s, b, d, t, th) && ThreadGuarded(s, m, t, th);
    forall u | u in r.threads ensures ThreadGuarded(r, m, u, r.threads[u]) {
      assert ThreadGuarded(s, m, u, s.threads[u]) && ThreadCoheres(s, b, d, u, s.threads[u]);
    }
  }

  lemma DoneTakesNoStep(s: State, t: Tid, c: Choice)
    requires t in s.threads && Step(s, t, c).Some?
    ensures !s.threads[t].pc.Done?
  {
    hide StartTurn, RunTurn, StopTurn, MoveTurn;
  }

  lemma StepKeepsGuard(s: State, t: Tid, c: Choice, b: Option<Tid>, d: Option<Tid>, m: Option<Tid>)
    requires Coherent(s, b, d) && GuardHolds(s, m) && t in s.threads && Step(s, t, c).Some?
    ensures GuardHolds(Step(s, t, c).value, NextMover(s, t, m))
  {
    hide Coherent, GuardHolds, StartTurn, RunTurn, StopTurn, MoveTurn;
    var pc := s.threads[t].pc;
    if pc.StartEnter? || pc.StartCheck? || pc.StartMissing? {
      StartKeepsGuard(s, t, c, b, d, m);
    } else if pc.StartCommit? {
      CommitKeepsGuard(s, t, c, b, d, m);
    } else if pc.StartSpawn? {
      SpawnKeepsGuard(s, t, c, b, d, m);
    } else if pc.RunEnter? || pc.RunBuild? {
      BuildKeepsGuard(s, t, c, b, d, m);
    } else if pc.RunServe? || pc.RunFailed? || pc.RunClose? {
      ServeKeepsGuard(s, t, c, b, d, m);
    } else if pc.StopEnter? || pc.StopTeardown? || pc.StopFinish? {
      StopKeepsGuard(s, t, b, d, m);
    } else if pc.Relocate? || pc.Remap? || pc.Swap? {
      DataMoveKeepsGuard(s, t, c, b, d, m);
    } else if pc.MoveEnter? || pc.MoveGuard? || pc.MoveCheck? {
      MoveEntryKeepsGuard(s, t, c, b, d, m);
    } else {
      DoneTakesNoStep(s, t, c);
      MoveExitKeepsGuard(s, t, c, b, d, m);
    }
  }

  // ---- Every run ----

  lemma CallKeepsCoherent(s: State, t: Tid, th: Thread, b: Option<Tid>, d: Option<Tid>)
    requires Coherent(s, b, d) && t !in s.threads && Neutral(th.pc) && Shaped(th)
    ensures Coherent(Add(s, t, th), b, d)
  {
    forall u | u in Add(s, t, th).threads ensures ThreadCoheres(Add(s, t, th), b, d, u, Add(s, t, th).threads[u]) {
      assert u == t || ThreadCoheres(s, b, d, u, s.threads[u]);
    }
  }

  lemma ActKeepsCoherent(single: bool, s: State, a: Action, b: Option<Tid>, d: Option<Tid>) returns (b': Option<Tid>, d': Option<Tid>)
    requires Coherent(s, b, d) && Act(single, s, a).Some?
    ensures Coherent(Act(single, s, a).value, b', d')
  {
    hide Coherent, Step;
    b', d' := b, d;
    match a {
      case Go(t, c) =>
        StepKeepsCoherent(s, t, c, b, d);
        b', d' := NextBuilder(s, t, c, b), NextStopper(s, t, d);
      case CallStart(t) => CallKeepsCoherent(s, t, Thread(StartEnter, Return), b, d);
      case CallStop(t) => CallKeepsCoherent(s, t, Thread(StopEnter, Return), b, d);
      case CallRestart(t) => CallKeepsCoherent(s, t, Thread(StopEnter, RestartStart), b, d);
      case CallMove(t, to) => CallKeepsCoherent(s, t, Thread(MoveEnter(to), Return), b, d);
    }
  }

  /** In every run, overlapping moves included: starting exactly when one thread
      is building a server, stopping exactly when one is taking it down, and an
      app exactly while running or stopping. */
  lemma {:induction false} RunIsCoherent(single: bool, dir: Dir, actions: seq<Action>) returns (b: Option<Tid>, d: Option<Tid>)
    requires Run(single, Init(dir), actions).Some?
    ensures Coherent(Run(single, Init(dir), actions).value, b, d)
  {
    if actions == [] {
      b, d := None, None;
    } else {
      b, d := RunIsCoherent(single, dir, actions[..|actions| - 1]);
      b, d := ActKeepsCoherent(single, Run(single, Init(dir), actions[..|actions| - 1]).value, actions[|actions| - 1], b, d);
    }
  }

  lemma CallKeepsGuard(s: State, t: Tid, th: Thread, m: Option<Tid>)
    requires GuardHolds(s, m) && t !in s.threads && th.pc in {StartEnter, StopEnter} && !Moving(th)
    ensures GuardHolds(Add(s, t, th), m)
  {
    forall u | u in Add(s, t, th).threads ensures ThreadGuarded(Add(s, t, th), m, u, Add(s, t, th).threads[u]) {
      assert u == t || ThreadGuarded(s, m, u, s.threads[u]);
    }
  }

  lemma CallMoveKeepsGuard(s: State, t: Tid, to: Dir, m: Option<Tid>)
    requires GuardHolds(s, m) && t !in s.threads && forall u :: u in s.threads ==> !Moving(s.threads[u])
    requires m.Some? && m.value in s.threads ==> !Moving(s.threads[m.value])
    ensures GuardHolds(Add(s, t, Thread(MoveEnter(to), Return)), Some(t))
  {
    var r := Add(s, t, Thread(MoveEnter(to), Return));
    forall u | u in r.threads ensures ThreadGuarded(r, Some(t), u, r.threads[u]) {
      assert u == t || ThreadGuarded(s, m, u, s.threads[u]);
    }
  }

  /** In every run with one move at a time. */
  lemma {:induction false} RunKeepsGuardUp(dir: Dir, actions: seq<Action>) returns (m: Option<Tid>)
    requires Run(true, Init(dir), actions).Some?
    ensures GuardHolds(Run(true, Init(dir), actions).value, m)
  {
    if actions == [] {
      m := None;
    } else {
      var n := |actions| - 1;
      var s, a := Run(true, Init(dir), actions[..n]).value, actions[n];
      m := RunKeepsGuardUp(dir, actions[..n]);
      hide Coherent, GuardHolds, Step;
      match a {
        case Go(t, c) =>
          var b, d := RunIsCoherent(true, dir, actions[..n]);
          StepKeepsGuard(s, t, c, b, d, m);
          m := NextMover(s, t, m);
        case CallStart(t) => CallKeepsGuard(s, t, Thread(StartEnter, Return), m);
        case CallStop(t) => CallKeepsGuard(s, t, Thread(StopEnter, Return), m);
        case CallRestart(t) => CallKeepsGuard(s, t, Thread(StopEnter, RestartStart), m);
        case CallMove(t, to) =>
          CallMoveKeepsGuard(s, t, to, m);
          m := Some(t);
      }
    }
  }

  /** While a move is between its state check (or completed Stop) and the guard's
      release the server is stopped or failed, no app is held, built or taken
      down, and no Start has got past the guard. */
  lemma MoveWindowIsQuiet(dir: Dir, actions: seq<Action>, t: Tid)
    requires Run(true, Init(dir), actions).Some? && t in Run(true, Init(dir), actions).value.threads
    requires InWindow(Run(true, Init(dir), actions).value.threads[t])
    ensures var s := Run(true, Init(dir), actions).value;
            && Idle(s.phase) && s.app.None? && s.relocating
            && forall u :: u in s.threads ==> var pc := s.threads[u].pc; !Builds(pc) && !Tears(pc) && !PastGuard(pc)
  {
    var s := Run(true, Init(dir), actions).value;
    var b, d := RunIsCoherent(true, dir, actions);
    var m := RunKeepsGuardUp(dir, actions);
    assert ThreadGuarded(s, m, t, s.threads[t]);
    forall u | u in s.threads ensures !Builds(s.threads[u].pc) && !Tears(s.threads[u].pc) && !PastGuard(s.threads[u].pc) {
      assert ThreadGuarded(s, m, u, s.threads[u]) && ThreadCoheres(s, b, d, u, s.threads[u]);
    }
  }

  /** No server ever straddles a move: the one held, and any being built, belong
      to the directory the holder names, and that is where the data lies exactly
      when no move has stranded it. */
  lemma ServesWhereTheDataIs(dir: Dir, actions: seq<Action>)
    requires Run(true, Init(dir), actions).Some?
    ensures var s := Run(true, Init(dir), actions).value;
            && (s.app.Some? ==> s.app.value.dir == s.holder)
            && (forall t :: t in s.threads && s.threads[t].pc.RunBuild? ==> s.threads[t].pc.dir == s.holder)
            && (!Idle(s.phase) ==> (s.holder == s.disk <==> !s.stranded))
  {
    var s := Run(true, Init(dir), actions).value;
    var m := RunKeepsGuardUp(dir, actions);
    forall t | t in s.threads && s.threads[t].pc.RunBuild? ensures s.threads[t].pc.dir == s.holder {
      assert ThreadGuarded(s, m, t, s.threads[t]);
    }
    if m.Some? {
      assert ThreadGuarded(s, m, m.value, s.threads[m.value]);
    }
  }

  /** Except while a move is between its relocation and its swap, the holder names
      the directory the data lies in exactly when no move has stranded it. */
  lemma HolderNamesTheDataUnlessStranded(dir: Dir, actions: seq<Action>)
    requires Run(true, Init(dir), actions).Some?
    requires var s := Run(true, Init(dir), actions).value;
             forall t :: t in s.threads ==> !s.threads[t].pc.Remap? && !s.threads[t].pc.Swap?
    ensures var s := Run(true, Init(dir), actions).value;
            s.disk == s.holder <==> !s.stranded
  {
    var m := RunKeepsGuardUp(dir, actions);
    hide Run;
    DataIsAtHolder(Run(true, Init(dir), actions).value, m);
  }

  lemma DataIsAtHolder(s: State, m: Option<Tid>)
    requires GuardHolds(s, m) && forall t :: t in s.threads ==> !s.threads[t].pc.Remap? && !s.threads[t].pc.Swap?
    ensures s.disk == s.holder <==> !s.stranded
  {
    assert DiskAgrees(s, m);
    if m.Some? && m.value in s.threads {
      var t: Tid := m.value;
      assert t in s.threads && !s.threads[t].pc.Remap? && !s.threads[t].pc.Swap?;
    }
    assert !AtSwap(s, m);
  }

  /** A move strands the data exactly when it ends after its own relocation took
      the data out of the holder's directory and before its swap. */
  lemma StrandedExactlyBy(s: State, t: Tid, c: Choice, m: Option<Tid>)
    requires GuardHolds(s, m) && t in s.threads && Step(s, t, c).Some? && !s.stranded
    ensures Step(s, t, c).value.stranded
       <==> (s.threads[t].pc.Relocate? && c.fails && c.gone && s.threads[t].pc.to != s.holder)
            || (s.threads[t].pc.Remap? && c.fails)
  {
    assert ThreadGuarded(s, m, t, s.threads[t]) && DiskAgrees(s, m);
    hide GuardHolds;
    if s.threads[t].pc.Relocate? || s.threads[t].pc.Remap? {
      hide StartTurn, RunTurn, StopTurn;
    } else {
      hide *;
      OthersKeepStranded(s, t, c);
    }
  }

  lemma OthersKeepStranded(s: State, t: Tid, c: Choice)
    requires t in s.threads && Step(s, t, c).Some? && !s.threads[t].pc.Relocate? && !s.threads[t].pc.Remap?
    ensures Step(s, t, c).value.stranded == s.stranded
  {
  }

  /** A move that fails before the data leaves calls Start with the guard still
      up, so that Start never gets past the guard: the server a move stopped is
      not brought back. */
  lemma ResumeNeverStarts(dir: Dir, actions: seq<Action>, t: Tid, c: Choice)
    requires Run(true, Init(dir), actions).Some? && t in Run(true, Init(dir), actions).value.threads
    requires Run(true, Init(dir), actions).value.threads[t].after.MoveResumed?
    requires Step(Run(true, Init(dir), actions).value, t, c).Some?
    ensures var s := Run(true, Init(dir), actions).value;
            var r := Step(s, t, c).value;
            && Idle(s.phase) && r.phase == s.phase && r.app == s.app
            && (r.threads[t].after.MoveResumed? || r.threads[t].pc.ClearGuard?)
  {
    var s := Run(true, Init(dir), actions).value;
    var b, d := RunIsCoherent(true, dir, actions);
    var m := RunKeepsGuardUp(dir, actions);
    assert ThreadGuarded(s, m, t, s.threads[t]) && ThreadCoheres(s, b, d, t, s.threads[t]);
  }
}

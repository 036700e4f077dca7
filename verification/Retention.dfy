/** Storage enforcement: survey, test against the allocation cap and the free
    space reserve, evict one torrent, survey again. The hourly run and download
    admission are the same loop; admission adds the incoming torrent's bytes.
    Caps are in bytes; None is a disabled setting. */
module Retention {
  import opened Wrappers
  import opened Sorting
  import opened EvictionOrder
  import opened Survey

  datatype Settings = Settings(prefix: string, allocation: Option<nat>, reserve: Option<int>,
                               toggles: Protection, rules: seq<string>)

  datatype Reason = Cap | Reserve

  function DeficitAt(stored: int, free: Option<int>, s: Settings): Option<Reason> {
    if s.allocation.Some? && stored > s.allocation.value then Some(Cap)
    else if s.reserve.Some? && free.Some? && s.reserve.value > free.value then Some(Reserve)
    else None
  }

  function Deficit(plan: Plan, extra: int, s: Settings): Option<Reason> {
    DeficitAt(plan.storedBytes + extra, plan.free, s)
  }

  function Candidates(routes: seq<Route>, toggles: Protection): seq<Route> {
    if routes == [] then []
    else
      var before := Candidates(routes[..|routes| - 1], toggles);
      if Protected(routes[|routes| - 1], toggles) then before else before + [routes[|routes| - 1]]
  }

  // ---- Deleting a torrent ----

  /** The rows left when the first n rows of a route have been deleted. */
  function DropFirst(rows: seq<Download>, id: string, n: nat): seq<Download> {
    if rows == [] then []
    else if rows[0].engineId == id && n > 0 then DropFirst(rows[1..], id, n - 1)
    else [rows[0]] + DropFirst(rows[1..], id, n)
  }

  datatype Deletion = Deletion(rows: seq<Download>, ok: bool)

  function Delete(prefix: string, rows: seq<Download>, id: string, removal: Removal): Deletion {
    if !(prefix <= id) || removal.EngineRefused? || removal.ListRefused? then Deletion(rows, false)
    else if removal.DeleteRefused? && removal.after < |RowsOf(rows, id)| then Deletion(DropFirst(rows, id, removal.after), false)
    else Deletion(Without(rows, {id}), true)
  }

  // ---- The loop ----

  datatype Step = Step(plan: Plan, victim: Route)
  datatype End = SurveyFailed | Fits(plan: Plan) | Exhausted(plan: Plan, reason: Reason) | DeleteFailed(plan: Plan, victim: Route)
  datatype Outcome = Outcome(rows: seq<Download>, steps: seq<Step>, end: End)

  function Victim(routes: seq<Route>, s: Settings): Option<Route> {
    var order := Order(s.rules, Candidates(routes, s.toggles));
    if order == [] then None else Some(order[0])
  }

  /** One turn of the loop: it stops, or it evicted a torrent. */
  datatype Turn = Stop(rows: seq<Download>, end: End) | Evicted(rows: seq<Download>, step: Step)

  function Look(s: Settings, rows: seq<Download>, sample: Sample, extra: int): Turn {
    match SurveyOf(s.prefix, rows, sample)
    case None => Stop(rows, SurveyFailed)
    case Some(plan) =>
      match Deficit(plan, extra, s)
      case None => Stop(rows, Fits(plan))
      case Some(reason) =>
        match Victim(plan.routes, s)
        case None => Stop(rows, Exhausted(plan, reason))
        case Some(victim) =>
          var gone := Delete(s.prefix, rows, victim.engineId, sample.removal);
          if gone.ok then Evicted(gone.rows, Step(plan, victim)) else Stop(gone.rows, DeleteFailed(plan, victim))
  }

  /** Nothing is evicted that storage did not require, that was protected when
      surveyed, or that was not first in the rule order. */
  ghost predicate SafeStep(s: Settings, step: Step, extra: int) {
    && Deficit(step.plan, extra, s).Some?
    && step.victim in step.plan.routes
    && !Protected(step.victim, s.toggles)
    && forall r :: r in step.plan.routes && !Protected(r, s.toggles) && r != step.victim ==> Before(s.rules, step.victim, r)
  }

  /** Why the loop may stop where it does. */
  ghost predicate JustEnd(s: Settings, end: End, extra: int) {
    match end
    case SurveyFailed => true
    case Fits(plan) => Deficit(plan, extra, s).None?
    case Exhausted(plan, reason) => Deficit(plan, extra, s) == Some(reason) && forall r :: r in plan.routes ==> Protected(r, s.toggles)
    case DeleteFailed(plan, victim) => SafeStep(s, Step(plan, victim), extra)
  }

  /** The victim is the first unprotected route of the survey, and its rows are
      still managed. */
  lemma VictimFacts(s: Settings, rows: seq<Download>, sample: Sample)
    requires SurveyOf(s.prefix, rows, sample).Some?
    ensures var routes := SurveyOf(s.prefix, rows, sample).value.routes;
            match Victim(routes, s)
            case None => forall r :: r in routes ==> Protected(r, s.toggles)
            case Some(v) =>
              && v in routes && !Protected(v, s.toggles)
              && (forall r :: r in routes && !Protected(r, s.toggles) && r != v ==> Before(s.rules, v, r))
              && |Without(rows, {v.engineId})| < |rows|
  {
    var routes := SurveyOf(s.prefix, rows, sample).value.routes;
    SurveyMembers(s.prefix, rows, sample);
    CandidatesMembers(routes, s.toggles);
    var candidates := Candidates(routes, s.toggles);
    SameElements(candidates, Order(s.rules, candidates));
    if candidates != [] {
      VictimIsFirst(s.rules, candidates);
      RowsOfMembers(rows, Order(s.rules, candidates)[0].engineId);
    }
  }

  lemma DeleteFacts(prefix: string, rows: seq<Download>, id: string, removal: Removal)
    ensures var d := Delete(prefix, rows, id, removal);
            && (d.ok ==> d.rows == Without(rows, {id}))
            && |d.rows| <= |rows|
            && Without(d.rows, {id}) == Without(rows, {id})
  {
    if removal.DeleteRefused? {
      DropFirstRest(rows, id, removal.after);
    }
    WithoutTwice(rows, {id}, {id});
    RowsOfMembers(rows, id);
    assert {id} + {id} == {id};
  }

  lemma RowsOfFront(row: Download, rows: seq<Download>, id: string)
    ensures RowsOf([row] + rows, id) == if row.engineId == id then [row] + RowsOf(rows, id) else RowsOf(rows, id)
  {
    if rows == [] {
      assert [row] + rows == [row] && [row][..0] == [];
    } else {
      var all := [row] + rows;
      assert all[..|all| - 1] == [row] + rows[..|rows| - 1];
      RowsOfFront(row, rows[..|rows| - 1], id);
    }
  }

  /** Dropping rows of the route drops its first ones. */
  lemma {:induction false} DroppedRows(rows: seq<Download>, id: string, n: nat)
    requires n <= |RowsOf(rows, id)|
    ensures RowsOf(DropFirst(rows, id, n), id) == RowsOf(rows, id)[n..]
  {
    if rows != [] {
      var row, rest := rows[0], rows[1..];
      assert rows == [row] + rest;
      RowsOfFront(row, rest, id);
      if row.engineId == id && n > 0 {
        DroppedRows(rest, id, n - 1);
      } else {
        if n <= |RowsOf(rest, id)| {
          DroppedRows(rest, id, n);
        }
        RowsOfFront(row, DropFirst(rest, id, n), id);
        assert n == 0 ==> RowsOf(rest, id)[0..] == RowsOf(rest, id);
      }
    }
  }

  /** A deletion goes through unless the engine or the repository refuses. Refused at
      the outset it leaves every row; refused half way it has deleted just the rows of
      the route that came before. */
  lemma DeletionOutcome(prefix: string, rows: seq<Download>, id: string, removal: Removal)
    requires prefix <= id
    ensures var d, own := Delete(prefix, rows, id, removal), RowsOf(rows, id);
            && (removal.Removed? ==> d.ok)
            && (removal.EngineRefused? || removal.ListRefused? ==> !d.ok && d.rows == rows)
            && (removal.DeleteRefused? ==> (d.ok <==> |own| <= removal.after))
            && (removal.DeleteRefused? && !d.ok ==> RowsOf(d.rows, id) == own[removal.after..] && RowsOf(d.rows, id) != [])
  {
    if removal.DeleteRefused? && removal.after < |RowsOf(rows, id)| {
      DroppedRows(rows, id, removal.after);
    }
    hide RowsOf, DropFirst, Without;
  }

  lemma LookFacts(s: Settings, rows: seq<Download>, sample: Sample, extra: int)
    ensures var t := Look(s, rows, sample, extra);
            && (t.Evicted? ==> SafeStep(s, t.step, extra) && t.rows == Without(rows, {t.step.victim.engineId}) && |t.rows| < |rows|)
            && (t.Stop? ==> JustEnd(s, t.end, extra) && |t.rows| <= |rows| && (t.rows == rows || t.end.DeleteFailed?))
            && (t.Stop? && t.end.DeleteFailed? ==> Without(t.rows, {t.end.victim.engineId}) == Without(rows, {t.end.victim.engineId}))
            && (t.Stop? && (t.end.Fits? || t.end.Exhausted?) ==> SurveyOf(s.prefix, rows, sample) == Some(t.end.plan))
  {
    if SurveyOf(s.prefix, rows, sample).Some? {
      VictimFacts(s, rows, sample);
      var v := Victim(SurveyOf(s.prefix, rows, sample).value.routes, s);
      if v.Some? {
        DeleteFacts(s.prefix, rows, v.value.engineId, sample.removal);
      }
    }
  }

  /** A run from the k-th look on: env(k) answers the k-th look's outside calls. */
  function Evict(s: Settings, rows: seq<Download>, env: nat -> Sample, k: nat, extra: int): Outcome
    decreases |rows|
  {
    LookFacts(s, rows, env(k), extra);
    match Look(s, rows, env(k), extra)
    case Stop(left, end) => Outcome(left, [], end)
    case Evicted(left, step) =>
      var rest := Evict(s, left, env, k + 1, extra);
      Outcome(rest.rows, [step] + rest.steps, rest.end)
  }

  lemma EvictTurns(s: Settings, rows: seq<Download>, env: nat -> Sample, k: nat, extra: int)
    ensures var o, t := Evict(s, rows, env, k, extra), Look(s, rows, env(k), extra);
            match t
            case Stop(left, end) => o == Outcome(left, [], end)
            case Evicted(left, step) =>
              |left| < |rows| && left == Without(rows, {step.victim.engineId})
              && var rest := Evict(s, left, env, k + 1, extra); o == Outcome(rest.rows, [step] + rest.steps, rest.end)
  {
    LookFacts(s, rows, env(k), extra);
    hide Look;
  }

  function EvictedIds(steps: seq<Step>): set<string> {
    set i | 0 <= i < |steps| :: steps[i].victim.engineId
  }

  function Victims(steps: seq<Step>): seq<Route> {
    if steps == [] then [] else Victims(steps[..|steps| - 1]) + [steps[|steps| - 1].victim]
  }

  lemma {:induction false} VictimsFront(step: Step, steps: seq<Step>)
    ensures Victims([step] + steps) == [step.victim] + Victims(steps)
  {
    var all := [step] + steps;
    if steps == [] {
      assert all[..0] == [];
    } else {
      VictimsFront(step, steps[..|steps| - 1]);
      assert all[..|all| - 1] == [step] + steps[..|steps| - 1];
    }
  }

  // ---- Membership facts ----

  lemma {:induction false} CandidatesMembers(routes: seq<Route>, toggles: Protection)
    ensures forall r :: r in Candidates(routes, toggles) <==> r in routes && !Protected(r, toggles)
    ensures DistinctIds(routes) ==> DistinctIds(Candidates(routes, toggles))
  {
    if routes != [] {
      var n := |routes| - 1;
      CandidatesMembers(routes[..n], toggles);
      assert routes == routes[..n] + [routes[n]];
      if DistinctIds(routes) {
        assert DistinctIds(routes[..n]);
        var before := Candidates(routes[..n], toggles);
        forall i | 0 <= i < |before| ensures before[i].engineId != routes[n].engineId {
          assert before[i] in before;
        }
      }
    }
  }

  lemma {:induction false} WithoutTwice(rows: seq<Download>, a: set<string>, b: set<string>)
    ensures Without(Without(rows, a), b) == Without(rows, a + b)
  {
    if rows != [] {
      var n := |rows| - 1;
      WithoutTwice(rows[..n], a, b);
      var kept := Without(rows[..n], a);
      assert (kept + [rows[n]])[..|kept|] == kept;
    }
  }

  lemma FirstEvicted(step: Step, steps: seq<Step>)
    ensures EvictedIds([step] + steps) == {step.victim.engineId} + EvictedIds(steps)
  {
    var all := [step] + steps;
    assert all[0] == step;
    forall i | 0 <= i < |steps| ensures steps[i].victim.engineId in EvictedIds(all) {
      assert all[i + 1] == steps[i];
    }
  }

  lemma {:induction false} WithoutNone(rows: seq<Download>)
    ensures Without(rows, {}) == rows
  {
    if rows != [] {
      WithoutNone(rows[..|rows| - 1]);
    }
  }

  lemma {:induction false} WithoutConcat(a: seq<Download>, b: seq<Download>, gone: set<string>)
    ensures Without(a + b, gone) == Without(a, gone) + Without(b, gone)
  {
    if b == [] {
      assert a + b == a;
    } else {
      var n := |b| - 1;
      WithoutConcat(a, b[..n], gone);
      assert (a + b)[..|a + b| - 1] == a + b[..n];
    }
  }

  lemma {:induction false} DropFirstRest(rows: seq<Download>, id: string, n: nat)
    ensures Without(DropFirst(rows, id, n), {id}) == Without(rows, {id})
    ensures |DropFirst(rows, id, n)| <= |rows|
  {
    if rows != [] {
      DropFirstRest(rows[1..], id, if rows[0].engineId == id && n > 0 then n - 1 else n);
      assert rows == [rows[0]] + rows[1..];
      WithoutConcat([rows[0]], rows[1..], {id});
      WithoutConcat([rows[0]], DropFirst(rows[1..], id, n), {id});
      assert [rows[0]][..0] == [];
    }
  }

  // ---- Every run, whatever the outside calls answer ----

  /** Every eviction is safe, the run stops for a good reason, and it deletes at
      most as many torrents as rows have gone. */
  lemma {:induction false} EveryEvictionIsSafe(s: Settings, rows: seq<Download>, env: nat -> Sample, k: nat, extra: int)
    ensures var o := Evict(s, rows, env, k, extra);
            && (forall i :: 0 <= i < |o.steps| ==> SafeStep(s, o.steps[i], extra))
            && JustEnd(s, o.end, extra)
            && |o.steps| + |o.rows| <= |rows|
    decreases |rows|
  {
    hide Look, SurveyOf;
    LookFacts(s, rows, env(k), extra);
    var t := Look(s, rows, env(k), extra);
    if t.Evicted? {
      EveryEvictionIsSafe(s, t.rows, env, k + 1, extra);
    }
  }

  /** No row of an evicted route is left and every other row is, in order. A
      deletion that fails touches only rows of the route being deleted. */
  lemma {:induction false} RowsAfterRun(s: Settings, rows: seq<Download>, env: nat -> Sample, k: nat, extra: int)
    ensures var o := Evict(s, rows, env, k, extra);
            if o.end.DeleteFailed? then
              var id := o.end.victim.engineId; Without(o.rows, {id}) == Without(rows, EvictedIds(o.steps) + {id})
            else
              o.rows == Without(rows, EvictedIds(o.steps))
    decreases |rows|
  {
    hide Look, SurveyOf;
    LookFacts(s, rows, env(k), extra);
    match Look(s, rows, env(k), extra) {
      case Stop(left, end) =>
        assert EvictedIds([]) == {};
        if end.DeleteFailed? {
          assert {} + {end.victim.engineId} == {end.victim.engineId};
        } else {
          WithoutNone(rows);
        }
      case Evicted(left, step) =>
        RowsAfterRun(s, left, env, k + 1, extra);
        var rest := Evict(s, left, env, k + 1, extra);
        var gone := EvictedIds(rest.steps);
        FirstEvicted(step, rest.steps);
        WithoutTwice(rows, {step.victim.engineId}, gone);
        if rest.end.DeleteFailed? {
          var last := {rest.end.victim.engineId};
          WithoutTwice(rows, {step.victim.engineId}, gone + last);
          assert {step.victim.engineId} + gone + last == {step.victim.engineId} + (gone + last);
        }
    }
  }

  /** The plan a run stops on is the survey of the rows it leaves. */
  lemma {:induction false} RunEndsOnSurvey(s: Settings, rows: seq<Download>, env: nat -> Sample, k: nat, extra: int)
    ensures var o := Evict(s, rows, env, k, extra);
            o.end.Fits? || o.end.Exhausted? ==> SurveyOf(s.prefix, o.rows, env(k + |o.steps|)) == Some(o.end.plan)
    decreases |rows|
  {
    hide Look, SurveyOf;
    LookFacts(s, rows, env(k), extra);
    var t := Look(s, rows, env(k), extra);
    if t.Evicted? {
      RunEndsOnSurvey(s, t.rows, env, k + 1, extra);
      assert k + 1 + |Evict(s, t.rows, env, k + 1, extra).steps| == k + |Evict(s, rows, env, k, extra).steps|;
    }
  }
}

/** What storage enforcement amounts to, in terms of the rows, the engine's answers
    and the household's state alone: when a torrent is evicted, which ones never
    are, and which goes first. */
module Enforcement {
  import opened Wrappers
  import opened Sorting
  import opened EvictionOrder
  import opened Survey
  import opened Retention

  // ---- Each eviction is made on a survey of the rows that are left ----

  /** The rows that are left before the i-th eviction. */
  function RowsBefore(rows: seq<Download>, steps: seq<Step>, i: nat): seq<Download>
    requires i <= |steps|
  {
    Without(rows, EvictedIds(steps[..i]))
  }

  lemma LookPlan(s: Settings, rows: seq<Download>, sample: Sample, extra: int)
    ensures var t := Look(s, rows, sample, extra);
            && (t.Evicted? ==> SurveyOf(s.prefix, rows, sample) == Some(t.step.plan))
            && (t.Stop? && t.end.DeleteFailed? ==> SurveyOf(s.prefix, rows, sample) == Some(t.end.plan))
            && (t.Evicted? ==> Victim(t.step.plan.routes, s) == Some(t.step.victim))
  {
    hide SurveyOf, Deficit, Victim, Delete;
  }

  lemma NoneBefore(rows: seq<Download>, steps: seq<Step>)
    ensures RowsBefore(rows, steps, 0) == rows
  {
    assert EvictedIds(steps[..0]) == {};
    WithoutNone(rows);
  }

  lemma LaterRows(rows: seq<Download>, step: Step, rest: seq<Step>, i: nat)
    requires i <= |rest|
    ensures RowsBefore(rows, [step] + rest, i + 1) == RowsBefore(Without(rows, {step.victim.engineId}), rest, i)
  {
    assert ([step] + rest)[..i + 1] == [step] + rest[..i];
    FirstEvicted(step, rest[..i]);
    WithoutTwice(rows, {step.victim.engineId}, EvictedIds(rest[..i]));
  }

  /** Every eviction acted on the survey of the rows then left, answered by that
      look's own sample. */
  lemma {:induction false} StepIsSurveyed(s: Settings, rows: seq<Download>, env: nat -> Sample, k: nat, extra: int, i: nat)
    requires i < |Evict(s, rows, env, k, extra).steps|
    ensures var steps := Evict(s, rows, env, k, extra).steps;
            && SurveyOf(s.prefix, RowsBefore(rows, steps, i), env(k + i)) == Some(steps[i].plan)
            && steps[i].victim in steps[i].plan.routes
    decreases |rows|
  {
    hide *;
    EvictTurns(s, rows, env, k, extra);
    LookPlan(s, rows, env(k), extra);
    EveryEvictionIsSafe(s, rows, env, k, extra);
    var t, steps := Look(s, rows, env(k), extra), Evict(s, rows, env, k, extra).steps;
    VictimIsSurveyed(s, steps[i], extra);
    if i == 0 {
      NoneBefore(rows, steps);
      assert k + 0 == k;
    } else {
      var rest := Evict(s, t.rows, env, k + 1, extra).steps;
      StepIsSurveyed(s, t.rows, env, k + 1, extra, i - 1);
      LaterRows(rows, t.step, rest, i - 1);
      assert k + 1 + (i - 1) == k + i;
    }
  }

  lemma VictimIsSurveyed(s: Settings, step: Step, extra: int)
    requires SafeStep(s, step, extra)
    ensures step.victim in step.plan.routes
  {
    hide Protected, Deficit, Before;
  }

  // ---- When ----

  /** Storage is over the cap, `extra` bytes included. */
  ghost predicate OverCap(s: Settings, plan: Plan, extra: int) {
    s.allocation.Some? && plan.storedBytes + extra > s.allocation.value
  }

  /** The free space is known and below the reserve. */
  ghost predicate UnderReserve(s: Settings, plan: Plan) {
    s.reserve.Some? && plan.free.Some? && plan.free.value < s.reserve.value
  }

  lemma DeficitMeaning(s: Settings, plan: Plan, extra: int)
    ensures Deficit(plan, extra, s).Some? <==> OverCap(s, plan, extra) || UnderReserve(s, plan)
    ensures Deficit(plan, extra, s) == Some(Cap) <==> OverCap(s, plan, extra)
  {
  }

  /** Every eviction was called for by a limit. A run that ends because storage fits
      keeps the cap and, where the free space is known, the reserve; one that ends
      with nothing to evict does not, and names the cap exactly when it is the cap
      that is exceeded. */
  lemma LimitsDecide(s: Settings, rows: seq<Download>, env: nat -> Sample, k: nat, extra: int)
    ensures var o := Evict(s, rows, env, k, extra);
            && (forall i :: 0 <= i < |o.steps| ==> OverCap(s, o.steps[i].plan, extra) || UnderReserve(s, o.steps[i].plan))
            && (o.end.Fits? ==>
                  && (s.allocation.Some? ==> o.end.plan.storedBytes + extra <= s.allocation.value)
                  && (s.reserve.Some? && o.end.plan.free.Some? ==> o.end.plan.free.value >= s.reserve.value))
            && (o.end.Exhausted? ==>
                  && (OverCap(s, o.end.plan, extra) || UnderReserve(s, o.end.plan))
                  && (o.end.reason == Cap <==> OverCap(s, o.end.plan, extra)))
            && (o.end.DeleteFailed? ==> OverCap(s, o.end.plan, extra) || UnderReserve(s, o.end.plan))
  {
    var o := Evict(s, rows, env, k, extra);
    EveryEvictionIsSafe(s, rows, env, k, extra);
    hide Evict, Deficit, Protected, Before;
    forall i | 0 <= i < |o.steps| ensures OverCap(s, o.steps[i].plan, extra) || UnderReserve(s, o.steps[i].plan) {
      DeficitMeaning(s, o.steps[i].plan, extra);
      assert SafeStep(s, o.steps[i], extra);
    }
    if !o.end.SurveyFailed? {
      DeficitMeaning(s, o.end.plan, extra);
    }
  }

  /** What a survey counts and passes on: the sizes the engine reports, added up,
      and the free space as probed. */
  lemma {:induction false} BytesAddUp(a: seq<Route>, b: seq<Route>)
    ensures TotalBytes(a + b) == TotalBytes(a) + TotalBytes(b)
    ensures |a| == 1 ==> TotalBytes(a) == a[0].status.totalBytes
  {
    if |a| == 1 {
      assert TotalBytes(a[..0]) == 0;
    }
    if b == [] {
      assert a + b == a;
    } else {
      assert (a + b)[..|a + b| - 1] == a + b[..|b| - 1];
      BytesAddUp(a, b[..|b| - 1]);
    }
  }

  // ---- Which ones never ----

  /** The canonical title a release has in the catalogue, if any. */
  function TitleFor(sample: Sample, release: string): string {
    if release != "" && release in sample.titleOf then sample.titleOf[release] else ""
  }

  ghost predicate Managed(rows: seq<Download>, release: string) { exists row :: row in rows && row.releaseId == release }

  /** Playback i is of the title, by a release that is managed. */
  ghost predicate OfManaged(rows: seq<Download>, sample: Sample, title: string, i: int)
    requires 0 <= i < |sample.playback|
  {
    var release := sample.playback[i].releaseId;
    title != "" && Managed(rows, release) && TitleFor(sample, release) == title
  }

  /** The latest such playback, the first listed of several, was watched to the
      end. */
  ghost predicate WatchedLast(rows: seq<Download>, sample: Sample, title: string) {
    exists i :: 0 <= i < |sample.playback| && sample.playback[i].watched && OfManaged(rows, sample, title, i)
      && forall j :: 0 <= j < |sample.playback| && OfManaged(rows, sample, title, j) ==>
           sample.playback[j].updatedAt <= sample.playback[i].updatedAt
           && (j < i ==> sample.playback[j].updatedAt < sample.playback[i].updatedAt)
  }

  lemma ManagedTitle(rows: seq<Download>, sample: Sample, release: string)
    ensures var title := TitleOf(ManagedTitles(rows, sample.titleOf), release);
            title == if Managed(rows, release) then TitleFor(sample, release) else ""
  {
  }

  lemma OfManagedPlays(rows: seq<Download>, sample: Sample, title: string)
    ensures var titles := ManagedTitles(rows, sample.titleOf);
            forall i :: 0 <= i < |sample.playback| ==> (OfManaged(rows, sample, title, i) <==> Plays(titles, sample.playback[i], title))
  {
    forall i | 0 <= i < |sample.playback|
      ensures OfManaged(rows, sample, title, i) <==> Plays(ManagedTitles(rows, sample.titleOf), sample.playback[i], title)
    {
      ManagedTitle(rows, sample, sample.playback[i].releaseId);
    }
    hide ManagedTitles;
  }

  lemma WatchedLastMeans(rows: seq<Download>, sample: Sample, title: string)
    ensures var h := HouseholdOf(rows, sample);
            WatchedLast(rows, sample, title) <==> title in h.latest && h.latest[title].watched
  {
    var titles := ManagedTitles(rows, sample.titleOf);
    OfManagedPlays(rows, sample, title);
    hide ManagedTitles, Latest, Plays, OfManaged;
    if title in Latest(titles, sample.playback) {
      var i := LatestIsFirst(titles, sample.playback, title);
      assert OfManaged(rows, sample, title, i);
    }
    if WatchedLast(rows, sample, title) {
      var i :| 0 <= i < |sample.playback| && sample.playback[i].watched && OfManaged(rows, sample, title, i)
        && forall j :: 0 <= j < |sample.playback| && OfManaged(rows, sample, title, j) ==>
             sample.playback[j].updatedAt <= sample.playback[i].updatedAt
             && (j < i ==> sample.playback[j].updatedAt < sample.playback[i].updatedAt);
      LatestIsUnique(titles, sample.playback, title, i);
    }
  }

  ghost predicate StillLoading(rows: seq<Download>, sample: Sample, id: string, hash: string) {
    || (hash in sample.status && sample.status[hash].progress < 1.0)
    || exists row :: row in rows && row.engineId == id && row.progress < 1.0
  }

  ghost predicate Streaming(rows: seq<Download>, id: string) { exists row :: row in rows && row.engineId == id && row.leased }

  ghost predicate Favourite(rows: seq<Download>, sample: Sample, id: string) {
    exists row :: row in rows && row.engineId == id && TitleFor(sample, row.releaseId) != ""
                  && TitleFor(sample, row.releaseId) in sample.favorites
  }

  ghost predicate Watched(rows: seq<Download>, sample: Sample, id: string) {
    exists row :: row in rows && row.engineId == id && WatchedLast(rows, sample, TitleFor(sample, row.releaseId))
  }

  lemma RowTitle(rows: seq<Download>, sample: Sample, row: Download)
    requires row in rows
    ensures TitleOf(HouseholdOf(rows, sample).titleOf, row.releaseId) == TitleFor(sample, row.releaseId)
  {
    ManagedTitle(rows, sample, row.releaseId);
    hide Latest, ManagedTitles;
    assert Managed(rows, row.releaseId);
  }

  /** A surveyed route's facts, in terms of what the survey was answered. */
  lemma FactsOfRoute(prefix: string, rows: seq<Download>, sample: Sample, r: Route)
    requires SurveyOf(prefix, rows, sample).Some? && r in SurveyOf(prefix, rows, sample).value.routes
    ensures r.facts.favorite <==> Favourite(rows, sample, r.engineId)
    ensures r.facts.watched <==> Watched(rows, sample, r.engineId)
  {
    var h := HouseholdOf(rows, sample);
    SurveyMembers(prefix, rows, sample);
    RowsOfMembers(rows, r.engineId);
    FactsMeaning(h, r.rows);
    assert forall f :: f in h.favorites <==> f in sample.favorites;
    hide SurveyOf, HouseholdOf, FactsOf, WatchedLast, TitleFor, TitleOf, RowsOf;
    forall row | row in r.rows
      ensures TitleOf(h.titleOf, row.releaseId) == TitleFor(sample, row.releaseId)
      ensures WatchedLast(rows, sample, TitleFor(sample, row.releaseId))
         <==> TitleFor(sample, row.releaseId) in h.latest && h.latest[TitleFor(sample, row.releaseId)].watched
    {
      RowTitle(rows, sample, row);
      WatchedLastMeans(rows, sample, TitleFor(sample, row.releaseId));
    }
    NoTitleIsNotWatched(rows, sample);
  }

  lemma NoTitleIsNotWatched(rows: seq<Download>, sample: Sample)
    ensures !WatchedLast(rows, sample, "")
  {
  }

  /** Protection, toggle by toggle. */
  ghost predicate Kept(toggles: Protection, rows: seq<Download>, sample: Sample, r: Route) {
    || (toggles.incomplete && StillLoading(rows, sample, r.engineId, r.hash))
    || (toggles.leased && Streaming(rows, r.engineId))
    || (toggles.favorites && Favourite(rows, sample, r.engineId))
    || (toggles.neverWatched && !Watched(rows, sample, r.engineId))
  }

  lemma ProtectionMeaning(prefix: string, rows: seq<Download>, sample: Sample, toggles: Protection, r: Route)
    requires SurveyOf(prefix, rows, sample).Some? && r in SurveyOf(prefix, rows, sample).value.routes
    ensures r.hash in sample.status
    ensures Protected(r, toggles) <==> Kept(toggles, rows, sample, r)
  {
    FactsOfRoute(prefix, rows, sample, r);
    SurveyMembers(prefix, rows, sample);
    RowsOfMembers(rows, r.engineId);
    hide SurveyOf, HouseholdOf, FactsOf, Favourite, Watched, RowsOf;
  }

  /** No victim was protected when it was evicted: with the matching toggle, the
      engine and all its rows were complete, none of its rows was being streamed,
      none of its titles was a favourite, and one of its titles had been watched. */
  lemma VictimsWereUnprotected(s: Settings, rows: seq<Download>, env: nat -> Sample, k: nat, extra: int, i: nat)
    requires i < |Evict(s, rows, env, k, extra).steps|
    ensures var steps := Evict(s, rows, env, k, extra).steps;
            var v, left, sample := steps[i].victim, RowsBefore(rows, steps, i), env(k + i);
            && v.hash in sample.status && v.engineId == s.prefix + v.hash
            && (s.toggles.incomplete ==> sample.status[v.hash].progress >= 1.0)
            && (s.toggles.incomplete ==> forall row :: row in left && row.engineId == v.engineId ==> row.progress >= 1.0)
            && (s.toggles.leased ==> forall row :: row in left && row.engineId == v.engineId ==> !row.leased)
            && (s.toggles.favorites ==> !Favourite(left, sample, v.engineId))
            && (s.toggles.neverWatched ==> Watched(left, sample, v.engineId))
  {
    hide Evict, SurveyOf, RowsBefore, Favourite, Watched;
    var step := Evict(s, rows, env, k, extra).steps[i];
    var left, sample := RowsBefore(rows, Evict(s, rows, env, k, extra).steps, i), env(k + i);
    StepIsSurveyed(s, rows, env, k, extra, i);
    EveryEvictionIsSafe(s, rows, env, k, extra);
    UnprotectedVictim(s, step, extra);
    SurveyMembers(s.prefix, left, sample);
    ProtectionMeaning(s.prefix, left, sample, s.toggles, step.victim);
    hide Protected;
  }

  lemma UnprotectedVictim(s: Settings, step: Step, extra: int)
    requires SafeStep(s, step, extra)
    ensures !Protected(step.victim, s.toggles)
    ensures forall r :: r in step.plan.routes && !Protected(r, s.toggles) && r != step.victim ==> Before(s.rules, step.victim, r)
  {
    hide Protected, Deficit, Before;
  }

  /** A run that ends with nothing to evict leaves only protected torrents. */
  lemma WhatIsLeftIsProtected(s: Settings, rows: seq<Download>, env: nat -> Sample, k: nat, extra: int, o: Outcome, r: Route)
    requires o == Evict(s, rows, env, k, extra) && o.end.Exhausted? && r in o.end.plan.routes
    ensures r.hash in env(k + |o.steps|).status && Kept(s.toggles, o.rows, env(k + |o.steps|), r)
  {
    hide *;
    EveryEvictionIsSafe(s, rows, env, k, extra);
    RunEndsOnSurvey(s, rows, env, k, extra);
    AllProtected(s, o.end, extra);
    ProtectionMeaning(s.prefix, o.rows, env(k + |o.steps|), s.toggles, r);
  }

  lemma AllProtected(s: Settings, end: End, extra: int)
    requires JustEnd(s, end, extra) && end.Exhausted?
    ensures forall r :: r in end.plan.routes ==> Protected(r, s.toggles)
  {
    hide Protected, Deficit;
  }

  // ---- Which one first ----

  /** Every victim leads, by what the rules measure, every other surveyed torrent
      that was not protected either. */
  lemma VictimsLead(s: Settings, rows: seq<Download>, env: nat -> Sample, k: nat, extra: int, i: nat, r: Route)
    requires i < |Evict(s, rows, env, k, extra).steps|
    requires var steps := Evict(s, rows, env, k, extra).steps;
             && r in steps[i].plan.routes && r != steps[i].victim
             && !Kept(s.toggles, RowsBefore(rows, steps, i), env(k + i), r)
    ensures Leads(s.rules, Evict(s, rows, env, k, extra).steps[i].victim, r)
  {
    hide *;
    var steps := Evict(s, rows, env, k, extra).steps;
    StepIsSurveyed(s, rows, env, k, extra, i);
    EveryEvictionIsSafe(s, rows, env, k, extra);
    UnprotectedVictim(s, steps[i], extra);
    SurveyMembers(s.prefix, RowsBefore(rows, steps, i), env(k + i));
    ProtectionMeaning(s.prefix, RowsBefore(rows, steps, i), env(k + i), s.toggles, r);
    BeforeMeansLeads(s.rules, steps[i].victim, r);
  }

  /** So by the first rule none of them measures less than the victim. */
  lemma FirstRulePutsVictimFirst(rules: seq<string>, v: Route, r: Route)
    requires rules != [] && v.rows != [] && r.rows != [] && Leads(rules, v, r)
    ensures rules[0] == "largest" ==> v.status.totalBytes >= r.status.totalBytes
    ensures rules[0] == "smallest" ==> v.status.totalBytes <= r.status.totalBytes
    ensures rules[0] == "watched-first" && r.facts.watched ==> v.facts.watched
    ensures rules[0] == "never-watched-first" && !r.facts.watched ==> !v.facts.watched
    ensures rules[0] == "oldest-completed" ==> forall x, y :: OldestAt(v, x) && OldestAt(r, y) ==> x <= y
    ensures rules[0] == "newest-completed" ==> forall x, y :: OldestAt(v, x) && OldestAt(r, y) ==> x >= y
    ensures rules[0] == "least-recently-played" ==> forall x, y :: ActiveAt(v, x) && ActiveAt(r, y) ==> x <= y
    ensures rules[0] == "most-recently-played" ==> forall x, y :: ActiveAt(v, x) && ActiveAt(r, y) ==> x >= y
  {
    LeadsCons(rules, v, r);
    hide Leads;
    var x, y := LeastMeasure(rules[0], v, r);
    forall t | OldestAt(v, t) ensures t == CompletedAt(v) { CompletedIsOldest(v, t); }
    forall t | OldestAt(r, t) ensures t == CompletedAt(r) { CompletedIsOldest(r, t); }
    forall t | ActiveAt(v, t) ensures t == LastActivity(v) { ActivityIsActive(v, t); }
    forall t | ActiveAt(r, t) ensures t == LastActivity(r) { ActivityIsActive(r, t); }
    hide OldestAt, ActiveAt, CompletedAt, LastActivity, Less, Same;
  }

  lemma LeastMeasure(rule: string, a: Route, b: Route) returns (x: int, y: int)
    requires Less(rule, a, b) || Same(rule, a, b)
    ensures Measures(rule, a, x) && Measures(rule, b, y) && x <= y
  {
    hide Measures;
    if Less(rule, a, b) {
      x, y :| Measures(rule, a, x) && Measures(rule, b, y) && x < y;
    } else {
      x :| Measures(rule, a, x) && Measures(rule, b, x);
      y := x;
    }
  }
}

/** The service's storage methods over its repository rows, step by step, each
    proved against the functions of Survey, Retention and RetentionRun. A
    sample supplies what the outside calls of one look answer. */
module StorageService {
  import opened Wrappers
  import opened EvictionOrder
  import opened Survey
  import opened Retention
  import opened RetentionRun

  /** Row ids are the table's primary key. */
  ghost predicate UniqueRows(rows: seq<Download>) {
    forall i, j :: 0 <= i < j < |rows| ==> rows[i].id != rows[j].id
  }

  lemma {:induction false} WithoutKeepsUnique(rows: seq<Download>, gone: set<string>)
    requires UniqueRows(rows)
    ensures UniqueRows(Without(rows, gone))
  {
    if rows != [] {
      var n := |rows| - 1;
      WithoutKeepsUnique(rows[..n], gone);
      WithoutMembers(rows[..n], gone);
      var kept := Without(rows[..n], gone);
      forall i | 0 <= i < |kept| ensures kept[i].id != rows[n].id {
        assert kept[i] in kept;
        assert kept[i] in rows[..n];
      }
    }
  }

  /** Deleting by key takes out the one row with that key. */
  function DeleteRow(rows: seq<Download>, id: string): seq<Download> {
    if rows == [] then []
    else if rows[0].id == id then DeleteRow(rows[1..], id)
    else [rows[0]] + DeleteRow(rows[1..], id)
  }

  lemma {:induction false} DeleteRowInside(a: seq<Download>, row: Download, b: seq<Download>)
    requires forall r :: r in a || r in b ==> r.id != row.id
    ensures DeleteRow(a + [row] + b, row.id) == a + b
  {
    var all := a + [row] + b;
    if a == [] {
      assert all[1..] == b;
      DeleteRowAbsent(b, row.id);
      assert a + b == b;
    } else {
      assert all[1..] == a[1..] + [row] + b;
      DeleteRowInside(a[1..], row, b);
      assert a + b == [a[0]] + (a[1..] + b);
    }
  }

  lemma {:induction false} DeleteRowAbsent(rows: seq<Download>, id: string)
    requires forall r :: r in rows ==> r.id != id
    ensures DeleteRow(rows, id) == rows
  {
    if rows != [] {
      DeleteRowAbsent(rows[1..], id);
    }
  }

  /** The table once the listed rows before the i-th have been gone through. */
  function Partly(managed: seq<Download>, i: nat, engineId: string): seq<Download>
    requires i <= |managed|
  {
    Without(managed[..i], {engineId}) + managed[i..]
  }

  /** Going through one more row: nothing for a row of another route, else its
      deletion by key; stopping there leaves just the first rows deleted. */
  lemma ForgetOne(managed: seq<Download>, i: nat, engineId: string)
    requires i < |managed| && UniqueRows(managed)
    ensures UniqueRows(Partly(managed, i, engineId)) && UniqueRows(Partly(managed, i + 1, engineId))
    ensures var before, item := |RowsOf(managed[..i], engineId)|, managed[i];
            if item.engineId == engineId then
              && DeleteRow(Partly(managed, i, engineId), item.id) == Partly(managed, i + 1, engineId)
              && |RowsOf(managed[..i + 1], engineId)| == before + 1
              && before < |RowsOf(managed, engineId)|
              && DropFirst(managed, engineId, before) == Partly(managed, i, engineId)
            else
              && Partly(managed, i + 1, engineId) == Partly(managed, i, engineId)
              && |RowsOf(managed[..i + 1], engineId)| == before
  {
    PartlyUnique(managed, i, engineId);
    PartlyUnique(managed, i + 1, engineId);
    var done, item, todo := managed[..i], managed[i], managed[i + 1..];
    assert managed[..i + 1][..i] == done && managed[i..] == [item] + todo;
    var kept := Without(done, {engineId});
    assert kept + [item] + todo == kept + ([item] + todo);
    if item.engineId == engineId {
      ForgetHere(done, item, todo, engineId);
      assert managed == done + ([item] + todo);
      OthersDiffer(kept, item, todo);
      DeleteRowInside(kept, item, todo);
    }
  }

  lemma PartlyUnique(managed: seq<Download>, i: nat, engineId: string)
    requires i <= |managed| && UniqueRows(managed)
    ensures UniqueRows(Partly(managed, i, engineId))
  {
    assert managed[..i] + managed[i..] == managed;
    KeepsUnique(managed[..i], managed[i..], engineId);
  }

  lemma ForgetHere(done: seq<Download>, item: Download, todo: seq<Download>, engineId: string)
    requires item.engineId == engineId
    ensures |RowsOf(done, engineId)| < |RowsOf(done + ([item] + todo), engineId)|
    ensures DropFirst(done + ([item] + todo), engineId, |RowsOf(done, engineId)|) == Without(done, {engineId}) + ([item] + todo)
  {
    RowsOfConcat(done, [item] + todo, engineId);
    RowsOfConcat([item], todo, engineId);
    assert [item][..0] == [];
    DropFirstPrefix(done, [item] + todo, engineId, 0);
    DropNone([item] + todo, engineId);
  }

  lemma OthersDiffer(a: seq<Download>, row: Download, b: seq<Download>)
    requires UniqueRows(a + ([row] + b))
    ensures forall r :: r in a || r in b ==> r.id != row.id
  {
    var all := a + ([row] + b);
    assert all[|a|] == row;
    forall r | r in a || r in b ensures r.id != row.id {
      if r in a {
        var k :| 0 <= k < |a| && a[k] == r;
        assert all[k] == r;
      } else {
        var k :| 0 <= k < |b| && b[k] == r;
        assert all[|a| + 1 + k] == r;
      }
    }
  }

  lemma KeepsUnique(done: seq<Download>, rest: seq<Download>, engineId: string)
    requires UniqueRows(done + rest)
    ensures UniqueRows(Without(done, {engineId}) + rest)
  {
    var all, kept := done + rest, Without(done, {engineId});
    assert forall i :: 0 <= i < |done| ==> all[i] == done[i];
    assert forall i :: 0 <= i < |rest| ==> all[|done| + i] == rest[i];
    assert UniqueRows(done);
    WithoutKeepsUnique(done, {engineId});
    WithoutMembers(done, {engineId});
    forall i, j | 0 <= i < |kept| && 0 <= j < |rest| ensures kept[i].id != rest[j].id {
      assert kept[i] in done;
      var k :| 0 <= k < |done| && done[k] == kept[i];
      assert all[k].id != all[|done| + j].id;
    }
  }

  lemma {:induction false} DropNone(rows: seq<Download>, id: string)
    ensures DropFirst(rows, id, 0) == rows
  {
    if rows != [] {
      DropNone(rows[1..], id);
    }
  }

  lemma {:induction false} RowsOfConcat(a: seq<Download>, b: seq<Download>, id: string)
    ensures RowsOf(a + b, id) == RowsOf(a, id) + RowsOf(b, id)
  {
    if b == [] {
      assert a + b == a;
    } else {
      RowsOfConcat(a, b[..|b| - 1], id);
      assert (a + b)[..|a + b| - 1] == a + b[..|b| - 1];
    }
  }

  lemma {:induction false} DropFirstPrefix(a: seq<Download>, b: seq<Download>, id: string, n: nat)
    ensures DropFirst(a + b, id, |RowsOf(a, id)| + n) == Without(a, {id}) + DropFirst(b, id, n)
  {
    if a == [] {
      assert a + b == b;
    } else {
      var rest := a[1..];
      assert a == [a[0]] + rest && (a + b)[1..] == rest + b;
      RowsOfConcat([a[0]], rest, id);
      WithoutConcat([a[0]], rest, {id});
      assert [a[0]][..0] == [];
      DropFirstPrefix(rest, b, id, n);
    }
  }

  lemma SurveyNothing(prefix: string, rows: seq<Download>, sample: Sample, h: Household)
    ensures RoutesOf(prefix, [], rows, sample, h) == [] && TotalBytes([]) == 0
  {
  }

  /** What one more route adds to the survey. */
  lemma SurveyNext(prefix: string, ids: seq<string>, i: nat, rows: seq<Download>, sample: Sample, h: Household)
    requires i < |ids| && forall k :: 0 <= k < |ids| ==> Routable(prefix, rows, ids[k])
    ensures Routable(prefix, rows, ids[i])
    ensures var before, after := RoutesOf(prefix, ids[..i], rows, sample, h), RoutesOf(prefix, ids[..i + 1], rows, sample, h);
            && (ids[i][|prefix|..] !in sample.status ==> after == before)
            && (ids[i][|prefix|..] in sample.status ==>
                  var route := RouteFor(prefix, ids[i], rows, sample, h);
                  after == before + [route] && TotalBytes(after) == TotalBytes(before) + route.status.totalBytes)
  {
    assert ids[..i + 1][..i] == ids[..i];
    var before := RoutesOf(prefix, ids[..i], rows, sample, h);
    if ids[i][|prefix|..] in sample.status {
      var route := RouteFor(prefix, ids[i], rows, sample, h);
      assert (before + [route])[..|before|] == before;
    }
    hide FactsOf, RowsOf;
  }

  class Service {
    const settings: Settings
    var rows: seq<Download>        // the managed-download table, in listing order
    var removals: seq<string>      // torrent hashes the engine was told to delete, files included

    ghost predicate Valid() reads this { UniqueRows(rows) }

    constructor (settings: Settings, rows: seq<Download>)
      requires UniqueRows(rows)
      ensures Valid() && this.settings == settings && this.rows == rows && removals == []
    {
      this.settings, this.rows, this.removals := settings, rows, [];
    }

    method RetentionHousehold(managed: seq<Download>, sample: Sample) returns (h: Household)
      ensures h == HouseholdOf(managed, sample)
    {
      var releases: set<string> := {};
      for i := 0 to |managed|
        invariant releases == set k | 0 <= k < i && managed[k].releaseId != "" :: managed[k].releaseId
      {
        if managed[i].releaseId != "" { releases := releases + {managed[i].releaseId}; }
      }
      var titles := map release | release in releases && release in sample.titleOf :: sample.titleOf[release];
      assert titles == ManagedTitles(managed, sample.titleOf) by {
        forall release | release in sample.titleOf && release != ""
          ensures release in releases <==> exists row :: row in managed && row.releaseId == release
        {
          if row :| row in managed && row.releaseId == release {
            var k :| 0 <= k < |managed| && managed[k] == row;
          }
        }
      }
      var latest: map<string, Playback> := map[];
      for i := 0 to |sample.playback|
        invariant latest == Latest(titles, sample.playback[..i])
      {
        assert sample.playback[..i + 1][..i] == sample.playback[..i];
        var p := sample.playback[i];
        var title := TitleOf(titles, p.releaseId);
        if title != "" && (title !in latest || p.updatedAt > latest[title].updatedAt) { latest := latest[title := p]; }
      }
      assert sample.playback[..|sample.playback|] == sample.playback;
      h := Household((set f | f in sample.favorites), latest, titles);
    }

    method RouteFacts(h: Household, pinned: seq<Download>) returns (facts: Facts)
      ensures facts == FactsOf(h, pinned)
    {
      facts := Facts(false, false, ZERO_TIME);
      for i := 0 to |pinned|
        invariant facts == FactsOf(h, pinned[..i])
      {
        assert pinned[..i + 1][..i] == pinned[..i];
        var title := TitleOf(h.titleOf, pinned[i].releaseId);
        if title == "" { continue; }
        if title in h.favorites { facts := facts.(favorite := true); }
        if title !in h.latest { continue; }
        var p := h.latest[title];
        if p.watched { facts := facts.(watched := true); }
        if facts.lastPlayed == ZERO_TIME || p.updatedAt > facts.lastPlayed { facts := facts.(lastPlayed := p.updatedAt); }
      }
      assert pinned[..|pinned|] == pinned;
    }

    method GroupByRoute() returns (order: seq<string>, byRoute: map<string, seq<Download>>)
      ensures order == RouteIds(settings.prefix, rows)
      ensures forall id :: id in order ==> id in byRoute && byRoute[id] == RowsOf(rows, id)
    {
      order, byRoute := [], map[];
      for i := 0 to |rows|
        invariant order == RouteIds(settings.prefix, rows[..i])
        invariant forall id :: id in byRoute <==> id in order
        invariant forall id :: id in order ==> byRoute[id] == RowsOf(rows[..i], id)
      {
        assert rows[..i + 1][..i] == rows[..i];
        RouteIdsMembers(settings.prefix, rows[..i]);
        var row := rows[i];
        if !(settings.prefix <= row.engineId) { continue; }
        if row.engineId !in byRoute {
          order := order + [row.engineId];
          byRoute := byRoute[row.engineId := [row]];
        } else {
          byRoute := byRoute[row.engineId := byRoute[row.engineId] + [row]];
        }
      }
      assert rows[..|rows|] == rows;
    }

    method SurveyRoutes(order: seq<string>, byRoute: map<string, seq<Download>>, sample: Sample, h: Household)
      returns (routes: seq<Route>, stored: int)
      requires forall k :: 0 <= k < |order| ==> Routable(settings.prefix, rows, order[k])
      requires forall k :: 0 <= k < |order| ==> order[k] in byRoute && byRoute[order[k]] == RowsOf(rows, order[k])
      ensures routes == RoutesOf(settings.prefix, order, rows, sample, h)
      ensures stored == TotalBytes(routes)
    {
      hide FactsOf, RowsOf, RoutesOf, TotalBytes;
      routes, stored := [], 0;
      SurveyNothing(settings.prefix, rows, sample, h);
      for i := 0 to |order|
        invariant routes == RoutesOf(settings.prefix, order[..i], rows, sample, h)
        invariant stored == TotalBytes(routes)
      {
        var id := order[i];
        var hash := id[|settings.prefix|..];
        SurveyNext(settings.prefix, order, i, rows, sample, h);
        if hash !in sample.status { continue; }
        var facts := RouteFacts(h, byRoute[id]);
        routes := routes + [Route(id, hash, byRoute[id], sample.status[hash], facts)];
        stored := stored + sample.status[hash].totalBytes;
      }
      assert order[..|order|] == order;
    }

    method RetentionSurvey(sample: Sample) returns (plan: Option<Plan>)
      ensures plan == SurveyOf(settings.prefix, rows, sample)
    {
      if !sample.readable { return None; }
      hide HouseholdOf, RouteIds, RowsOf, RoutesOf, TotalBytes;
      var order, byRoute := GroupByRoute();
      var h := RetentionHousehold(rows, sample);
      RouteIdsMembers(settings.prefix, rows);
      forall k | 0 <= k < |order| ensures Routable(settings.prefix, rows, order[k]) {
        assert order[k] in order;
      }
      var routes, stored := SurveyRoutes(order, byRoute, sample, h);
      plan := Some(Plan(routes, stored, sample.free));
    }

    method ForgetEngineRows(engineId: string, removal: Removal) returns (ok: bool)
      requires Valid() && !removal.EngineRefused?
      modifies this`rows
      ensures Valid()
      ensures !removal.ListRefused? && settings.prefix <= engineId ==>
                Deletion(rows, ok) == Delete(settings.prefix, old(rows), engineId, removal)
      ensures removal.ListRefused? ==> !ok && rows == old(rows)
    {
      if removal.ListRefused? { return false; }
      var managed := rows;
      var deleted := 0;
      for i := 0 to |managed|
        invariant rows == Partly(managed, i, engineId) && UniqueRows(rows)
        invariant deleted == |RowsOf(managed[..i], engineId)|
        invariant removal.DeleteRefused? ==> deleted <= removal.after
      {
        hide Without, RowsOf, DropFirst, DeleteRow, Partly, UniqueRows;
        ForgetOne(managed, i, engineId);
        var item := managed[i];
        if item.engineId != engineId { continue; }
        if removal.DeleteRefused? && deleted == removal.after { return false; }
        rows := DeleteRow(rows, item.id);
        deleted := deleted + 1;
      }
      assert managed[..|managed|] == managed;
      ok := true;
    }

    /** Deletes the torrent, files included, and forgets its rows. */
    method RemoveTorrent(engineId: string, removal: Removal) returns (ok: bool)
      requires Valid()
      modifies this
      ensures Valid()
      ensures Deletion(rows, ok) == Delete(settings.prefix, old(rows), engineId, removal)
      ensures removals == old(removals) + (if settings.prefix <= engineId then [engineId[|settings.prefix|..]] else [])
    {
      if !(settings.prefix <= engineId) { return false; }
      removals := removals + [engineId[|settings.prefix|..]];
      if removal.EngineRefused? { return false; }
      ok := ForgetEngineRows(engineId, removal);
    }

    /** Evicts the first candidate of the plan, if there is one. */
    method EvictNext(plan: Plan, removal: Removal) returns (victim: Option<Route>, ok: bool)
      requires Valid()
      requires forall r :: r in plan.routes ==> r.engineId == settings.prefix + r.hash
      modifies this
      ensures Valid()
      ensures victim == Victim(plan.routes, settings)
      ensures victim.None? ==> ok && rows == old(rows) && removals == old(removals)
      ensures victim.Some? ==> Deletion(rows, ok) == Delete(settings.prefix, old(rows), victim.value.engineId, removal)
      ensures victim.Some? ==> victim.value in plan.routes && removals == old(removals) + [victim.value.hash]
    {
      var candidates := [];
      for i := 0 to |plan.routes|
        invariant candidates == Candidates(plan.routes[..i], settings.toggles)
        invariant unchanged(this)
      {
        assert plan.routes[..i + 1][..i] == plan.routes[..i];
        if !Protected(plan.routes[i], settings.toggles) { candidates := candidates + [plan.routes[i]]; }
      }
      assert plan.routes[..|plan.routes|] == plan.routes;
      CandidatesMembers(plan.routes, settings.toggles);
      if candidates == [] {
        assert Order(settings.rules, []) == [];
        return None, true;
      }
      var order := new Route[|candidates|](i requires 0 <= i < |candidates| => candidates[i]);
      assert order[..] == candidates;
      ApplyEvictionRules(order, settings.rules);
      Sorting.SameElements(candidates, order[..]);
      assert order[0] in order[..];
      victim := Some(order[0]);
      ok := RemoveTorrent(order[0].engineId, removal);
    }

    /** The hourly run: evict until storage fits or nothing evictable is left. */
    method RunRetention(env: nat -> Sample) returns (steps: seq<Step>, freed: nat, end: End)
      requires Valid()
      modifies this
      ensures Valid()
      ensures Outcome(rows, steps, end) == Evict(settings, old(rows), env, 0, 0)
      ensures freed == TotalBytes(Victims(steps))
      ensures removals == old(removals) + Deleted(steps, end)
    {
      hide Evict, SurveyOf, Victim, Delete, Deficit, Prepend, Hashes, Victims, TotalBytes;
      steps, freed, end := [], 0, SurveyFailed;
      NoSteps(Evict(settings, rows, env, 0, 0));
      var k := 0;
      var plan := RetentionSurvey(env(0));
      while plan.Some?
        invariant Valid()
        invariant plan == SurveyOf(settings.prefix, rows, env(k))
        invariant Evict(settings, old(rows), env, 0, 0) == Prepend(steps, Evict(settings, rows, env, k, 0))
        invariant freed == TotalBytes(Victims(steps))
        invariant removals == old(removals) + Hashes(Victims(steps))
        decreases |rows|
      {
        SurveyMembers(settings.prefix, rows, env(k));
        OneTurn(settings, rows, env, k, 0);
        var reason := Deficit(plan.value, 0, settings);
        if reason.None? { end := Fits(plan.value); break; }
        var victim, ok := EvictNext(plan.value, env(k).removal);
        if victim.None? { end := Exhausted(plan.value, reason.value); break; }
        if !ok { end := DeleteFailed(plan.value, victim.value); break; }
        AddedStep(steps, Step(plan.value, victim.value), Evict(settings, rows, env, k + 1, 0));
        steps := steps + [Step(plan.value, victim.value)];
        freed := freed + victim.value.status.totalBytes;
        k := k + 1;
        plan := RetentionSurvey(env(k));
      }
      if plan.None? { OneTurn(settings, rows, env, k, 0); }
      PrependLast(steps, Outcome(rows, [], end));
    }

    /** The download gate: make room for `incoming` bytes, or say why not. */
    method EnsureAllocationRoom(env: nat -> Sample, incoming: int) returns (answer: Admission, ghost steps: seq<Step>, ghost end: End)
      requires Valid()
      modifies this
      ensures Valid()
      ensures settings.allocation.None? ==> answer == Admitted && rows == old(rows) && removals == old(removals)
      ensures settings.allocation.Some? ==>
                && Outcome(rows, steps, end) == Evict(settings, old(rows), env, 0, incoming)
                && answer == AdmissionOf(settings.allocation.value, incoming, end)
                && (answer.Failed? <==> end.SurveyFailed? || end.DeleteFailed?)
                && (answer.Refused? <==> end.Exhausted? && end.plan.storedBytes + incoming > settings.allocation.value)
                && (answer.Refused? ==>
                      answer == Refused(incoming, settings.allocation.value - TotalBytes(end.plan.routes), settings.allocation.value))
                && removals == old(removals) + Deleted(steps, end)
    {
      hide Evict, SurveyOf, Victim, Delete, Deficit, Prepend, Hashes, Victims, TotalBytes;
      steps, end := [], SurveyFailed;
      if settings.allocation.None? { return Admitted, steps, end; }
      var capacity := settings.allocation.value;
      NoSteps(Evict(settings, rows, env, 0, incoming));
      answer := Failed;
      var k := 0;
      var plan := RetentionSurvey(env(0));
      while plan.Some?
        invariant Valid()
        invariant plan == SurveyOf(settings.prefix, rows, env(k))
        invariant Evict(settings, old(rows), env, 0, incoming) == Prepend(steps, Evict(settings, rows, env, k, incoming))
        invariant removals == old(removals) + Hashes(Victims(steps))
        invariant answer == Failed && end == SurveyFailed
        decreases |rows|
      {
        SurveyMembers(settings.prefix, rows, env(k));
        OneTurn(settings, rows, env, k, incoming);
        var reason := Deficit(plan.value, incoming, settings);
        if reason.None? { answer, end := Admitted, Fits(plan.value); break; }
        var victim, ok := EvictNext(plan.value, env(k).removal);
        if victim.None? {
          end := Exhausted(plan.value, reason.value);
          answer := if reason.value.Cap? then Refused(incoming, capacity - plan.value.storedBytes, capacity) else Admitted;
          break;
        }
        if !ok { end := DeleteFailed(plan.value, victim.value); break; }
        AddedStep(steps, Step(plan.value, victim.value), Evict(settings, rows, env, k + 1, incoming));
        steps := steps + [Step(plan.value, victim.value)];
        k := k + 1;
        plan := RetentionSurvey(env(k));
      }
      if plan.None? { OneTurn(settings, rows, env, k, incoming); }
      PrependLast(steps, Outcome(rows, [], end));
      AdmissionMeaning(settings, old(rows), env, incoming);
    }
  }

  function Hashes(routes: seq<Route>): seq<string> {
    if routes == [] then [] else Hashes(routes[..|routes| - 1]) + [routes[|routes| - 1].hash]
  }

  /** The hashes a run hands to the engine's delete call. */
  function Deleted(steps: seq<Step>, end: End): seq<string> {
    Hashes(Victims(steps)) + (if end.DeleteFailed? then [end.victim.hash] else [])
  }

  function Prepend(steps: seq<Step>, o: Outcome): Outcome { Outcome(o.rows, steps + o.steps, o.end) }

  lemma NoSteps(o: Outcome)
    ensures Prepend([], o) == o && Victims([]) == [] && Hashes([]) == [] && TotalBytes([]) == 0
  {
  }

  lemma PrependLast(steps: seq<Step>, o: Outcome)
    requires o.steps == []
    ensures Prepend(steps, o) == Outcome(o.rows, steps, o.end)
  {
  }

  lemma AddedStep(steps: seq<Step>, step: Step, o: Outcome)
    ensures Prepend(steps, Prepend([step], o)) == Prepend(steps + [step], o)
    ensures Victims(steps + [step]) == Victims(steps) + [step.victim]
    ensures Hashes(Victims(steps + [step])) == Hashes(Victims(steps)) + [step.victim.hash]
    ensures TotalBytes(Victims(steps + [step])) == TotalBytes(Victims(steps)) + step.victim.status.totalBytes
  {
    assert steps + ([step] + o.steps) == steps + [step] + o.steps;
    assert (steps + [step])[..|steps|] == steps;
    var all := Victims(steps) + [step.victim];
    assert all[..|all| - 1] == Victims(steps);
  }

  /** One turn of the loop, spelled out in the order the methods take it. */
  lemma OneTurn(s: Settings, rows: seq<Download>, env: nat -> Sample, k: nat, extra: int)
    ensures var plan := SurveyOf(s.prefix, rows, env(k));
            if plan.None? then Evict(s, rows, env, k, extra) == Outcome(rows, [], SurveyFailed)
            else
              var reason, victim := Deficit(plan.value, extra, s), Victim(plan.value.routes, s);
              if reason.None? then Evict(s, rows, env, k, extra) == Outcome(rows, [], Fits(plan.value))
              else if victim.None? then Evict(s, rows, env, k, extra) == Outcome(rows, [], Exhausted(plan.value, reason.value))
              else
                var d := Delete(s.prefix, rows, victim.value.engineId, env(k).removal);
                if d.ok then
                  && |d.rows| < |rows|
                  && Evict(s, rows, env, k, extra) == Prepend([Step(plan.value, victim.value)], Evict(s, d.rows, env, k + 1, extra))
                else
                  Evict(s, rows, env, k, extra) == Outcome(d.rows, [], DeleteFailed(plan.value, victim.value))
  {
    hide SurveyOf, Victim, Delete, Deficit;
    LookFacts(s, rows, env(k), extra);
  }
}

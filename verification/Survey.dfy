/** One look at storage: managed rows grouped by torrent, engine telemetry and
    household facts. Each outside call of the k-th look (repository, engine,
    free-space probe) is an entry of a Sample, failures included. */
module Survey {
  import opened Wrappers
  import opened EvictionOrder

  datatype Playback = Playback(releaseId: string, watched: bool, updatedAt: int)

  /** How deleting a torrent goes: through, refused by the engine, or cut short
      in the repository after some rows. A torrent the engine no longer knows
      counts as removed. */
  datatype Removal = Removed | EngineRefused | ListRefused | DeleteRefused(after: nat)

  datatype Sample = Sample(readable: bool, status: map<string, Status>, titleOf: map<string, string>,
                           favorites: seq<string>, playback: seq<Playback>, free: Option<int>, removal: Removal)

  datatype Household = Household(favorites: set<string>, latest: map<string, Playback>, titleOf: map<string, string>)

  datatype Plan = Plan(routes: seq<Route>, storedBytes: int, free: Option<int>)

  // ---- Grouping rows by route ----

  /** Engine ids of the active engine in order of first appearance. */
  function RouteIds(prefix: string, rows: seq<Download>): seq<string> {
    if rows == [] then []
    else
      var ids := RouteIds(prefix, rows[..|rows| - 1]);
      var id := rows[|rows| - 1].engineId;
      if prefix <= id && id !in ids then ids + [id] else ids
  }

  function RowsOf(rows: seq<Download>, id: string): seq<Download> {
    if rows == [] then []
    else
      var last := rows[|rows| - 1];
      var before := RowsOf(rows[..|rows| - 1], id);
      if last.engineId == id then before + [last] else before
  }

  /** The rows that stay when the routes in `gone` go. */
  function Without(rows: seq<Download>, gone: set<string>): seq<Download> {
    if rows == [] then []
    else
      var last := rows[|rows| - 1];
      var before := Without(rows[..|rows| - 1], gone);
      if last.engineId in gone then before else before + [last]
  }

  lemma {:induction false} WithoutMembers(rows: seq<Download>, gone: set<string>)
    ensures forall row :: row in Without(rows, gone) <==> row in rows && row.engineId !in gone
  {
    if rows != [] {
      WithoutMembers(rows[..|rows| - 1], gone);
      assert rows == rows[..|rows| - 1] + [rows[|rows| - 1]];
    }
  }

  lemma AddedRow(prefix: string, id: string, rows: seq<Download>, row: Download)
    ensures RouteIds(prefix, rows + [row]) ==
              if prefix <= row.engineId && row.engineId !in RouteIds(prefix, rows) then RouteIds(prefix, rows) + [row.engineId]
              else RouteIds(prefix, rows)
    ensures RowsOf(rows + [row], id) == if row.engineId == id then RowsOf(rows, id) + [row] else RowsOf(rows, id)
  {
    assert (rows + [row])[..|rows|] == rows;
  }

  lemma {:induction false} RowsOfMembers(rows: seq<Download>, id: string)
    ensures forall row :: row in RowsOf(rows, id) <==> row in rows && row.engineId == id
    ensures |Without(rows, {id})| + |RowsOf(rows, id)| == |rows|
  {
    if rows != [] {
      RowsOfMembers(rows[..|rows| - 1], id);
      assert rows == rows[..|rows| - 1] + [rows[|rows| - 1]];
    }
  }

  predicate Routable(prefix: string, rows: seq<Download>, id: string) {
    prefix <= id && RowsOf(rows, id) != []
  }

  lemma {:induction false} RouteIdsMembers(prefix: string, rows: seq<Download>)
    ensures forall id :: id in RouteIds(prefix, rows) <==> Routable(prefix, rows, id)
    ensures forall i, j :: 0 <= i < j < |RouteIds(prefix, rows)| ==> RouteIds(prefix, rows)[i] != RouteIds(prefix, rows)[j]
  {
    if rows != [] {
      RouteIdsMembers(prefix, rows[..|rows| - 1]);
    }
  }

  // ---- Household facts ----

  function ManagedTitles(rows: seq<Download>, titleOf: map<string, string>): map<string, string> {
    map release | release in titleOf && release != "" && (exists row :: row in rows && row.releaseId == release)
      :: titleOf[release]
  }

  function TitleOf(titles: map<string, string>, release: string): string {
    if release in titles then titles[release] else ""
  }

  /** The latest playback per canonical title; the earlier listed wins a tie. */
  function Latest(titles: map<string, string>, playback: seq<Playback>): map<string, Playback> {
    if playback == [] then map[]
    else
      var m := Latest(titles, playback[..|playback| - 1]);
      var p := playback[|playback| - 1];
      var title := TitleOf(titles, p.releaseId);
      if title != "" && (title !in m || p.updatedAt > m[title].updatedAt) then m[title := p] else m
  }

  function HouseholdOf(rows: seq<Download>, sample: Sample): Household {
    var titles := ManagedTitles(rows, sample.titleOf);
    Household((set f | f in sample.favorites), Latest(titles, sample.playback), titles)
  }

  function AddRow(h: Household, facts: Facts, row: Download): Facts {
    var title := TitleOf(h.titleOf, row.releaseId);
    if title == "" then facts
    else
      var favorite := facts.favorite || title in h.favorites;
      if title !in h.latest then facts.(favorite := favorite)
      else
        var p := h.latest[title];
        Facts(favorite, facts.watched || p.watched,
              if facts.lastPlayed == ZERO_TIME || p.updatedAt > facts.lastPlayed then p.updatedAt else facts.lastPlayed)
  }

  function FactsOf(h: Household, rows: seq<Download>): Facts {
    if rows == [] then Facts(false, false, ZERO_TIME)
    else AddRow(h, FactsOf(h, rows[..|rows| - 1]), rows[|rows| - 1])
  }

  /** What the fold amounts to: a route is a favourite, or watched, when one of
      its titles is. */
  lemma {:induction false} FactsMeaning(h: Household, rows: seq<Download>)
    ensures FactsOf(h, rows).favorite <==>
              exists row :: row in rows && TitleOf(h.titleOf, row.releaseId) != "" && TitleOf(h.titleOf, row.releaseId) in h.favorites
    ensures FactsOf(h, rows).watched <==>
              exists row :: row in rows && TitleOf(h.titleOf, row.releaseId) != "" && TitleOf(h.titleOf, row.releaseId) in h.latest
                && h.latest[TitleOf(h.titleOf, row.releaseId)].watched
  {
    if rows != [] {
      FactsMeaning(h, rows[..|rows| - 1]);
      assert rows == rows[..|rows| - 1] + [rows[|rows| - 1]];
    }
  }

  predicate Plays(titles: map<string, string>, p: Playback, title: string) {
    title != "" && TitleOf(titles, p.releaseId) == title
  }

  /** Every title that was played has its latest playback. */
  lemma {:induction false} LatestMeaning(titles: map<string, string>, playback: seq<Playback>, title: string)
    ensures var m := Latest(titles, playback);
            && (title in m <==> exists p :: p in playback && Plays(titles, p, title))
            && (title in m ==> m[title] in playback && Plays(titles, m[title], title)
                               && forall p :: p in playback && Plays(titles, p, title) ==> p.updatedAt <= m[title].updatedAt)
  {
    if playback != [] {
      var front, last := playback[..|playback| - 1], playback[|playback| - 1];
      LatestMeaning(titles, front, title);
      assert forall p :: p in playback <==> p in front || p == last by { assert playback == front + [last]; }
      var before := Latest(titles, front);
      assert title !in before ==> title in Latest(titles, playback) ==> Plays(titles, last, title);
    }
  }

  /** The i-th playback is the title's latest, and of several the first listed. */
  predicate LatestAt(titles: map<string, string>, playback: seq<Playback>, title: string, i: nat) {
    && i < |playback| && Plays(titles, playback[i], title)
    && forall j :: 0 <= j < |playback| && Plays(titles, playback[j], title) ==>
         playback[j].updatedAt <= playback[i].updatedAt && (j < i ==> playback[j].updatedAt < playback[i].updatedAt)
  }

  /** It is the one the title is known by. */
  lemma {:induction false} LatestIsFirst(titles: map<string, string>, playback: seq<Playback>, title: string) returns (i: nat)
    requires title in Latest(titles, playback)
    ensures LatestAt(titles, playback, title, i) && Latest(titles, playback)[title] == playback[i]
  {
    var n := |playback| - 1;
    var front := playback[..n];
    LatestMeaning(titles, front, title);
    assert forall j :: 0 <= j < n ==> front[j] == playback[j] && front[j] in front;
    if title in Latest(titles, front) && Latest(titles, playback)[title] == Latest(titles, front)[title] {
      i := LatestIsFirst(titles, front, title);
    } else {
      i := n;
    }
  }

  lemma LatestIsUnique(titles: map<string, string>, playback: seq<Playback>, title: string, i: nat)
    requires LatestAt(titles, playback, title, i)
    ensures title in Latest(titles, playback) && Latest(titles, playback)[title] == playback[i]
  {
    LatestMeaning(titles, playback, title);
    hide Latest;
    assert playback[i] in playback;
    var k := LatestIsFirst(titles, playback, title);
    assert k == i;
  }

  predicate Played(h: Household, row: Download) {
    TitleOf(h.titleOf, row.releaseId) != "" && TitleOf(h.titleOf, row.releaseId) in h.latest
  }

  function PlayedAt(h: Household, row: Download): int
    requires Played(h, row)
  {
    h.latest[TitleOf(h.titleOf, row.releaseId)].updatedAt
  }

  /** A route was last played when the last of its titles was. */
  lemma {:induction false} LastPlayedMeaning(h: Household, rows: seq<Download>)
    requires forall title :: title in h.latest ==> h.latest[title].updatedAt > ZERO_TIME
    ensures var last := FactsOf(h, rows).lastPlayed;
            && (forall row :: row in rows && Played(h, row) ==> PlayedAt(h, row) <= last)
            && (last == ZERO_TIME || exists row :: row in rows && Played(h, row) && PlayedAt(h, row) == last)
            && last >= ZERO_TIME
  {
    if rows != [] {
      var front, last := rows[..|rows| - 1], rows[|rows| - 1];
      LastPlayedMeaning(h, front);
      assert rows == front + [last];
      var before, after := FactsOf(h, front).lastPlayed, FactsOf(h, rows).lastPlayed;
      assert last in rows;
      if after == before {
        assert before != ZERO_TIME ==> exists row :: row in front && Played(h, row) && PlayedAt(h, row) == before;
      } else {
        assert Played(h, last) && PlayedAt(h, last) == after;
      }
    }
  }

  // ---- The survey ----

  function RouteFor(prefix: string, id: string, rows: seq<Download>, sample: Sample, h: Household): Route
    requires Routable(prefix, rows, id) && id[|prefix|..] in sample.status
  {
    var hash := id[|prefix|..];
    Route(id, hash, RowsOf(rows, id), sample.status[hash], FactsOf(h, RowsOf(rows, id)))
  }

  /** Routes the engine can describe, in id order; the others are skipped. */
  function RoutesOf(prefix: string, ids: seq<string>, rows: seq<Download>, sample: Sample, h: Household): seq<Route>
    requires forall i :: 0 <= i < |ids| ==> Routable(prefix, rows, ids[i])
  {
    if ids == [] then []
    else
      var id := ids[|ids| - 1];
      assert Routable(prefix, rows, id);
      var others := RoutesOf(prefix, ids[..|ids| - 1], rows, sample, h);
      if id[|prefix|..] in sample.status then others + [RouteFor(prefix, id, rows, sample, h)] else others
  }

  function TotalBytes(routes: seq<Route>): nat {
    if routes == [] then 0
    else TotalBytes(routes[..|routes| - 1]) + routes[|routes| - 1].status.totalBytes
  }

  function SurveyOf(prefix: string, rows: seq<Download>, sample: Sample): Option<Plan> {
    if !sample.readable then None
    else
      RouteIdsMembers(prefix, rows);
      var routes := RoutesOf(prefix, RouteIds(prefix, rows), rows, sample, HouseholdOf(rows, sample));
      Some(Plan(routes, TotalBytes(routes), sample.free))
  }

  /** What a surveyed route is: all managed rows of one torrent the engine
      describes, with the engine's own status; each torrent appears once. */
  lemma {:induction false} RoutesOfMembers(prefix: string, ids: seq<string>, rows: seq<Download>, sample: Sample, h: Household)
    requires forall i :: 0 <= i < |ids| ==> Routable(prefix, rows, ids[i])
    requires forall i, j :: 0 <= i < j < |ids| ==> ids[i] != ids[j]
    ensures forall r :: r in RoutesOf(prefix, ids, rows, sample, h) ==>
              && r.engineId in ids && r.rows == RowsOf(rows, r.engineId) && r.rows != [] && r.engineId == prefix + r.hash
              && r.hash in sample.status && r.status == sample.status[r.hash]
              && r.facts == FactsOf(h, r.rows)
    ensures DistinctIds(RoutesOf(prefix, ids, rows, sample, h))
  {
    if ids != [] {
      var n := |ids| - 1;
      RoutesOfMembers(prefix, ids[..n], rows, sample, h);
      assert forall i :: 0 <= i < n ==> ids[..n][i] == ids[i];
      assert ids[n] !in ids[..n];
      assert ids[n] == prefix + ids[n][|prefix|..];
      var before := RoutesOf(prefix, ids[..n], rows, sample, h);
      assert forall i :: 0 <= i < |before| ==> before[i] in before;
    }
  }

  lemma SurveyMembers(prefix: string, rows: seq<Download>, sample: Sample)
    requires SurveyOf(prefix, rows, sample).Some?
    ensures var routes := SurveyOf(prefix, rows, sample).value.routes;
            && DistinctIds(routes)
            && forall r :: r in routes ==>
                 && r.rows == RowsOf(rows, r.engineId) && r.rows != [] && r.engineId == prefix + r.hash
                 && r.hash in sample.status && r.status == sample.status[r.hash]
                 && r.facts == FactsOf(HouseholdOf(rows, sample), r.rows)
  {
    RouteIdsMembers(prefix, rows);
    RoutesOfMembers(prefix, RouteIds(prefix, rows), rows, sample, HouseholdOf(rows, sample));
  }

  lemma {:induction false} RoutesOfComplete(prefix: string, ids: seq<string>, rows: seq<Download>, sample: Sample, h: Household, id: string)
    requires forall i :: 0 <= i < |ids| ==> Routable(prefix, rows, ids[i])
    requires id in ids && Routable(prefix, rows, id) && id[|prefix|..] in sample.status
    ensures RouteFor(prefix, id, rows, sample, h) in RoutesOf(prefix, ids, rows, sample, h)
  {
    var n := |ids| - 1;
    if ids[n] != id {
      assert id in ids[..n];
      RoutesOfComplete(prefix, ids[..n], rows, sample, h, id);
    }
  }

  /** Every route with managed rows that the engine can describe is surveyed, with
      its rows, its status and the household's facts. */
  lemma SurveyIsComplete(prefix: string, rows: seq<Download>, sample: Sample, row: Download)
    requires SurveyOf(prefix, rows, sample).Some?
    requires row in rows && prefix <= row.engineId && row.engineId[|prefix|..] in sample.status
    ensures var id, hash := row.engineId, row.engineId[|prefix|..];
            var route := Route(id, hash, RowsOf(rows, id), sample.status[hash], FactsOf(HouseholdOf(rows, sample), RowsOf(rows, id)));
            row in route.rows && route in SurveyOf(prefix, rows, sample).value.routes
  {
    RowsOfMembers(rows, row.engineId);
    RouteIdsMembers(prefix, rows);
    RoutesOfComplete(prefix, RouteIds(prefix, rows), rows, sample, HouseholdOf(rows, sample), row.engineId);
  }

  // ---- Surveying after routes have gone ----

  function Surviving(routes: seq<Route>, gone: set<string>): seq<Route> {
    if routes == [] then []
    else
      var last := routes[|routes| - 1];
      var before := Surviving(routes[..|routes| - 1], gone);
      if last.engineId in gone then before else before + [last]
  }

  function SurvivingIds(ids: seq<string>, gone: set<string>): seq<string> {
    if ids == [] then []
    else
      var last := ids[|ids| - 1];
      var before := SurvivingIds(ids[..|ids| - 1], gone);
      if last in gone then before else before + [last]
  }

  lemma {:induction false} IdsWithout(prefix: string, rows: seq<Download>, gone: set<string>)
    ensures RouteIds(prefix, Without(rows, gone)) == SurvivingIds(RouteIds(prefix, rows), gone)
    ensures forall id :: id in SurvivingIds(RouteIds(prefix, rows), gone) <==> id in RouteIds(prefix, rows) && id !in gone
  {
    if rows != [] {
      var n := |rows| - 1;
      IdsWithout(prefix, rows[..n], gone);
      AddedRow(prefix, "", Without(rows[..n], gone), rows[n]);
      AddedId(RouteIds(prefix, rows[..n]), rows[n].engineId, gone);
    }
  }

  lemma AddedId(ids: seq<string>, id: string, gone: set<string>)
    ensures SurvivingIds(ids + [id], gone) == if id in gone then SurvivingIds(ids, gone) else SurvivingIds(ids, gone) + [id]
  {
    assert (ids + [id])[..|ids|] == ids;
  }

  lemma {:induction false} RowsOfWithout(rows: seq<Download>, gone: set<string>, id: string)
    requires id !in gone
    ensures RowsOf(Without(rows, gone), id) == RowsOf(rows, id)
  {
    if rows != [] {
      var n := |rows| - 1;
      RowsOfWithout(rows[..n], gone, id);
      AddedRow("", id, Without(rows[..n], gone), rows[n]);
    }
  }

  ghost predicate SubMap(small: map<string, string>, large: map<string, string>) {
    forall release :: TitleOf(small, release) != "" ==> TitleOf(small, release) == TitleOf(large, release)
  }

  /** What a played title's latest playback becomes when releases go: it stays
      exactly when the release played last is still managed. */
  lemma LatestStaysExactly(small: map<string, string>, large: map<string, string>, playback: seq<Playback>, title: string)
    requires SubMap(small, large) && title in Latest(large, playback)
    ensures title in Latest(small, playback) && Latest(small, playback)[title] == Latest(large, playback)[title]
       <==> TitleOf(small, Latest(large, playback)[title].releaseId) == title
  {
    LatestMeaning(small, playback, title);
    LatestMeaning(large, playback, title);
    if TitleOf(small, Latest(large, playback)[title].releaseId) == title {
      LatestStays(small, large, playback, title);
    }
  }

  lemma {:induction false} LatestStays(small: map<string, string>, large: map<string, string>, playback: seq<Playback>, title: string)
    requires SubMap(small, large) && title != "" && title in Latest(large, playback)
    requires TitleOf(small, Latest(large, playback)[title].releaseId) == title
    ensures title in Latest(small, playback) && Latest(small, playback)[title] == Latest(large, playback)[title]
  {
    var front, last := playback[..|playback| - 1], playback[|playback| - 1];
    LatestMeaning(small, front, title);
    LatestMeaning(large, front, title);
    if title in Latest(large, front) && Latest(large, playback)[title] == Latest(large, front)[title] {
      LatestStays(small, large, front, title);
    }
  }

  /** A title that was not played is not played with fewer releases either. */
  lemma NeverPlayedStays(small: map<string, string>, large: map<string, string>, playback: seq<Playback>, title: string)
    requires SubMap(small, large) && title !in Latest(large, playback)
    ensures title !in Latest(small, playback)
  {
    LatestMeaning(small, playback, title);
    LatestMeaning(large, playback, title);
  }

  lemma {:induction false} FactsAgree(small: Household, large: Household, rows: seq<Download>)
    requires small.favorites == large.favorites
    requires forall row :: row in rows ==>
               var title := TitleOf(small.titleOf, row.releaseId);
               && title == TitleOf(large.titleOf, row.releaseId)
               && (title != "" ==> (title in small.latest <==> title in large.latest))
               && (title != "" && title in small.latest ==> small.latest[title] == large.latest[title])
    ensures FactsOf(small, rows) == FactsOf(large, rows)
  {
    if rows != [] {
      assert forall row :: row in rows[..|rows| - 1] ==> row in rows;
      FactsAgree(small, large, rows[..|rows| - 1]);
      assert rows[|rows| - 1] in rows;
    }
  }

  lemma HouseholdShrinks(rows: seq<Download>, sample: Sample, gone: set<string>)
    ensures var small, large := HouseholdOf(Without(rows, gone), sample), HouseholdOf(rows, sample);
            small.favorites == large.favorites && SubMap(small.titleOf, large.titleOf)
  {
    WithoutMembers(rows, gone);
  }

  /** The release of a title that was played last is still managed once routes are
      gone. */
  ghost predicate LastPlayedKept(rows: seq<Download>, sample: Sample, gone: set<string>, title: string) {
    var large := HouseholdOf(rows, sample);
    title in large.latest ==>
      exists row :: row in rows && row.engineId !in gone && row.releaseId == large.latest[title].releaseId
  }

  lemma KeptMeansManaged(rows: seq<Download>, sample: Sample, gone: set<string>, title: string)
    requires title in HouseholdOf(rows, sample).latest
    ensures var small, large := HouseholdOf(Without(rows, gone), sample), HouseholdOf(rows, sample);
            title != "" && (LastPlayedKept(rows, sample, gone, title) <==> TitleOf(small.titleOf, large.latest[title].releaseId) == title)
  {
    var large := HouseholdOf(rows, sample);
    LatestMeaning(large.titleOf, sample.playback, title);
    WithoutMembers(rows, gone);
    hide Latest;
  }

  lemma RowTitleStays(rows: seq<Download>, sample: Sample, gone: set<string>, row: Download)
    requires row in rows && row.engineId !in gone
    ensures TitleOf(HouseholdOf(Without(rows, gone), sample).titleOf, row.releaseId) == TitleOf(HouseholdOf(rows, sample).titleOf, row.releaseId)
  {
    WithoutMembers(rows, gone);
    hide Latest;
  }

  /** The facts of a surviving route stay when for each of its titles the release
      played last is still managed. */
  lemma FactsStay(rows: seq<Download>, sample: Sample, gone: set<string>, id: string)
    requires id !in gone
    requires forall row :: row in RowsOf(rows, id) ==>
               LastPlayedKept(rows, sample, gone, TitleOf(HouseholdOf(rows, sample).titleOf, row.releaseId))
    ensures FactsOf(HouseholdOf(Without(rows, gone), sample), RowsOf(rows, id)) == FactsOf(HouseholdOf(rows, sample), RowsOf(rows, id))
  {
    var small, large := HouseholdOf(Without(rows, gone), sample), HouseholdOf(rows, sample);
    RowsOfMembers(rows, id);
    HouseholdShrinks(rows, sample, gone);
    forall row | row in RowsOf(rows, id)
      ensures var title := TitleOf(small.titleOf, row.releaseId);
              && title == TitleOf(large.titleOf, row.releaseId)
              && (title != "" ==> (title in small.latest <==> title in large.latest))
              && (title != "" && title in small.latest ==> small.latest[title] == large.latest[title])
    {
      RowTitleStays(rows, sample, gone, row);
      var title := TitleOf(large.titleOf, row.releaseId);
      if title in large.latest {
        KeptMeansManaged(rows, sample, gone, title);
        LatestStaysExactly(small.titleOf, large.titleOf, sample.playback, title);
      } else {
        NeverPlayedStays(small.titleOf, large.titleOf, sample.playback, title);
      }
    }
    hide HouseholdOf, Latest;
    FactsAgree(small, large, RowsOf(rows, id));
  }

  /** All rows of the list are of one title. */
  predicate OneTitle(h: Household, rows: seq<Download>) {
    forall a, b :: a in rows && b in rows ==> TitleOf(h.titleOf, a.releaseId) == TitleOf(h.titleOf, b.releaseId)
  }

  /** Every row of the list is a release of the title. */
  predicate OfTitle(h: Household, rows: seq<Download>, title: string) {
    title != "" && rows != [] && forall row :: row in rows ==> TitleOf(h.titleOf, row.releaseId) == title
  }

  /** The facts of a route of one title are those of the title. */
  lemma {:induction false} FactsOfTitle(h: Household, rows: seq<Download>, title: string)
    requires OfTitle(h, rows, title)
    requires title in h.latest ==> h.latest[title].updatedAt > ZERO_TIME
    ensures FactsOf(h, rows)
         == if title in h.latest then Facts(title in h.favorites, h.latest[title].watched, h.latest[title].updatedAt)
            else Facts(title in h.favorites, false, ZERO_TIME)
  {
    var front, last := rows[..|rows| - 1], rows[|rows| - 1];
    assert last in rows && forall row :: row in front ==> row in rows;
    if front != [] {
      FactsOfTitle(h, front, title);
    } else {
      assert FactsOf(h, front) == Facts(false, false, ZERO_TIME);
    }
  }

  /** Playbacks have positive times, and two of one title have different ones. */
  ghost predicate TimesApart(titles: map<string, string>, playback: seq<Playback>) {
    && (forall p :: p in playback ==> p.updatedAt > ZERO_TIME)
    && (forall p, q, title :: p in playback && q in playback && Plays(titles, p, title) && Plays(titles, q, title) && p != q ==>
          p.updatedAt != q.updatedAt)
  }

  /** For a route of one title, as a torrent of one release is, the condition is
      exact: its facts stay exactly when the release played last is still managed. */
  lemma OneTitleFactsStayExactly(rows: seq<Download>, sample: Sample, gone: set<string>, id: string, title: string)
    requires id !in gone && OfTitle(HouseholdOf(rows, sample), RowsOf(rows, id), title)
    requires TimesApart(HouseholdOf(rows, sample).titleOf, sample.playback)
    ensures FactsOf(HouseholdOf(Without(rows, gone), sample), RowsOf(rows, id)) == FactsOf(HouseholdOf(rows, sample), RowsOf(rows, id))
       <==> LastPlayedKept(rows, sample, gone, title)
  {
    var small, large := HouseholdOf(Without(rows, gone), sample), HouseholdOf(rows, sample);
    var own := RowsOf(rows, id);
    RowsOfMembers(rows, id);
    if LastPlayedKept(rows, sample, gone, title) {
      FactsStay(rows, sample, gone, id);
    } else {
      HouseholdShrinks(rows, sample, gone);
      KeptMeansManaged(rows, sample, gone, title);
      LatestStaysExactly(small.titleOf, large.titleOf, sample.playback, title);
      LatestMeaning(small.titleOf, sample.playback, title);
      LatestMeaning(large.titleOf, sample.playback, title);
      forall row | row in own ensures TitleOf(small.titleOf, row.releaseId) == title {
        RowTitleStays(rows, sample, gone, row);
      }
      FactsOfTitle(large, own, title);
      FactsOfTitle(small, own, title);
      LatestMoves(small, large, sample.playback, title);
    }
  }

  lemma LatestMoves(small: Household, large: Household, playback: seq<Playback>, title: string)
    requires SubMap(small.titleOf, large.titleOf) && TimesApart(large.titleOf, playback)
    requires title in large.latest && large.latest[title] in playback && Plays(large.titleOf, large.latest[title], title)
    requires title in small.latest ==> small.latest[title] in playback && Plays(small.titleOf, small.latest[title], title)
    requires !(title in small.latest && small.latest[title] == large.latest[title])
    ensures large.latest[title].updatedAt > ZERO_TIME
    ensures title in small.latest ==> small.latest[title].updatedAt != large.latest[title].updatedAt
  {
  }

  /** For each title of the route, the release of it that was played last is on the
      route itself. */
  ghost predicate HoldsLastPlayed(rows: seq<Download>, sample: Sample, id: string) {
    var h := HouseholdOf(rows, sample);
    forall row :: row in RowsOf(rows, id) && TitleOf(h.titleOf, row.releaseId) in h.latest ==>
      exists own :: own in RowsOf(rows, id) && own.releaseId == h.latest[TitleOf(h.titleOf, row.releaseId)].releaseId
  }

  lemma HeldIsKept(rows: seq<Download>, sample: Sample, gone: set<string>, id: string)
    requires HoldsLastPlayed(rows, sample, id) && id !in gone
    ensures forall row :: row in RowsOf(rows, id) ==>
              LastPlayedKept(rows, sample, gone, TitleOf(HouseholdOf(rows, sample).titleOf, row.releaseId))
  {
    RowsOfMembers(rows, id);
    hide HouseholdOf;
  }

  /** No two routes hold releases of the same canonical title. */
  ghost predicate TitlesApart(rows: seq<Download>, titleOf: map<string, string>) {
    forall a, b :: a in rows && b in rows && a.releaseId != "" && b.releaseId != ""
      && TitleOf(titleOf, a.releaseId) != "" && TitleOf(titleOf, a.releaseId) == TitleOf(titleOf, b.releaseId)
      ==> a.engineId == b.engineId
  }

  /** Then every route holds its titles' last played releases, since no other
      does. */
  lemma ApartHoldsLastPlayed(rows: seq<Download>, sample: Sample, id: string)
    requires TitlesApart(rows, sample.titleOf)
    ensures HoldsLastPlayed(rows, sample, id)
  {
    var h := HouseholdOf(rows, sample);
    RowsOfMembers(rows, id);
    hide HouseholdOf;
    forall row | row in RowsOf(rows, id) && TitleOf(h.titleOf, row.releaseId) in h.latest
      ensures exists own :: own in RowsOf(rows, id) && own.releaseId == h.latest[TitleOf(h.titleOf, row.releaseId)].releaseId
    {
      var title := TitleOf(h.titleOf, row.releaseId);
      var own := LastPlayedRow(rows, sample, title);
      ManagedRelease(rows, sample, row.releaseId);
      assert own in RowsOf(rows, id);
    }
  }

  lemma ManagedRelease(rows: seq<Download>, sample: Sample, release: string)
    requires TitleOf(HouseholdOf(rows, sample).titleOf, release) != ""
    ensures release != "" && TitleOf(sample.titleOf, release) == TitleOf(HouseholdOf(rows, sample).titleOf, release)
    ensures exists row :: row in rows && row.releaseId == release
  {
    hide Latest;
  }

  lemma LastPlayedRow(rows: seq<Download>, sample: Sample, title: string) returns (row: Download)
    requires title in HouseholdOf(rows, sample).latest
    ensures row in rows && row.releaseId == HouseholdOf(rows, sample).latest[title].releaseId
    ensures title != "" && row.releaseId != "" && TitleOf(sample.titleOf, row.releaseId) == title
  {
    var h := HouseholdOf(rows, sample);
    LatestMeaning(h.titleOf, sample.playback, title);
    var release := h.latest[title].releaseId;
    hide Latest;
    assert TitleOf(h.titleOf, release) == title;
    ManagedRelease(rows, sample, release);
    row :| row in rows && row.releaseId == release;
  }

  lemma {:induction false} RoutesWithout(prefix: string, ids: seq<string>, rows: seq<Download>, sample: Sample, gone: set<string>)
    requires forall i :: 0 <= i < |ids| ==> Routable(prefix, rows, ids[i])
    requires forall i :: 0 <= i < |ids| ==>
               Routable(prefix, rows, ids[i]) && ids[i] !in gone && ids[i][|prefix|..] in sample.status ==>
                 HoldsLastPlayed(rows, sample, ids[i])
    requires var kept := SurvivingIds(ids, gone); forall i :: 0 <= i < |kept| ==> Routable(prefix, Without(rows, gone), kept[i])
    ensures RoutesOf(prefix, SurvivingIds(ids, gone), Without(rows, gone), sample, HouseholdOf(Without(rows, gone), sample))
            == Surviving(RoutesOf(prefix, ids, rows, sample, HouseholdOf(rows, sample)), gone)
  {
    if ids != [] {
      var n := |ids| - 1;
      var kept := SurvivingIds(ids[..n], gone);
      assert forall i :: 0 <= i < |kept| ==> SurvivingIds(ids, gone)[i] == kept[i];
      RoutesWithout(prefix, ids[..n], rows, sample, gone);
      if ids[n] !in gone {
        assert SurvivingIds(ids, gone) == kept + [ids[n]];
        assert (kept + [ids[n]])[..|kept|] == kept;
        RowsOfWithout(rows, gone, ids[n]);
        if ids[n][|prefix|..] in sample.status {
          HeldIsKept(rows, sample, gone, ids[n]);
          FactsStay(rows, sample, gone, ids[n]);
        }
      }
      var before := RoutesOf(prefix, ids[..n], rows, sample, HouseholdOf(rows, sample));
      assert Routable(prefix, rows, ids[n]);
      if ids[n][|prefix|..] in sample.status {
        AddedRoute(before, RouteFor(prefix, ids[n], rows, sample, HouseholdOf(rows, sample)), gone);
      }
    }
  }

  lemma AddedRoute(routes: seq<Route>, r: Route, gone: set<string>)
    ensures Surviving(routes + [r], gone) == if r.engineId in gone then Surviving(routes, gone) else Surviving(routes, gone) + [r]
  {
    assert (routes + [r])[..|routes|] == routes;
  }

  /** Every surveyed route that stays holds the last played releases of its titles. */
  ghost predicate LastPlayedAtHome(prefix: string, rows: seq<Download>, sample: Sample, gone: set<string>) {
    forall id :: Routable(prefix, rows, id) && id !in gone && id[|prefix|..] in sample.status ==> HoldsLastPlayed(rows, sample, id)
  }

  /** Under one unchanged sample, surveying after some routes have gone finds
      exactly the other routes, unchanged and in order, if each of these holds the
      last played releases of its titles. */
  lemma SurveyWithout(prefix: string, rows: seq<Download>, sample: Sample, gone: set<string>)
    requires sample.readable && LastPlayedAtHome(prefix, rows, sample, gone)
    ensures SurveyOf(prefix, Without(rows, gone), sample).value.routes == Surviving(SurveyOf(prefix, rows, sample).value.routes, gone)
  {
    RouteIdsMembers(prefix, rows);
    RouteIdsMembers(prefix, Without(rows, gone));
    IdsWithout(prefix, rows, gone);
    hide HoldsLastPlayed, HouseholdOf;
    RoutesWithout(prefix, RouteIds(prefix, rows), rows, sample, gone);
  }

  lemma OneRowFacts(h: Household, row: Download)
    ensures var title := TitleOf(h.titleOf, row.releaseId);
            FactsOf(h, [row]).watched <==> title != "" && title in h.latest && h.latest[title].watched
  {
    assert [row][..0] == [];
    assert FactsOf(h, [row]) == AddRow(h, FactsOf(h, []), row);
  }

  lemma OnePlayback(titles: map<string, string>, p: Playback)
    ensures Latest(titles, [p]) == if TitleOf(titles, p.releaseId) == "" then map[] else map[TitleOf(titles, p.releaseId) := p]
  {
    assert [p][..0] == [];
    hide TitleOf;
  }

  lemma FirstOfTwoGone(a: Download, b: Download)
    requires a.engineId != b.engineId
    ensures Without([a, b], {a.engineId}) == [b]
  {
    assert [a, b][..1] == [a] && [a][..0] == [];
    assert Without([a], {a.engineId}) == [];
  }

  lemma TwoReleases(a: Download, b: Download, titleOf: map<string, string>)
    requires a.releaseId != "" && b.releaseId != "" && a.releaseId != b.releaseId
    ensures TitleOf(ManagedTitles([a, b], titleOf), a.releaseId) == TitleOf(titleOf, a.releaseId)
    ensures TitleOf(ManagedTitles([a, b], titleOf), b.releaseId) == TitleOf(titleOf, b.releaseId)
    ensures TitleOf(ManagedTitles([b], titleOf), a.releaseId) == ""
  {
    assert a in [a, b] && b in [a, b];
  }

  /** Otherwise the facts do move: two releases of one watched title on two
      torrents, and once the played one goes the other counts as
      never watched. */
  lemma SiblingEvictionMovesFacts() returns (a: Download, b: Download, sample: Sample)
    ensures Without([a, b], {a.engineId}) == [b] && b.engineId != a.engineId
    ensures FactsOf(HouseholdOf([a, b], sample), [b]).watched
    ensures !FactsOf(HouseholdOf([b], sample), [b]).watched
  {
    hide Without, Latest, ManagedTitles, FactsOf;
    a := Download("1", "x", "a", 1.0, false, 1);
    b := Download("2", "y", "b", 1.0, false, 2);
    var p := Playback("x", true, 7);
    var titles := map["x" := "t", "y" := "t"];
    sample := Sample(true, map[], titles, [], [p], None, Removed);
    FirstOfTwoGone(a, b);
    TwoReleases(a, b, titles);
    OnePlayback(ManagedTitles([a, b], titles), p);
    OnePlayback(ManagedTitles([b], titles), p);
    OneRowFacts(HouseholdOf([a, b], sample), b);
    OneRowFacts(HouseholdOf([b], sample), b);
  }
}

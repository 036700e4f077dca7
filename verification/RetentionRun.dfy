/** Whole runs over storage that holds still: which torrents go, in which order,
    and when a download is refused. */
module RetentionRun {
  import opened Wrappers
  import opened Sorting
  import opened EvictionOrder
  import opened Survey
  import opened Retention

  /** Only the free-space probe may answer differently from look to look. */
  ghost predicate Quiet(env: nat -> Sample, k: nat, sample: Sample) {
    && sample.readable && sample.removal == Removed
    && forall j: nat :: j >= k ==> env(j) == sample.(free := env(j).free)
  }

  /** Losing routes changes nothing about the others. */
  ghost predicate Pinned(prefix: string, rows: seq<Download>, sample: Sample) {
    && sample.readable
    && forall gone: set<string> ::
         SurveyOf(prefix, Without(rows, gone), sample).value.routes == Surviving(SurveyOf(prefix, rows, sample).value.routes, gone)
  }

  /** Releases of one title sharing a torrent is enough for that. */
  lemma TitlesApartPins(prefix: string, rows: seq<Download>, sample: Sample)
    requires sample.readable && TitlesApart(rows, sample.titleOf)
    ensures Pinned(prefix, rows, sample)
  {
    forall id {
      ApartHoldsLastPlayed(rows, sample, id);
    }
    LastPlayedAtHomePins(prefix, rows, sample);
  }

  /** So is every route holding the last played releases of its own titles. */
  lemma LastPlayedAtHomePins(prefix: string, rows: seq<Download>, sample: Sample)
    requires sample.readable && LastPlayedAtHome(prefix, rows, sample, {})
    ensures Pinned(prefix, rows, sample)
  {
    hide HoldsLastPlayed, Without, Surviving, RoutesOf, HouseholdOf, TotalBytes, Routable;
    forall gone: set<string>
      ensures SurveyOf(prefix, Without(rows, gone), sample).value.routes == Surviving(SurveyOf(prefix, rows, sample).value.routes, gone)
    {
      AtHomeStill(prefix, rows, sample, gone);
      SurveyWithout(prefix, rows, sample, gone);
    }
  }

  lemma AtHomeStill(prefix: string, rows: seq<Download>, sample: Sample, gone: set<string>)
    requires LastPlayedAtHome(prefix, rows, sample, {})
    ensures LastPlayedAtHome(prefix, rows, sample, gone)
  {
    hide HoldsLastPlayed, Routable;
  }

  lemma {:induction false} SurvivingMembers(routes: seq<Route>, gone: set<string>)
    ensures forall r :: r in Surviving(routes, gone) <==> r in routes && r.engineId !in gone
  {
    if routes != [] {
      SurvivingMembers(routes[..|routes| - 1], gone);
      assert routes == routes[..|routes| - 1] + [routes[|routes| - 1]];
    }
  }

  /** Once every other route is gone, a pinned route's facts are what they were. */
  lemma PinnedAlone(prefix: string, rows: seq<Download>, sample: Sample, id: string, gone: set<string>)
    requires Pinned(prefix, rows, sample) && Routable(prefix, rows, id) && id[|prefix|..] in sample.status && id !in gone
    ensures FactsOf(HouseholdOf(Without(rows, gone), sample), RowsOf(rows, id)) == FactsOf(HouseholdOf(rows, sample), RowsOf(rows, id))
  {
    var routes := SurveyOf(prefix, rows, sample).value.routes;
    var route := RouteFor(prefix, id, rows, sample, HouseholdOf(rows, sample));
    RouteIdsMembers(prefix, rows);
    RoutesOfComplete(prefix, RouteIds(prefix, rows), rows, sample, HouseholdOf(rows, sample), id);
    SurvivingMembers(routes, gone);
    RowsOfWithout(rows, gone, id);
    assert route in SurveyOf(prefix, Without(rows, gone), sample).value.routes;
    SurveyMembers(prefix, Without(rows, gone), sample);
  }

  /** Where a route holds one title, as a torrent of one release does, the
      condition is exact: facts are pinned exactly when every surveyed route
      holds the last played release of its title. */
  lemma PinnedExactly(prefix: string, rows: seq<Download>, sample: Sample)
    requires sample.readable && TimesApart(HouseholdOf(rows, sample).titleOf, sample.playback)
    requires forall id :: Routable(prefix, rows, id) ==> OneTitle(HouseholdOf(rows, sample), RowsOf(rows, id))
    ensures Pinned(prefix, rows, sample) <==> LastPlayedAtHome(prefix, rows, sample, {})
  {
    hide HouseholdOf, HoldsLastPlayed;
    if LastPlayedAtHome(prefix, rows, sample, {}) {
      LastPlayedAtHomePins(prefix, rows, sample);
    }
    if Pinned(prefix, rows, sample) {
      forall id | Routable(prefix, rows, id) && id[|prefix|..] in sample.status ensures HoldsLastPlayed(rows, sample, id) {
        PinnedHoldsLastPlayed(prefix, rows, sample, id);
      }
    }
  }

  lemma PinnedHoldsLastPlayed(prefix: string, rows: seq<Download>, sample: Sample, id: string)
    requires Pinned(prefix, rows, sample) && Routable(prefix, rows, id) && id[|prefix|..] in sample.status
    requires TimesApart(HouseholdOf(rows, sample).titleOf, sample.playback)
    requires OneTitle(HouseholdOf(rows, sample), RowsOf(rows, id))
    ensures HoldsLastPlayed(rows, sample, id)
  {
    var h, own := HouseholdOf(rows, sample), RowsOf(rows, id);
    var gone := set row | row in rows && row.engineId != id :: row.engineId;
    var title := TitleOf(h.titleOf, own[0].releaseId);
    PinnedAlone(prefix, rows, sample, id, gone);
    RowsOfMembers(rows, id);
    hide HouseholdOf, SurveyOf;
    if title in h.latest {
      var last := LastPlayedRow(rows, sample, title);
      assert OfTitle(h, own, title);
      OneTitleFactsStayExactly(rows, sample, gone, id, title);
      assert LastPlayedKept(rows, sample, gone, title);
      var kept :| kept in rows && kept.engineId !in gone && kept.releaseId == h.latest[title].releaseId;
      assert kept in own;
    }
  }

  /** The routes a run would evict if it had to evict them all, in order. */
  function Queue(s: Settings, rows: seq<Download>, sample: Sample): seq<Route>
    requires sample.readable
  {
    Order(s.rules, Candidates(SurveyOf(s.prefix, rows, sample).value.routes, s.toggles))
  }

  function Stored(prefix: string, rows: seq<Download>, sample: Sample): nat
    requires sample.readable
  {
    TotalBytes(SurveyOf(prefix, rows, sample).value.routes)
  }

  // ---- One eviction ----

  lemma {:induction false} SurvivingTwice(routes: seq<Route>, a: set<string>, b: set<string>)
    ensures Surviving(Surviving(routes, a), b) == Surviving(routes, a + b)
  {
    if routes != [] {
      var n := |routes| - 1;
      SurvivingTwice(routes[..n], a, b);
      AddedRoute(Surviving(routes[..n], a), routes[n], b);
    }
  }

  lemma PinnedWithout(prefix: string, rows: seq<Download>, sample: Sample, id: string)
    requires Pinned(prefix, rows, sample)
    ensures Pinned(prefix, Without(rows, {id}), sample)
  {
    var routes := SurveyOf(prefix, rows, sample).value.routes;
    forall gone: set<string>
      ensures SurveyOf(prefix, Without(Without(rows, {id}), gone), sample).value.routes
              == Surviving(SurveyOf(prefix, Without(rows, {id}), sample).value.routes, gone)
    {
      WithoutTwice(rows, {id}, gone);
      SurvivingTwice(routes, {id}, gone);
    }
  }

  lemma {:induction false} CandidatesSurviving(routes: seq<Route>, toggles: Protection, gone: set<string>)
    ensures Candidates(Surviving(routes, gone), toggles) == Surviving(Candidates(routes, toggles), gone)
  {
    if routes != [] {
      var n := |routes| - 1;
      CandidatesSurviving(routes[..n], toggles, gone);
      AddedRoute(Candidates(routes[..n], toggles), routes[n], gone);
      var kept := Surviving(routes[..n], gone);
      assert (kept + [routes[n]])[..|kept|] == kept;
    }
  }

  lemma {:induction false} SurvivingOthers(routes: seq<Route>, id: string)
    requires forall i :: 0 <= i < |routes| ==> routes[i].engineId != id
    ensures Surviving(routes, {id}) == routes
  {
    if routes != [] {
      SurvivingOthers(routes[..|routes| - 1], id);
    }
  }

  lemma SurvivingSnoc(routes: seq<Route>, ids: set<string>)
    requires routes != []
    ensures var front, last := routes[..|routes| - 1], routes[|routes| - 1];
            Surviving(routes, ids) == if last.engineId in ids then Surviving(front, ids) else Surviving(front, ids) + [last]
  {
  }

  lemma BagWithout(bag: multiset<Route>, v: Route, last: Route)
    requires v in bag
    ensures (bag - multiset{v}) + multiset{last} == (bag + multiset{last}) - multiset{v}
  {
  }

  lemma DistinctFront(routes: seq<Route>, v: Route)
    requires routes != [] && DistinctIds(routes) && v in routes
    ensures var front, last := routes[..|routes| - 1], routes[|routes| - 1];
            && DistinctIds(front) && routes == front + [last]
            && (last != v ==> v in front && last.engineId != v.engineId)
            && (last == v ==> forall i :: 0 <= i < |front| ==> front[i].engineId != v.engineId)
  {
  }

  lemma {:induction false} SurvivingOne(routes: seq<Route>, v: Route)
    requires DistinctIds(routes) && v in routes
    ensures multiset(Surviving(routes, {v.engineId})) == multiset(routes) - multiset{v}
    ensures TotalBytes(Surviving(routes, {v.engineId})) == TotalBytes(routes) - v.status.totalBytes
  {
    hide *;
    var front, last := routes[..|routes| - 1], routes[|routes| - 1];
    DistinctFront(routes, v);
    SurvivingSnoc(routes, {v.engineId});
    AddedBytes(front, last);
    if last == v {
      SurvivingOthers(front, v.engineId);
    } else {
      SurvivingOne(front, v);
      AddedBytes(Surviving(front, {v.engineId}), last);
      BagWithout(multiset(front), v, last);
    }
  }

  lemma AddedBytes(routes: seq<Route>, last: Route)
    ensures multiset(routes + [last]) == multiset(routes) + multiset{last}
    ensures TotalBytes(routes + [last]) == TotalBytes(routes) + last.status.totalBytes
  {
    assert (routes + [last])[..|routes|] == routes;
  }

  /** Evicting the head of the queue leaves the rest of the queue, and stored
      bytes fall by the victim's size. */
  lemma QueueAfterEviction(s: Settings, rows: seq<Download>, sample: Sample)
    requires Pinned(s.prefix, rows, sample) && Queue(s, rows, sample) != []
    ensures var v := Queue(s, rows, sample)[0];
            var left := Without(rows, {v.engineId});
            && Queue(s, left, sample) == Queue(s, rows, sample)[1..]
            && Stored(s.prefix, left, sample) == Stored(s.prefix, rows, sample) - v.status.totalBytes
            && Pinned(s.prefix, left, sample)
  {
    var routes := SurveyOf(s.prefix, rows, sample).value.routes;
    SurveyMembers(s.prefix, rows, sample);
    var v := Queue(s, rows, sample)[0];
    OrderAfterEviction(s, routes);
    PinnedWithout(s.prefix, rows, sample, v.engineId);
    assert SurveyOf(s.prefix, Without(rows, {v.engineId}), sample).value.routes == Surviving(routes, {v.engineId});
  }

  lemma OrderAfterEviction(s: Settings, routes: seq<Route>)
    requires DistinctIds(routes) && Order(s.rules, Candidates(routes, s.toggles)) != []
    ensures var q := Order(s.rules, Candidates(routes, s.toggles));
            var left := Surviving(routes, {q[0].engineId});
            && Order(s.rules, Candidates(left, s.toggles)) == q[1..]
            && TotalBytes(left) == TotalBytes(routes) - q[0].status.totalBytes
  {
    var candidates := Candidates(routes, s.toggles);
    CandidatesMembers(routes, s.toggles);
    var q := Order(s.rules, candidates);
    SameElements(candidates, q);
    var v := q[0];
    assert v in q;
    CandidatesSurviving(routes, s.toggles, {v.engineId});
    SurvivingOne(candidates, v);
    SurvivingOne(routes, v);
    RankingIsComparison(s.rules);
    OnlyEqualRoutesTie(s.rules, candidates);
    SortOfRest(Ranking(s.rules), candidates, Surviving(candidates, {v.engineId}));
  }

  // ---- Whole runs ----

  lemma {:induction false} TotalBytesFront(r: Route, routes: seq<Route>)
    ensures TotalBytes([r] + routes) == r.status.totalBytes + TotalBytes(routes)
  {
    var all := [r] + routes;
    if routes == [] {
      assert all[..0] == [];
    } else {
      TotalBytesFront(r, routes[..|routes| - 1]);
      assert all[..|all| - 1] == [r] + routes[..|routes| - 1];
    }
  }

  lemma LookSeesSample(s: Settings, rows: seq<Download>, env: nat -> Sample, k: nat, sample: Sample)
    requires Quiet(env, k, sample)
    ensures SurveyOf(s.prefix, rows, env(k)) == Some(Plan(SurveyOf(s.prefix, rows, sample).value.routes, Stored(s.prefix, rows, sample), env(k).free))
  {
    RouteIdsMembers(s.prefix, rows);
    SampleFreeIsUnread(s.prefix, RouteIds(s.prefix, rows), rows, sample, env(k).free, HouseholdOf(rows, sample));
  }

  lemma {:induction false} SampleFreeIsUnread(prefix: string, ids: seq<string>, rows: seq<Download>, sample: Sample, free: Option<int>, h: Household)
    requires forall i :: 0 <= i < |ids| ==> Routable(prefix, rows, ids[i])
    ensures RoutesOf(prefix, ids, rows, sample.(free := free), h) == RoutesOf(prefix, ids, rows, sample, h)
  {
    if ids != [] {
      SampleFreeIsUnread(prefix, ids[..|ids| - 1], rows, sample, free, h);
    }
  }

  /** One turn over storage that holds still, in terms of the queue. */
  lemma QuietLook(s: Settings, rows: seq<Download>, env: nat -> Sample, k: nat, sample: Sample, extra: int)
    requires Quiet(env, k, sample) && Pinned(s.prefix, rows, sample)
    ensures var t := Look(s, rows, env(k), extra);
            var q, stored := Queue(s, rows, sample), Stored(s.prefix, rows, sample);
            var deficit := DeficitAt(stored + extra, env(k).free, s);
            if deficit.None? then t.Stop? && t.rows == rows && t.end.Fits? && t.end.plan.storedBytes == stored
            else if q == [] then t.Stop? && t.rows == rows && t.end.Exhausted? && t.end.plan.storedBytes == stored
            else
              && t.Evicted? && t.step.victim == q[0] && |t.rows| < |rows|
              && Queue(s, t.rows, sample) == q[1..]
              && Stored(s.prefix, t.rows, sample) == stored - q[0].status.totalBytes
              && Pinned(s.prefix, t.rows, sample)
  {
    hide SurveyOf, Candidates, Without, TotalBytes, Sort;
    LookSeesSample(s, rows, env, k, sample);
    LookFacts(s, rows, env(k), extra);
    if Queue(s, rows, sample) != [] {
      VictimFacts(s, rows, env(k));
      SurveyMembers(s.prefix, rows, env(k));
      QueueAfterEviction(s, rows, sample);
    }
  }

  /** The victims are a prefix of the queue; before each of them a limit was
      breached; and after the last none is, unless the queue is used up. */
  ghost predicate ShortestPrefix(s: Settings, env: nat -> Sample, k: nat, victims: seq<Route>, q: seq<Route>, stored: int) {
    && victims <= q
    && (forall i :: 0 <= i < |victims| ==> DeficitAt(stored - TotalBytes(q[..i]), env(k + i).free, s).Some?)
    && (victims == q || DeficitAt(stored - TotalBytes(victims), env(k + |victims|).free, s).None?)
  }

  lemma PrefixTotal(q: seq<Route>, i: nat)
    requires 0 < i <= |q|
    ensures TotalBytes(q[..i]) == q[0].status.totalBytes + TotalBytes(q[1..][..i - 1])
  {
    assert q[..i] == [q[0]] + q[1..][..i - 1];
    TotalBytesFront(q[0], q[1..][..i - 1]);
  }

  lemma PrefixDeficit(s: Settings, env: nat -> Sample, k: nat, victims: seq<Route>, q: seq<Route>, stored: int, i: nat)
    requires q != [] && i < |victims|
    requires ShortestPrefix(s, env, k + 1, victims, q[1..], stored - q[0].status.totalBytes)
    ensures i + 1 <= |q| && DeficitAt(stored - TotalBytes(q[..i + 1]), env(k + (i + 1)).free, s).Some?
  {
    hide DeficitAt, TotalBytes;
    PrefixTotal(q, i + 1);
    assert q[1..][..i + 1 - 1] == q[1..][..i];
    assert DeficitAt(stored - q[0].status.totalBytes - TotalBytes(q[1..][..i]), env(k + 1 + i).free, s).Some?;
  }

  lemma ConsPrefix(x: Route, v: seq<Route>, r: seq<Route>)
    requires v <= r
    ensures [x] + v <= [x] + r && (v == r ==> [x] + v == [x] + r)
  {
  }

  lemma PrefixParts(s: Settings, env: nat -> Sample, k: nat, victims: seq<Route>, q: seq<Route>, stored: int)
    requires ShortestPrefix(s, env, k, victims, q, stored)
    ensures victims <= q
    ensures victims == q || DeficitAt(stored - TotalBytes(victims), env(k + |victims|).free, s).None?
  {
    hide DeficitAt, TotalBytes;
  }

  /** Moving one route's bytes from the queue to the victims leaves the same
      bytes stored. */
  lemma SameBytesLeft(s: Settings, sample: Sample, v: Route, victims: seq<Route>, stored: int)
    ensures DeficitAt(stored - TotalBytes([v] + victims), sample.free, s)
         == DeficitAt(stored - v.status.totalBytes - TotalBytes(victims), sample.free, s)
  {
    hide DeficitAt, TotalBytes;
    TotalBytesFront(v, victims);
  }

  lemma RestIsEnough(s: Settings, env: nat -> Sample, k: nat, victims: seq<Route>, v: Route, rest: seq<Route>, stored: int)
    requires ShortestPrefix(s, env, k + 1, victims, rest, stored - v.status.totalBytes)
    ensures victims == rest || DeficitAt(stored - TotalBytes([v] + victims), env(k + 1 + |victims|).free, s).None?
  {
    hide *;
    PrefixParts(s, env, k + 1, victims, rest, stored - v.status.totalBytes);
    SameBytesLeft(s, env(k + 1 + |victims|), v, victims, stored);
  }

  lemma NoBytes()
    ensures TotalBytes([]) == 0
  {
  }

  lemma MakesShortestPrefix(s: Settings, env: nat -> Sample, k: nat, victims: seq<Route>, q: seq<Route>, stored: int)
    requires victims <= q
    requires forall i :: 0 <= i < |victims| ==> DeficitAt(stored - TotalBytes(q[..i]), env(k + i).free, s).Some?
    requires victims == q || DeficitAt(stored - TotalBytes(victims), env(k + |victims|).free, s).None?
    ensures ShortestPrefix(s, env, k, victims, q, stored)
  {
    hide DeficitAt, TotalBytes;
  }

  lemma ShortestPrefixCons(s: Settings, env: nat -> Sample, k: nat, victims: seq<Route>, q: seq<Route>, stored: int)
    requires q != [] && DeficitAt(stored, env(k).free, s).Some?
    requires ShortestPrefix(s, env, k + 1, victims, q[1..], stored - q[0].status.totalBytes)
    ensures ShortestPrefix(s, env, k, [q[0]] + victims, q, stored)
  {
    hide *;
    var all := [q[0]] + victims;
    PrefixParts(s, env, k + 1, victims, q[1..], stored - q[0].status.totalBytes);
    ConsPrefix(q[0], victims, q[1..]);
    assert q == [q[0]] + q[1..];
    forall i | 0 <= i < |all| ensures DeficitAt(stored - TotalBytes(q[..i]), env(k + i).free, s).Some? {
      if i > 0 {
        PrefixDeficit(s, env, k, victims, q, stored, i - 1);
      } else {
        NoBytes();
        assert q[..0] == [];
      }
    }
    RestIsEnough(s, env, k, victims, q[0], q[1..], stored);
    assert k + 1 + |victims| == k + |all|;
    MakesShortestPrefix(s, env, k, all, q, stored);
  }

  /** The outcome of a run that starts with this queue and these stored bytes:
      it evicts the shortest prefix that is enough, or everything. */
  ghost predicate Exact(s: Settings, env: nat -> Sample, k: nat, o: Outcome, q: seq<Route>, stored: int, extra: int) {
    && ShortestPrefix(s, env, k, Victims(o.steps), q, stored + extra)
    && (o.end.Fits? || (o.end.Exhausted? && Victims(o.steps) == q))
    && o.end.plan.storedBytes == stored - TotalBytes(Victims(o.steps))
  }

  lemma ExactStop(s: Settings, env: nat -> Sample, k: nat, o: Outcome, q: seq<Route>, stored: int, extra: int)
    requires o.steps == [] && (o.end.Fits? || o.end.Exhausted?) && o.end.plan.storedBytes == stored
    requires DeficitAt(stored + extra, env(k).free, s).None? || q == []
    requires q == [] || o.end.Fits?
    ensures Exact(s, env, k, o, q, stored, extra)
  {
    assert Victims(o.steps) == [];
  }

  lemma ExactParts(s: Settings, env: nat -> Sample, k: nat, o: Outcome, q: seq<Route>, stored: int, extra: int)
    ensures Exact(s, env, k, o, q, stored, extra)
       <==> && ShortestPrefix(s, env, k, Victims(o.steps), q, stored + extra)
            && (o.end.Fits? || (o.end.Exhausted? && Victims(o.steps) == q))
            && o.end.plan.storedBytes == stored - TotalBytes(Victims(o.steps))
  {
    hide ShortestPrefix, Victims, TotalBytes;
  }

  lemma ExactCons(s: Settings, env: nat -> Sample, k: nat, step: Step, rest: Outcome, q: seq<Route>, stored: int, extra: int)
    requires q != [] && step.victim == q[0] && DeficitAt(stored + extra, env(k).free, s).Some?
    requires Exact(s, env, k + 1, rest, q[1..], stored - q[0].status.totalBytes, extra)
    ensures Exact(s, env, k, Outcome(rest.rows, [step] + rest.steps, rest.end), q, stored, extra)
  {
    hide *;
    var victims := Victims(rest.steps);
    ExactParts(s, env, k + 1, rest, q[1..], stored - q[0].status.totalBytes, extra);
    VictimsFront(step, rest.steps);
    assert stored - q[0].status.totalBytes + extra == stored + extra - q[0].status.totalBytes;
    ShortestPrefixCons(s, env, k, victims, q, stored + extra);
    TotalBytesFront(q[0], victims);
    assert victims == q[1..] ==> [q[0]] + victims == q;
    ExactParts(s, env, k, Outcome(rest.rows, [step] + rest.steps, rest.end), q, stored, extra);
  }

  lemma {:induction false} RunIsExact(s: Settings, rows: seq<Download>, env: nat -> Sample, k: nat, sample: Sample, extra: int,
                                      q: seq<Route>, stored: int)
    requires Quiet(env, k, sample) && Pinned(s.prefix, rows, sample)
    requires q == Queue(s, rows, sample) && stored == Stored(s.prefix, rows, sample)
    ensures Exact(s, env, k, Evict(s, rows, env, k, extra), q, stored, extra)
    decreases |rows|
  {
    hide Look, SurveyOf, Evict, Exact, Pinned, Quiet, Queue, Stored, DeficitAt;
    EvictTurns(s, rows, env, k, extra);
    QuietLater(env, k, k + 1, sample);
    QuietLook(s, rows, env, k, sample, extra);
    var t := Look(s, rows, env(k), extra);
    if t.Evicted? {
      RunIsExact(s, t.rows, env, k + 1, sample, extra, q[1..], stored - q[0].status.totalBytes);
      ExactCons(s, env, k, t.step, Evict(s, t.rows, env, k + 1, extra), q, stored, extra);
    } else {
      ExactStop(s, env, k, Evict(s, rows, env, k, extra), q, stored, extra);
    }
  }

  /** A run evicts exactly the shortest prefix of the queue after which neither
      limit is breached, or the whole queue when no prefix is enough. */
  lemma RunEvictsShortestPrefix(s: Settings, rows: seq<Download>, env: nat -> Sample, k: nat, sample: Sample, extra: int)
    requires Quiet(env, k, sample) && Pinned(s.prefix, rows, sample)
    ensures var o := Evict(s, rows, env, k, extra);
            Exact(s, env, k, o, Queue(s, rows, sample), Stored(s.prefix, rows, sample), extra)
  {
    RunIsExact(s, rows, env, k, sample, extra, Queue(s, rows, sample), Stored(s.prefix, rows, sample));
  }

  lemma QuietLater(env: nat -> Sample, k: nat, j: nat, sample: Sample)
    requires Quiet(env, k, sample) && k <= j
    ensures sample.readable && Quiet(env, j, sample)
  {
  }

  /** Bytes freed are bytes stored before minus bytes stored after. */
  lemma RunConservesBytes(s: Settings, rows: seq<Download>, env: nat -> Sample, k: nat, sample: Sample, extra: int)
    requires Quiet(env, k, sample) && Pinned(s.prefix, rows, sample)
    ensures var o := Evict(s, rows, env, k, extra);
            TotalBytes(Victims(o.steps)) == Stored(s.prefix, rows, sample) - Stored(s.prefix, o.rows, sample)
  {
    hide *;
    QuietLater(env, k, k, sample);
    RunEvictsShortestPrefix(s, rows, env, k, sample, extra);
    RunEndsOnSurvey(s, rows, env, k, extra);
    var o := Evict(s, rows, env, k, extra);
    ExactParts(s, env, k, o, Queue(s, rows, sample), Stored(s.prefix, rows, sample), extra);
    QuietLater(env, k, k + |o.steps|, sample);
    LookSeesSample(s, o.rows, env, k + |o.steps|, sample);
  }

  // ---- Admitting a download ----

  datatype Admission = Admitted | Refused(required: int, free: int, capacity: int) | Failed

  /** What the download gate answers when its loop ends so. A reserve breach
      that nothing evictable can fix does not refuse the download. */
  function AdmissionOf(capacity: int, incoming: int, end: End): Admission {
    match end
    case Fits(_) => Admitted
    case Exhausted(plan, Cap) => Refused(incoming, capacity - plan.storedBytes, capacity)
    case Exhausted(_, Reserve) => Admitted
    case _ => Failed
  }

  /** Under any answers of the outside calls: the gate fails exactly when a survey or
      a deletion did; it refuses exactly when nothing evictable is left and the
      download does not fit the cap beside what was last surveyed, with its size,
      the bytes the cap leaves beside these routes, and the cap; and then every one
      of them is protected. Everything else is admitted, a reserve breach with the
      cap satisfied among it, and fits the cap. */
  lemma AdmissionMeaning(s: Settings, rows: seq<Download>, env: nat -> Sample, incoming: int)
    requires s.allocation.Some?
    ensures var o, cap := Evict(s, rows, env, 0, incoming), s.allocation.value;
            var a := AdmissionOf(cap, incoming, o.end);
            && (a.Failed? <==> o.end.SurveyFailed? || o.end.DeleteFailed?)
            && (o.end.Fits? || o.end.Exhausted? ==>
                  && SurveyOf(s.prefix, o.rows, env(|o.steps|)) == Some(o.end.plan)
                  && o.end.plan.storedBytes == TotalBytes(o.end.plan.routes)
                  && (a.Refused? <==> o.end.Exhausted? && o.end.plan.storedBytes + incoming > cap))
            && (a.Refused? ==> o.end.Exhausted? && a == Refused(incoming, cap - TotalBytes(o.end.plan.routes), cap) && a.free < a.required
                               && forall r :: r in o.end.plan.routes ==> Protected(r, s.toggles))
            && (a.Admitted? ==> (o.end.Fits? || o.end.Exhausted?) && o.end.plan.storedBytes + incoming <= cap)
  {
    hide *;
    var o := Evict(s, rows, env, 0, incoming);
    EveryEvictionIsSafe(s, rows, env, 0, incoming);
    RunEndsOnSurvey(s, rows, env, 0, incoming);
    SurveyAddsUp(s.prefix, o.rows, env(|o.steps|));
    assert 0 + |o.steps| == |o.steps|;
    AnswerOfEnd(s, o.end, incoming);
  }

  lemma AnswerOfEnd(s: Settings, end: End, incoming: int)
    requires s.allocation.Some? && JustEnd(s, end, incoming)
    ensures var cap := s.allocation.value;
            var a := AdmissionOf(cap, incoming, end);
            && (a.Failed? <==> end.SurveyFailed? || end.DeleteFailed?)
            && (end.Fits? || end.Exhausted? ==> (a.Refused? <==> end.Exhausted? && end.plan.storedBytes + incoming > cap))
            && (a.Refused? ==> end.Exhausted? && a == Refused(incoming, cap - end.plan.storedBytes, cap) && a.free < a.required
                               && forall r :: r in end.plan.routes ==> Protected(r, s.toggles))
            && (a.Admitted? ==> (end.Fits? || end.Exhausted?) && end.plan.storedBytes + incoming <= cap)
  {
    hide SafeStep, Protected;
  }

  lemma SurveyAddsUp(prefix: string, rows: seq<Download>, sample: Sample)
    ensures var plan := SurveyOf(prefix, rows, sample);
            plan.Some? ==> plan.value.storedBytes == TotalBytes(plan.value.routes) && plan.value.free == sample.free
  {
    hide TotalBytes;
  }

  lemma {:induction false} TotalBytesPrefix(routes: seq<Route>, i: nat)
    requires i <= |routes|
    ensures TotalBytes(routes[..i]) <= TotalBytes(routes)
  {
    if i == |routes| {
      assert routes[..i] == routes;
    } else {
      TotalBytesPrefix(routes[..|routes| - 1], i);
      assert routes[..|routes| - 1][..i] == routes[..i];
    }
  }

  lemma ExactRefusal(s: Settings, env: nat -> Sample, o: Outcome, q: seq<Route>, stored: int, incoming: int)
    requires s.allocation.Some? && Exact(s, env, 0, o, q, stored, incoming) && JustEnd(s, o.end, incoming)
    ensures var a := AdmissionOf(s.allocation.value, incoming, o.end);
            && (a.Refused? <==> stored - TotalBytes(q) + incoming > s.allocation.value)
            && (a.Refused? || a.Admitted?)
            && (a.Refused? ==> Victims(o.steps) == q)
  {
    var victims := Victims(o.steps);
    TotalBytesPrefix(q, |victims|);
    assert q[..|victims|] == victims;
  }

  /** Over storage that holds still a download is refused exactly when it cannot
      fit beside the protected routes alone, and a refusal has by then evicted
      every unprotected route. */
  lemma RefusedIffProtectedTooBig(s: Settings, rows: seq<Download>, env: nat -> Sample, sample: Sample, incoming: int)
    requires s.allocation.Some? && Quiet(env, 0, sample) && Pinned(s.prefix, rows, sample)
    ensures var o := Evict(s, rows, env, 0, incoming);
            var a := AdmissionOf(s.allocation.value, incoming, o.end);
            var q := Queue(s, rows, sample);
            && (a.Refused? <==> Stored(s.prefix, rows, sample) - TotalBytes(q) + incoming > s.allocation.value)
            && (a.Refused? || a.Admitted?)
            && (a.Refused? ==> Victims(o.steps) == q)
  {
    RunEvictsShortestPrefix(s, rows, env, 0, sample, incoming);
    EveryEvictionIsSafe(s, rows, env, 0, incoming);
    ExactRefusal(s, env, Evict(s, rows, env, 0, incoming), Queue(s, rows, sample), Stored(s.prefix, rows, sample), incoming);
  }
}

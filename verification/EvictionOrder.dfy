/** Torrent routes, the protection predicate, and the order in which a composed
    rule list evicts them. Times are integers; ZERO_TIME is Go's zero time. */
module EvictionOrder {
  import opened Sorting

  const ZERO_TIME: int := 0

  datatype Download = Download(id: string, releaseId: string, engineId: string,
                               progress: real, leased: bool, updatedAt: int)
  datatype Status = Status(progress: real, totalBytes: nat)
  datatype Facts = Facts(favorite: bool, watched: bool, lastPlayed: int)

  /** One torrent and every managed row pinned to it. */
  datatype Route = Route(engineId: string, hash: string, rows: seq<Download>, status: Status, facts: Facts)

  datatype Protection = Protection(incomplete: bool, leased: bool, favorites: bool, neverWatched: bool)

  predicate Incomplete(route: Route) {
    route.status.progress < 1.0 || exists row :: row in route.rows && row.progress < 1.0
  }

  predicate Leased(route: Route) {
    exists row :: row in route.rows && row.leased
  }

  predicate Protected(route: Route, toggles: Protection) {
    (toggles.incomplete && Incomplete(route))
    || (toggles.leased && Leased(route))
    || (toggles.favorites && route.facts.favorite)
    || (toggles.neverWatched && !route.facts.watched)
  }

  /** The oldest row timestamp of a non-empty row list. */
  function Oldest(rows: seq<Download>): (t: int)
    requires rows != []
    ensures exists row :: row in rows && row.updatedAt == t
    ensures forall row :: row in rows ==> t <= row.updatedAt
  {
    if |rows| == 1 then rows[0].updatedAt
    else
      var rest := Oldest(rows[1..]);
      assert forall row :: row in rows ==> row == rows[0] || row in rows[1..];
      assert rows[0] in rows && forall row :: row in rows[1..] ==> row in rows;
      if rest < rows[0].updatedAt then rest else rows[0].updatedAt
  }

  /** A surveyed route has a row, so the first case is never compared. */
  function CompletedAt(route: Route): int { if route.rows == [] then ZERO_TIME else Oldest(route.rows) }

  function LastActivity(route: Route): int {
    if route.facts.lastPlayed != ZERO_TIME then route.facts.lastPlayed else CompletedAt(route)
  }

  function Cmp(a: int, b: int): int { if a < b then -1 else if a == b then 0 else 1 }

  function BoolFirst(a: bool, b: bool): int { if a == b then 0 else if a then -1 else 1 }

  function CompareRule(rule: string, a: Route, b: Route): int {
    if rule == "newest-completed" then Cmp(CompletedAt(b), CompletedAt(a))
    else if rule == "least-recently-played" then Cmp(LastActivity(a), LastActivity(b))
    else if rule == "most-recently-played" then Cmp(LastActivity(b), LastActivity(a))
    else if rule == "watched-first" then BoolFirst(a.facts.watched, b.facts.watched)
    else if rule == "never-watched-first" then BoolFirst(!a.facts.watched, !b.facts.watched)
    else if rule == "largest" then Cmp(b.status.totalBytes, a.status.totalBytes)
    else if rule == "smallest" then Cmp(a.status.totalBytes, b.status.totalBytes)
    else Cmp(CompletedAt(a), CompletedAt(b))
  }

  /** Byte-wise string order. */
  function CmpString(a: string, b: string): int {
    if a == [] && b == [] then 0
    else if a == [] then -1
    else if b == [] then 1
    else if a[0] != b[0] then Cmp(a[0] as int, b[0] as int)
    else CmpString(a[1..], b[1..])
  }

  /** The comparison the sort uses: the first rule that tells the two apart,
      then the older download, then the engine id. */
  function Rank(rules: seq<string>, a: Route, b: Route): int {
    if rules == [] then
      var c := Cmp(CompletedAt(a), CompletedAt(b));
      if c != 0 then c else CmpString(a.engineId, b.engineId)
    else
      var c := CompareRule(rules[0], a, b);
      if c != 0 then c else Rank(rules[1..], a, b)
  }

  predicate Before(rules: seq<string>, a: Route, b: Route) { Rank(rules, a, b) < 0 }

  function Ranking(rules: seq<string>): (Route, Route) -> int { (a: Route, b: Route) => Rank(rules, a, b) }

  /** The eviction order of a candidate list. */
  function Order(rules: seq<string>, s: seq<Route>): seq<Route> { Sort(Ranking(rules), s) }

  ghost predicate DistinctIds(s: seq<Route>) {
    forall i, j :: 0 <= i < j < |s| ==> s[i].engineId != s[j].engineId
  }

  // ---- The comparison is a strict total order ----

  lemma {:induction false} CmpStringOrder(a: string, b: string, c: string)
    ensures CmpString(b, a) == -CmpString(a, b)
    ensures CmpString(a, b) == 0 <==> a == b
    ensures CmpString(a, b) <= 0 && CmpString(b, c) <= 0 ==> CmpString(a, c) <= 0
  {
    if a != [] && b != [] && a[0] == b[0] {
      CmpStringOrder(a[1..], b[1..], if c == [] then [] else c[1..]);
      assert a == [a[0]] + a[1..] && b == [b[0]] + b[1..];
    }
  }

  /** Byte-wise, a string precedes another when it is less where they first differ,
      or is a proper prefix. */
  predicate TextBefore(a: string, b: string) {
    exists i :: 0 <= i <= |a| && i < |b| && a[..i] == b[..i] && (i == |a| || a[i] < b[i])
  }

  lemma {:induction false} CmpStringMeaning(a: string, b: string)
    ensures CmpString(a, b) < 0 <==> TextBefore(a, b)
  {
    if a == [] {
      assert b != [] ==> a[..0] == b[..0];
    } else if b != [] && a[0] == b[0] {
      CmpStringMeaning(a[1..], b[1..]);
      if TextBefore(a[1..], b[1..]) {
        var i :| 0 <= i <= |a[1..]| && i < |b[1..]| && a[1..][..i] == b[1..][..i] && (i == |a[1..]| || a[1..][i] < b[1..][i]);
        assert a[..i + 1] == [a[0]] + a[1..][..i] && b[..i + 1] == [b[0]] + b[1..][..i];
      }
      if TextBefore(a, b) {
        var i :| 0 <= i <= |a| && i < |b| && a[..i] == b[..i] && (i == |a| || a[i] < b[i]);
        assert i > 0;
        assert a[1..][..i - 1] == a[..i][1..] && b[1..][..i - 1] == b[..i][1..];
      }
    } else if b != [] {
      assert a[..0] == b[..0];
      forall i | 0 < i <= |a| && i < |b| ensures a[..i] != b[..i] {
        assert a[..i][0] != b[..i][0];
      }
    }
  }

  /** Every rule atom compares by an integer key. */
  function RuleKey(rule: string, a: Route): int {
    if rule == "newest-completed" then -CompletedAt(a)
    else if rule == "least-recently-played" then LastActivity(a)
    else if rule == "most-recently-played" then -LastActivity(a)
    else if rule == "watched-first" then (if a.facts.watched then 0 else 1)
    else if rule == "never-watched-first" then (if a.facts.watched then 1 else 0)
    else if rule == "largest" then -(a.status.totalBytes as int)
    else if rule == "smallest" then a.status.totalBytes
    else CompletedAt(a)
  }

  lemma RuleComparesKeys(rule: string, a: Route, b: Route)
    ensures CompareRule(rule, a, b) == Cmp(RuleKey(rule, a), RuleKey(rule, b))
  {
  }

  /** The first rule that tells two routes apart decides; when none does, the
      older download goes first, and then the lesser engine id. */
  lemma {:induction false} FirstTellingRuleDecides(rules: seq<string>, a: Route, b: Route, i: nat)
    requires i <= |rules| && forall j :: 0 <= j < i ==> CompareRule(rules[j], a, b) == 0
    ensures i < |rules| && CompareRule(rules[i], a, b) != 0 ==> Rank(rules, a, b) == CompareRule(rules[i], a, b)
    ensures i == |rules| && CompletedAt(a) != CompletedAt(b) ==> (Before(rules, a, b) <==> CompletedAt(a) < CompletedAt(b))
    ensures i == |rules| && CompletedAt(a) == CompletedAt(b) ==> (Before(rules, a, b) <==> TextBefore(a.engineId, b.engineId))
  {
    CmpStringMeaning(a.engineId, b.engineId);
    hide CmpString, TextBefore;
    if i > 0 {
      assert CompareRule(rules[0], a, b) == 0;
      FirstTellingRuleDecides(rules[1..], a, b, i - 1);
    }
  }

  // ---- What the rules look at ----

  ghost predicate OldestAt(route: Route, t: int) {
    (exists row :: row in route.rows && row.updatedAt == t) && forall row :: row in route.rows ==> t <= row.updatedAt
  }

  /** When a route was last used: played, or, if never played, its oldest row's
      time. */
  ghost predicate ActiveAt(route: Route, t: int) {
    if route.facts.lastPlayed != ZERO_TIME then t == route.facts.lastPlayed else OldestAt(route, t)
  }

  /** What a rule measures; the lesser measure goes first. */
  ghost predicate Measures(rule: string, route: Route, key: int) {
    if rule == "newest-completed" then OldestAt(route, -key)
    else if rule == "least-recently-played" then ActiveAt(route, key)
    else if rule == "most-recently-played" then ActiveAt(route, -key)
    else if rule == "watched-first" then key == (if route.facts.watched then 0 else 1)
    else if rule == "never-watched-first" then key == (if route.facts.watched then 1 else 0)
    else if rule == "largest" then key == -(route.status.totalBytes as int)
    else if rule == "smallest" then key == route.status.totalBytes
    else OldestAt(route, key)
  }

  lemma CompletedIsOldest(route: Route, t: int)
    requires route.rows != []
    ensures OldestAt(route, t) <==> t == CompletedAt(route)
  {
  }

  lemma ActivityIsActive(route: Route, t: int)
    requires route.rows != []
    ensures ActiveAt(route, t) <==> t == LastActivity(route)
  {
    CompletedIsOldest(route, t);
    hide OldestAt, CompletedAt;
  }

  /** The key of a rule is what it measures, and nothing else is. */
  lemma KeyIsMeasured(rule: string, route: Route, key: int)
    requires route.rows != []
    ensures Measures(rule, route, key) <==> key == RuleKey(rule, route)
  {
    CompletedIsOldest(route, key);
    CompletedIsOldest(route, -key);
    ActivityIsActive(route, key);
    ActivityIsActive(route, -key);
    hide OldestAt, ActiveAt, CompletedAt, LastActivity;
  }

  ghost predicate Less(rule: string, a: Route, b: Route) {
    exists x: int, y: int :: Measures(rule, a, x) && Measures(rule, b, y) && x < y
  }

  ghost predicate Same(rule: string, a: Route, b: Route) {
    exists x: int :: Measures(rule, a, x) && Measures(rule, b, x)
  }

  lemma ComparedByMeasure(rule: string, a: Route, b: Route)
    requires a.rows != [] && b.rows != []
    ensures CompareRule(rule, a, b) < 0 <==> Less(rule, a, b)
    ensures CompareRule(rule, a, b) == 0 <==> Same(rule, a, b)
  {
    hide RuleKey, CompareRule, Measures;
    RuleComparesKeys(rule, a, b);
    KeyIsMeasured(rule, a, RuleKey(rule, a));
    KeyIsMeasured(rule, b, RuleKey(rule, b));
    forall x: int | Measures(rule, a, x) ensures x == RuleKey(rule, a) { KeyIsMeasured(rule, a, x); }
    forall x: int | Measures(rule, b, x) ensures x == RuleKey(rule, b) { KeyIsMeasured(rule, b, x); }
  }

  /** The first i rules measure the same, and then the next one, or if none is left
      age and then the engine id, puts `a` first. */
  ghost predicate DecidedAt(rules: seq<string>, a: Route, b: Route, i: nat) {
    && i <= |rules| && (forall j :: 0 <= j < i ==> Same(rules[j], a, b))
    && if i < |rules| then Less(rules[i], a, b)
       else Less("oldest-completed", a, b) || (Same("oldest-completed", a, b) && TextBefore(a.engineId, b.engineId))
  }

  ghost predicate Leads(rules: seq<string>, a: Route, b: Route) { exists i: nat :: DecidedAt(rules, a, b, i) }

  lemma LeadsNone(a: Route, b: Route)
    ensures Leads([], a, b)
       <==> Less("oldest-completed", a, b) || (Same("oldest-completed", a, b) && TextBefore(a.engineId, b.engineId))
  {
    hide Less, Same, TextBefore;
    assert DecidedAt([], a, b, 0)
      <==> Less("oldest-completed", a, b) || (Same("oldest-completed", a, b) && TextBefore(a.engineId, b.engineId));
  }

  lemma LeadsCons(rules: seq<string>, a: Route, b: Route)
    requires rules != []
    ensures Leads(rules, a, b) <==> Less(rules[0], a, b) || (Same(rules[0], a, b) && Leads(rules[1..], a, b))
  {
    hide Less, Same, TextBefore;
    assert DecidedAt(rules, a, b, 0) <==> Less(rules[0], a, b);
    if Same(rules[0], a, b) {
      forall i: nat ensures DecidedAt(rules[1..], a, b, i) <==> DecidedAt(rules, a, b, i + 1) {
        DecidedLater(rules, a, b, i);
      }
      if i: nat :| DecidedAt(rules, a, b, i) && i > 0 {
        assert DecidedAt(rules[1..], a, b, i - 1);
      }
    } else {
      assert forall i: nat :: DecidedAt(rules, a, b, i) ==> i == 0;
    }
  }

  lemma DecidedLater(rules: seq<string>, a: Route, b: Route, i: nat)
    requires rules != [] && Same(rules[0], a, b)
    ensures DecidedAt(rules[1..], a, b, i) <==> DecidedAt(rules, a, b, i + 1)
  {
    hide Less, Same, TextBefore;
    assert forall j :: 0 < j < |rules| ==> rules[j] == rules[1..][j - 1];
    if DecidedAt(rules, a, b, i + 1) {
      assert forall j :: 0 <= j < i ==> rules[1..][j] == rules[j + 1];
    }
  }

  lemma RankNone(a: Route, b: Route)
    requires a.rows != [] && b.rows != []
    ensures Rank([], a, b) < 0 <==> Leads([], a, b)
  {
    LeadsNone(a, b);
    ComparedByMeasure("oldest-completed", a, b);
    OldestIsDefault(a, b);
    CmpStringMeaning(a.engineId, b.engineId);
    hide CmpString, TextBefore, Less, Same, CompletedAt, CompareRule, Leads;
  }

  lemma OldestIsDefault(a: Route, b: Route)
    ensures CompareRule("oldest-completed", a, b) == Cmp(CompletedAt(a), CompletedAt(b))
  {
    hide CompletedAt, LastActivity;
  }

  lemma RankCons(rules: seq<string>, a: Route, b: Route)
    requires rules != []
    ensures Rank(rules, a, b) == if CompareRule(rules[0], a, b) != 0 then CompareRule(rules[0], a, b) else Rank(rules[1..], a, b)
  {
    hide CompareRule;
  }

  /** The comparison in terms of what the rules measure. */
  lemma {:induction false} BeforeMeansLeads(rules: seq<string>, a: Route, b: Route)
    requires a.rows != [] && b.rows != []
    ensures Before(rules, a, b) <==> Leads(rules, a, b)
  {
    hide Rank, Leads, CompareRule, Less, Same;
    if rules == [] {
      RankNone(a, b);
    } else {
      RankCons(rules, a, b);
      LeadsCons(rules, a, b);
      ComparedByMeasure(rules[0], a, b);
      BeforeMeansLeads(rules[1..], a, b);
    }
  }

  lemma {:induction false} RankIsOrder(rules: seq<string>, a: Route, b: Route, c: Route)
    ensures Rank(rules, b, a) == -Rank(rules, a, b)
    ensures Rank(rules, a, b) == 0 ==> a.engineId == b.engineId
    ensures Rank(rules, a, b) <= 0 && Rank(rules, b, c) <= 0 ==> Rank(rules, a, c) <= 0
    ensures Rank(rules, a, b) < 0 && Rank(rules, b, c) <= 0 ==> Rank(rules, a, c) < 0
  {
    if rules == [] {
      CmpStringOrder(a.engineId, b.engineId, c.engineId);
      CmpStringOrder(c.engineId, b.engineId, a.engineId);
      CmpStringOrder(a.engineId, c.engineId, b.engineId);
    } else {
      RuleComparesKeys(rules[0], a, b);
      RuleComparesKeys(rules[0], b, a);
      RuleComparesKeys(rules[0], b, c);
      RuleComparesKeys(rules[0], a, c);
      RankIsOrder(rules[1..], a, b, c);
    }
  }

  /** For any rule list the comparison is irreflexive, transitive, and decides
      between any two routes with different engine ids. */
  lemma EvictionIsStrictTotalOrder(rules: seq<string>)
    ensures forall a: Route :: !Before(rules, a, a)
    ensures forall a: Route, b: Route, c: Route :: Before(rules, a, b) && Before(rules, b, c) ==> Before(rules, a, c)
    ensures forall a: Route, b: Route :: a.engineId != b.engineId ==> (Before(rules, a, b) <==> !Before(rules, b, a))
  {
    forall a: Route, b: Route, c: Route
      ensures !Before(rules, a, a)
      ensures Before(rules, a, b) && Before(rules, b, c) ==> Before(rules, a, c)
      ensures a.engineId != b.engineId ==> (Before(rules, a, b) <==> !Before(rules, b, a))
    {
      RankIsOrder(rules, a, a, a);
      RankIsOrder(rules, a, b, c);
    }
  }

  lemma RankingIsComparison(rules: seq<string>)
    ensures Comparison(Ranking(rules))
  {
    forall a: Route, b: Route, c: Route
      ensures Ranking(rules)(b, a) == -Ranking(rules)(a, b)
      ensures Ranking(rules)(a, b) <= 0 && Ranking(rules)(b, c) <= 0 ==> Ranking(rules)(a, c) <= 0
    {
      RankIsOrder(rules, a, b, c);
    }
  }

  lemma OnlyEqualRoutesTie(rules: seq<string>, s: seq<Route>)
    requires DistinctIds(s)
    ensures OnlyEqualsTie(Ranking(rules), s)
  {
    forall a, b | a in s && b in s && Ranking(rules)(a, b) == 0 ensures a == b {
      RankIsOrder(rules, a, b, b);
      var i :| 0 <= i < |s| && s[i] == a;
      var j :| 0 <= j < |s| && s[j] == b;
      assert i == j;
    }
  }

  /** Whatever order the candidates arrive in, the same route is evicted first. */
  lemma VictimIgnoresInputOrder(rules: seq<string>, s: seq<Route>, t: seq<Route>)
    requires multiset(s) == multiset(t) && DistinctIds(s)
    ensures Order(rules, s) == Order(rules, t)
  {
    RankingIsComparison(rules);
    OnlyEqualRoutesTie(rules, s);
    SortIgnoresInputOrder(Ranking(rules), s, t);
  }

  /** Whatever sort is used, stable or not: any arrangement of the candidates that
      the comparison finds in order is this order. */
  lemma AnySortGivesTheOrder(rules: seq<string>, candidates: seq<Route>, sorted: seq<Route>)
    requires DistinctIds(candidates)
    requires multiset(sorted) == multiset(candidates) && Ordered(Ranking(rules), sorted)
    ensures sorted == Order(rules, candidates)
  {
    RankingIsComparison(rules);
    OnlyEqualRoutesTie(rules, candidates);
    SortIsOrdered(Ranking(rules), candidates);
    hide Ordered, Comparison, OnlyEqualsTie, Sort, Ranking, DistinctIds;
    TiesTransfer(Ranking(rules), candidates, sorted);
    OrderedPermutationIsUnique(Ranking(rules), sorted, Sort(Ranking(rules), candidates));
  }

  /** The first route of the order is one of the candidates and comes strictly
      before every other one. */
  lemma VictimIsFirst(rules: seq<string>, s: seq<Route>)
    requires s != [] && DistinctIds(s)
    ensures |Order(rules, s)| == |s| && Order(rules, s)[0] in s
    ensures forall r :: r in s && r != Order(rules, s)[0] ==> Before(rules, Order(rules, s)[0], r)
  {
    RankingIsComparison(rules);
    OnlyEqualRoutesTie(rules, s);
    HeadIsLeast(Ranking(rules), s);
    forall r | r in s && r != Order(rules, s)[0] ensures Before(rules, Order(rules, s)[0], r) {
      assert Ranking(rules)(Order(rules, s)[0], r) == Rank(rules, Order(rules, s)[0], r);
    }
  }

  /** Sorts the candidates in place for eviction. */
  method ApplyEvictionRules(candidates: array<Route>, rules: seq<string>)
    modifies candidates
    ensures candidates[..] == Order(rules, old(candidates[..]))
  {
    SortInPlace(candidates, Ranking(rules));
  }
}

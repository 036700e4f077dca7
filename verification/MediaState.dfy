/** The library state of sources, episodes, seasons and packs, folded together.
    Progress is a real number; rounding is not modelled. */
module MediaState {
  datatype Download = None | Partial | Queued | Downloading | Downloaded | Error
  datatype Transfer = Idle | Complete | Paused | Waiting | Active | Failing
  datatype Watch = Unwatched | InProgress | Incomplete | Watched

  datatype State = State(download: Download, transfer: Transfer, watch: Watch, progress: real, downloadId: string)

  const EMPTY: State := State(None, Idle, Unwatched, 0.0, "")

  function Priority(t: Transfer): int {
    match t
    case Idle => 0
    case Complete => 1
    case Paused => 2
    case Waiting => 3
    case Active => 4
    case Failing => 5
  }

  /** From least to most urgent. */
  lemma UrgencyOrder()
    ensures Priority(Idle) < Priority(Complete) < Priority(Paused) < Priority(Waiting) < Priority(Active) < Priority(Failing)
  {
  }

  function MergeTransfer(current: Transfer, next: Transfer): Transfer {
    if Priority(next) > Priority(current) then next else current
  }

  /** What the loop has counted. */
  datatype Tally = Tally(downloaded: nat, managed: nat, watched: nat, started: nat, transfer: Transfer, progress: real, downloadId: string)

  const NOTHING: Tally := Tally(0, 0, 0, 0, Idle, 0.0, "")

  function Bit(b: bool): nat { if b then 1 else 0 }

  function Add(t: Tally, s: State): Tally {
    Tally(t.downloaded + Bit(s.download == Downloaded),
          t.managed + Bit(s.download != None),
          t.watched + Bit(s.watch == Watched),
          t.started + Bit(s.watch != Unwatched),
          MergeTransfer(t.transfer, s.transfer),
          if s.progress > t.progress then s.progress else t.progress,
          if s.progress > t.progress then s.downloadId else t.downloadId)
  }

  function Count(states: seq<State>): Tally {
    if states == [] then NOTHING else Add(Count(states[..|states| - 1]), states[|states| - 1])
  }

  /** A group's state: with `all`, everything has to be there. */
  function Conclude(t: Tally, n: nat, all: bool): State {
    if n == 0 then EMPTY
    else if all then
      State(if t.downloaded == n then Downloaded else if t.managed > 0 then Partial else None,
            t.transfer,
            if t.watched == n then Watched else if t.started > 0 then Incomplete else Unwatched,
            t.progress, t.downloadId)
    else
      State(if t.downloaded > 0 then Downloaded else if t.managed > 0 then Downloading else None,
            t.transfer,
            if t.watched > 0 then Watched else if t.started > 0 then InProgress else Unwatched,
            t.progress, t.downloadId)
  }

  function Aggregate(states: seq<State>, all: bool): State { Conclude(Count(states), |states|, all) }

  method AggregateMediaStates(states: seq<State>, requireAll: bool) returns (result: State)
    ensures result == Aggregate(states, requireAll)
  {
    result := EMPTY;
    if |states| == 0 { return; }
    var downloaded, managed, watched, started := 0, 0, 0, 0;
    for i := 0 to |states|
      invariant result.download == None && result.watch == Unwatched
      invariant Count(states[..i]) == Tally(downloaded, managed, watched, started, result.transfer, result.progress, result.downloadId)
    {
      var state := states[i];
      assert states[..i + 1][..i] == states[..i];
      result := result.(transfer := MergeTransfer(result.transfer, state.transfer));
      if state.download == Downloaded { downloaded := downloaded + 1; }
      if state.download != None { managed := managed + 1; }
      if state.watch == Watched { watched := watched + 1; }
      if state.watch != Unwatched { started := started + 1; }
      if state.progress > result.progress {
        result := result.(progress := state.progress, downloadId := state.downloadId);
      }
    }
    assert states[..|states|] == states;
    if requireAll {
      if downloaded == |states| { result := result.(download := Downloaded); }
      else if managed > 0 { result := result.(download := Partial); }
      if watched == |states| { result := result.(watch := Watched); }
      else if started > 0 { result := result.(watch := Incomplete); }
      return;
    }
    if downloaded > 0 { result := result.(download := Downloaded); }
    else if managed > 0 { result := result.(download := Downloading); }
    if watched > 0 { result := result.(watch := Watched); }
    else if started > 0 { result := result.(watch := InProgress); }
  }

  /** The counts, in terms of the states counted. */
  lemma {:induction false} DownloadCounts(states: seq<State>)
    ensures var t := Count(states);
            && (t.downloaded == |states| <==> forall i :: 0 <= i < |states| ==> states[i].download == Downloaded)
            && (t.downloaded > 0 <==> exists i :: 0 <= i < |states| && states[i].download == Downloaded)
            && (t.managed > 0 <==> exists i :: 0 <= i < |states| && states[i].download != None)
            && t.downloaded <= |states|
  {
    if states != [] {
      var front := states[..|states| - 1];
      DownloadCounts(front);
      hide MergeTransfer;
      assert forall i :: 0 <= i < |front| ==> states[i] == front[i];
    }
  }

  lemma {:induction false} WatchCounts(states: seq<State>)
    ensures var t := Count(states);
            && (t.watched == |states| <==> forall i :: 0 <= i < |states| ==> states[i].watch == Watched)
            && (t.watched > 0 <==> exists i :: 0 <= i < |states| && states[i].watch == Watched)
            && (t.started > 0 <==> exists i :: 0 <= i < |states| && states[i].watch != Unwatched)
            && t.watched <= |states|
  {
    if states != [] {
      var front := states[..|states| - 1];
      WatchCounts(front);
      hide MergeTransfer;
      assert forall i :: 0 <= i < |front| ==> states[i] == front[i];
    }
  }

  /** The furthest progress is the greatest one, named by the first state that has
      it; the transfer is the most urgent one. */
  lemma {:induction false} FurthestAndMostUrgent(states: seq<State>)
    ensures var t := Count(states);
            && (forall i :: 0 <= i < |states| ==> states[i].progress <= t.progress && Priority(states[i].transfer) <= Priority(t.transfer))
            && t.progress >= 0.0
            && (t.progress > 0.0 ==>
                  exists i :: 0 <= i < |states| && states[i].progress == t.progress && states[i].downloadId == t.downloadId
                              && forall j :: 0 <= j < i ==> states[j].progress < t.progress)
            && (t.progress == 0.0 ==> t.downloadId == "")
            && (t.transfer != Idle ==> exists i :: 0 <= i < |states| && states[i].transfer == t.transfer)
  {
    if states != [] {
      var front, last := states[..|states| - 1], states[|states| - 1];
      FurthestAndMostUrgent(front);
      var before := Count(front);
      assert forall i :: 0 <= i < |front| ==> states[i] == front[i];
      if last.progress > before.progress {
        assert states[|front|].progress == Count(states).progress;
      }
      if Priority(last.transfer) > Priority(before.transfer) {
        assert states[|front|].transfer == Count(states).transfer;
      }
    }
  }

  /** What a group's state says about its members: with `all` every one has to be
      downloaded or watched, without it one is enough. */
  lemma AggregateMeaning(states: seq<State>)
    requires states != []
    ensures Aggregate(states, true).download == Downloaded <==> forall i :: 0 <= i < |states| ==> states[i].download == Downloaded
    ensures Aggregate(states, false).download == Downloaded <==> exists i :: 0 <= i < |states| && states[i].download == Downloaded
    ensures forall all :: Aggregate(states, all).download == None <==> forall i :: 0 <= i < |states| ==> states[i].download == None
    ensures Aggregate(states, true).watch == Watched <==> forall i :: 0 <= i < |states| ==> states[i].watch == Watched
    ensures Aggregate(states, false).watch == Watched <==> exists i :: 0 <= i < |states| && states[i].watch == Watched
    ensures forall all :: Aggregate(states, all).watch == Unwatched <==> forall i :: 0 <= i < |states| ==> states[i].watch == Unwatched
    ensures Aggregate(states, true).download in {None, Partial, Downloaded} && Aggregate(states, false).download in {None, Downloading, Downloaded}
    ensures Aggregate(states, true).watch in {Unwatched, Incomplete, Watched} && Aggregate(states, false).watch in {Unwatched, InProgress, Watched}
  {
    DownloadCounts(states);
    WatchCounts(states);
    CountBounds(states);
    hide Count;
  }

  // ---- Seasons of episodes, or episodes at once ----

  /** Two groups counted one after the other. */
  function Both(a: Tally, b: Tally): Tally {
    Tally(a.downloaded + b.downloaded, a.managed + b.managed, a.watched + b.watched, a.started + b.started,
          MergeTransfer(a.transfer, b.transfer),
          if b.progress > a.progress then b.progress else a.progress,
          if b.progress > a.progress then b.downloadId else a.downloadId)
  }

  lemma BothAdds(a: Tally, b: Tally, s: State)
    requires b.progress >= 0.0
    ensures Add(Both(a, b), s) == Both(a, Add(b, s))
    ensures Add(b, s).progress >= 0.0
  {
  }

  lemma BothNothing(a: Tally)
    requires a.progress >= 0.0
    ensures Both(a, NOTHING) == a
  {
  }

  lemma {:induction false} CountConcat(a: seq<State>, b: seq<State>)
    ensures Count(a + b) == Both(Count(a), Count(b))
    ensures Count(b).progress >= 0.0
  {
    if b == [] {
      assert a + b == a;
      CountIsNonNegative(a);
      BothNothing(Count(a));
    } else {
      var front, last := b[..|b| - 1], b[|b| - 1];
      assert (a + b)[..|a + b| - 1] == a + front;
      CountConcat(a, front);
      BothAdds(Count(a), Count(front), last);
      hide Both, Add;
    }
  }

  lemma {:induction false} CountIsNonNegative(a: seq<State>)
    ensures Count(a).progress >= 0.0
  {
    if a != [] {
      CountIsNonNegative(a[..|a| - 1]);
    }
  }

  lemma {:induction false} CountBounds(states: seq<State>)
    ensures var t := Count(states);
            && t.downloaded <= t.managed <= |states|
            && t.watched <= t.started <= |states|
            && t.progress >= 0.0
  {
    if states != [] {
      CountBounds(states[..|states| - 1]);
    }
  }

  function Flat(seasons: seq<seq<State>>): seq<State> {
    if seasons == [] then [] else Flat(seasons[..|seasons| - 1]) + seasons[|seasons| - 1]
  }

  /** The states the seasons themselves get. */
  function SeasonStates(seasons: seq<seq<State>>): seq<State> {
    if seasons == [] then []
    else SeasonStates(seasons[..|seasons| - 1]) + [Aggregate(seasons[|seasons| - 1], true)]
  }

  predicate NoneEmpty(seasons: seq<seq<State>>) { forall i :: 0 <= i < |seasons| ==> seasons[i] != [] }

  /** How the count over the seasons' own states mirrors the one over all
      episodes. */
  predicate Mirrors(outer: Tally, seasons: nat, inner: Tally, episodes: nat, noneEmpty: bool) {
    && outer.transfer == inner.transfer && outer.progress == inner.progress && outer.downloadId == inner.downloadId
    && (outer.managed > 0 <==> inner.managed > 0)
    && (outer.started > 0 <==> inner.started > 0)
    && outer.downloaded <= outer.managed <= seasons && outer.watched <= outer.started <= seasons
    && inner.downloaded <= inner.managed <= episodes && inner.watched <= inner.started <= episodes
    && (noneEmpty ==> (outer.downloaded == seasons <==> inner.downloaded == episodes) && (outer.watched == seasons <==> inner.watched == episodes))
    && (noneEmpty ==> (seasons == 0 <==> episodes == 0))
    && (!noneEmpty ==> outer.downloaded < seasons && outer.watched < seasons)
  }

  lemma AddSeason(outer: Tally, n: nat, inner: Tally, m: nat, noneEmpty: bool, t: Tally, k: nat)
    requires Mirrors(outer, n, inner, m, noneEmpty)
    requires t.downloaded <= t.managed <= k && t.watched <= t.started <= k
    requires k == 0 ==> t == NOTHING
    requires inner.progress >= 0.0
    ensures Mirrors(Add(outer, Conclude(t, k, true)), n + 1, Both(inner, t), m + k, noneEmpty && k > 0)
  {
  }

  lemma NoneEmptySnoc(seasons: seq<seq<State>>)
    requires seasons != []
    ensures NoneEmpty(seasons) <==> NoneEmpty(seasons[..|seasons| - 1]) && seasons[|seasons| - 1] != []
  {
    var front := seasons[..|seasons| - 1];
    if NoneEmpty(front) && seasons[|seasons| - 1] != [] {
      forall i | 0 <= i < |seasons| ensures seasons[i] != [] {
        assert i < |front| ==> seasons[i] == front[i];
      }
    }
  }

  lemma CountSnoc(states: seq<State>, s: State)
    ensures Count(states + [s]) == Add(Count(states), s)
  {
    assert (states + [s])[..|states|] == states;
    hide Add;
  }

  lemma CountEmpty(states: seq<State>)
    ensures states == [] ==> Count(states) == NOTHING
  {
  }

  lemma NoSeasons()
    ensures Mirrors(Count(SeasonStates([])), 0, Count(Flat([])), |Flat([])|, NoneEmpty([]))
    ensures SeasonStates([]) == []
  {
  }

  lemma SeasonsSnoc(front: seq<seq<State>>, last: seq<State>)
    ensures SeasonStates(front + [last]) == SeasonStates(front) + [Conclude(Count(last), |last|, true)]
    ensures Flat(front + [last]) == Flat(front) + last
    ensures NoneEmpty(front + [last]) <==> NoneEmpty(front) && last != []
  {
    assert (front + [last])[..|front|] == front;
    NoneEmptySnoc(front + [last]);
    hide Conclude, Count, NoneEmpty;
  }

  lemma {:induction false} SeasonsMirrorEpisodes(seasons: seq<seq<State>>)
    ensures Mirrors(Count(SeasonStates(seasons)), |seasons|, Count(Flat(seasons)), |Flat(seasons)|, NoneEmpty(seasons))
    ensures |SeasonStates(seasons)| == |seasons|
  {
    hide *;
    if seasons == [] {
      NoSeasons();
    } else {
      var front, last := seasons[..|seasons| - 1], seasons[|seasons| - 1];
      assert seasons == front + [last];
      SeasonsMirrorEpisodes(front);
      SeasonsSnoc(front, last);
      CountConcat(Flat(front), last);
      CountBounds(last);
      CountEmpty(last);
      CountIsNonNegative(Flat(front));
      CountSnoc(SeasonStates(front), Conclude(Count(last), |last|, true));
      AddSeason(Count(SeasonStates(front)), |front|, Count(Flat(front)), |Flat(front)|, NoneEmpty(front), Count(last), |last|);
    }
  }

  /** A show's state over its seasons' states is the state over all its episodes,
      exactly when no season is empty or there is nothing to lose: an empty season
      keeps a show from being downloaded or watched as a whole. */
  lemma SeasonsOrEpisodes(seasons: seq<seq<State>>)
    ensures var nested, flat := Aggregate(SeasonStates(seasons), true), Aggregate(Flat(seasons), true);
            && (nested == flat <==> NoneEmpty(seasons) || (flat.download != Downloaded && flat.watch != Watched))
            && nested.transfer == flat.transfer && nested.progress == flat.progress && nested.downloadId == flat.downloadId
  {
    SeasonsMirrorEpisodes(seasons);
    var n, m := |seasons|, |Flat(seasons)|;
    assert m == 0 ==> Count(Flat(seasons)) == NOTHING;
    ConcludeMirrored(Count(SeasonStates(seasons)), n, Count(Flat(seasons)), m, NoneEmpty(seasons));
  }

  lemma ConcludeMirrored(outer: Tally, n: nat, inner: Tally, m: nat, noneEmpty: bool)
    requires Mirrors(outer, n, inner, m, noneEmpty) && (m == 0 ==> inner == NOTHING)
    requires n == 0 ==> outer == NOTHING && m == 0
    ensures var nested, flat := Conclude(outer, n, true), Conclude(inner, m, true);
            && (nested == flat <==> noneEmpty || (flat.download != Downloaded && flat.watch != Watched))
            && nested.transfer == flat.transfer && nested.progress == flat.progress && nested.downloadId == flat.downloadId
  {
  }

  /** A concrete one: a show with one downloaded and watched episode and an empty
      season counts as partly downloaded and partly watched. */
  lemma AnEmptySeasonHidesTheDownload()
    ensures var episode := State(Downloaded, Complete, Watched, 1.0, "d");
            var seasons := [[episode], []];
            var nested, flat := Aggregate(SeasonStates(seasons), true), Aggregate(Flat(seasons), true);
            && flat.download == Downloaded && flat.watch == Watched
            && nested.download == Partial && nested.watch == Incomplete
  {
    var episode := State(Downloaded, Complete, Watched, 1.0, "d");
    var one: seq<seq<State>> := [[episode]];
    var seasons: seq<seq<State>> := [[episode], []];
    assert seasons[..1] == one && one[..0] == [];
    assert [episode][..0] == [] && Count([episode]) == Add(NOTHING, episode);
    assert Aggregate([episode], true) == episode;
    assert Flat(one) == [episode] && Flat(seasons) == [episode] + [] == [episode];
    assert SeasonStates(one) == [episode] && SeasonStates(seasons) == [episode, EMPTY];
    assert [episode, EMPTY][..1] == [episode];
    assert Count([episode, EMPTY]) == Add(Count([episode]), EMPTY);
  }

  // ---- A pack's state, weighted by file size ----

  datatype Source = Source(releaseId: string, size: int, state: State)

  datatype Item = Item(state: State, weight: int)

  function Weight(size: int): (w: int)
    ensures w >= 1
  {
    if size <= 0 then 1 else size
  }

  function Chosen(release: string, sources: seq<Source>): seq<Item> {
    if sources == [] then []
    else
      var last := sources[|sources| - 1];
      Chosen(release, sources[..|sources| - 1])
      + if last.releaseId == release then [Item(last.state, Weight(last.size))] else []
  }

  function Sources(episodes: seq<seq<Source>>): seq<Source> {
    if episodes == [] then [] else Sources(episodes[..|episodes| - 1]) + episodes[|episodes| - 1]
  }

  function States(items: seq<Item>): (s: seq<State>)
    ensures |s| == |items|
    ensures forall i :: 0 <= i < |items| ==> s[i] == items[i].state
  {
    if items == [] then [] else States(items[..|items| - 1]) + [items[|items| - 1].state]
  }

  function TotalWeight(items: seq<Item>): int {
    if items == [] then 0 else TotalWeight(items[..|items| - 1]) + items[|items| - 1].weight
  }

  function Weighted(items: seq<Item>): real {
    if items == [] then 0.0
    else Weighted(items[..|items| - 1]) + items[|items| - 1].state.progress * items[|items| - 1].weight as real
  }

  function CountOf(items: seq<Item>, d: Download): nat {
    if items == [] then 0 else CountOf(items[..|items| - 1], d) + Bit(items[|items| - 1].state.download == d)
  }

  /** The download named: a later one replaces it if it is at least as far as the
      pack's furthest. */
  function PackId(items: seq<Item>, first: string, furthest: real): string {
    if items == [] then first
    else
      var before, last := PackId(items[..|items| - 1], first, furthest), items[|items| - 1].state;
      if last.downloadId != "" && (before == "" || last.progress >= furthest) then last.downloadId else before
  }

  function PackDownload(items: seq<Item>): Download {
    if CountOf(items, Downloaded) == |items| then Downloaded
    else if CountOf(items, Error) > 0 then Error
    else if CountOf(items, Downloading) > 0 then Downloading
    else if CountOf(items, Queued) > 0 then Queued
    else if CountOf(items, Downloaded) + CountOf(items, Partial) > 0 then Partial
    else None
  }

  function PackState(items: seq<Item>): State {
    if items == [] then EMPTY
    else
      var all := Aggregate(States(items), true);
      all.(download := PackDownload(items),
           progress := if TotalWeight(items) > 0 then Weighted(items) / TotalWeight(items) as real else all.progress,
           downloadId := PackId(items, all.downloadId, all.progress))
  }

  method ChooseSources(release: string, episodes: seq<seq<Source>>) returns (items: seq<Item>)
    ensures items == Chosen(release, Sources(episodes))
  {
    items := [];
    for e := 0 to |episodes|
      invariant items == Chosen(release, Sources(episodes[..e]))
    {
      assert episodes[..e + 1][..e] == episodes[..e];
      var sources := episodes[e];
      ghost var before := Sources(episodes[..e]);
      assert before + sources[..0] == before;
      for i := 0 to |sources|
        invariant items == Chosen(release, before + sources[..i])
      {
        assert (before + sources[..i + 1])[..|before| + i] == before + sources[..i];
        if sources[i].releaseId == release {
          items := items + [Item(sources[i].state, Weight(sources[i].size))];
        }
      }
      assert sources[..|sources|] == sources;
    }
    assert episodes[..|episodes|] == episodes;
  }

  method PackSourceState(release: string, episodes: seq<seq<Source>>) returns (result: State)
    ensures result == PackState(Chosen(release, Sources(episodes)))
  {
    hide Aggregate, Chosen, Sources, States;
    var items := ChooseSources(release, episodes);
    if |items| == 0 { return EMPTY; }
    result := AggregateMediaStates(States(items), true);
    ghost var all := result;
    var downloaded, partial, downloading, queued, failed := 0, 0, 0, 0, 0;
    var weighted := 0.0;
    var total := 0;
    for i := 0 to |items|
      invariant result == all.(downloadId := PackId(items[..i], all.downloadId, all.progress))
      invariant total == TotalWeight(items[..i]) && weighted == Weighted(items[..i])
      invariant downloaded == CountOf(items[..i], Downloaded) && failed == CountOf(items[..i], Error)
      invariant downloading == CountOf(items[..i], Downloading) && queued == CountOf(items[..i], Queued)
      invariant partial == CountOf(items[..i], Partial)
    {
      assert items[..i + 1][..i] == items[..i];
      var item := items[i].state;
      total := total + items[i].weight;
      weighted := weighted + item.progress * items[i].weight as real;
      if item.downloadId != "" && (result.downloadId == "" || item.progress >= result.progress) {
        result := result.(downloadId := item.downloadId);
      }
      match item.download
      case Downloaded => downloaded := downloaded + 1;
      case Error => failed := failed + 1;
      case Downloading => downloading := downloading + 1;
      case Queued => queued := queued + 1;
      case Partial => partial := partial + 1;
      case None =>
    }
    assert items[..|items|] == items;
    if total > 0 { result := result.(progress := weighted / total as real); }
    if downloaded == |items| { result := result.(download := Downloaded); }
    else if failed > 0 { result := result.(download := Error); }
    else if downloading > 0 { result := result.(download := Downloading); }
    else if queued > 0 { result := result.(download := Queued); }
    else if downloaded + partial > 0 { result := result.(download := Partial); }
    else { result := result.(download := None); }
  }

  lemma TimesKeepsOrder(a: real, b: real, w: real)
    requires a <= b && w >= 0.0
    ensures a * w <= b * w
  {
    assert (b - a) * w >= 0.0;
  }

  lemma {:induction false} ChosenWeigh(release: string, sources: seq<Source>)
    ensures forall i :: 0 <= i < |Chosen(release, sources)| ==> Chosen(release, sources)[i].weight >= 1
  {
    if sources != [] {
      ChosenWeigh(release, sources[..|sources| - 1]);
    }
  }

  lemma {:induction false} WeightedBetween(items: seq<Item>, least: real, greatest: real)
    requires forall i :: 0 <= i < |items| ==> items[i].weight >= 1 && least <= items[i].state.progress <= greatest
    ensures TotalWeight(items) >= |items|
    ensures least * TotalWeight(items) as real <= Weighted(items) <= greatest * TotalWeight(items) as real
  {
    if items != [] {
      var front, last := items[..|items| - 1], items[|items| - 1];
      WeightedBetween(front, least, greatest);
      var w := last.weight as real;
      TimesKeepsOrder(least, last.state.progress, w);
      TimesKeepsOrder(last.state.progress, greatest, w);
      assert TotalWeight(items) as real == TotalWeight(front) as real + w;
      Distributes(least, TotalWeight(front) as real, w);
      Distributes(greatest, TotalWeight(front) as real, w);
    }
  }

  lemma Distributes(a: real, b: real, c: real)
    ensures a * (b + c) == a * b + a * c
  {
  }

  lemma TimesKeepsStrictOrder(a: real, b: real, w: real)
    requires a < b && w > 0.0
    ensures a * w < b * w
  {
    assert (b - a) * w > 0.0;
  }

  lemma QuotientBetween(least: real, sum: real, greatest: real, w: real)
    requires w > 0.0 && least * w <= sum <= greatest * w
    ensures least <= sum / w <= greatest
  {
    var q := sum / w;
    assert q * w == sum;
    if q < least {
      TimesKeepsStrictOrder(q, least, w);
      assert false;
    }
    if q > greatest {
      TimesKeepsStrictOrder(greatest, q, w);
      assert false;
    }
  }

  lemma PackProgressIs(items: seq<Item>)
    requires items != [] && TotalWeight(items) > 0
    ensures PackState(items).progress == Weighted(items) / TotalWeight(items) as real
  {
    hide Aggregate, PackDownload, PackId, Weighted, TotalWeight;
  }

  /** A pack's progress lies between the least and the greatest progress of its
      files. */
  lemma PackProgressIsBetween(release: string, sources: seq<Source>, least: real, greatest: real)
    requires Chosen(release, sources) != []
    requires forall i :: 0 <= i < |Chosen(release, sources)| ==> least <= Chosen(release, sources)[i].state.progress <= greatest
    ensures least <= PackState(Chosen(release, sources)).progress <= greatest
  {
    hide *;
    var items := Chosen(release, sources);
    ChosenWeigh(release, sources);
    WeightedBetween(items, least, greatest);
    PackProgressIs(items);
    QuotientBetween(least, Weighted(items), greatest, TotalWeight(items) as real);
  }

  lemma {:induction false} CountOfAll(items: seq<Item>, d: Download)
    ensures CountOf(items, d) <= |items|
    ensures CountOf(items, d) == |items| <==> forall i :: 0 <= i < |items| ==> items[i].state.download == d
    ensures CountOf(items, d) > 0 <==> exists i :: 0 <= i < |items| && items[i].state.download == d
  {
    if items != [] {
      var front := items[..|items| - 1];
      CountOfAll(front, d);
      assert forall i :: 0 <= i < |front| ==> items[i] == front[i];
    }
  }

  /** The pack's download state in terms of its files: all downloaded, or else the
      gravest of failed, loading and waiting that some file is in, or else partial if
      any is managed. */
  lemma PackDownloadMeaning(items: seq<Item>)
    requires items != []
    ensures var d := PackState(items).download;
            && (d == Downloaded <==> forall i :: 0 <= i < |items| ==> items[i].state.download == Downloaded)
            && (d == Error <==> exists i :: 0 <= i < |items| && items[i].state.download == Error)
            && (d == Downloading <==> (exists i :: 0 <= i < |items| && items[i].state.download == Downloading)
                                      && forall i :: 0 <= i < |items| ==> items[i].state.download != Error)
            && (d == Queued <==> (exists i :: 0 <= i < |items| && items[i].state.download == Queued)
                                 && forall i :: 0 <= i < |items| ==> items[i].state.download !in {Error, Downloading})
            && (d == None <==> forall i :: 0 <= i < |items| ==> items[i].state.download == None)
  {
    CountOfAll(items, Downloaded);
    CountOfAll(items, Error);
    CountOfAll(items, Downloading);
    CountOfAll(items, Queued);
    CountOfAll(items, Partial);
    hide Aggregate, PackId, CountOf, Weighted, TotalWeight;
    assert items[0].state.download in {None, Partial, Queued, Downloading, Downloaded, Error};
  }

  /** It counts as watched when all its files are, and shows the most urgent transfer
      state among them. */
  lemma PackWatchMeaning(items: seq<Item>)
    requires items != []
    ensures PackState(items).watch == Watched <==> forall i :: 0 <= i < |items| ==> items[i].state.watch == Watched
    ensures PackState(items).watch == Unwatched <==> forall i :: 0 <= i < |items| ==> items[i].state.watch == Unwatched
    ensures PackState(items).transfer == Aggregate(States(items), true).transfer
    ensures var all := Aggregate(States(items), true); PackState(items).downloadId == PackId(items, all.downloadId, all.progress)
  {
    AggregateMeaning(States(items));
    hide Aggregate, PackDownload, PackId, Weighted, TotalWeight;
  }

  /** A pack consists of the sources of its release, in order, each weighing its size,
      or one if that is unknown. */
  lemma {:induction false} ChosenAddsUp(release: string, a: seq<Source>, b: seq<Source>)
    ensures Chosen(release, a + b) == Chosen(release, a) + Chosen(release, b)
    ensures |a| == 1 ==>
              Chosen(release, a) == if a[0].releaseId == release then [Item(a[0].state, if a[0].size > 0 then a[0].size else 1)] else []
  {
    if |a| == 1 {
      assert a[..0] == [];
    }
    if b == [] {
      assert a + b == a;
    } else {
      assert (a + b)[..|a + b| - 1] == a + b[..|b| - 1];
      ChosenAddsUp(release, a, b[..|b| - 1]);
    }
  }

  /** The download a pack names is the last one among its furthest files that has
      one, or else its first one. */
  lemma {:induction false} PackIdMeaning(items: seq<Item>, first: string, furthest: real)
    ensures var id := PackId(items, first, furthest);
            && ((exists i :: 0 <= i < |items| && items[i].state.downloadId != "" && items[i].state.progress >= furthest) ==>
                  exists i :: 0 <= i < |items| && items[i].state.downloadId == id && id != "" && items[i].state.progress >= furthest
                              && forall j :: i < j < |items| ==> items[j].state.downloadId == "" || items[j].state.progress < furthest)
            && (id == "" <==> first == "" && forall i :: 0 <= i < |items| ==> items[i].state.downloadId == "")
  {
    if items != [] {
      var front, n := items[..|items| - 1], |items| - 1;
      PackIdMeaning(front, first, furthest);
      assert forall i :: 0 <= i < n ==> items[i] == front[i];
      var id, last := PackId(items, first, furthest), items[n].state;
      if last.downloadId != "" && last.progress >= furthest {
        assert items[n].state.downloadId == id;
      } else if i :| 0 <= i < n && front[i].state.downloadId != "" && front[i].state.progress >= furthest {
        var k :| 0 <= k < n && front[k].state.downloadId == PackId(front, first, furthest) && front[k].state.progress >= furthest
                 && forall j :: k < j < n ==> front[j].state.downloadId == "" || front[j].state.progress < furthest;
        assert items[k].state.downloadId == id;
        assert forall j :: k < j < |items| ==> items[j].state.downloadId == "" || items[j].state.progress < furthest;
      }
    }
  }
}

/** Merging a fresh download list into the shown one. A row is a record of
    optional fields; the fingerprint reads the shown ones, an absent field like an
    empty one. */
module Reconcile {
  import opened Wrappers

  type Fields = map<string, string>

  /** `parsed` is the nested record, which a merge replaces as a whole. */
  datatype Row = Row(id: string, fields: Fields, parsed: Option<Fields>)

  const SHOWN: seq<string> := [
    "releaseId", "titleId", "displayTitle", "releaseName", "category", "releaseSizeBytes", "trackerSeeders",
    "rating", "ratingVotes", "ratingProvider", "engineId", "fileIndex", "filePath", "mimeType", "sizeBytes",
    "state", "progress", "playbackMode", "downloadedBytes", "speedBytesPerSecond", "etaSeconds", "peers", "seeds",
    "leased", "error", "createdAt", "updatedAt", "streamUrl"]

  const SHOWN_PARSED: seq<string> := ["title", "seasonStart", "episodeStart", "resolution", "quality", "videoCodec", "audio"]

  function TextOf(fields: Fields, name: string): string { if name in fields then fields[name] else "" }

  function ParsedOf(row: Row): Fields { if row.parsed.Some? then row.parsed.value else map[] }

  function Texts(fields: Fields, names: seq<string>): (t: seq<string>)
    ensures |t| == |names| && forall i :: 0 <= i < |names| ==> t[i] == TextOf(fields, names[i])
  {
    if names == [] then [] else [TextOf(fields, names[0])] + Texts(fields, names[1..])
  }

  function Fingerprint(row: Row): (seq<string>, seq<string>) {
    (Texts(row.fields, SHOWN), Texts(ParsedOf(row), SHOWN_PARSED))
  }

  /** The newer row spread over the older one. */
  function Spread(prior: Row, next: Row): Row {
    Row(next.id, prior.fields + next.fields, if next.parsed.Some? then next.parsed else prior.parsed)
  }

  function Kept(prior: Row, next: Row): Row {
    if Fingerprint(prior) == Fingerprint(next) then prior else Spread(prior, next)
  }

  function Ids(rows: seq<Row>): set<string> {
    if rows == [] then {} else Ids(rows[..|rows| - 1]) + {rows[|rows| - 1].id}
  }

  /** The first row with each id, in order. */
  function Unique(rows: seq<Row>): seq<Row> {
    if rows == [] then []
    else
      var front, last := rows[..|rows| - 1], rows[|rows| - 1];
      Unique(front) + if last.id in Ids(front) then [] else [last]
  }

  function ById(rows: seq<Row>): (m: map<string, Row>)
    ensures m.Keys == Ids(rows)
  {
    if rows == [] then map[]
    else
      var front, last := rows[..|rows| - 1], rows[|rows| - 1];
      if last.id in Ids(front) then ById(front) else ById(front)[last.id := last]
  }

  function Without(rows: seq<Row>, ids: set<string>): seq<Row> {
    if rows == [] then []
    else Without(rows[..|rows| - 1], ids) + if rows[|rows| - 1].id in ids then [] else [rows[|rows| - 1]]
  }

  function Retained(current: seq<Row>, byId: map<string, Row>): seq<Row> {
    if current == [] then []
    else
      var last := current[|current| - 1];
      Retained(current[..|current| - 1], byId) + if last.id in byId then [Kept(last, byId[last.id])] else []
  }

  function Reconciled(current: seq<Row>, incoming: seq<Row>): seq<Row> {
    Without(Unique(incoming), Ids(current)) + Retained(current, ById(incoming))
  }

  method Index(incoming: seq<Row>) returns (unique: seq<Row>, byId: map<string, Row>)
    ensures unique == Unique(incoming) && byId == ById(incoming)
  {
    unique, byId := [], map[];
    for i := 0 to |incoming|
      invariant unique == Unique(incoming[..i]) && byId == ById(incoming[..i])
    {
      assert incoming[..i + 1][..i] == incoming[..i];
      var item := incoming[i];
      if item.id !in byId {
        byId := byId[item.id := item];
        unique := unique + [item];
      }
    }
    assert incoming[..|incoming|] == incoming;
  }

  method Added(unique: seq<Row>, currentIds: set<string>) returns (added: seq<Row>)
    ensures added == Without(unique, currentIds)
  {
    added := [];
    for i := 0 to |unique|
      invariant added == Without(unique[..i], currentIds)
    {
      assert unique[..i + 1][..i] == unique[..i];
      if unique[i].id !in currentIds { added := added + [unique[i]]; }
    }
    assert unique[..|unique|] == unique;
  }

  method Retain(current: seq<Row>, byId: map<string, Row>) returns (retained: seq<Row>)
    ensures retained == Retained(current, byId)
  {
    hide Fingerprint, Spread;
    retained := [];
    for i := 0 to |current|
      invariant retained == Retained(current[..i], byId)
    {
      assert current[..i + 1][..i] == current[..i];
      var prior := current[i];
      if prior.id in byId {
        var next := byId[prior.id];
        retained := retained + [if Fingerprint(prior) == Fingerprint(next) then prior else Spread(prior, next)];
      }
    }
    assert current[..|current|] == current;
  }

  method ReconcileDownloads(current: seq<Row>, incoming: seq<Row>) returns (rows: seq<Row>)
    ensures rows == Reconciled(current, incoming)
  {
    hide Unique, ById, Kept;
    var unique, byId := Index(incoming);
    if |current| == 0 {
      NothingShown(unique, byId);
      assert current == [];
      return unique;
    }
    var added := Added(unique, Ids(current));
    var retained := Retain(current, byId);
    return added + retained;
  }

  lemma NothingShown(rows: seq<Row>, byId: map<string, Row>)
    ensures Without(rows, Ids([])) + Retained([], byId) == rows
  {
    WithoutNothing(rows);
  }

  lemma {:induction false} WithoutNothing(rows: seq<Row>)
    ensures Without(rows, {}) == rows
  {
    if rows != [] {
      WithoutNothing(rows[..|rows| - 1]);
    }
  }

  // ---- The ids ----

  function IdList(rows: seq<Row>): (ids: seq<string>)
    ensures |ids| == |rows| && forall i :: 0 <= i < |rows| ==> ids[i] == rows[i].id
  {
    if rows == [] then [] else IdList(rows[..|rows| - 1]) + [rows[|rows| - 1].id]
  }

  predicate Distinct(rows: seq<Row>) {
    forall i, j :: 0 <= i < j < |rows| ==> rows[i].id != rows[j].id
  }

  /** The ids of a list that are not, or are, in a set, in the list's order. */
  function Only(ids: seq<string>, keep: set<string>): seq<string> {
    if ids == [] then []
    else Only(ids[..|ids| - 1], keep) + if ids[|ids| - 1] in keep then [ids[|ids| - 1]] else []
  }

  lemma {:induction false} IdsMeaning(rows: seq<Row>)
    ensures forall id :: id in Ids(rows) <==> exists i :: 0 <= i < |rows| && rows[i].id == id
  {
    if rows != [] {
      var front := rows[..|rows| - 1];
      IdsMeaning(front);
      forall id | id in Ids(rows) ensures exists i :: 0 <= i < |rows| && rows[i].id == id {
        if id in Ids(front) {
          var i :| 0 <= i < |front| && front[i].id == id;
          assert rows[i].id == id;
        }
      }
      forall i | 0 <= i < |rows| ensures rows[i].id in Ids(rows) {
        assert i < |front| ==> front[i] == rows[i];
      }
    }
  }

  lemma IdsSnoc(rows: seq<Row>, row: Row)
    ensures Ids(rows + [row]) == Ids(rows) + {row.id}
    ensures IdList(rows + [row]) == IdList(rows) + [row.id]
  {
    assert (rows + [row])[..|rows|] == rows;
  }

  lemma OnlySnoc(ids: seq<string>, id: string, keep: set<string>)
    ensures Only(ids + [id], keep) == Only(ids, keep) + if id in keep then [id] else []
  {
    assert (ids + [id])[..|ids|] == ids;
  }

  lemma DistinctSnoc(rows: seq<Row>, row: Row)
    ensures Distinct(rows + [row]) <==> Distinct(rows) && row.id !in Ids(rows)
  {
    var all := rows + [row];
    IdsMeaning(rows);
    if Distinct(all) {
      forall i, j | 0 <= i < j < |rows| ensures rows[i].id != rows[j].id {
        assert all[i].id != all[j].id;
      }
      forall i | 0 <= i < |rows| ensures rows[i].id != row.id {
        assert all[i].id != all[|rows|].id;
      }
    }
    hide Ids;
  }

  lemma ListSnoc<T>(s: seq<T>)
    requires s != []
    ensures s == s[..|s| - 1] + [s[|s| - 1]]
  {
  }

  lemma NoIds()
    ensures Ids([]) == {} && IdList([]) == [] && Distinct([]) && forall keep :: Only([], keep) == []
  {
  }

  lemma UniqueSnoc(front: seq<Row>, last: Row)
    ensures Unique(front + [last]) == if last.id in Ids(front) then Unique(front) else Unique(front) + [last]
    ensures ById(front + [last]) == if last.id in Ids(front) then ById(front) else ById(front)[last.id := last]
  {
    assert (front + [last])[..|front|] == front;
  }

  lemma NoneUnique()
    ensures Unique([]) == [] && ById([]) == map[]
  {
  }

  /** Every row in the list is the one its id stands for. */
  predicate Chosen(rows: seq<Row>, byId: map<string, Row>) {
    forall i :: 0 <= i < |rows| ==> rows[i].id in byId && rows[i] == byId[rows[i].id]
  }

  lemma ChosenNothing(byId: map<string, Row>)
    ensures Chosen([], byId)
  {
  }

  lemma ChosenSnoc(rows: seq<Row>, row: Row, byId: map<string, Row>)
    requires Chosen(rows, byId) && row.id !in byId
    ensures Chosen(rows + [row], byId[row.id := row])
  {
  }

  lemma {:induction false} UniqueKeepsIds(rows: seq<Row>)
    ensures Ids(Unique(rows)) == Ids(rows) && Distinct(Unique(rows))
    ensures Chosen(Unique(rows), ById(rows))
    ensures forall id :: id in ById(rows) ==> ById(rows)[id].id == id
  {
    hide *;
    if rows == [] {
      NoneUnique();
      NoIds();
      ChosenNothing(ById(rows));
    } else {
      var front, last := rows[..|rows| - 1], rows[|rows| - 1];
      ListSnoc(rows);
      UniqueKeepsIds(front);
      UniqueSnoc(front, last);
      IdsSnoc(front, last);
      if last.id !in Ids(front) {
        IdsSnoc(Unique(front), last);
        DistinctSnoc(Unique(front), last);
        ByIdKeys(front);
        ChosenSnoc(Unique(front), last, ById(front));
      } else {
        assert Ids(front) + {last.id} == Ids(front);
      }
    }
  }

  lemma WithoutSnoc(front: seq<Row>, last: Row, ids: set<string>)
    ensures Without(front + [last], ids) == if last.id in ids then Without(front, ids) else Without(front, ids) + [last]
    ensures Without([], ids) == []
  {
    assert (front + [last])[..|front|] == front;
  }

  lemma {:induction false} WithoutIds(rows: seq<Row>, ids: set<string>, keep: set<string>)
    requires Distinct(rows) && forall id :: id in keep <==> id in Ids(rows) + keep && id !in ids
    requires Ids(rows) - ids <= keep
    ensures Ids(Without(rows, ids)) == Ids(rows) - ids && Distinct(Without(rows, ids))
    ensures IdList(Without(rows, ids)) == Only(IdList(rows), keep)
    ensures forall row :: row in Without(rows, ids) ==> row in rows
  {
    hide *;
    if rows == [] {
      NoIds();
      WithoutSnoc([], Row("", map[], None), ids);
    } else {
      var front, last := rows[..|rows| - 1], rows[|rows| - 1];
      ListSnoc(rows);
      DistinctSnoc(front, last);
      IdsSnoc(front, last);
      OnlySnoc(IdList(front), last.id, keep);
      WithoutIds(front, ids, keep);
      WithoutSnoc(front, last, ids);
      IdsSnoc(Without(front, ids), last);
      DistinctSnoc(Without(front, ids), last);
      AppendNothing(Only(IdList(front), keep));
    }
  }

  lemma AppendNothing(s: seq<string>)
    ensures s + [] == s
  {
  }

  lemma RetainedSnoc(front: seq<Row>, last: Row, byId: map<string, Row>)
    ensures Retained(front + [last], byId)
         == if last.id in byId then Retained(front, byId) + [Kept(last, byId[last.id])] else Retained(front, byId)
    ensures Retained([], byId) == []
  {
    assert (front + [last])[..|front|] == front;
    hide Kept;
  }

  lemma KeptId(prior: Row, next: Row)
    requires prior.id == next.id
    ensures Kept(prior, next).id == prior.id
  {
    hide Fingerprint;
  }

  lemma {:induction false} RetainedIds(current: seq<Row>, byId: map<string, Row>)
    requires Distinct(current) && forall id :: id in byId ==> byId[id].id == id
    ensures Ids(Retained(current, byId)) == Ids(current) * byId.Keys && Distinct(Retained(current, byId))
    ensures IdList(Retained(current, byId)) == Only(IdList(current), byId.Keys)
  {
    hide *;
    if current == [] {
      NoIds();
      RetainedSnoc([], Row("", map[], None), byId);
    } else {
      var front, last := current[..|current| - 1], current[|current| - 1];
      ListSnoc(current);
      DistinctSnoc(front, last);
      IdsSnoc(front, last);
      OnlySnoc(IdList(front), last.id, byId.Keys);
      RetainedIds(front, byId);
      RetainedSnoc(front, last, byId);
      if last.id in byId {
        var kept := Kept(last, byId[last.id]);
        KeptId(last, byId[last.id]);
        IdsSnoc(Retained(front, byId), kept);
        DistinctSnoc(Retained(front, byId), kept);
      } else {
        AppendNothing(Only(IdList(front), byId.Keys));
      }
    }
  }

  lemma {:induction false} IdsConcat(a: seq<Row>, b: seq<Row>)
    ensures Ids(a + b) == Ids(a) + Ids(b)
    ensures IdList(a + b) == IdList(a) + IdList(b)
    ensures Distinct(a) && Distinct(b) && Ids(a) !! Ids(b) ==> Distinct(a + b)
  {
    if b == [] {
      assert a + b == a;
    } else {
      var front, last := b[..|b| - 1], b[|b| - 1];
      ListSnoc(b);
      assert a + b == (a + front) + [last];
      hide *;
      IdsConcat(a, front);
      IdsSnoc(front, last);
      IdsSnoc(a + front, last);
      DistinctSnoc(a + front, last);
      DistinctSnoc(front, last);
      assert IdList(a) + (IdList(front) + [last.id]) == (IdList(a) + IdList(front)) + [last.id];
    }
  }

  /** From a list with distinct ids: the result has exactly the incoming ids, once
      each, the new ones first in incoming order, then the kept ones in their old
      order. */
  lemma ReconciledIds(current: seq<Row>, incoming: seq<Row>)
    requires Distinct(current)
    ensures var rows := Reconciled(current, incoming);
            && Distinct(rows) && Ids(rows) == Ids(incoming)
            && IdList(rows) == Only(IdList(Unique(incoming)), Ids(incoming) - Ids(current))
                               + Only(IdList(current), Ids(incoming))
  {
    hide *;
    UniqueKeepsIds(incoming);
    WithoutIds(Unique(incoming), Ids(current), Ids(incoming) - Ids(current));
    RetainedIds(current, ById(incoming));
    ReconciledIs(current, incoming);
    IdsConcat(Without(Unique(incoming), Ids(current)), Retained(current, ById(incoming)));
  }

  lemma ReconciledIs(current: seq<Row>, incoming: seq<Row>)
    ensures Reconciled(current, incoming) == Without(Unique(incoming), Ids(current)) + Retained(current, ById(incoming))
  {
  }

  // ---- The rows ----

  /** A shown field the newer row no longer has, but the older one still fills. */
  predicate Lingers(prior: Row, next: Row) {
    || (exists i :: 0 <= i < |SHOWN| && SHOWN[i] !in next.fields && TextOf(prior.fields, SHOWN[i]) != "")
    || (next.parsed.None? && exists i :: 0 <= i < |SHOWN_PARSED| && TextOf(ParsedOf(prior), SHOWN_PARSED[i]) != "")
  }

  lemma {:induction false} TextsEqual(a: Fields, b: Fields, names: seq<string>)
    ensures Texts(a, names) == Texts(b, names) <==> forall i :: 0 <= i < |names| ==> TextOf(a, names[i]) == TextOf(b, names[i])
  {
    if forall i :: 0 <= i < |names| ==> TextOf(a, names[i]) == TextOf(b, names[i]) {
      assert forall i :: 0 <= i < |names| ==> Texts(a, names)[i] == Texts(b, names)[i];
    } else {
      var i :| 0 <= i < |names| && TextOf(a, names[i]) != TextOf(b, names[i]);
      assert Texts(a, names)[i] != Texts(b, names)[i];
    }
  }

  /** The kept row shows what the newer row says exactly when no field lingers. */
  lemma KeptShowsNext(prior: Row, next: Row)
    ensures Fingerprint(Kept(prior, next)) == Fingerprint(next) <==> !Lingers(prior, next)
  {
    TextsEqual(prior.fields, next.fields, SHOWN);
    TextsEqual(ParsedOf(prior), ParsedOf(next), SHOWN_PARSED);
    var spread := Spread(prior, next);
    TextsEqual(spread.fields, next.fields, SHOWN);
    TextsEqual(ParsedOf(spread), ParsedOf(next), SHOWN_PARSED);
    hide Texts;
    forall i | 0 <= i < |SHOWN| ensures TextOf(spread.fields, SHOWN[i]) == TextOf(next.fields, SHOWN[i])
                                   <==> !(SHOWN[i] !in next.fields && TextOf(prior.fields, SHOWN[i]) != "") {
    }
  }

  lemma LingersAt(prior: Row, next: Row, i: nat)
    requires i < |SHOWN| && SHOWN[i] !in next.fields && TextOf(prior.fields, SHOWN[i]) != ""
    ensures Lingers(prior, next)
  {
    hide TextOf, ParsedOf;
  }

  lemma KeptAreFields(prior: Row, next: Row)
    requires Fingerprint(Kept(prior, next)) != Fingerprint(next)
    ensures Kept(prior, next).fields == prior.fields + next.fields
  {
    hide Fingerprint;
  }

  lemma ShownAt(name: string) returns (i: nat)
    requires name in SHOWN
    ensures i < |SHOWN| && SHOWN[i] == name
  {
    i :| i < |SHOWN| && SHOWN[i] == name;
  }

  lemma ErrorIsShown()
    ensures "error" in SHOWN
  {
    assert SHOWN[24] == "error";
  }

  /** A shown field that the newer row leaves out goes on being shown, whatever
      the rows are otherwise. */
  lemma LeftOutFieldStays(id: string, fields: Fields, parsed: Option<Fields>, name: string, text: string)
    requires name in SHOWN && name !in fields && text != ""
    ensures var prior, next := Row(id, fields[name := text], parsed), Row(id, fields, parsed);
            Kept(prior, next).fields == fields[name := text] && Fingerprint(Kept(prior, next)) != Fingerprint(next)
  {
    hide Fingerprint, Kept, Lingers, SHOWN, SHOWN_PARSED;
    var prior, next := Row(id, fields[name := text], parsed), Row(id, fields, parsed);
    var i := ShownAt(name);
    LingersAt(prior, next, i);
    KeptShowsNext(prior, next);
    KeptAreFields(prior, next);
    assert prior.fields + next.fields == prior.fields;
  }

  /** The fields a download must have besides its id; `error` is not one of them. */
  const REQUIRED: set<string> := {
    "releaseId", "engineId", "fileIndex", "filePath", "mimeType", "sizeBytes", "state", "progress", "playbackMode",
    "downloadedBytes", "speedBytesPerSecond", "etaSeconds", "peers", "seeds", "leased"}

  lemma ErrorIsOptional()
    ensures "error" !in REQUIRED
  {
    assert "error"[0] == 'e' && "error"[1] == 'r';
    assert forall name :: name in REQUIRED ==> |name| > 1 && (name[0] != 'e' || name[1] != 'r');
  }

  /** So for downloads as the clients type them: the older one reports an error, the
      newer one has all required fields and no error, and the error stays. */
  lemma AClearedFieldStays() returns (prior: Row, next: Row)
    ensures prior.id == next.id && next.fields.Keys == REQUIRED && prior.fields.Keys == REQUIRED + {"error"}
    ensures TextOf(Kept(prior, next).fields, "error") == "disk full"
    ensures Fingerprint(Kept(prior, next)) != Fingerprint(next)
  {
    hide Fingerprint, Kept, SHOWN, SHOWN_PARSED, REQUIRED;
    var fields := map name | name in REQUIRED :: "1";
    prior, next := Row("1", fields["error" := "disk full"], None), Row("1", fields, None);
    ErrorIsOptional();
    ErrorIsShown();
    LeftOutFieldStays("1", fields, None, "error", "disk full");
  }

  lemma KeptAgain(prior: Row, next: Row)
    requires prior.id == next.id
    ensures Kept(next, next) == next
    ensures Kept(Kept(prior, next), next) == Kept(prior, next)
  {
    hide Fingerprint;
    assert (prior.fields + next.fields) + next.fields == prior.fields + next.fields;
  }

  /** Every row is what keeping it against its incoming row gives. */
  predicate Settled(rows: seq<Row>, byId: map<string, Row>) {
    forall i :: 0 <= i < |rows| ==> rows[i].id in byId && Kept(rows[i], byId[rows[i].id]) == rows[i]
  }

  lemma SettledSnoc(rows: seq<Row>, row: Row, byId: map<string, Row>)
    ensures Settled(rows + [row], byId) <==> Settled(rows, byId) && row.id in byId && Kept(row, byId[row.id]) == row
  {
    var all := rows + [row];
    hide Kept;
    if Settled(all, byId) {
      forall i | 0 <= i < |rows| ensures rows[i].id in byId && Kept(rows[i], byId[rows[i].id]) == rows[i] {
        assert all[i] == rows[i];
      }
      assert all[|rows|] == row;
    }
  }

  lemma {:induction false} RetainedIsSettled(current: seq<Row>, byId: map<string, Row>)
    requires forall id :: id in byId ==> byId[id].id == id
    ensures Settled(Retained(current, byId), byId)
  {
    hide *;
    if current == [] {
      RetainedSnoc([], Row("", map[], None), byId);
      NothingIsSettled(byId);
    } else {
      var front, last := current[..|current| - 1], current[|current| - 1];
      ListSnoc(current);
      RetainedIsSettled(front, byId);
      RetainedSnoc(front, last, byId);
      if last.id in byId {
        KeptId(last, byId[last.id]);
        KeptAgain(last, byId[last.id]);
        SettledSnoc(Retained(front, byId), Kept(last, byId[last.id]), byId);
      }
    }
  }

  lemma NothingIsSettled(byId: map<string, Row>)
    ensures Settled([], byId)
  {
  }

  lemma {:induction false} RetainedOfSettled(rows: seq<Row>, byId: map<string, Row>)
    requires Settled(rows, byId)
    ensures Retained(rows, byId) == rows
  {
    hide *;
    if rows == [] {
      RetainedSnoc([], Row("", map[], None), byId);
    } else {
      var front, last := rows[..|rows| - 1], rows[|rows| - 1];
      ListSnoc(rows);
      SettledSnoc(front, last, byId);
      RetainedOfSettled(front, byId);
      RetainedSnoc(front, last, byId);
    }
  }

  lemma {:induction false} WithoutAll(rows: seq<Row>, ids: set<string>)
    requires Ids(rows) <= ids
    ensures Without(rows, ids) == []
  {
    if rows != [] {
      WithoutAll(rows[..|rows| - 1], ids);
    }
  }

  lemma NewRowsAreSettled(rows: seq<Row>, byId: map<string, Row>)
    requires Chosen(rows, byId)
    ensures Settled(rows, byId)
  {
    forall i | 0 <= i < |rows| ensures rows[i].id in byId && Kept(rows[i], byId[rows[i].id]) == rows[i] {
      KeptAgain(rows[i], rows[i]);
    }
    hide Kept;
  }

  lemma {:induction false} WithoutKeepsChosen(rows: seq<Row>, ids: set<string>, byId: map<string, Row>)
    requires Chosen(rows, byId)
    ensures Chosen(Without(rows, ids), byId)
  {
    if rows != [] {
      WithoutKeepsChosen(rows[..|rows| - 1], ids, byId);
    }
  }

  lemma SettledConcat(a: seq<Row>, b: seq<Row>, byId: map<string, Row>)
    requires Settled(a, byId) && Settled(b, byId)
    ensures Settled(a + b, byId)
  {
    hide Kept;
  }

  /** Reconciling again with the same list changes nothing. */
  lemma ReconcileIsIdempotent(current: seq<Row>, incoming: seq<Row>)
    requires Distinct(current)
    ensures Reconciled(Reconciled(current, incoming), incoming) == Reconciled(current, incoming)
  {
    hide *;
    var byId, unique := ById(incoming), Unique(incoming);
    var rows := Reconciled(current, incoming);
    UniqueKeepsIds(incoming);
    WithoutKeepsChosen(unique, Ids(current), byId);
    NewRowsAreSettled(Without(unique, Ids(current)), byId);
    RetainedIsSettled(current, byId);
    SettledConcat(Without(unique, Ids(current)), Retained(current, byId), byId);
    ReconciledIs(current, incoming);
    ReconciledIds(current, incoming);
    ReconciledIs(rows, incoming);
    WithoutAll(unique, Ids(rows));
    RetainedOfSettled(rows, byId);
    assert [] + rows == rows;
  }

  /** A row that was shown before is kept against its incoming row. */
  predicate FromCurrent(rows: seq<Row>, current: map<string, Row>, byId: map<string, Row>) {
    forall i :: 0 <= i < |rows| ==>
      rows[i].id in current && rows[i].id in byId && rows[i] == Kept(current[rows[i].id], byId[rows[i].id])
  }

  lemma FromCurrentSnoc(rows: seq<Row>, row: Row, prior: Row, current: map<string, Row>, byId: map<string, Row>)
    requires FromCurrent(rows, current, byId) && prior.id !in current
    requires row.id == prior.id && row.id in byId && row == Kept(prior, byId[row.id])
    ensures FromCurrent(rows + [row], current[prior.id := prior], byId)
  {
    hide Kept;
  }

  lemma FromCurrentGrows(rows: seq<Row>, prior: Row, current: map<string, Row>, byId: map<string, Row>)
    requires FromCurrent(rows, current, byId) && prior.id !in current
    ensures FromCurrent(rows, current[prior.id := prior], byId)
  {
    hide Kept;
  }

  lemma {:induction false} RetainedRows(current: seq<Row>, byId: map<string, Row>)
    requires Distinct(current) && forall id :: id in byId ==> byId[id].id == id
    ensures FromCurrent(Retained(current, byId), ById(current), byId)
  {
    hide *;
    if current == [] {
      RetainedSnoc([], Row("", map[], None), byId);
      NothingFromCurrent(ById(current), byId);
    } else {
      var front, last := current[..|current| - 1], current[|current| - 1];
      ListSnoc(current);
      DistinctSnoc(front, last);
      UniqueSnoc(front, last);
      RetainedRows(front, byId);
      RetainedSnoc(front, last, byId);
      ByIdKeys(front);
      if last.id in byId {
        KeptId(last, byId[last.id]);
        FromCurrentSnoc(Retained(front, byId), Kept(last, byId[last.id]), last, ById(front), byId);
      } else {
        FromCurrentGrows(Retained(front, byId), last, ById(front), byId);
      }
    }
  }

  lemma NothingFromCurrent(current: map<string, Row>, byId: map<string, Row>)
    ensures FromCurrent([], current, byId)
  {
  }

  lemma ByIdKeys(rows: seq<Row>)
    ensures forall id :: id in ById(rows) <==> id in Ids(rows)
  {
  }

  /** The rows themselves: a new one is the incoming row; a kept one is the old row
      or its spread, and says what the incoming row says unless a field lingers. */
  lemma ReconciledRows(current: seq<Row>, incoming: seq<Row>, i: nat)
    requires Distinct(current) && i < |Reconciled(current, incoming)|
    ensures var row, shown, byId := Reconciled(current, incoming)[i], ById(current), ById(incoming);
            && row.id in byId
            && row == (if row.id in shown then Kept(shown[row.id], byId[row.id]) else byId[row.id])
            && (Fingerprint(row) == Fingerprint(byId[row.id])
                <==> !(row.id in shown && Lingers(shown[row.id], byId[row.id])))
  {
    hide *;
    var byId, unique, ids := ById(incoming), Unique(incoming), Ids(current);
    UniqueKeepsIds(incoming);
    WithoutKeepsChosen(unique, ids, byId);
    WithoutIds(unique, ids, Ids(unique) - ids);
    RetainedRows(current, byId);
    ReconciledIs(current, incoming);
    ByIdKeys(current);
    var row, added := Reconciled(current, incoming)[i], Without(unique, ids);
    if i < |added| {
      ChosenAt(added, byId, i);
      IdAt(added, i);
    } else {
      FromCurrentAt(Retained(current, byId), ById(current), byId, i - |added|);
      KeptShowsNext(ById(current)[row.id], byId[row.id]);
    }
  }

  predicate SameField(a: Row, b: Row, name: string) { TextOf(a.fields, name) == TextOf(b.fields, name) }

  predicate SameParsed(a: Row, b: Row, name: string) { TextOf(ParsedOf(a), name) == TextOf(ParsedOf(b), name) }

  lemma FieldsAgree(a: Row, b: Row)
    ensures Fingerprint(a) == Fingerprint(b)
       <==> SameFrom(a, b, 0) && AllParsedSame(a, b, SHOWN_PARSED)
  {
    TextsEqual(a.fields, b.fields, SHOWN);
    TextsEqual(ParsedOf(a), ParsedOf(b), SHOWN_PARSED);
    hide Texts, TextOf, ParsedOf, SHOWN, SHOWN_PARSED;
  }

  /** All shown fields from the k-th on. */
  predicate SameFrom(a: Row, b: Row, k: nat) { forall i :: k <= i < |SHOWN| ==> SameField(a, b, SHOWN[i]) }

  predicate AllParsedSame(a: Row, b: Row, names: seq<string>) { forall i :: 0 <= i < |names| ==> SameParsed(a, b, names[i]) }

  lemma Four(a: Row, b: Row, k: nat)
    requires k + 4 <= |SHOWN|
    ensures SameFrom(a, b, k)
       <==> && SameField(a, b, SHOWN[k]) && SameField(a, b, SHOWN[k + 1])
            && SameField(a, b, SHOWN[k + 2]) && SameField(a, b, SHOWN[k + 3]) && SameFrom(a, b, k + 4)
  {
    hide SameField, SHOWN;
    if SameFrom(a, b, k + 4) && SameField(a, b, SHOWN[k]) && SameField(a, b, SHOWN[k + 1])
       && SameField(a, b, SHOWN[k + 2]) && SameField(a, b, SHOWN[k + 3]) {
      forall i | k <= i < |SHOWN| ensures SameField(a, b, SHOWN[i]) {
        assert i == k || i == k + 1 || i == k + 2 || i == k + 3 || i >= k + 4;
      }
    }
  }

  lemma Seven(a: Row, b: Row)
    ensures AllParsedSame(a, b, SHOWN_PARSED)
       <==> (&& SameParsed(a, b, "title") && SameParsed(a, b, "seasonStart") && SameParsed(a, b, "episodeStart")
            && SameParsed(a, b, "resolution") && SameParsed(a, b, "quality") && SameParsed(a, b, "videoCodec")
            && SameParsed(a, b, "audio"))
  {
    hide SameParsed;
    assert |SHOWN_PARSED| == 7;
    if SameParsed(a, b, SHOWN_PARSED[0]) && SameParsed(a, b, SHOWN_PARSED[1]) && SameParsed(a, b, SHOWN_PARSED[2])
       && SameParsed(a, b, SHOWN_PARSED[3]) && SameParsed(a, b, SHOWN_PARSED[4]) && SameParsed(a, b, SHOWN_PARSED[5])
       && SameParsed(a, b, SHOWN_PARSED[6]) {
      forall i | 0 <= i < 7 ensures SameParsed(a, b, SHOWN_PARSED[i]) {
        assert i == 0 || i == 1 || i == 2 || i == 3 || i == 4 || i == 5 || i == 6;
      }
    }
  }

  lemma Names0()
    ensures |SHOWN| == 28
    ensures SHOWN[0] == "releaseId" && SHOWN[1] == "titleId" && SHOWN[2] == "displayTitle" && SHOWN[3] == "releaseName"
  {
  }

  lemma Names4()
    ensures |SHOWN| == 28
    ensures SHOWN[4] == "category" && SHOWN[5] == "releaseSizeBytes" && SHOWN[6] == "trackerSeeders" && SHOWN[7] == "rating"
  {
  }

  lemma Names8()
    ensures |SHOWN| == 28
    ensures SHOWN[8] == "ratingVotes" && SHOWN[9] == "ratingProvider" && SHOWN[10] == "engineId" && SHOWN[11] == "fileIndex"
  {
  }

  lemma Names12()
    ensures |SHOWN| == 28
    ensures SHOWN[12] == "filePath" && SHOWN[13] == "mimeType" && SHOWN[14] == "sizeBytes" && SHOWN[15] == "state"
  {
  }

  lemma Names16()
    ensures |SHOWN| == 28
    ensures SHOWN[16] == "progress" && SHOWN[17] == "playbackMode" && SHOWN[18] == "downloadedBytes" && SHOWN[19] == "speedBytesPerSecond"
  {
  }

  lemma Names20()
    ensures |SHOWN| == 28
    ensures SHOWN[20] == "etaSeconds" && SHOWN[21] == "peers" && SHOWN[22] == "seeds" && SHOWN[23] == "leased"
  {
  }

  lemma Names24()
    ensures |SHOWN| == 28
    ensures SHOWN[24] == "error" && SHOWN[25] == "createdAt" && SHOWN[26] == "updatedAt" && SHOWN[27] == "streamUrl"
  {
  }

  lemma NoneLeft(a: Row, b: Row)
    ensures SameFrom(a, b, |SHOWN|)
  {
    hide SHOWN;
  }

  /** What the clients show of a download: two rows look alike exactly when they agree
      in each of these fields. */
  lemma LooksAlike(a: Row, b: Row)
    ensures Fingerprint(a) == Fingerprint(b)
       <==> (&& SameField(a, b, "releaseId") && SameField(a, b, "titleId") && SameField(a, b, "displayTitle")
            && SameField(a, b, "releaseName") && SameField(a, b, "category") && SameField(a, b, "releaseSizeBytes")
            && SameField(a, b, "trackerSeeders") && SameField(a, b, "rating") && SameField(a, b, "ratingVotes")
            && SameField(a, b, "ratingProvider") && SameField(a, b, "engineId") && SameField(a, b, "fileIndex")
            && SameField(a, b, "filePath") && SameField(a, b, "mimeType") && SameField(a, b, "sizeBytes")
            && SameField(a, b, "state") && SameField(a, b, "progress") && SameField(a, b, "playbackMode")
            && SameField(a, b, "downloadedBytes") && SameField(a, b, "speedBytesPerSecond")
            && SameField(a, b, "etaSeconds") && SameField(a, b, "peers") && SameField(a, b, "seeds")
            && SameField(a, b, "leased") && SameField(a, b, "error") && SameField(a, b, "createdAt")
            && SameField(a, b, "updatedAt") && SameField(a, b, "streamUrl")
            && SameParsed(a, b, "title") && SameParsed(a, b, "seasonStart") && SameParsed(a, b, "episodeStart")
            && SameParsed(a, b, "resolution") && SameParsed(a, b, "quality") && SameParsed(a, b, "videoCodec")
            && SameParsed(a, b, "audio"))
  {
    hide *;
    FieldsAgree(a, b);
    Names0();
    Four(a, b, 0);
    Names4();
    Four(a, b, 4);
    Names8();
    Four(a, b, 8);
    Names12();
    Four(a, b, 12);
    Names16();
    Four(a, b, 16);
    Names20();
    Four(a, b, 20);
    Names24();
    Four(a, b, 24);
    NoneLeft(a, b);
    Seven(a, b);
  }

  /** A row as the server sends it: every shown field, and the parsed release. */
  predicate Complete(row: Row) {
    row.parsed.Some? && forall i :: 0 <= i < |SHOWN| ==> SHOWN[i] in row.fields
  }

  lemma NothingLingers(prior: Row, next: Row)
    requires Complete(next)
    ensures !Lingers(prior, next)
  {
    hide SHOWN, SHOWN_PARSED, TextOf, ParsedOf;
  }

  lemma {:induction false} ByIdMembers(rows: seq<Row>)
    ensures forall id :: id in ById(rows) ==> ById(rows)[id] in rows
  {
    if rows != [] {
      var front, last := rows[..|rows| - 1], rows[|rows| - 1];
      ByIdMembers(front);
      ListSnoc(rows);
      UniqueSnoc(front, last);
      hide ById, Unique;
      assert forall row :: row in front ==> row in rows;
    }
  }

  /** When every incoming row is complete, every row shows what the incoming one
      with its id shows. */
  lemma CompleteRowsAreShown(current: seq<Row>, incoming: seq<Row>, i: nat)
    requires Distinct(current) && (forall row :: row in incoming ==> Complete(row))
    requires i < |Reconciled(current, incoming)|
    ensures var row := Reconciled(current, incoming)[i];
            row.id in ById(incoming) && Fingerprint(row) == Fingerprint(ById(incoming)[row.id])
  {
    hide *;
    var row := Reconciled(current, incoming)[i];
    ReconciledRows(current, incoming, i);
    ByIdMembers(incoming);
    if row.id in ById(current) {
      NothingLingers(ById(current)[row.id], ById(incoming)[row.id]);
    }
  }

  lemma ChosenAt(rows: seq<Row>, byId: map<string, Row>, i: nat)
    requires Chosen(rows, byId) && i < |rows|
    ensures rows[i].id in byId && rows[i] == byId[rows[i].id]
  {
  }

  lemma IdAt(rows: seq<Row>, i: nat)
    requires i < |rows|
    ensures rows[i].id in Ids(rows)
  {
    IdsMeaning(rows);
  }

  lemma FromCurrentAt(rows: seq<Row>, current: map<string, Row>, byId: map<string, Row>, i: nat)
    requires FromCurrent(rows, current, byId) && i < |rows|
    ensures rows[i].id in current && rows[i].id in byId && rows[i] == Kept(current[rows[i].id], byId[rows[i].id])
  {
    hide Kept;
  }
}

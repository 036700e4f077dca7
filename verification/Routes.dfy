/** The client's URLs: parsing a path and query into a route and printing a route
    back. */
module Routes {
  import opened Percent
  import opened Text
  import opened Wrappers

  datatype View =
    | Home | Search | Library | Continue | Favorites | Seen | Downloads | LibraryCategories
    | Tracker | Browse | Categories | Jobs | Events | Settings | Title | Watch

  datatype Route = Route(view: View, query: string, id: string, source: Option<nat>, t: Option<nat>)

  /** What the platform brings: how a number is printed and which whole number, if
      any, a text denotes; and the text a malformed query value is repaired to. */
  datatype Platform = Platform(show: nat -> string, read: string -> Option<nat>, repair: string -> string)

  /** A text read as a number reads the same after printing; numbers print as
      ASCII; repairing yields UTF-8 and leaves UTF-8 alone. */
  ghost predicate Regular(p: Platform) {
    && (forall text :: p.read(text).Some? ==> p.read(p.show(p.read(text).value)) == p.read(text))
    && (forall n :: Ascii(p.show(n)))
    && (forall text :: Utf8(p.repair(text)) && (Utf8(text) ==> p.repair(text) == text))
  }

  function ViewPath(v: View): Option<string> {
    match v
    case Search => Some("/search")
    case Library => Some("/library/dashboard")
    case Continue => Some("/library/continue")
    case Favorites => Some("/library/favorites")
    case Seen => Some("/library/watched")
    case Downloads => Some("/library/downloads")
    case LibraryCategories => Some("/library/categories")
    case Tracker => Some("/tracker/dashboard")
    case Browse => Some("/tracker/browse")
    case Categories => Some("/tracker/categories")
    case Jobs => Some("/jobs")
    case Events => Some("/events")
    case Settings => Some("/settings")
    case _ => None
  }

  function PathView(path: string): Option<View> {
    if path == "/" then Some(Home)
    else if path == "/search" then Some(Search)
    else if path == "/library/dashboard" then Some(Library)
    else if path == "/library/continue" then Some(Continue)
    else if path == "/library/favorites" then Some(Favorites)
    else if path == "/library/watched" then Some(Seen)
    else if path == "/library/downloads" then Some(Downloads)
    else if path == "/library/categories" then Some(LibraryCategories)
    else if path == "/tracker/dashboard" then Some(Tracker)
    else if path == "/tracker/browse" then Some(Browse)
    else if path == "/tracker/categories" then Some(Categories)
    else if path == "/jobs" then Some(Jobs)
    else if path == "/events" then Some(Events)
    else if path == "/settings" then Some(Settings)
    else None
  }

  const HOME: Route := Route(Home, "", "", None, None)

  // ---- The query ----

  datatype Pair = Pair(name: string, value: string)

  function PairOf(p: Platform, piece: string): Pair {
    var i := IndexOf(piece, '=');
    Pair(p.repair(FormDecode(piece[..i])), p.repair(FormDecode(if i < |piece| then piece[i + 1..] else "")))
  }

  /** The value of the first pair with the name. */
  function Lookup(p: Platform, pieces: seq<string>, name: string): Option<string> {
    if pieces == [] then None
    else if pieces[0] != "" && PairOf(p, pieces[0]).name == name then Some(PairOf(p, pieces[0]).value)
    else Lookup(p, pieces[1..], name)
  }

  function Pieces(search: string): seq<string> {
    SplitOn(if search != "" && search[0] == '?' then search[1..] else search, '&')
  }

  function Get(p: Platform, search: string, name: string): Option<string> { Lookup(p, Pieces(search), name) }

  function Number(p: Platform, search: string, name: string): Option<nat> {
    var text := Get(p, search, name);
    if text.None? then None else p.read(text.value)
  }

  // ---- Parsing and printing ----

  function Trim(path: string): string {
    if |path| > 1 && path[|path| - 1] == '/' then path[..|path| - 1] else path
  }

  /** The view and the encoded id of a path below one of the three stems. */
  function Stem(path: string): Option<(View, string)> {
    if "/title/" <= path then Some((Title, path[7..]))
    else if "/watch/" <= path then Some((Watch, path[7..]))
    else if "/jobs/" <= path then Some((Jobs, path[6..]))
    else None
  }

  function ParsePath(p: Platform, pathname: string, search: string): Route {
    var path := Trim(pathname);
    var view := PathView(path);
    if view.Some? then
      var q := if view.value == Search then Get(p, search, "q") else None;
      HOME.(view := view.value, query := if q.Some? then q.value else "")
    else if Stem(path).None? then HOME
    else
      var (stem, text) := Stem(path).value;
      var id := Decode(text);
      if id.None? || id.value == "" || '/' in id.value then HOME
      else if stem != Watch then HOME.(view := stem, id := id.value)
      else Route(Watch, "", id.value, Number(p, search, "source"), Number(p, search, "t"))
  }

  function Parameter(p: Platform, name: string, n: Option<nat>): seq<string>
    requires forall k :: Bytes(p.show(k))
  {
    if n.None? then [] else [name + "=" + Encode(true, p.show(n.value))]
  }

  function JoinPieces(pieces: seq<string>): string {
    if pieces == [] then "" else if |pieces| == 1 then pieces[0] else pieces[0] + "&" + JoinPieces(pieces[1..])
  }

  function WatchQuery(p: Platform, r: Route): string
    requires forall k :: Bytes(p.show(k))
  {
    JoinPieces(Parameter(p, "source", r.source) + Parameter(p, "t", r.t))
  }

  /** The path and the query of a route's URL, the query with its `?`. */
  function BuildPath(p: Platform, r: Route): (string, string)
    requires Bytes(r.id) && Bytes(r.query) && forall k :: Bytes(p.show(k))
  {
    if r.view == Search && r.query != "" then ("/search", "?q=" + Encode(false, r.query))
    else if r.view == Title && r.id != "" then ("/title/" + Encode(false, r.id), "")
    else if r.view == Watch && r.id != "" then
      ("/watch/" + Encode(false, r.id), if WatchQuery(p, r) != "" then "?" + WatchQuery(p, r) else "")
    else if r.view == Jobs && r.id != "" then ("/jobs/" + Encode(false, r.id), "")
    else (if ViewPath(r.view).Some? then ViewPath(r.view).value else "/", "")
  }

  /** The routes parsing produces. */
  ghost predicate Canonical(p: Platform, r: Route) {
    && Utf8(r.id) && '/' !in r.id && Utf8(r.query)
    && (r.query != "" ==> r.view == Search)
    && (r.view in {Title, Watch} ==> r.id != "")
    && (r.id != "" ==> r.view in {Title, Watch, Jobs})
    && (r.source.Some? || r.t.Some? ==> r.view == Watch)
    && (r.source.Some? ==> p.read(p.show(r.source.value)) == r.source)
    && (r.t.Some? ==> p.read(p.show(r.t.value)) == r.t)
  }

  // ---- The table ----

  lemma Differ(a: string, b: string, i: nat)
    requires i < |a| && i < |b| && a[i] != b[i]
    ensures a != b
  {
  }

  /** No static path is another one, and none is below a stem. */
  lemma ViewPathIsFound(v: View)
    requires ViewPath(v).Some?
    ensures var path := ViewPath(v).value;
            Trim(path) == path && PathView(path) == Some(v)
  {
    var path := ViewPath(v).value;
    assert path[|path| - 1] != '/';
    match v
    case Favorites =>
      Differ(path, "/library/dashboard", 9);
    case Downloads =>
      Differ(path, "/library/dashboard", 10);
      Differ(path, "/library/favorites", 9);
    case Tracker =>
      Differ(path, "/library/dashboard", 1);
      Differ(path, "/library/favorites", 1);
      Differ(path, "/library/downloads", 1);
    case Categories =>
      Differ(path, "/library/categories", 1);
    case _ =>
  }

  lemma BelowStem(stem: string, text: string)
    requires stem in {"/title/", "/watch/", "/jobs/"} && text != "" && text[|text| - 1] != '/'
    ensures var path := stem + text;
            Trim(path) == path && PathView(path).None? && Stem(path) == Some((
              if stem == "/title/" then Title else if stem == "/watch/" then Watch else Jobs, text))
  {
    var path := stem + text;
    assert path[|path| - 1] == text[|text| - 1];
    assert path[..|stem|] == stem && path[|stem|..] == text;
    assert path[1] == stem[1] && path[2] == stem[2] && path[5] == stem[5];
    NotStatic(path, stem);
    if stem == "/watch/" {
      assert !("/title/" <= path) by { assert path[1] != 't'; }
    } else if stem == "/jobs/" {
      assert !("/title/" <= path) by { assert path[1] != 't'; }
      assert !("/watch/" <= path) by { assert path[1] != 'w'; }
    }
  }

  lemma NotStatic(path: string, stem: string)
    requires stem in {"/title/", "/watch/", "/jobs/"} && stem < path
    ensures PathView(path).None?
  {
    assert path[1] == stem[1] && path[2] == stem[2];
    assert |path| > 6;
    forall v | ViewPath(v).Some? ensures path != ViewPath(v).value {
    }
  }

  lemma EncodedId(id: string)
    requires Utf8(id) && id != ""
    ensures Bytes(id) && Encode(false, id) != "" && Encode(false, id)[|Encode(false, id)| - 1] != '/'
    ensures Decode(Encode(false, id)) == Some(id)
  {
    Utf8IsBytes(id);
    EncodedIsOpaque(false, id);
    var s := Encode(false, id);
    assert s[|s| - 1] in s;
    DecodeOfEncode(id);
    hide Encode, DecodeBytes, Utf8;
  }

  // ---- Reading printed queries ----

  predicate PlainName(name: string) {
    name != "" && Ascii(name) && forall c :: c in name ==> c !in {'%', '+', '&', '=', '?'}
  }

  function Piece(form: bool, name: string, text: string): string
    requires Bytes(text)
  {
    name + "=" + Encode(form, text)
  }

  lemma PairOfPiece(p: Platform, form: bool, name: string, text: string)
    requires Regular(p) && PlainName(name) && Utf8(text) && Bytes(text)
    ensures PairOf(p, Piece(form, name, text)) == Pair(name, text)
    ensures Piece(form, name, text) != "" && Piece(form, name, text)[0] != '?'
    ensures '&' !in Piece(form, name, text)
  {
    var piece := Piece(form, name, text);
    EncodedIsOpaque(form, text);
    FormDecodeOfEncode(form, text);
    PlainDecodes(name);
    AsciiIsUtf8(name);
    hide Encode, FormDecode, Utf8;
    IndexOfPrefix(name, '=', Encode(form, text));
    assert piece[..|name|] == name && piece[|name| + 1..] == Encode(form, text);
    assert piece[0] == name[0] && name[0] in name;
  }

  lemma SplitOne(piece: string)
    requires '&' !in piece
    ensures SplitOn(piece, '&') == [piece]
  {
    assert IndexOf(piece, '&') == |piece|;
  }

  lemma SplitTwo(a: string, b: string)
    requires '&' !in a && '&' !in b
    ensures SplitOn(a + "&" + b, '&') == [a, b]
  {
    var s := a + "&" + b;
    IndexOfPrefix(a, '&', b);
    assert s == a + ['&'] + b;
    assert s[..|a|] == a && s[|a| + 1..] == b;
    SplitOne(b);
  }

  lemma LookupStep(p: Platform, piece: string, rest: seq<string>, pair: Pair, wanted: string)
    requires piece != "" && PairOf(p, piece) == pair
    ensures Lookup(p, [piece] + rest, wanted) == if pair.name == wanted then Some(pair.value) else Lookup(p, rest, wanted)
  {
    hide PairOf;
    var pieces := [piece] + rest;
    assert pieces[1..] == rest;
  }

  lemma LookupNothing(p: Platform, wanted: string)
    ensures Lookup(p, [], wanted) == None && Lookup(p, [""], wanted) == None
  {
    hide PairOf;
    assert [""][1..] == [];
  }

  lemma PiecesOf(query: string)
    ensures Pieces("?" + query) == SplitOn(query, '&')
  {
    assert ("?" + query)[1..] == query;
    hide SplitOn;
  }

  lemma NoPieces()
    ensures Pieces("") == [""]
  {
    SplitOne("");
  }

  lemma GetIs(p: Platform, search: string, name: string)
    ensures Get(p, search, name) == Lookup(p, Pieces(search), name)
  {
  }

  lemma GetFromNothing(p: Platform, name: string)
    ensures Get(p, "", name) == None
  {
    hide *;
    NoPieces();
    LookupNothing(p, name);
    GetIs(p, "", name);
  }

  lemma GetFromOne(p: Platform, form: bool, name: string, text: string, wanted: string)
    requires Regular(p) && PlainName(name) && Utf8(text) && Bytes(text)
    ensures Get(p, "?" + Piece(form, name, text), wanted) == if wanted == name then Some(text) else None
  {
    hide *;
    var piece := Piece(form, name, text);
    PairOfPiece(p, form, name, text);
    SplitOne(piece);
    PiecesOf(piece);
    LookupStep(p, piece, [], Pair(name, text), wanted);
    LookupNothing(p, wanted);
    GetIs(p, "?" + piece, wanted);
    assert [piece] + [] == [piece];
  }

  lemma GetFromTwo(p: Platform, a: string, x: string, b: string, y: string, wanted: string)
    requires Regular(p) && PlainName(a) && PlainName(b) && Utf8(x) && Utf8(y) && Bytes(x) && Bytes(y)
    ensures Get(p, "?" + (Piece(true, a, x) + "&" + Piece(true, b, y)), wanted)
         == if wanted == a then Some(x) else if wanted == b then Some(y) else None
  {
    hide *;
    var first, second := Piece(true, a, x), Piece(true, b, y);
    PairOfPiece(p, true, a, x);
    PairOfPiece(p, true, b, y);
    SplitTwo(first, second);
    PiecesOf(first + "&" + second);
    LookupStep(p, first, [second], Pair(a, x), wanted);
    LookupStep(p, second, [], Pair(b, y), wanted);
    LookupNothing(p, wanted);
    GetIs(p, "?" + (first + "&" + second), wanted);
    assert [first] + [second] == [first, second] && [second] + [] == [second];
  }

  function Printed(p: Platform, n: Option<nat>): Option<string> {
    if n.None? then None else Some(p.show(n.value))
  }

  lemma PrintsBytes(p: Platform)
    requires Regular(p)
    ensures forall n :: Bytes(p.show(n)) && Utf8(p.show(n))
  {
    forall n ensures Bytes(p.show(n)) && Utf8(p.show(n)) {
      AsciiIsUtf8(p.show(n));
    }
  }

  /** The two numbers of a watch URL are found again. */
  lemma WatchQueryReads(p: Platform, r: Route)
    requires Regular(p) && forall k :: Bytes(p.show(k))
    ensures var search := if WatchQuery(p, r) != "" then "?" + WatchQuery(p, r) else "";
            && Get(p, search, "source") == Printed(p, r.source)
            && Get(p, search, "t") == Printed(p, r.t)
  {
    PrintsBytes(p);
    var sources, ts := Parameter(p, "source", r.source), Parameter(p, "t", r.t);
    assert PlainName("source") && PlainName("t") && "source" != "t" by { assert |"source"| != |"t"|; }
    if r.source.None? && r.t.None? {
      assert sources + ts == [];
      GetFromNothing(p, "source");
      GetFromNothing(p, "t");
    } else if r.t.None? {
      var x := p.show(r.source.value);
      assert sources + ts == [Piece(true, "source", x)];
      hide Get, Regular, Utf8, Bytes, PlainName;
      GetFromOne(p, true, "source", x, "source");
      GetFromOne(p, true, "source", x, "t");
    } else if r.source.None? {
      var y := p.show(r.t.value);
      assert sources + ts == [Piece(true, "t", y)];
      hide Get, Regular, Utf8, Bytes, PlainName;
      GetFromOne(p, true, "t", y, "source");
      GetFromOne(p, true, "t", y, "t");
    } else {
      var x, y := p.show(r.source.value), p.show(r.t.value);
      var pieces := [Piece(true, "source", x), Piece(true, "t", y)];
      assert sources + ts == pieces;
      assert pieces[1..] == [Piece(true, "t", y)];
      assert JoinPieces(pieces) == Piece(true, "source", x) + "&" + Piece(true, "t", y);
      hide Get, Regular, Utf8, Bytes, PlainName;
      GetFromTwo(p, "source", x, "t", y, "source");
      GetFromTwo(p, "source", x, "t", y, "t");
    }
  }

  // ---- The two directions ----

  lemma ParseOfStem(p: Platform, r: Route, search: string)
    requires Canonical(p, r) && r.id != ""
    requires r.view == Watch ==> Get(p, search, "source") == Printed(p, r.source) && Get(p, search, "t") == Printed(p, r.t)
    ensures Bytes(r.id)
    ensures var stem := if r.view == Title then "/title/" else if r.view == Watch then "/watch/" else "/jobs/";
            ParsePath(p, stem + Encode(false, r.id), search) == r
  {
    EncodedId(r.id);
    BelowStem(if r.view == Title then "/title/" else if r.view == Watch then "/watch/" else "/jobs/", Encode(false, r.id));
    hide Utf8, Encode, Decode, Get, Trim, PathView, Stem, Bytes;
  }

  lemma ParseOfStatic(p: Platform, r: Route, search: string)
    requires Canonical(p, r) && r.id == ""
    requires r.view == Search ==> Get(p, search, "q") == if r.query == "" then None else Some(r.query)
    ensures ParsePath(p, if ViewPath(r.view).Some? then ViewPath(r.view).value else "/", search) == r
  {
    if r.view != Home {
      ViewPathIsFound(r.view);
      hide Utf8, Get, Trim, PathView, ViewPath;
    }
  }

  /** Parsing the URL of a canonical route gives the route. */
  lemma ParseOfBuild(p: Platform, r: Route)
    requires Regular(p) && Canonical(p, r)
    ensures Bytes(r.id) && Bytes(r.query) && forall k :: Bytes(p.show(k))
    ensures var (path, search) := BuildPath(p, r); ParsePath(p, path, search) == r
  {
    PrintsBytes(p);
    Utf8IsBytes(r.id);
    Utf8IsBytes(r.query);
    hide Regular, Utf8, Bytes, Encode, ParsePath, WatchQuery, Get, PlainName;
    if r.id != "" {
      if r.view == Watch {
        WatchQueryReads(p, r);
        ParseOfStem(p, r, if WatchQuery(p, r) != "" then "?" + WatchQuery(p, r) else "");
      } else {
        ParseOfStem(p, r, "");
      }
    } else if r.query != "" {
      PlainQ();
      GetFromOne(p, false, "q", r.query, "q");
      QueryPiece(r.query);
      ParseOfStatic(p, r, "?q=" + Encode(false, r.query));
    } else {
      GetFromNothing(p, "q");
      ParseOfStatic(p, r, "");
    }
  }

  lemma PlainQ()
    ensures PlainName("q")
  {
  }

  lemma QueryPiece(query: string)
    requires Bytes(query)
    ensures "?" + Piece(false, "q", query) == "?q=" + Encode(false, query)
  {
    hide Encode;
  }

  lemma GetIsUtf8(p: Platform, search: string, name: string)
    requires Regular(p) && Get(p, search, name).Some?
    ensures Utf8(Get(p, search, name).value)
  {
    hide *;
    GetIs(p, search, name);
    LookupIsUtf8(p, Pieces(search), name);
  }

  lemma {:induction false} LookupIsUtf8(p: Platform, pieces: seq<string>, name: string)
    requires Regular(p) && Lookup(p, pieces, name).Some?
    ensures Utf8(Lookup(p, pieces, name).value)
  {
    hide Utf8;
    if !(pieces[0] != "" && PairOf(p, pieces[0]).name == name) {
      LookupIsUtf8(p, pieces[1..], name);
    }
  }

  lemma StaticIsCanonical(p: Platform, v: View, query: string)
    requires Utf8(query) && (query != "" ==> v == Search) && v !in {Title, Watch}
    ensures Canonical(p, HOME.(view := v, query := query))
  {
    assert Utf8("");
    hide Utf8;
  }

  lemma StemIsCanonical(p: Platform, v: View, id: string, source: Option<nat>, t: Option<nat>)
    requires Utf8(id) && id != "" && '/' !in id && v in {Title, Watch, Jobs}
    requires source.Some? || t.Some? ==> v == Watch
    requires source.Some? ==> p.read(p.show(source.value)) == source
    requires t.Some? ==> p.read(p.show(t.value)) == t
    ensures Canonical(p, Route(v, "", id, source, t))
  {
    assert Utf8("");
    hide Utf8;
  }

  lemma NumberIsExact(p: Platform, search: string, name: string)
    requires Regular(p) && Number(p, search, name).Some?
    ensures p.read(p.show(Number(p, search, name).value)) == Number(p, search, name)
  {
    hide Get;
  }

  lemma StemView(path: string)
    requires Stem(path).Some?
    ensures Stem(path).value.0 in {Title, Watch, Jobs}
  {
  }

  /** Whatever is parsed is canonical. */
  lemma ParsedIsCanonical(p: Platform, pathname: string, search: string)
    requires Regular(p)
    ensures Canonical(p, ParsePath(p, pathname, search))
  {
    var path := Trim(pathname);
    assert Utf8("");
    hide Trim, PathView, Get, Utf8, Canonical, Number, Stem, Regular;
    PathViewIsStatic(path);
    StaticIsCanonical(p, Home, "");
    if PathView(path).Some? {
      if PathView(path).value == Search && Get(p, search, "q").Some? {
        GetIsUtf8(p, search, "q");
        StaticIsCanonical(p, Search, Get(p, search, "q").value);
      } else {
        StaticIsCanonical(p, PathView(path).value, "");
      }
    } else if Stem(path).Some? {
      StemView(path);
      var (stem, text) := Stem(path).value;
      var id := Decode(text);
      if id.Some? && id.value != "" && '/' !in id.value {
        if stem != Watch {
          StemIsCanonical(p, stem, id.value, None, None);
        } else {
          var source, t := Number(p, search, "source"), Number(p, search, "t");
          if source.Some? { NumberIsExact(p, search, "source"); }
          if t.Some? { NumberIsExact(p, search, "t"); }
          StemIsCanonical(p, Watch, id.value, source, t);
        }
      }
    }
  }

  /** A view without an id or a query has its fixed URL. */
  lemma FixedUrls(p: Platform, r: Route)
    requires r.id == "" && r.query == "" && forall k :: Bytes(p.show(k))
    ensures Bytes(r.id) && Bytes(r.query)
    ensures BuildPath(p, r) == (if ViewPath(r.view).Some? then ViewPath(r.view).value else "/", "")
  {
    hide ViewPath;
  }

  /** One slash at the end of a path makes no difference, except to the root. */
  lemma TrailingSlashIsIgnored(p: Platform, pathname: string, search: string)
    requires pathname != "" && pathname[|pathname| - 1] != '/'
    ensures ParsePath(p, pathname + "/", search) == ParsePath(p, pathname, search)
  {
    var path := pathname + "/";
    assert path[|path| - 1] == '/' && path[..|path| - 1] == pathname;
    assert Trim(path) == pathname == Trim(pathname);
    hide Trim, PathView, Stem, Get, Number, Decode;
  }

  lemma PathViewIsStatic(path: string)
    ensures PathView(path).Some? ==> PathView(path).value !in {Title, Watch}
  {
  }

  /** Printing what was parsed and parsing it again changes nothing, for every path
      and query. */
  lemma ParseBuildParse(p: Platform, pathname: string, search: string)
    requires Regular(p)
    ensures var r := ParsePath(p, pathname, search);
            && Bytes(r.id) && Bytes(r.query) && (forall k :: Bytes(p.show(k)))
            && var (path, query) := BuildPath(p, r); ParsePath(p, path, query) == r
  {
    ParsedIsCanonical(p, pathname, search);
    ParseOfBuild(p, ParsePath(p, pathname, search));
  }
}

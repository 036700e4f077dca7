/** The file layout a torrent's metadata describes: safe paths, lengths, and
    each file's offset in the torrent's one byte space. */
module Manifest {
  import opened Bencode
  import opened Text
  import opened Wrappers

  // ---- Paths ----

  function Slashed(path: string): (s: string)
    ensures |s| == |path|
    ensures forall i :: 0 <= i < |s| ==> s[i] == if path[i] == '\\' then '/' else path[i]
  {
    if path == [] then [] else Slashed(path[..|path| - 1]) + [if path[|path| - 1] == '\\' then '/' else path[|path| - 1]]
  }

  function TrimLeft(s: string): string {
    if s != [] && s[0] == '/' then TrimLeft(s[1..]) else s
  }

  function TrimRight(s: string): string {
    if s != [] && s[|s| - 1] == '/' then TrimRight(s[..|s| - 1]) else s
  }

  function Split(s: string): seq<string> { SplitOn(s, '/') }

  function Join(parts: seq<string>): string {
    if parts == [] then ""
    else if |parts| == 1 then parts[0]
    else parts[0] + "/" + Join(parts[1..])
  }

  predicate PlainPart(part: string) { part != "" && part != "." && part != ".." }

  predicate PlainParts(parts: seq<string>) { forall i :: 0 <= i < |parts| ==> PlainPart(parts[i]) }

  function SafePath(path: string): Option<string> {
    var trimmed := TrimRight(TrimLeft(Slashed(path)));
    if trimmed == "" || !PlainParts(Split(trimmed)) then None else Some(trimmed)
  }

  lemma {:induction false} TrimLeftOnce(s: string)
    ensures TrimLeft(s) != [] ==> TrimLeft(s)[0] != '/'
    ensures |TrimLeft(s)| <= |s| && TrimLeft(s) == s[|s| - |TrimLeft(s)|..]
  {
    if s != [] && s[0] == '/' {
      TrimLeftOnce(s[1..]);
    }
  }

  lemma {:induction false} TrimRightOnce(s: string)
    ensures TrimRight(s) != [] ==> TrimRight(s)[|TrimRight(s)| - 1] != '/'
    ensures TrimRight(s) <= s
  {
    if s != [] && s[|s| - 1] == '/' {
      TrimRightOnce(s[..|s| - 1]);
    }
  }

  /** An accepted path has no backslash, begins and ends inside a part, and has
      no part that is empty, `.` or `..`: it stays below the directory it is
      joined to. Checking it again changes nothing. */
  lemma SafePathIsContained(path: string)
    requires SafePath(path).Some?
    ensures var q := SafePath(path).value;
            && q != "" && '\\' !in q && q[0] != '/' && q[|q| - 1] != '/'
            && (forall i :: 0 <= i < |Split(q)| ==> Split(q)[i] != "" && Split(q)[i] != "." && Split(q)[i] != "..")
            && SafePath(q) == Some(q)
  {
    var s := Slashed(path);
    var t := TrimLeft(s);
    var q := TrimRight(t);
    TrimLeftOnce(s);
    TrimRightOnce(t);
    assert '\\' !in s;
    assert forall i :: 0 <= i < |q| ==> q[i] == t[i] == s[|s| - |t| + i];
    assert Slashed(q) == q;
  }

  lemma {:induction false} SplitOfJoin(parts: seq<string>)
    requires parts != [] && forall i :: 0 <= i < |parts| ==> '/' !in parts[i]
    ensures Split(Join(parts)) == parts
  {
    if |parts| > 1 {
      var rest := Join(parts[1..]);
      IndexOfPrefix(parts[0], '/', rest);
      var s := parts[0] + "/" + rest;
      assert s[..|parts[0]|] == parts[0] && s[|parts[0]| + 1..] == rest;
      SplitOfJoin(parts[1..]);
    } else {
      var s := parts[0];
      assert IndexOf(s, '/') == |s|;
    }
  }

  predicate Ordinary(parts: seq<string>) {
    parts != [] && PlainParts(parts) && forall i :: 0 <= i < |parts| ==> '/' !in parts[i] && '\\' !in parts[i]
  }

  lemma {:induction false} JoinedEnds(parts: seq<string>)
    requires Ordinary(parts)
    ensures var s := Join(parts); s != "" && '\\' !in s && s[0] != '/' && s[|s| - 1] != '/'
  {
    assert parts[0] != "" && parts[0][0] in parts[0];
    if |parts| > 1 {
      assert Ordinary(parts[1..]);
      JoinedEnds(parts[1..]);
      var s, rest := Join(parts), Join(parts[1..]);
      assert s[0] == parts[0][0] && s[|s| - 1] == rest[|rest| - 1];
    } else {
      assert parts[0][|parts[0]| - 1] in parts[0];
    }
  }

  /** A path of ordinary names is accepted unchanged, and splits into the same
      names again. */
  lemma OrdinaryPathIsKept(parts: seq<string>)
    requires Ordinary(parts)
    ensures SafePath(Join(parts)) == Some(Join(parts)) && Split(Join(parts)) == parts
  {
    SplitOfJoin(parts);
    JoinedEnds(parts);
    assert Slashed(Join(parts)) == Join(parts);
  }

  // ---- Lengths and offsets ----

  datatype File = File(index: int, path: string, size: int, offset: int)

  datatype Problem = Unreadable(fault: Fault) | NoInfo | BadLength | UnsafePath

  datatype Layout = Files(files: seq<File>) | Rejected(problem: Problem)

  /** A stored length: a decimal in range that is not negative. */
  function Bint(n: Node): Option<int> {
    var value := ParseInt(ValueOf(n));
    if value.None? || value.value < 0 then None else value
  }

  function Entry(n: Node, key: string): Node {
    if key in EntriesOf(n) then EntriesOf(n)[key] else Leaf("")
  }

  function Names(parts: seq<Node>): seq<string> {
    if parts == [] then [] else Names(parts[..|parts| - 1]) + [ValueOf(parts[|parts| - 1])]
  }

  function RowPath(row: Node): string { Join(Names(ItemsOf(Entry(row, "path")))) }

  /** The first problem among the rows, if any: a row's length is looked at
      before its path. */
  function RowsProblem(rows: seq<Node>): Option<Problem> {
    if rows == [] then None
    else
      var before := RowsProblem(rows[..|rows| - 1]);
      var row := rows[|rows| - 1];
      if before.Some? then before
      else if Bint(Entry(row, "length")).None? then Some(BadLength)
      else if SafePath(RowPath(row)).None? then Some(UnsafePath)
      else None
  }

  /** The lengths of the rows added up, without wrap-around. */
  function TotalLength(rows: seq<Node>): int
    requires RowsProblem(rows).None?
  {
    if rows == [] then 0
    else TotalLength(rows[..|rows| - 1]) + Bint(Entry(rows[|rows| - 1], "length")).value
  }

  function FilesOf(rows: seq<Node>): (files: seq<File>)
    requires RowsProblem(rows).None?
    ensures |files| == |rows|
  {
    if rows == [] then []
    else
      var front, row := rows[..|rows| - 1], rows[|rows| - 1];
      FilesOf(front)
      + [File(|front|, SafePath(RowPath(row)).value, Bint(Entry(row, "length")).value, Wrap(TotalLength(front)))]
  }

  function SingleFile(info: Node): Layout {
    var length, path := Bint(Entry(info, "length")), SafePath(ValueOf(Entry(info, "name")));
    if length.None? then Rejected(BadLength)
    else if path.None? then Rejected(UnsafePath)
    else Files([File(0, path.value, length.value, 0)])
  }

  function LayoutOf(data: string): Layout {
    var root := ReadNode(data, 0);
    if root.Malformed? then Rejected(Unreadable(root.fault))
    else if "info" !in EntriesOf(root.node) then Rejected(NoInfo)
    else
      var info := EntriesOf(root.node)["info"];
      if "files" !in EntriesOf(info) then SingleFile(info)
      else
        var rows := ItemsOf(EntriesOf(info)["files"]);
        if RowsProblem(rows).Some? then Rejected(RowsProblem(rows).value) else Files(FilesOf(rows))
  }

  /** The first row with a bad length or an unsafe path decides, the length first. */
  lemma {:induction false} FirstBadRow(rows: seq<Node>) returns (i: nat)
    ensures i <= |rows| && (RowsProblem(rows).None? <==> i == |rows|)
    ensures forall j :: 0 <= j < i ==> Bint(Entry(rows[j], "length")).Some? && SafePath(RowPath(rows[j])).Some?
    ensures i < |rows| && Bint(Entry(rows[i], "length")).None? ==> RowsProblem(rows) == Some(BadLength)
    ensures i < |rows| && Bint(Entry(rows[i], "length")).Some? ==> SafePath(RowPath(rows[i])).None? && RowsProblem(rows) == Some(UnsafePath)
  {
    hide Bint, SafePath, RowPath, Entry;
    if rows == [] {
      i := 0;
    } else {
      i := FirstBadRow(rows[..|rows| - 1]);
      if i == |rows| - 1 && Bint(Entry(rows[i], "length")).Some? && SafePath(RowPath(rows[i])).Some? {
        i := i + 1;
      }
    }
  }

  /** Which problem is reported for metadata that can be read. */
  lemma ProblemsAreNamed(data: string)
    requires ReadNode(data, 0).Read?
    ensures var entries, layout := EntriesOf(ReadNode(data, 0).node), LayoutOf(data);
            && (layout == Rejected(NoInfo) <==> "info" !in entries)
            && ("info" in entries && "files" !in EntriesOf(entries["info"]) ==>
                  && (layout == Rejected(BadLength) <==> Bint(Entry(entries["info"], "length")).None?)
                  && (layout == Rejected(UnsafePath) <==>
                        Bint(Entry(entries["info"], "length")).Some? && SafePath(ValueOf(Entry(entries["info"], "name"))).None?))
            && ("info" in entries && "files" in EntriesOf(entries["info"]) ==>
                  var problem := RowsProblem(ItemsOf(EntriesOf(entries["info"])["files"]));
                  if problem.Some? then layout == Rejected(problem.value) else layout.Files?)
  {
    var entries := EntriesOf(ReadNode(data, 0).node);
    if "info" in entries && "files" in EntriesOf(entries["info"]) {
      var i := FirstBadRow(ItemsOf(EntriesOf(entries["info"])["files"]));
    }
    hide ReadNode, Bint, SafePath, RowsProblem, FilesOf, RowPath;
  }

  lemma WrapAdds(a: int, b: int)
    ensures Wrap(Wrap(a) + b) == Wrap(a + b)
  {
    var q := (a + MAX_INT64 + 1) / TWO64;
    assert Wrap(a) == a - q * TWO64;
    assert (a + b + MAX_INT64 + 1 - q * TWO64) % TWO64 == (a + b + MAX_INT64 + 1) % TWO64;
  }

  lemma {:induction false} ProblemStays(rows: seq<Node>, n: nat)
    requires n <= |rows| && RowsProblem(rows[..n]).Some?
    ensures RowsProblem(rows) == RowsProblem(rows[..n])
    decreases |rows|
  {
    if n < |rows| {
      assert rows[..|rows| - 1][..n] == rows[..n];
      ProblemStays(rows[..|rows| - 1], n);
    } else {
      assert rows[..n] == rows;
    }
  }

  method ReadNames(path: seq<Node>) returns (parts: seq<string>)
    ensures parts == Names(path)
  {
    parts := [];
    for i := 0 to |path|
      invariant parts == Names(path[..i])
    {
      assert path[..i + 1][..i] == path[..i];
      parts := parts + [ValueOf(path[i])];
    }
    assert path[..|path|] == path;
  }

  /** The loop over the rows, accumulating the offset. */
  method ReadRows(rows: seq<Node>) returns (layout: Layout)
    ensures layout == if RowsProblem(rows).Some? then Rejected(RowsProblem(rows).value) else Files(FilesOf(rows))
  {
    hide ParseInt, SafePath, Join, Wrap, Names;
    var files := [];
    var offset := 0;
    assert offset == Wrap(0) by { WrapZero(); }
    for index := 0 to |rows|
      invariant RowsProblem(rows[..index]).None?
      invariant files == FilesOf(rows[..index])
      invariant offset == Wrap(TotalLength(rows[..index]))
    {
      var row := rows[index];
      assert rows[..index + 1][..index] == rows[..index];
      var length := Bint(Entry(row, "length"));
      if length.None? {
        ProblemStays(rows, index + 1);
        return Rejected(BadLength);
      }
      var parts := ReadNames(ItemsOf(Entry(row, "path")));
      var safe := SafePath(Join(parts));
      if safe.None? {
        ProblemStays(rows, index + 1);
        return Rejected(UnsafePath);
      }
      files := files + [File(index, safe.value, length.value, offset)];
      WrapAdds(TotalLength(rows[..index]), length.value);
      offset := Wrap(offset + length.value);
    }
    assert rows[..|rows|] == rows;
    return Files(files);
  }

  lemma WrapZero()
    ensures Wrap(0) == 0
  {
  }

  method ReadLayout(data: string) returns (layout: Layout)
    ensures layout == LayoutOf(data)
  {
    var root := ReadBNode(data, 0);
    if root.Malformed? { return Rejected(Unreadable(root.fault)); }
    if "info" !in EntriesOf(root.node) { return Rejected(NoInfo); }
    var info := EntriesOf(root.node)["info"];
    if "files" !in EntriesOf(info) { return SingleFile(info); }
    layout := ReadRows(ItemsOf(EntriesOf(info)["files"]));
  }

  lemma {:induction false} RowsAreReadable(rows: seq<Node>)
    ensures RowsProblem(rows).Some? ==> !RowsProblem(rows).value.Unreadable?
  {
    if rows != [] {
      RowsAreReadable(rows[..|rows| - 1]);
    }
    hide Bint, SafePath, RowPath;
  }

  lemma LayoutCrashesWithReader(data: string)
    ensures LayoutOf(data) == Rejected(Unreadable(Crash)) <==> ReadNode(data, 0) == Malformed(Crash)
  {
    var root := ReadNode(data, 0);
    if root.Read? && "info" in EntriesOf(root.node) {
      var info := EntriesOf(root.node)["info"];
      if "files" in EntriesOf(info) {
        RowsAreReadable(ItemsOf(EntriesOf(info)["files"]));
      }
    }
    hide ReadNode, Bint, SafePath, RowsProblem;
  }

  /** Laying out metadata without a huge length never panics. */
  lemma LayoutCrashIsHuge(data: string) returns (q: int)
    requires |data| <= MAX_INT64 && LayoutOf(data) == Rejected(Unreadable(Crash))
    ensures Huge(data, q)
  {
    hide *;
    LayoutCrashesWithReader(data);
    q := CrashIsHuge(data, 0);
  }

  /** But a dictionary that opens with one does, and nothing behind it matters. */
  lemma HugeLengthCrashesLayout(rest: string) returns (data: string)
    requires |rest| <= MAX_INT64 - 21
    ensures data == "d" + Decimal(MAX_INT64) + ":" + rest
    ensures LayoutOf(data) == Rejected(Unreadable(Crash))
  {
    hide *;
    data := "d" + Decimal(MAX_INT64) + ":" + rest;
    HugeLengthCrashes(rest);
    LayoutCrashesWithReader(data);
  }

  /** Each file begins where the one before it ends, the first at 0. */
  predicate Tiles(files: seq<File>) {
    && (files != [] ==> files[0].offset == 0)
    && forall i :: 0 < i < |files| ==> files[i].offset == files[i - 1].offset + files[i - 1].size
  }

  function SizeSum(files: seq<File>): int {
    if files == [] then 0 else SizeSum(files[..|files| - 1]) + files[|files| - 1].size
  }

  predicate GoodFiles(files: seq<File>) {
    forall i :: 0 <= i < |files| ==>
      files[i].index == i && 0 <= files[i].size <= MAX_INT64 && SafePath(files[i].path) == Some(files[i].path)
  }

  lemma TilesSnoc(files: seq<File>, f: File)
    ensures Tiles(files + [f]) <==>
            Tiles(files) && f.offset == if files == [] then 0 else files[|files| - 1].offset + files[|files| - 1].size
  {
    var all := files + [f];
    assert files != [] ==> all[0] == files[0];
    if Tiles(all) {
      forall i | 0 < i < |files| ensures files[i].offset == files[i - 1].offset + files[i - 1].size {
        assert all[i].offset == all[i - 1].offset + all[i - 1].size;
      }
      assert all[|files|] == f;
      assert files != [] ==> all[|files| - 1] == files[|files| - 1];
    }
  }

  /** The row's own file, and its place. */
  lemma LastFile(rows: seq<Node>)
    requires rows != [] && RowsProblem(rows).None?
    ensures var front, row, files := rows[..|rows| - 1], rows[|rows| - 1], FilesOf(rows);
            && RowsProblem(front).None?
            && files == FilesOf(front) + [files[|front|]]
            && files[|front|].offset == Wrap(TotalLength(front))
            && files[|front|].index == |front|
            && 0 <= files[|front|].size <= MAX_INT64
            && SafePath(files[|front|].path) == Some(files[|front|].path)
            && TotalLength(rows) == TotalLength(front) + files[|front|].size
  {
    hide SafePath, Names, Join;
    SafePathIsContained(RowPath(rows[|rows| - 1]));
  }

  lemma GoodSnoc(files: seq<File>, f: File)
    requires GoodFiles(files)
    requires f.index == |files| && 0 <= f.size <= MAX_INT64 && SafePath(f.path) == Some(f.path)
    ensures GoodFiles(files + [f])
  {
    hide SafePath;
  }

  /** The files stand in the rows' order, with lengths in range and safe paths. */
  lemma {:induction false} FilesAreGood(rows: seq<Node>)
    requires RowsProblem(rows).None?
    ensures GoodFiles(FilesOf(rows))
  {
    if rows == [] {
    } else {
      hide *;
      LastFile(rows);
      FilesAreGood(rows[..|rows| - 1]);
      GoodSnoc(FilesOf(rows[..|rows| - 1]), FilesOf(rows)[|rows| - 1]);
    }
  }

  lemma {:induction false} TotalIsSizeSum(rows: seq<Node>)
    requires RowsProblem(rows).None?
    ensures 0 <= TotalLength(rows) == SizeSum(FilesOf(rows))
  {
    if rows != [] {
      LastFile(rows);
      TotalIsSizeSum(rows[..|rows| - 1]);
      SizeSumSnoc(FilesOf(rows[..|rows| - 1]), FilesOf(rows)[|rows| - 1]);
      hide *;
    }
  }

  lemma SizeSumSnoc(files: seq<File>, f: File)
    ensures SizeSum(files + [f]) == SizeSum(files) + f.size
  {
    assert (files + [f])[..|files|] == files;
  }

  /** The files tile the torrent without gap or overlap exactly when the last
      one begins at an offset that still fits 64 bits. */
  lemma {:induction false} RowsTile(rows: seq<Node>)
    requires RowsProblem(rows).None?
    ensures Tiles(FilesOf(rows)) <==> rows == [] || TotalLength(rows[..|rows| - 1]) <= MAX_INT64
  {
    if rows == [] {
    } else {
      var front, files := rows[..|rows| - 1], FilesOf(rows);
      LastFile(rows);
      RowsTile(front);
      TilesSnoc(FilesOf(front), files[|front|]);
      TotalIsSizeSum(front);
      WrapIsExact(TotalLength(front));
      if front != [] {
        LastFile(front);
        TotalIsSizeSum(front[..|front| - 1]);
        WrapIsExact(TotalLength(front[..|front| - 1]));
      } else {
        assert TotalLength(front) == 0;
      }
      hide *;
    }
  }

  // ---- From a written torrent to its files ----

  datatype Item = Item(names: seq<string>, size: int)

  function NamesValue(names: seq<string>): seq<Value> {
    if names == [] then [] else NamesValue(names[..|names| - 1]) + [Str(names[|names| - 1])]
  }

  function RowValue(item: Item): Value {
    Keyed([Field("length", Int(item.size)), Field("path", Many(NamesValue(item.names)))])
  }

  function RowValues(items: seq<Item>): seq<Value> {
    if items == [] then [] else RowValues(items[..|items| - 1]) + [RowValue(items[|items| - 1])]
  }

  function Torrent(items: seq<Item>): Value {
    Keyed([Field("info", Keyed([Field("files", Many(RowValues(items)))]))])
  }

  predicate Regular(item: Item) { Ordinary(item.names) && 0 <= item.size <= MAX_INT64 }

  lemma {:induction false} DenoteSnoc(values: seq<Value>, v: Value)
    ensures DenoteValues(values + [v]) == DenoteValues(values) + [Denote(v)]
  {
    if values == [] {
      assert [v][1..] == [];
    } else {
      assert (values + [v])[1..] == values[1..] + [v];
      DenoteSnoc(values[1..], v);
    }
  }

  lemma {:induction false} NamesOfValues(names: seq<string>)
    ensures Names(DenoteValues(NamesValue(names))) == names
  {
    if names != [] {
      var front, last := names[..|names| - 1], names[|names| - 1];
      NamesOfValues(front);
      DenoteSnoc(NamesValue(front), Str(last));
      var d := DenoteValues(NamesValue(front));
      assert (d + [Leaf(last)])[..|d|] == d;
    }
  }

  lemma TwoFields(first: Field, second: Field)
    ensures DenoteFields([first, second], map[])
         == map[first.key := Denote(first.value)][second.key := Denote(second.value)]
  {
    var fields := [first, second];
    var one := map[first.key := Denote(first.value)];
    assert map[][first.key := Denote(first.value)] == one;
    assert fields[1..] == [second] && [second][1..] == [];
    assert DenoteFields(fields, map[]) == DenoteFields([second], one);
    assert DenoteFields([second], one) == DenoteFields([], one[second.key := Denote(second.value)]);
  }

  lemma DenoteRow(item: Item)
    ensures var row := Denote(RowValue(item));
            && Entry(row, "length") == Leaf(Signed(item.size))
            && Entry(row, "path") == List(DenoteValues(NamesValue(item.names)))
  {
    var length, path := Field("length", Int(item.size)), Field("path", Many(NamesValue(item.names)));
    TwoFields(length, path);
    assert "length" != "path" by { assert |"length"| != |"path"|; }
    hide DenoteFields, DenoteValues, NamesValue, Signed;
  }

  /** A printed row of an ordinary file reads back as its length and path. */
  lemma RowReadsBack(item: Item)
    requires Regular(item)
    ensures var row := Denote(RowValue(item));
            && Bint(Entry(row, "length")) == Some(item.size)
            && SafePath(RowPath(row)) == Some(Join(item.names))
  {
    DenoteRow(item);
    ParseDecimal(item.size);
    NamesOfValues(item.names);
    OrdinaryPathIsKept(item.names);
    hide Denote, DenoteValues, RowValue, NamesValue, ParseInt, SafePath, Decimal;
  }

  function SizesBefore(items: seq<Item>): int {
    if items == [] then 0 else SizesBefore(items[..|items| - 1]) + items[|items| - 1].size
  }

  function ItemFiles(items: seq<Item>): seq<File> {
    if items == [] then []
    else
      var front, item := items[..|items| - 1], items[|items| - 1];
      ItemFiles(front) + [File(|front|, Join(item.names), item.size, Wrap(SizesBefore(front)))]
  }

  lemma {:induction false} ItemsReadBack(items: seq<Item>)
    requires forall i :: 0 <= i < |items| ==> Regular(items[i])
    ensures var rows := DenoteValues(RowValues(items));
            && |rows| == |items|
            && RowsProblem(rows).None?
            && TotalLength(rows) == SizesBefore(items)
            && FilesOf(rows) == ItemFiles(items)
  {
    if items != [] {
      var front, item := items[..|items| - 1], items[|items| - 1];
      ItemsReadBack(front);
      DenoteSnoc(RowValues(front), RowValue(item));
      RowReadsBack(item);
      var rows, row := DenoteValues(RowValues(front)), Denote(RowValue(item));
      assert RowValues(items) == RowValues(front) + [RowValue(item)];
      hide DenoteValues, Denote, RowValues, RowValue, Bint, SafePath, RowPath, Wrap;
      RowSnoc(rows, row);
    }
  }

  lemma RowSnoc(rows: seq<Node>, row: Node)
    requires RowsProblem(rows).None? && Bint(Entry(row, "length")).Some? && SafePath(RowPath(row)).Some?
    ensures RowsProblem(rows + [row]).None?
    ensures TotalLength(rows + [row]) == TotalLength(rows) + Bint(Entry(row, "length")).value
    ensures FilesOf(rows + [row]) == FilesOf(rows)
         + [File(|rows|, SafePath(RowPath(row)).value, Bint(Entry(row, "length")).value, Wrap(TotalLength(rows)))]
  {
    hide Bint, SafePath, RowPath, Wrap, Entry;
    assert (rows + [row])[..|rows|] == rows;
  }

  lemma OneField(key: string, v: Value)
    ensures Denote(Keyed([Field(key, v)])) == Dict(map[key := Denote(v)])
  {
    var fields := [Field(key, v)];
    assert fields[1..] == [];
    assert DenoteFields(fields, map[]) == DenoteFields(fields[1..], map[][key := Denote(v)]);
    assert map[][key := Denote(v)] == map[key := Denote(v)];
  }

  function Root(rows: seq<Node>): Node { Dict(map["info" := Dict(map["files" := List(rows)])]) }

  lemma TorrentDenotes(items: seq<Item>)
    ensures Denote(Torrent(items)) == Root(DenoteValues(RowValues(items)))
  {
    var rows := Many(RowValues(items));
    OneField("files", rows);
    OneField("info", Keyed([Field("files", rows)]));
  }

  lemma LayoutOfRoot(data: string, rows: seq<Node>, next: int)
    requires ReadNode(data, 0) == Read(Root(rows), next) && RowsProblem(rows).None?
    ensures LayoutOf(data) == Files(FilesOf(rows))
  {
    hide ReadNode, RowsProblem, FilesOf;
  }

  lemma PrefixIsAt(data: string, s: string)
    requires s <= data
    ensures At(data, 0, s)
  {
  }

  /** Torrent metadata written for any list of ordinary files, with anything
      after it, is laid out as exactly those files. */
  lemma WrittenTorrentIsLaidOut(items: seq<Item>, data: string)
    requires forall i :: 0 <= i < |items| ==> Regular(items[i])
    requires |data| <= MAX_INT64 && Encode(Torrent(items)) <= data
    ensures LayoutOf(data) == Files(ItemFiles(items))
  {
    hide *;
    var rows := DenoteValues(RowValues(items));
    PrefixIsAt(data, Encode(Torrent(items)));
    RoundTrip(data, 0, Torrent(items));
    TorrentDenotes(items);
    ItemsReadBack(items);
    LayoutOfRoot(data, rows, |Encode(Torrent(items))|);
  }

  function TorrentOfOne(name: string, size: int): Value {
    Keyed([Field("info", Keyed([Field("length", Int(size)), Field("name", Str(name))]))])
  }

  function RootOfOne(name: string, size: int): Node {
    Dict(map["info" := Dict(map["length" := Leaf(Signed(size)), "name" := Leaf(name)])])
  }

  lemma OneDenotes(name: string, size: int)
    ensures Denote(TorrentOfOne(name, size)) == RootOfOne(name, size)
  {
    var length, title := Field("length", Int(size)), Field("name", Str(name));
    TwoFields(length, title);
    OneField("info", Keyed([length, title]));
    hide DenoteFields, Signed;
    assert map["length" := Leaf(Signed(size))]["name" := Leaf(name)] == map["length" := Leaf(Signed(size)), "name" := Leaf(name)];
  }

  lemma LayoutOfOne(data: string, name: string, size: int, next: int)
    requires ReadNode(data, 0) == Read(RootOfOne(name, size), next) && 0 <= size <= MAX_INT64
    ensures LayoutOf(data) == if SafePath(name).None? then Rejected(UnsafePath) else Files([File(0, SafePath(name).value, size, 0)])
  {
    ParseDecimal(size);
    assert "name" != "length" && "files" != "name" && "files" != "length" by {
      assert |"name"| != |"length"| && |"files"| != |"name"| && |"files"| != |"length"|;
    }
    hide ReadNode, SafePath, ParseInt, Decimal;
  }

  /** Metadata written for a single file is laid out as that file, unless its name
      is no safe path. */
  lemma WrittenFileIsLaidOut(name: string, size: int, data: string)
    requires 0 <= size <= MAX_INT64
    requires |data| <= MAX_INT64 && Encode(TorrentOfOne(name, size)) <= data
    ensures LayoutOf(data) == if SafePath(name).None? then Rejected(UnsafePath) else Files([File(0, SafePath(name).value, size, 0)])
  {
    hide *;
    PrefixIsAt(data, Encode(TorrentOfOne(name, size)));
    RoundTrip(data, 0, TorrentOfOne(name, size));
    OneDenotes(name, size);
    LayoutOfOne(data, name, size, |Encode(TorrentOfOne(name, size))|);
  }
}

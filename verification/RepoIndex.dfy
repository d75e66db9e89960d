/**
 The incremental repository index (packages/agent/src/repo-index-service.ts).
 */
module RepoIndex {
  import opened Prelude
  import opened Utf16

  // The service and its store (packages/storage/src/repositories/repo-index-repository.ts). A
  // relative path is the sequence of its names. What is derived from a file - hash, summary,
  // symbols and imports - is one function of path, size, modification time and content.

  type Path = seq<Text>

  // ---------------------------------------------------------------- traversal

  /** Directory entries, in the order in which they are visited; an unreadable directory has none. */
  datatype Entry =
    | File(name: Text)
    | Directory(name: Text, entries: seq<Entry>)
    | SymbolicLink(name: Text)
    | Other(name: Text)

  const DOT: Unit := 0x2E
  const GITHUB: Text := Lit(".github")
  const IGNORED: set<Text> := {
    Lit(".git"), Lit(".hg"), Lit(".svn"), Lit(".next"), Lit(".turbo"), Lit(".vite"), Lit("coverage"), Lit("dist"),
    Lit("build"), Lit("out"), Lit("node_modules")}

  predicate Skipped(e: Entry) {
    e.Directory? && ((e.name != [] && e.name[0] == DOT && e.name != GITHUB) || e.name in IGNORED)
  }

  /** Every file that would be indexed below a directory, depth first, without any limit. */
  function AllFiles(entries: seq<Entry>, dir: Path, indexed: Path -> bool): seq<Path> {
    if entries == [] then []
    else
      AllFiles(entries[..|entries| - 1], dir, indexed) + FilesOf(entries[|entries| - 1], dir, indexed)
  }

  function FilesOf(e: Entry, dir: Path, indexed: Path -> bool): seq<Path> {
    match e
    case File(name) => if indexed(dir + [name]) then [dir + [name]] else []
    case Directory(name, entries) => if Skipped(e) then [] else AllFiles(entries, dir + [name], indexed)
    case _ => []
  }

  function Take(paths: seq<Path>, n: nat): (r: seq<Path>)
    ensures |r| == if |paths| < n then |paths| else n
  {
    if |paths| < n then paths else paths[..n]
  }

  /** `visit`, with the array it appends to. */
  class Collector {
    const maxFiles: nat
    const indexed: Path -> bool
    var result: seq<Path>

    constructor (maxFiles: nat, indexed: Path -> bool)
      ensures this.maxFiles == maxFiles && this.indexed == indexed && result == []
    {
      this.maxFiles, this.indexed, result := maxFiles, indexed, [];
    }

    method Visit(entries: seq<Entry>, dir: Path)
      requires |result| <= maxFiles
      modifies this
      ensures result == Take(old(result) + AllFiles(entries, dir, indexed), maxFiles)
      decreases entries
    {
      if |result| >= maxFiles { return; }
      assert old(result) + [] == old(result);
      for i := 0 to |entries|
        invariant result == Take(old(result) + AllFiles(entries[..i], dir, indexed), maxFiles)
      {
        TakeMore(old(result), entries, i, dir, indexed, maxFiles);
        if |result| >= maxFiles { return; }
        var entry := entries[i];
        if Skipped(entry) || entry.SymbolicLink? || entry.Other? { continue; }
        if entry.Directory? {
          Visit(entry.entries, dir + [entry.name]);
          continue;
        }
        if !indexed(dir + [entry.name]) { continue; }
        result := result + [dir + [entry.name]];
      }
      assert entries[..|entries|] == entries;
    }
  }

  /** Once full, nothing further changes; before that, an entry adds its own files. */
  lemma {:induction false} TakeMore(before: seq<Path>, entries: seq<Entry>, i: nat, dir: Path, indexed: Path -> bool, n: nat)
    requires i < |entries|
    ensures var so := before + AllFiles(entries[..i], dir, indexed);
            && (|Take(so, n)| >= n ==> Take(before + AllFiles(entries, dir, indexed), n) == Take(so, n))
            && Take(before + AllFiles(entries[..i + 1], dir, indexed), n) == Take(so + FilesOf(entries[i], dir, indexed), n)
            && (|Take(so, n)| < n ==> Take(so, n) == so)
  {
    var so := before + AllFiles(entries[..i], dir, indexed);
    assert entries[..i + 1][..i] == entries[..i];
    assert before + (AllFiles(entries[..i], dir, indexed) + FilesOf(entries[i], dir, indexed)) == so + FilesOf(entries[i], dir, indexed);
    FilesPrefix(entries, i, dir, indexed);
  }

  lemma {:induction false} FilesPrefix(entries: seq<Entry>, i: nat, dir: Path, indexed: Path -> bool)
    requires i <= |entries|
    ensures AllFiles(entries[..i], dir, indexed) <= AllFiles(entries, dir, indexed)
    decreases |entries|
  {
    if i == |entries| {
      assert entries[..i] == entries;
    } else {
      FilesPrefix(entries[..|entries| - 1], i, dir, indexed);
      assert entries[..|entries| - 1][..i] == entries[..i];
    }
  }

  /** collectFiles: the first `maxFiles` files of the unlimited traversal. */
  method CollectFiles(root: seq<Entry>, maxFiles: nat, indexed: Path -> bool) returns (paths: seq<Path>)
    ensures paths == Take(AllFiles(root, [], indexed), maxFiles)
  {
    var collector := new Collector(maxFiles, indexed);
    collector.Visit(root, []);
    assert [] + AllFiles(root, [], indexed) == AllFiles(root, [], indexed);
    paths := collector.result;
  }

  lemma {:induction false} AllIndexed(entries: seq<Entry>, dir: Path, indexed: Path -> bool)
    ensures forall path :: path in AllFiles(entries, dir, indexed) ==> indexed(path)
    decreases entries
  {
    if entries != [] {
      var front, last := entries[..|entries| - 1], entries[|entries| - 1];
      AllIndexed(front, dir, indexed);
      if last.Directory? && !Skipped(last) {
        AllIndexed(last.entries, dir + [last.name], indexed);
      }
    }
  }

  /** Directories that are not entered: those that are hidden, `.github` excepted, and those of tools and builds. */
  predicate NotEntered(name: Text) {
    (name != [] && name[0] == DOT && name != GITHUB) || name in IGNORED
  }

  /** A file at this path below the entries, with no directory on the way that is not entered. */
  predicate FileAt(entries: seq<Entry>, rel: Path) {
    rel != [] &&
    if |rel| == 1 then exists i :: 0 <= i < |entries| && entries[i] == File(rel[0])
    else
      exists i :: 0 <= i < |entries| && entries[i].Directory? && entries[i].name == rel[0] && !NotEntered(rel[0]) &&
        FileAt(entries[i].entries, rel[1..])
  }

  lemma {:induction false} FileAtMore(front: seq<Entry>, last: Entry, rel: Path)
    ensures FileAt(front + [last], rel) <==> FileAt(front, rel) || FileAt([last], rel)
  {
    var all := front + [last];
    assert forall i :: 0 <= i < |front| ==> all[i] == front[i];
    assert all[|front|] == last;
    var one := [last];
    assert one[0] == last;
    if FileAt(front, rel) {
      if |rel| == 1 {
        var i :| 0 <= i < |front| && front[i] == File(rel[0]);
        assert all[i] == File(rel[0]);
      } else {
        var i :| 0 <= i < |front| && front[i].Directory? && front[i].name == rel[0] && !NotEntered(rel[0]) && FileAt(front[i].entries, rel[1..]);
        assert all[i] == front[i];
      }
    }
  }

  /** The traversal finds exactly the indexed files that can be reached. */
  lemma {:induction false} FilesExact(entries: seq<Entry>, dir: Path, rel: Path, indexed: Path -> bool)
    ensures dir + rel in AllFiles(entries, dir, indexed) <==> FileAt(entries, rel) && indexed(dir + rel)
    decreases entries, 0
  {
    if entries != [] {
      var front, last := entries[..|entries| - 1], entries[|entries| - 1];
      assert entries == front + [last];
      FilesExact(front, dir, rel, indexed);
      FileAtMore(front, last, rel);
      EntryExact(last, dir, rel, indexed);
    }
  }

  lemma {:induction false} EntryExact(e: Entry, dir: Path, rel: Path, indexed: Path -> bool)
    ensures dir + rel in FilesOf(e, dir, indexed) <==> FileAt([e], rel) && indexed(dir + rel)
    decreases e, 0
  {
    OneEntry(e, rel);
    match e {
      case File(name) =>
        if dir + rel == dir + [name] {
          assert rel == (dir + rel)[|dir|..] == [name];
        }
      case Directory(name, entries) =>
        hide FileAt, AllFiles;
        DirectoryExact(name, entries, dir, rel, indexed);
      case _ =>
    }
  }

  lemma OneEntry(e: Entry, rel: Path)
    ensures FileAt([e], rel) <==>
              if |rel| == 1 then e == File(rel[0])
              else |rel| > 1 && e.Directory? && e.name == rel[0] && !NotEntered(rel[0]) && FileAt(e.entries, rel[1..])
  {
    var one := [e];
    assert one[0] == e;
  }

  lemma {:induction false} DirectoryExact(name: Text, entries: seq<Entry>, dir: Path, rel: Path, indexed: Path -> bool)
    ensures dir + rel in AllFiles(entries, dir + [name], indexed) <==>
              |rel| > 1 && rel[0] == name && FileAt(entries, rel[1..]) && indexed(dir + rel)
    decreases entries, 1
  {
    hide FileAt, AllFiles;
    BelowOnly(entries, dir + [name], indexed);
    if rel != [] && rel[0] == name {
      var rest := rel[1..];
      FilesExact(entries, dir + [name], rest, indexed);
      assert dir + rel == dir + [name] + rest;
      FileAtNothing(entries);
    } else if rel != [] {
      assert (dir + rel)[|dir|] == rel[0];
      assert (dir + [name])[|dir|] == name;
    }
  }

  lemma FileAtNothing(entries: seq<Entry>)
    ensures !FileAt(entries, [])
  {
  }

  /** What is found below a directory has its path in front. */
  lemma {:induction false} BelowOnly(entries: seq<Entry>, dir: Path, indexed: Path -> bool)
    ensures forall path :: path in AllFiles(entries, dir, indexed) ==> |path| > |dir| && path[..|dir|] == dir
    decreases entries
  {
    if entries != [] {
      var front, last := entries[..|entries| - 1], entries[|entries| - 1];
      BelowOnly(front, dir, indexed);
      if last.Directory? && !Skipped(last) {
        BelowOnly(last.entries, dir + [last.name], indexed);
        forall path | path in AllFiles(last.entries, dir + [last.name], indexed)
          ensures |path| > |dir| && path[..|dir|] == dir
        {
          assert path[..|dir| + 1][..|dir|] == path[..|dir|];
        }
      }
    }
  }

  // ---------------------------------------------------------------- files and rows

  /** lstat: size and whole milliseconds. */
  datatype Stat = Stat(isFile: bool, size: nat, mtime: int)

  /** What a refresh finds: the tree, and status and content per path; unreadable content reads as empty. */
  datatype Disk = Disk(isDirectory: bool, root: seq<Entry>, stats: map<Path, Stat>, contents: map<Path, Text>)

  datatype Row = Row(path: Path, size: nat, mtime: int, meta: Derived, updatedAt: int)

  datatype Derived = Derived(fileKind: int, contentHash: Text, summary: Text, symbols: seq<Text>, imports: seq<Text>)

  datatype Key = Key(project: Text, target: Text, path: Path)

  type Store = map<Key, Row>

  /** What never changes: which paths are indexed, what is derived from a file, and the order of the store's texts. */
  datatype Rules = Rules(indexed: Path -> bool, derive: (Path, nat, int, Text) -> Derived, precedes: (Path, Path) -> bool)

  /** One call, with its limits. */
  datatype Refresh = Refresh(project: Text, target: Text, disk: Disk, now: int, maxFiles: nat, maxReadBytes: nat)

  /** The limits of a call as `refresh` takes them. */
  function CallOf(project: Text, target: Text, disk: Disk, now: int, maxFiles: Option<int>, maxReadBytes: Option<int>): Refresh {
    Refresh(project, target, disk, now,
      Max(1, Min(if maxFiles.Some? then maxFiles.value else 500, 5_000)),
      Max(4 * 1024, if maxReadBytes.Some? then maxReadBytes.value else 96 * 1024))
  }

  ghost predicate TotalOrder(precedes: (Path, Path) -> bool) {
    && (forall a, b :: precedes(a, b) ==> !precedes(b, a))
    && (forall a, b :: a != b ==> precedes(a, b) || precedes(b, a))
    && (forall a, b, c :: precedes(a, b) && precedes(b, c) ==> precedes(a, c))
  }

  function KeyOf(r: Refresh, path: Path): Key {
    Key(r.project, r.target, path)
  }

  function ContentOf(d: Disk, path: Path): Text {
    if path in d.contents then d.contents[path] else []
  }

  /** What is derived from a file under a read limit. */
  function DeriveUnder(rules: Rules, path: Path, size: nat, mtime: int, content: Text, maxReadBytes: nat): Derived {
    rules.derive(path, size, mtime, if rules.indexed(path) && size <= maxReadBytes then content else [])
  }

  /** The row a rebuild computes. */
  function FreshRow(rules: Rules, r: Refresh, path: Path): Row
    requires path in r.disk.stats
  {
    var stat := r.disk.stats[path];
    var meta := DeriveUnder(rules, path, stat.size, stat.mtime, ContentOf(r.disk, path), r.maxReadBytes);
    Row(path, stat.size, stat.mtime, meta, r.now)
  }

  /** Equal but for `updatedAt`. */
  predicate SameRow(a: Row, b: Row) {
    a.(updatedAt := b.updatedAt) == b
  }

  /** The paths the bounded traversal finds. */
  function Found(rules: Rules, r: Refresh): seq<Path> {
    Take(AllFiles(r.disk.root, [], rules.indexed), r.maxFiles)
  }

  /** The files among them, in order. */
  function Kept(d: Disk, paths: seq<Path>): seq<Path> {
    if paths == [] then []
    else
      var last := paths[|paths| - 1];
      if last in d.stats && d.stats[last].isFile then Kept(d, paths[..|paths| - 1]) + [last]
      else Kept(d, paths[..|paths| - 1])
  }

  /** The files a rebuild indexes. */
  function Files(rules: Rules, r: Refresh): seq<Path> {
    Kept(r.disk, Found(rules, r))
  }

  lemma {:induction false} KeptIn(d: Disk, paths: seq<Path>)
    ensures forall path :: path in Kept(d, paths) <==> path in paths && path in d.stats && d.stats[path].isFile
  {
    if paths != [] {
      KeptIn(d, paths[..|paths| - 1]);
      assert paths == paths[..|paths| - 1] + [paths[|paths| - 1]];
    }
  }

  lemma FilesFacts(rules: Rules, r: Refresh, path: Path)
    requires path in Files(rules, r)
    ensures rules.indexed(path) && path in r.disk.stats
  {
    KeptIn(r.disk, Found(rules, r));
    AllIndexed(r.disk.root, [], rules.indexed);
  }

  // ---------------------------------------------------------------- what a refresh does to the store

  function TargetPaths(store: Store, project: Text, target: Text): set<Path> {
    set key | key in store && key.project == project && key.target == target :: key.path
  }

  function Earlier(paths: set<Path>, path: Path, precedes: (Path, Path) -> bool): set<Path> {
    set other | other in paths && precedes(other, path)
  }

  /** The limit of a listing. */
  function Listable(limit: int): nat {
    Max(1, Min(limit, 5_000))
  }

  /** A row of the target with fewer rows before it than the limit. */
  predicate Listed(store: Store, rules: Rules, project: Text, target: Text, limit: int, path: Path) {
    var paths := TargetPaths(store, project, target);
    path in paths && |Earlier(paths, path, rules.precedes)| < Listable(limit)
  }

  /** A file that is not read again: its row is listed, with the size and time the file has. */
  predicate Unread(store: Store, rules: Rules, r: Refresh, path: Path) {
    && Listed(store, rules, r.project, r.target, r.maxFiles, path)
    && KeyOf(r, path) in store && path in r.disk.stats
    && store[KeyOf(r, path)].size == r.disk.stats[path].size && store[KeyOf(r, path)].mtime == r.disk.stats[path].mtime
  }

  function NewRow(store: Store, rules: Rules, r: Refresh, path: Path): Row
    requires path in r.disk.stats
  {
    if Unread(store, rules, r, path) then store[KeyOf(r, path)] else FreshRow(rules, r, path)
  }

  predicate SameAt(before: Store, after: Store, key: Key) {
    (key in before <==> key in after) && (key in before ==> before[key] == after[key])
  }

  predicate Elsewhere(r: Refresh, key: Key) {
    key.project != r.project || key.target != r.target
  }

  /** The row of one path is as this refresh leaves it. */
  predicate RefreshedAt(before: Store, after: Store, rules: Rules, r: Refresh, path: Path) {
    if path in Files(rules, r) then
      path in r.disk.stats && KeyOf(r, path) in after && after[KeyOf(r, path)] == NewRow(before, rules, r, path)
    else KeyOf(r, path) !in after
  }

  /** A successful refresh: the target has the new rows of its files and no other; all else is untouched. */
  ghost predicate Refreshed(before: Store, after: Store, rules: Rules, r: Refresh) {
    && (forall key :: Elsewhere(r, key) ==> SameAt(before, after, key))
    && forall path :: RefreshedAt(before, after, rules, r, path)
  }

  /** Rows of the given paths, in order. */
  function RowsOf(store: Store, rules: Rules, r: Refresh, paths: seq<Path>): seq<Row>
    requires forall i :: 0 <= i < |paths| ==> paths[i] in r.disk.stats
  {
    if paths == [] then []
    else RowsOf(store, rules, r, paths[..|paths| - 1]) + [NewRow(store, rules, r, paths[|paths| - 1])]
  }

  /** Those among them that had to be computed. */
  function ChangedOf(store: Store, rules: Rules, r: Refresh, paths: seq<Path>): seq<Row>
    requires forall i :: 0 <= i < |paths| ==> paths[i] in r.disk.stats
  {
    if paths == [] then []
    else
      var last := paths[|paths| - 1];
      ChangedOf(store, rules, r, paths[..|paths| - 1]) +
      (if Unread(store, rules, r, last) then [] else [FreshRow(rules, r, last)])
  }

  /** The store with these rows put in, later ones over earlier ones. */
  function Upserted(store: Store, project: Text, target: Text, rows: seq<Row>): Store {
    if rows == [] then store
    else
      var last := rows[|rows| - 1];
      Upserted(store, project, target, rows[..|rows| - 1])[Key(project, target, last.path) := last]
  }

  /** Rows are stored under their own path. */
  ghost predicate Keyed(store: Store) {
    forall key :: key in store ==> store[key].path == key.path
  }

  predicate Includes(rows: seq<Row>, path: Path) {
    exists j :: 0 <= j < |rows| && rows[j].path == path
  }

  datatype Error = NotADirectory | StatFailed(path: Path)

  class RepoIndexService {
    const rules: Rules
    var store: Store

    ghost predicate Valid()
      reads this
    {
      TotalOrder(rules.precedes) && Keyed(store)
    }

    constructor (rules: Rules)
      requires TotalOrder(rules.precedes)
      ensures Valid() && this.rules == rules && store == map[]
    {
      this.rules, store := rules, map[];
    }

    /** listByTarget: the first rows of the target in ascending order, as many as there are within the limit. */
    method ListByTarget(project: Text, target: Text, limit: int) returns (rows: seq<Row>)
      requires Valid()
      ensures RowsStored(store, project, target, rows) && Ascending(rules, rows)
      ensures forall path :: Includes(rows, path) <==> Listed(store, rules, project, target, limit, path)
      ensures |rows| == Min(Listable(limit), |TargetPaths(store, project, target)|)
    {
      hide Taking, Listed;
      var left := TargetPaths(store, project, target);
      rows := [];
      NothingTaken(store, rules, project, target, Listable(limit));
      while left != {} && |rows| < Listable(limit)
        invariant Taking(store, rules, project, target, Listable(limit), rows, left)
        decreases |left|
      {
        LeastExists(left, rules.precedes);
        var path :| path in left && forall other :: other in left && other != path ==> rules.precedes(path, other);
        LeastTaken(store, rules, project, target, Listable(limit), rows, left, path);
        left := left - {path};
        rows := rows + [store[Key(project, target, path)]];
      }
      AllTaken(store, rules, project, target, limit, rows, left);
    }

    method UpsertMany(project: Text, target: Text, rows: seq<Row>)
      requires Valid()
      modifies this`store
      ensures Valid() && store == Upserted(old(store), project, target, rows)
    {
      for i := 0 to |rows|
        invariant Valid() && store == Upserted(old(store), project, target, rows[..i])
      {
        var next := i + 1;
        assert rows[..next][..i] == rows[..i] && rows[..next][i] == rows[i];
        store := store[Key(project, target, rows[i].path) := rows[i]];
      }
      assert rows[..|rows|] == rows;
    }

    method DeleteMissing(project: Text, target: Text, keep: seq<Path>)
      requires Valid()
      modifies this`store
      ensures Valid()
      ensures forall key :: key in store <==> key in old(store) && (key.project != project || key.target != target || key.path in keep)
      ensures forall key :: key in store ==> store[key] == old(store)[key]
    {
      store := map key | key in store && (key.project != project || key.target != target || key.path in keep) :: store[key];
    }

    /** The loop over the paths: the rows in order, and those that had to be computed. */
    method Scan(r: Refresh, paths: seq<Path>, previous: map<Path, Row>)
      returns (files: seq<Row>, changed: seq<Row>, error: Option<Error>)
      requires forall path :: path in previous <==> Listed(store, rules, r.project, r.target, r.maxFiles, path)
      requires forall path :: path in previous ==> KeyOf(r, path) in store && store[KeyOf(r, path)] == previous[path]
      ensures error.None? <==> forall i :: 0 <= i < |paths| ==> paths[i] in r.disk.stats
      ensures forall i :: 0 <= i < |Kept(r.disk, paths)| ==> Kept(r.disk, paths)[i] in r.disk.stats
      ensures error.None? ==> files == RowsOf(store, rules, r, Kept(r.disk, paths))
      ensures error.None? ==> changed == ChangedOf(store, rules, r, Kept(r.disk, paths))
    {
      hide FreshRow, Listed;
      files, changed, error := [], [], None;
      KeptIn(r.disk, paths);
      for i := 0 to |paths|
        invariant error.None? && forall j :: 0 <= j < i ==> paths[j] in r.disk.stats
        invariant forall j :: 0 <= j < |Kept(r.disk, paths[..i])| ==> Kept(r.disk, paths[..i])[j] in r.disk.stats
        invariant files == RowsOf(store, rules, r, Kept(r.disk, paths[..i]))
        invariant changed == ChangedOf(store, rules, r, Kept(r.disk, paths[..i]))
      {
        var path, next := paths[i], i + 1;
        assert paths[..next][..i] == paths[..i] && paths[..next][i] == path;
        if path !in r.disk.stats {
          return files, changed, Some(StatFailed(path));
        }
        if !r.disk.stats[path].isFile { continue; }
        var stat := r.disk.stats[path];
        ghost var kept := Kept(r.disk, paths[..i]);
        assert Kept(r.disk, paths[..next]) == kept + [path] && (kept + [path])[..|kept|] == kept;
        if path in previous && previous[path].size == stat.size && previous[path].mtime == stat.mtime {
          files := files + [previous[path]];
          continue;
        }
        var row := FreshRow(rules, r, path);
        files := files + [row];
        changed := changed + [row];
      }
      assert paths[..|paths|] == paths;
    }

    /**
     refreshOnce: on a readable target exactly the specified rows, from any store; a failed refresh changes nothing.
     */
    method RefreshOnce(r: Refresh) returns (result: Result<seq<Row>, Error>)
      requires Valid()
      modifies this`store
      ensures Valid()
      ensures result.Ok? <==> r.disk.isDirectory && forall i :: 0 <= i < |Found(rules, r)| ==> Found(rules, r)[i] in r.disk.stats
      ensures result.Err? ==> store == old(store)
      ensures result.Ok? ==> Refreshed(old(store), store, rules, r)
      ensures result.Ok? ==> AreStored(result.value, store, r, Files(rules, r))
    {
      hide TotalOrder, Listed, FreshRow, Take, AllFiles, RefreshedAt, Kept, RowsOf, ChangedOf, Upserted, NewRow;
      if !r.disk.isDirectory {
        return Err(NotADirectory);
      }
      var paths := CollectFiles(r.disk.root, r.maxFiles, rules.indexed);
      assert paths == Found(rules, r);
      var listed := ListByTarget(r.project, r.target, r.maxFiles);
      var previous := ByPath(listed);
      var files, changed, error := Scan(r, paths, previous);
      if error.Some? {
        return Err(error.value);
      }
      ghost var kept := Kept(r.disk, paths);
      KeptIn(r.disk, paths);
      RowPaths(store, rules, r, kept);
      ChangedUpserted(store, rules, r, kept);
      UpsertMany(r.project, r.target, changed);
      ghost var upserted := store;
      var keep := seq(|files|, i requires 0 <= i < |files| => files[i].path);
      assert keep == kept;
      DeleteMissing(r.project, r.target, keep);
      RefreshDone(old(store), upserted, store, rules, r, files);
      result := Ok(files);
    }

    /** refresh: the limits are put into range first. */
    method RefreshTarget(
        project: Text, target: Text, disk: Disk, now: int, maxFiles: Option<int>, maxReadBytes: Option<int>)
      returns (result: Result<seq<Row>, Error>)
      requires Valid()
      modifies this`store
      ensures Valid()
      ensures var r := CallOf(project, target, disk, now, maxFiles, maxReadBytes);
              && (result.Ok? <==> r.disk.isDirectory && forall i :: 0 <= i < |Found(rules, r)| ==> Found(rules, r)[i] in r.disk.stats)
              && (result.Err? ==> store == old(store))
              && (result.Ok? ==> Refreshed(old(store), store, rules, r) && AreStored(result.value, store, r, Files(rules, r)))
    {
      hide Refreshed, AreStored, CallOf;
      result := RefreshOnce(CallOf(project, target, disk, now, maxFiles, maxReadBytes));
    }
  }

  // ---------------------------------------------------------------- listing

  /** What was taken precedes what is left. */
  ghost predicate Divides(rules: Rules, all: set<Path>, left: set<Path>) {
    forall a, b :: a in all && a !in left && b in left ==> rules.precedes(a, b)
  }

  lemma {:induction false} LeastExists(left: set<Path>, precedes: (Path, Path) -> bool)
    requires left != {} && TotalOrder(precedes)
    ensures exists path :: path in left && forall other :: other in left && other != path ==> precedes(path, other)
    decreases |left|
  {
    var some :| some in left;
    var rest := left - {some};
    if rest != {} {
      LeastExists(rest, precedes);
      var path :| path in rest && forall other :: other in rest && other != path ==> precedes(path, other);
      var least := if precedes(some, path) then some else path;
      assert forall other :: other in left && other != least ==> other == some || other in rest;
    } else {
      assert forall other :: other in left ==> other == some || other in rest;
    }
  }

  /** The least of the rest has exactly those before it that were taken. */
  lemma LeastCounted(rules: Rules, all: set<Path>, left: set<Path>, path: Path)
    requires TotalOrder(rules.precedes) && left <= all && path in left && Divides(rules, all, left)
    requires forall other :: other in left && other != path ==> rules.precedes(path, other)
    ensures |Earlier(all, path, rules.precedes)| == |all| - |left|
    ensures Divides(rules, all, left - {path})
  {
    assert Earlier(all, path, rules.precedes) == all - left;
  }

  predicate RowsStored(store: Store, project: Text, target: Text, rows: seq<Row>) {
    forall i :: 0 <= i < |rows| ==>
      Key(project, target, rows[i].path) in store && store[Key(project, target, rows[i].path)] == rows[i]
  }

  predicate Ascending(rules: Rules, rows: seq<Row>) {
    forall i, j :: 0 <= i < j < |rows| ==> rules.precedes(rows[i].path, rows[j].path)
  }

  /** These rows were taken, in ascending order, and these paths are left. */
  ghost predicate Taking(store: Store, rules: Rules, project: Text, target: Text, limit: nat, rows: seq<Row>, left: set<Path>) {
    var all := TargetPaths(store, project, target);
    && left <= all && |rows| + |left| == |all| && |rows| <= limit
    && RowsStored(store, project, target, rows) && Ascending(rules, rows) && Divides(rules, all, left)
    && (forall path :: Includes(rows, path) <==> path in all && path !in left)
    && forall path :: Includes(rows, path) ==> |Earlier(all, path, rules.precedes)| < limit
  }

  lemma NothingTaken(store: Store, rules: Rules, project: Text, target: Text, limit: nat)
    ensures Taking(store, rules, project, target, limit, [], TargetPaths(store, project, target))
  {
  }

  lemma LeastTaken(
      store: Store, rules: Rules, project: Text, target: Text, limit: nat, rows: seq<Row>, left: set<Path>, path: Path)
    requires TotalOrder(rules.precedes) && Keyed(store) && |rows| < limit
    requires Taking(store, rules, project, target, limit, rows, left)
    requires path in left && forall other :: other in left && other != path ==> rules.precedes(path, other)
    ensures Key(project, target, path) in store
    ensures Taking(store, rules, project, target, limit, rows + [store[Key(project, target, path)]], left - {path})
  {
    var all, row := TargetPaths(store, project, target), store[Key(project, target, path)];
    LeastCounted(rules, all, left, path);
    IncludesMore(rows, row);
    hide TotalOrder, TargetPaths, Earlier;
    var more := rows + [row];
    forall i | 0 <= i < |rows|
      ensures rules.precedes(rows[i].path, path)
    {
      assert Includes(rows, rows[i].path);
    }
    assert Ascending(rules, more);
  }

  lemma AllTaken(store: Store, rules: Rules, project: Text, target: Text, limit: int, rows: seq<Row>, left: set<Path>)
    requires Taking(store, rules, project, target, Listable(limit), rows, left)
    requires left == {} || |rows| >= Listable(limit)
    ensures RowsStored(store, project, target, rows) && Ascending(rules, rows)
    ensures forall path :: Includes(rows, path) <==> Listed(store, rules, project, target, limit, path)
    ensures |rows| == Min(Listable(limit), |TargetPaths(store, project, target)|)
  {
    hide Earlier, Includes;
    if left != {} {
      RestUnlisted(rules, TargetPaths(store, project, target), left, Listable(limit));
    }
  }

  lemma RestUnlisted(rules: Rules, all: set<Path>, left: set<Path>, limit: nat)
    requires left <= all && Divides(rules, all, left) && |all| - |left| >= limit
    ensures forall path :: path in left ==> |Earlier(all, path, rules.precedes)| >= limit
  {
    forall path | path in left
      ensures |Earlier(all, path, rules.precedes)| >= limit
    {
      var taken := all - left;
      assert taken <= Earlier(all, path, rules.precedes);
      SubsetSize(taken, Earlier(all, path, rules.precedes));
    }
  }

  lemma SubsetSize(a: set<Path>, b: set<Path>)
    requires a <= b
    ensures |a| <= |b|
  {
    assert b == a + (b - a);
  }

  lemma IncludesMore(rows: seq<Row>, row: Row)
    ensures forall path :: Includes(rows + [row], path) <==> Includes(rows, path) || row.path == path
  {
    var more := rows + [row];
    forall path
      ensures Includes(more, path) <==> Includes(rows, path) || row.path == path
    {
      if j :| 0 <= j < |rows| && rows[j].path == path {
        assert more[j].path == path;
      }
      assert more[|rows|] == row;
      if j :| 0 <= j < |more| && more[j].path == path && j != |rows| {
        assert rows[j].path == path;
      }
    }
  }

  /** The listed rows by path. */
  function ByPath(rows: seq<Row>): (m: map<Path, Row>)
    ensures forall path :: path in m <==> Includes(rows, path)
    ensures forall path :: path in m ==> m[path].path == path && m[path] in rows
  {
    if rows == [] then map[]
    else
      var front, last := rows[..|rows| - 1], rows[|rows| - 1];
      IncludesMore(front, last);
      assert rows == front + [last];
      ByPath(front)[last.path := last]
  }

  // ---------------------------------------------------------------- one refresh

  predicate AreStored(rows: seq<Row>, store: Store, r: Refresh, paths: seq<Path>) {
    |rows| == |paths| && forall i :: 0 <= i < |rows| ==> KeyOf(r, paths[i]) in store && store[KeyOf(r, paths[i])] == rows[i]
  }

  lemma {:induction false} RowPaths(store: Store, rules: Rules, r: Refresh, paths: seq<Path>)
    requires Keyed(store) && forall i :: 0 <= i < |paths| ==> paths[i] in r.disk.stats
    ensures var rows := RowsOf(store, rules, r, paths);
            |rows| == |paths| && forall i :: 0 <= i < |rows| ==> rows[i] == NewRow(store, rules, r, paths[i]) && rows[i].path == paths[i]
  {
    hide Listed, DeriveUnder;
    if paths != [] {
      RowPaths(store, rules, r, paths[..|paths| - 1]);
    }
  }

  /** The rows computed for these paths are in, and everything else is as it was. */
  ghost predicate UpsertedFor(before: Store, after: Store, rules: Rules, r: Refresh, paths: seq<Path>) {
    && (forall key :: Elsewhere(r, key) ==> SameAt(before, after, key))
    && forall path :: UpsertedAt(before, after, rules, r, paths, path)
  }

  predicate UpsertedAt(before: Store, after: Store, rules: Rules, r: Refresh, paths: seq<Path>, path: Path) {
    if path in paths && !Unread(before, rules, r, path) then
      path in r.disk.stats && KeyOf(r, path) in after && after[KeyOf(r, path)] == FreshRow(rules, r, path)
    else SameAt(before, after, KeyOf(r, path))
  }

  lemma {:induction false} ChangedUpserted(store: Store, rules: Rules, r: Refresh, paths: seq<Path>)
    requires forall i :: 0 <= i < |paths| ==> paths[i] in r.disk.stats
    ensures UpsertedFor(store, Upserted(store, r.project, r.target, ChangedOf(store, rules, r, paths)), rules, r, paths)
  {
    hide Unread, UpsertedFor, FreshRow;
    if paths == [] {
      NothingUpserted(store, rules, r);
    } else {
      var n := |paths| - 1;
      var front, last := paths[..n], paths[n];
      ChangedUpserted(store, rules, r, front);
      var changed := ChangedOf(store, rules, r, front);
      var so := Upserted(store, r.project, r.target, changed);
      assert paths == front + [last];
      if Unread(store, rules, r, last) {
        assert changed + [] == changed;
        UpsertedNoMore(store, so, rules, r, front, last);
      } else {
        var row := FreshRow(rules, r, last);
        assert (changed + [row])[..|changed|] == changed;
        FreshRowPath(rules, r, last);
        UpsertedMore(store, so, rules, r, front, last);
      }
    }
  }

  lemma FreshRowPath(rules: Rules, r: Refresh, path: Path)
    requires path in r.disk.stats
    ensures FreshRow(rules, r, path).path == path
  {
  }

  lemma NothingUpserted(store: Store, rules: Rules, r: Refresh)
    ensures UpsertedFor(store, store, rules, r, [])
  {
  }

  lemma UpsertedNoMore(before: Store, so: Store, rules: Rules, r: Refresh, front: seq<Path>, last: Path)
    requires UpsertedFor(before, so, rules, r, front) && Unread(before, rules, r, last)
    ensures UpsertedFor(before, so, rules, r, front + [last])
  {
    hide Unread, FreshRow;
    forall path
      ensures UpsertedAt(before, so, rules, r, front + [last], path)
    {
      assert UpsertedAt(before, so, rules, r, front, path);
    }
  }

  lemma UpsertedMore(before: Store, so: Store, rules: Rules, r: Refresh, front: seq<Path>, last: Path)
    requires UpsertedFor(before, so, rules, r, front) && last in r.disk.stats && !Unread(before, rules, r, last)
    ensures UpsertedFor(before, so[KeyOf(r, last) := FreshRow(rules, r, last)], rules, r, front + [last])
  {
    hide Unread, FreshRow;
    var after, paths := so[KeyOf(r, last) := FreshRow(rules, r, last)], front + [last];
    forall path
      ensures UpsertedAt(before, after, rules, r, paths, path)
    {
      assert UpsertedAt(before, so, rules, r, front, path);
    }
  }

  lemma RefreshedPath(before: Store, upserted: Store, after: Store, rules: Rules, r: Refresh, path: Path)
    requires UpsertedFor(before, upserted, rules, r, Files(rules, r))
    requires KeyOf(r, path) in after <==> KeyOf(r, path) in upserted && path in Files(rules, r)
    requires KeyOf(r, path) in after ==> after[KeyOf(r, path)] == upserted[KeyOf(r, path)]
    ensures RefreshedAt(before, after, rules, r, path)
  {
    assert UpsertedAt(before, upserted, rules, r, Files(rules, r), path);
    if path in Files(rules, r) {
      FilesFacts(rules, r, path);
    }
  }

  lemma RefreshDone(before: Store, upserted: Store, after: Store, rules: Rules, r: Refresh, files: seq<Row>)
    requires UpsertedFor(before, upserted, rules, r, Files(rules, r))
    requires forall key :: key in after <==> key in upserted && (Elsewhere(r, key) || key.path in Files(rules, r))
    requires forall key :: key in after ==> after[key] == upserted[key]
    requires forall i :: 0 <= i < |Files(rules, r)| ==> Files(rules, r)[i] in r.disk.stats
    requires Keyed(before) && files == RowsOf(before, rules, r, Files(rules, r))
    ensures Refreshed(before, after, rules, r) && AreStored(files, after, r, Files(rules, r))
  {
    hide Files, Unread, FreshRow;
    RowPaths(before, rules, r, Files(rules, r));
    forall path
      ensures RefreshedAt(before, after, rules, r, path)
    {
      RefreshedPath(before, upserted, after, rules, r, path);
    }
    forall i | 0 <= i < |files|
      ensures KeyOf(r, Files(rules, r)[i]) in after && after[KeyOf(r, Files(rules, r)[i])] == files[i]
    {
      assert RefreshedAt(before, after, rules, r, Files(rules, r)[i]);
    }
  }

  // ---------------------------------------------------------------- against a rebuild

  /** The content a path has, or fails to have, at a given size and time: always the same. */
  type Oracle = (Path, nat, int) -> Text

  ghost predicate Consistent(d: Disk, oracle: Oracle) {
    forall path :: path in d.stats ==> ContentOf(d, path) == oracle(path, d.stats[path].size, d.stats[path].mtime)
  }

  /** The row says what path, size and time imply under a read limit. */
  ghost predicate RowTruthful(store: Store, key: Key, rules: Rules, limit: nat, oracle: Oracle) {
    key in store ==>
      var row := store[key];
      && row.path == key.path
      && row.meta == DeriveUnder(rules, key.path, row.size, row.mtime, oracle(key.path, row.size, row.mtime), limit)
  }

  /** Every row of the target does, under the limit it was computed with. */
  ghost predicate Truthful(store: Store, rules: Rules, r: Refresh, limits: Key -> nat, oracle: Oracle) {
    forall path :: RowTruthful(store, KeyOf(r, path), rules, limits(KeyOf(r, path)), oracle)
  }

  predicate RowFits(store: Store, rules: Rules, r: Refresh, path: Path) {
    KeyOf(r, path) in store && path in r.disk.stats && SameRow(store[KeyOf(r, path)], FreshRow(rules, r, path))
  }

  predicate RebuiltAt(store: Store, rules: Rules, r: Refresh, path: Path) {
    if path in Files(rules, r) then RowFits(store, rules, r, path) else KeyOf(r, path) !in store
  }

  /** The rows of the target are exactly those of an index built from scratch, `updatedAt` aside. */
  ghost predicate Rebuilt(store: Store, rules: Rules, r: Refresh) {
    forall path :: RebuiltAt(store, rules, r, path)
  }

  /** Both read limits lie on the same side of the file, or its content makes no difference. */
  predicate ReadAlike(rules: Rules, r: Refresh, path: Path, limit: nat)
    requires path in r.disk.stats
  {
    var stat := r.disk.stats[path];
    || (stat.size <= limit <==> stat.size <= r.maxReadBytes)
    || rules.derive(path, stat.size, stat.mtime, ContentOf(r.disk, path)) == rules.derive(path, stat.size, stat.mtime, [])
  }

  /** A file of which that is not so, although it is not read again. */
  predicate Stale(before: Store, rules: Rules, r: Refresh, path: Path, limit: nat) {
    path in Files(rules, r) && Unread(before, rules, r, path) && !ReadAlike(rules, r, path, limit)
  }

  ghost predicate NothingStale(before: Store, rules: Rules, r: Refresh, limits: Key -> nat) {
    forall path :: !Stale(before, rules, r, path, limits(KeyOf(r, path)))
  }

  lemma PathRebuilt(before: Store, after: Store, rules: Rules, r: Refresh, path: Path, limit: nat, oracle: Oracle)
    requires Consistent(r.disk, oracle) && RowTruthful(before, KeyOf(r, path), rules, limit, oracle)
    requires RefreshedAt(before, after, rules, r, path)
    ensures RebuiltAt(after, rules, r, path) <==> !Stale(before, rules, r, path, limit)
  {
    hide Files, Listed;
    if path in Files(rules, r) {
      FilesFacts(rules, r, path);
    }
  }

  /**
   Incremental equals rebuild: with every row truthful under the read limit it was computed with, a
   refresh under any limits leaves the target as a rebuild would exactly if, for every file it did not
   read again, both read limits lie on the same side of its size or the two derivations agree.
   */
  lemma RefreshRebuildsExact(before: Store, after: Store, rules: Rules, r: Refresh, limits: Key -> nat, oracle: Oracle)
    requires Consistent(r.disk, oracle) && Truthful(before, rules, r, limits, oracle) && Refreshed(before, after, rules, r)
    ensures Rebuilt(after, rules, r) <==> NothingStale(before, rules, r, limits)
  {
    hide Consistent, RowTruthful, RefreshedAt, RebuiltAt, Stale;
    forall path
      ensures RebuiltAt(after, rules, r, path) <==> !Stale(before, rules, r, path, limits(KeyOf(r, path)))
    {
      PathRebuilt(before, after, rules, r, path, limits(KeyOf(r, path)), oracle);
    }
  }

  /** Refreshing one target leaves another one rebuilt. */
  lemma OthersStayRebuilt(before: Store, after: Store, rules: Rules, r: Refresh, other: Refresh)
    requires Refreshed(before, after, rules, r) && (r.project != other.project || r.target != other.target)
    requires Rebuilt(before, rules, other)
    ensures Rebuilt(after, rules, other)
  {
    hide Files, FreshRow;
    forall path
      ensures RebuiltAt(after, rules, other, path)
    {
      assert RebuiltAt(before, rules, other, path);
      assert SameAt(before, after, KeyOf(other, path));
    }
  }

  // ---------------------------------------------------------------- every run

  /** Stores before and after a run of refreshes, each with its own disk and limits; a failed one changes nothing. */
  ghost predicate IsRun(stores: seq<Store>, refreshes: seq<Refresh>, rules: Rules) {
    && |stores| == |refreshes| + 1 && stores[0] == map[]
    && forall i :: 0 <= i < |refreshes| ==> RunStep(stores, refreshes, i, rules)
  }

  ghost predicate RunStep(stores: seq<Store>, refreshes: seq<Refresh>, i: nat, rules: Rules)
    requires |stores| == |refreshes| + 1 && i < |refreshes|
  {
    stores[i] == stores[i + 1] || Refreshed(stores[i], stores[i + 1], rules, refreshes[i])
  }

  /** The read limit under which a row was computed: that of the last refresh that did not take it over. */
  function LimitAt(stores: seq<Store>, refreshes: seq<Refresh>, rules: Rules, n: nat, key: Key): nat
    requires |stores| == |refreshes| + 1 && n <= |refreshes|
  {
    if n == 0 then 0
    else
      var r := refreshes[n - 1];
      if stores[n - 1] == stores[n] || Elsewhere(r, key) || Unread(stores[n - 1], rules, r, key.path)
      then LimitAt(stores, refreshes, rules, n - 1, key)
      else r.maxReadBytes
  }

  ghost function LimitsAt(stores: seq<Store>, refreshes: seq<Refresh>, rules: Rules, n: nat): Key -> nat
    requires |stores| == |refreshes| + 1 && n <= |refreshes|
  {
    key => LimitAt(stores, refreshes, rules, n, key)
  }

  /** In every run every row is truthful under that limit, given one content per path, size and time. */
  lemma {:induction false} RunTruthful(
      stores: seq<Store>, refreshes: seq<Refresh>, rules: Rules, oracle: Oracle, n: nat, key: Key)
    requires IsRun(stores, refreshes, rules) && n <= |refreshes|
    requires forall i :: 0 <= i < |refreshes| ==> Consistent(refreshes[i].disk, oracle)
    ensures RowTruthful(stores[n], key, rules, LimitAt(stores, refreshes, rules, n, key), oracle)
  {
    if n > 0 {
      hide Consistent, RowTruthful, Refreshed;
      RunTruthful(stores, refreshes, rules, oracle, n - 1, key);
      var r := refreshes[n - 1];
      assert RunStep(stores, refreshes, n - 1, rules);
      if stores[n - 1] != stores[n] {
        StepTruthful(stores[n - 1], stores[n], rules, r, key, LimitAt(stores, refreshes, rules, n - 1, key), oracle);
      }
    }
  }

  lemma StepTruthful(before: Store, after: Store, rules: Rules, r: Refresh, key: Key, limit: nat, oracle: Oracle)
    requires Refreshed(before, after, rules, r) && Consistent(r.disk, oracle) && RowTruthful(before, key, rules, limit, oracle)
    ensures var now := if Elsewhere(r, key) || Unread(before, rules, r, key.path) then limit else r.maxReadBytes;
            RowTruthful(after, key, rules, now, oracle)
  {
    hide Files, Listed;
    if Elsewhere(r, key) {
      assert SameAt(before, after, key);
    } else {
      assert KeyOf(r, key.path) == key;
      assert RefreshedAt(before, after, rules, r, key.path);
    }
  }

  /** After any run, a refresh leaves a rebuilt target exactly if none of the files it does not read again is stale. */
  lemma RunRebuiltExact(stores: seq<Store>, refreshes: seq<Refresh>, rules: Rules, oracle: Oracle, n: nat)
    requires IsRun(stores, refreshes, rules) && n < |refreshes|
    requires forall i :: 0 <= i < |refreshes| ==> Consistent(refreshes[i].disk, oracle)
    requires Refreshed(stores[n], stores[n + 1], rules, refreshes[n])
    ensures Rebuilt(stores[n + 1], rules, refreshes[n]) <==>
              NothingStale(stores[n], rules, refreshes[n], LimitsAt(stores, refreshes, rules, n))
  {
    hide Consistent, RowTruthful, Refreshed, Rebuilt, NothingStale;
    var limits := LimitsAt(stores, refreshes, rules, n);
    forall path
      ensures RowTruthful(stores[n], KeyOf(refreshes[n], path), rules, limits(KeyOf(refreshes[n], path)), oracle)
    {
      RunTruthful(stores, refreshes, rules, oracle, n, KeyOf(refreshes[n], path));
    }
    RefreshRebuildsExact(stores[n], stores[n + 1], rules, refreshes[n], limits, oracle);
  }

  /** With one read limit throughout, every successful refresh of every run leaves a rebuilt target. */
  lemma RunRebuilt(stores: seq<Store>, refreshes: seq<Refresh>, rules: Rules, oracle: Oracle, n: nat)
    requires IsRun(stores, refreshes, rules) && n < |refreshes|
    requires forall i :: 0 <= i < |refreshes| ==>
               Consistent(refreshes[i].disk, oracle) && refreshes[i].maxReadBytes == refreshes[0].maxReadBytes
    requires Refreshed(stores[n], stores[n + 1], rules, refreshes[n])
    ensures Rebuilt(stores[n + 1], rules, refreshes[n])
  {
    hide Consistent, RowTruthful, Refreshed, Rebuilt, Files, Listed;
    RunRebuiltExact(stores, refreshes, rules, oracle, n);
    var r := refreshes[n];
    var limits := LimitsAt(stores, refreshes, rules, n);
    forall path
      ensures !Stale(stores[n], rules, r, path, limits(KeyOf(r, path)))
    {
      if Stale(stores[n], rules, r, path, limits(KeyOf(r, path))) {
        OneLimit(stores, refreshes, rules, n, KeyOf(r, path));
      }
    }
  }

  lemma {:induction false} OneLimit(stores: seq<Store>, refreshes: seq<Refresh>, rules: Rules, n: nat, key: Key)
    requires IsRun(stores, refreshes, rules) && n <= |refreshes| && key in stores[n]
    requires forall i :: 0 <= i < |refreshes| ==> refreshes[i].maxReadBytes == refreshes[0].maxReadBytes
    ensures n > 0 && LimitAt(stores, refreshes, rules, n, key) == refreshes[0].maxReadBytes
  {
    if n > 0 {
      hide RefreshedAt, Listed;
      var r := refreshes[n - 1];
      assert RunStep(stores, refreshes, n - 1, rules);
      if Elsewhere(r, key) && stores[n - 1] != stores[n] {
        assert SameAt(stores[n - 1], stores[n], key);
      }
      if stores[n - 1] == stores[n] || Elsewhere(r, key) || Unread(stores[n - 1], rules, r, key.path) {
        assert Elsewhere(r, key) || KeyOf(r, key.path) == key;
        OneLimit(stores, refreshes, rules, n - 1, key);
      }
    }
  }

  /** Refreshing a directory that holds one file. */
  function OneFile(name: Text, size: nat, content: Text, maxReadBytes: nat): Refresh {
    var disk := Disk(true, [File(name)], map[[name] := Stat(true, size, 0)], map[[name] := content]);
    Refresh([], [], disk, 0, 1, maxReadBytes)
  }

  lemma OneFileFound(name: Text, size: nat, content: Text, maxReadBytes: nat, rules: Rules)
    requires rules.indexed([name])
    ensures Files(rules, OneFile(name, size, content, maxReadBytes)) == [[name]]
  {
    var r := OneFile(name, size, content, maxReadBytes);
    var root: seq<Entry> := [File(name)];
    var paths: seq<Path> := [[name]];
    assert root[..0] == [] && paths[..0] == [];
    var top: Path := [];
    assert top + [name] == [name];
    assert AllFiles(root, [], rules.indexed) == paths;
    assert Kept(r.disk, []) == [];
  }

  /** One file and two read limits on either side of it, whichever comes first: the second refresh leaves the row of the first. */
  lemma MovedLimitLeavesStale(rules: Rules, name: Text, size: nat, content: Text, from: nat, to: nat) returns (store: Store)
    requires TotalOrder(rules.precedes) && rules.indexed([name]) && (size <= from) != (size <= to)
    requires rules.derive([name], size, 0, content) != rules.derive([name], size, 0, [])
    ensures var first, second := OneFile(name, size, content, from), OneFile(name, size, content, to);
            && Refreshed(map[], store, rules, first) && Rebuilt(store, rules, first)
            && Refreshed(store, store, rules, second) && !Rebuilt(store, rules, second)
  {
    var first, second := OneFile(name, size, content, from), OneFile(name, size, content, to);
    var path: Path := [name];
    var key := KeyOf(first, path);
    OneFileFound(name, size, content, from, rules);
    OneFileFound(name, size, content, to, rules);
    hide Files;
    store := map[key := FreshRow(rules, first, path)];
    assert !Unread(map[], rules, first, path);
    assert TargetPaths(store, [], []) == {path} by {
      assert key in store;
    }
    assert Earlier({path}, path, rules.precedes) == {};
    assert Unread(store, rules, second, path);
    assert !RebuiltAt(store, rules, second, path);
  }
}

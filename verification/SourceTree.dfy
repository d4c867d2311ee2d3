/**
 The walk that finds the files of a source tree for its hash. A folder gives its entries in any order; the order is the
 file system's, so the walk may not depend on it.
*/
module SourceTree {
  import opened JsonStrings
  import opened Utf8
  import opened SourceHash

  const SLASH: Code := 47
  const PYCACHE: Text := [95, 95, 112, 121, 99, 97, 99, 104, 101, 95, 95]
  const DS_STORE: Text := [46, 68, 83, 95, 83, 116, 111, 114, 101]

  datatype Result<+T> = Ok(value: T) | Refusal

  datatype Node =
    | File(data: Bytes)
    | UnreadableFile
    | LinkToFolder
    | LinkToFile
    | OddFile
    | Folder(entries: map<Text, Node>)

  /** No file system lets a name hold a slash. */
  ghost predicate GoodNames(node: Node)
  {
    node.Folder? ==> forall name :: name in node.entries ==> SLASH !in name && GoodNames(node.entries[name])
  }

  // ---------- Which entry a path names ----------

  /** The part of a path before its first slash. */
  function Head(path: Text): (name: Text)
    ensures SLASH !in name && name <= path
    ensures |name| < |path| ==> path[|name|] == SLASH
  {
    if path == [] || path[0] == SLASH then [] else [path[0]] + Head(path[1..])
  }

  function Below(name: Text, path: Text): Text
  {
    name + [SLASH] + path
  }

  /** An entry the walk has to deal with: links to folders come with the folders, so only files are skipped by name. */
  predicate Listed(name: Text, entry: Node)
  {
    !entry.Folder? && (entry.LinkToFolder? || name != DS_STORE)
  }

  /** The walk of `folder` comes to `node` at `path`. */
  predicate Reaches(folder: Node, path: Text, node: Node)
    decreases |path|
  {
    folder.Folder? && Head(path) in folder.entries &&
    var name := Head(path);
    var entry := folder.entries[name];
    if |name| == |path| then Listed(name, entry) && entry == node
    else name != PYCACHE && Reaches(entry, path[|name| + 1..], node)
  }

  predicate WalkRefuses(node: Node) { node.LinkToFolder? || node.LinkToFile? || node.OddFile? }

  lemma {:induction false} HeadOf(name: Text, path: Text)
    requires SLASH !in name
    ensures Head(name) == name
    ensures Head(Below(name, path)) == name
  {
    if name != [] {
      HeadOf(name[1..], path);
      assert Below(name, path)[1..] == Below(name[1..], path);
      assert name == [name[0]] + name[1..];
    }
  }

  lemma ReachesBelow(folder: Node, name: Text, path: Text, node: Node)
    requires folder.Folder? && name in folder.entries && SLASH !in name
    ensures Reaches(folder, Below(name, path), node)
            <==> name != PYCACHE && Reaches(folder.entries[name], path, node)
  {
    HeadOf(name, path);
    assert Below(name, path)[|name| + 1..] == path;
  }

  lemma ReachesHere(folder: Node, name: Text, node: Node)
    requires folder.Folder? && name in folder.entries && SLASH !in name
    ensures Reaches(folder, name, node) <==> Listed(name, folder.entries[name]) && folder.entries[name] == node
  {
    HeadOf(name, []);
  }

  // ---------- The walk ----------

  /** What has been found so far in `folder`, whose own path is `base`, once the entries in `done` are dealt with. */
  ghost predicate FoundIs(found: map<Text, Node>, base: Text, folder: Node, done: set<Text>)
  {
    && (forall path: Text, node :: Reaches(folder, path, node) && Head(path) in done ==>
          base + path in found && found[base + path] == node)
    && (forall full :: full in found ==>
          base <= full && Head(full[|base|..]) in done && Reaches(folder, full[|base|..], found[full]))
  }

  ghost predicate Clean(folder: Node, done: set<Text>)
  {
    forall path: Text, node :: Reaches(folder, path, node) && Head(path) in done ==> !WalkRefuses(node)
  }

  ghost predicate Unclean(folder: Node)
  {
    exists path: Text, node :: Reaches(folder, path, node) && WalkRefuses(node)
  }

  method Walk(base: Text, folder: Node) returns (found: Result<map<Text, Node>>)
    requires folder.Folder? && GoodNames(folder)
    ensures found.Refusal? <==> Unclean(folder)
    ensures found.Ok? ==> FoundIs(found.value, base, folder, folder.entries.Keys)
    decreases folder
  {
    hide Reaches, Head, FoundIs, Clean, Unclean, Below;
    var files: map<Text, Node> := map[];
    var left := folder.entries.Keys;
    ghost var done: set<Text> := {};
    NothingFound(base, folder);
    while left != {}
      invariant left <= folder.entries.Keys
      invariant done == folder.entries.Keys - left
      invariant FoundIs(files, base, folder, done) && Clean(folder, done)
    {
      var name :| name in left;
      var entry := folder.entries[name];
      left := left - {name};
      if entry.Folder? && name != PYCACHE {
        var below := Walk(base + Below(name, []), entry);
        FolderOutcome(folder, done, name);
        if below.Refusal? {
          return Refusal;
        }
        AddFolder(files, base, folder, done, name, below.value);
        files := files + below.value;
      } else if entry.Folder? || (!entry.LinkToFolder? && name == DS_STORE) {
        SkipEntry(files, base, folder, done, name);
      } else if WalkRefuses(entry) {
        RefusedEntry(folder, name);
        return Refusal;
      } else {
        AddFile(files, base, folder, done, name);
        files := files[base + name := entry];
      }
      done := done + {name};
    }
    assert done == folder.entries.Keys;
    AllClean(folder);
    return Ok(files);
  }

  lemma NothingFound(base: Text, folder: Node)
    ensures FoundIs(map[], base, folder, {}) && Clean(folder, {})
  {
  }

  lemma AllClean(folder: Node)
    requires folder.Folder? && Clean(folder, folder.entries.Keys)
    ensures !Unclean(folder)
  {
    forall path: Text, node | Reaches(folder, path, node) ensures !WalkRefuses(node) {
      assert Head(path) in folder.entries.Keys;
    }
  }

  lemma RefusedEntry(folder: Node, name: Text)
    requires folder.Folder? && name in folder.entries && SLASH !in name
    requires Listed(name, folder.entries[name]) && WalkRefuses(folder.entries[name])
    ensures Unclean(folder)
  {
    ReachesHere(folder, name, folder.entries[name]);
  }

  lemma FolderOutcome(folder: Node, done: set<Text>, name: Text)
    requires folder.Folder? && name in folder.entries && SLASH !in name && name != PYCACHE
    requires folder.entries[name].Folder? && Clean(folder, done)
    ensures Unclean(folder.entries[name]) ==> Unclean(folder)
    ensures !Unclean(folder.entries[name]) ==> Clean(folder, done + {name})
  {
    hide Reaches, Head;
    var entry := folder.entries[name];
    if Unclean(entry) {
      var path: Text, node :| Reaches(entry, path, node) && WalkRefuses(node);
      ReachesBelow(folder, name, path, node);
    } else {
      forall path: Text, node | Reaches(folder, path, node) && Head(path) == name ensures !WalkRefuses(node) {
        var rest := RestOf(folder, name, path, node);
        assert Reaches(entry, rest, node);
      }
    }
  }

  /** A path that goes through a folder goes on below it. */
  lemma RestOf(folder: Node, name: Text, path: Text, node: Node) returns (rest: Text)
    requires folder.Folder? && name in folder.entries && SLASH !in name
    requires Head(path) == name && Reaches(folder, path, node) && folder.entries[name].Folder?
    ensures path == Below(name, rest) && name != PYCACHE && Reaches(folder.entries[name], rest, node)
  {
    hide Head;
    rest := if |path| == |name| then [] else path[|name| + 1..];
    assert |path| != |name|;
    assert path == path[..|name|] + [path[|name|]] + rest;
  }

  lemma AddFolder(files: map<Text, Node>, base: Text, folder: Node, done: set<Text>, name: Text,
                  below: map<Text, Node>)
    requires folder.Folder? && name in folder.entries && SLASH !in name && name != PYCACHE && name !in done
    requires folder.entries[name].Folder?
    requires FoundIs(files, base, folder, done)
    requires FoundIs(below, base + Below(name, []), folder.entries[name], folder.entries[name].entries.Keys)
    ensures FoundIs(files + below, base, folder, done + {name})
  {
    hide Reaches, Head;
    var entry := folder.entries[name];
    var inner := base + Below(name, []);
    forall path: Text, node | Reaches(folder, path, node) && Head(path) in done + {name}
      ensures base + path in files + below && (files + below)[base + path] == node
    {
      AddedPath(files, base, folder, done, name, below, path, node);
    }
    forall full | full in below
      ensures base <= full && Head(full[|base|..]) == name && Reaches(folder, full[|base|..], below[full])
    {
      var rest := full[|inner|..];
      assert full == inner + rest;
      assert full[|base|..] == Below(name, rest);
      HeadOf(name, rest);
      ReachesBelow(folder, name, rest, below[full]);
    }
  }

  lemma AddedPath(files: map<Text, Node>, base: Text, folder: Node, done: set<Text>, name: Text,
                  below: map<Text, Node>, path: Text, node: Node)
    requires folder.Folder? && name in folder.entries && SLASH !in name && name != PYCACHE && name !in done
    requires folder.entries[name].Folder?
    requires FoundIs(files, base, folder, done)
    requires FoundIs(below, base + Below(name, []), folder.entries[name], folder.entries[name].entries.Keys)
    requires Reaches(folder, path, node) && Head(path) in done + {name}
    ensures base + path in files + below && (files + below)[base + path] == node
  {
    hide Reaches, Head;
    var inner := base + Below(name, []);
    if Head(path) == name {
      var rest := RestOf(folder, name, path, node);
      assert base + path == inner + rest;
      HeadInside(folder.entries[name], rest, node);
    } else {
      assert base + path in files;
      if base + path in below {
        var rest := (base + path)[|inner|..];
        assert base + path == inner + rest;
        assert path == Below(name, rest);
        HeadOf(name, rest);
        assert false;
      }
    }
  }

  lemma HeadInside(folder: Node, path: Text, node: Node)
    requires Reaches(folder, path, node)
    ensures folder.Folder? && Head(path) in folder.entries.Keys
  {
  }

  lemma SkipEntry(files: map<Text, Node>, base: Text, folder: Node, done: set<Text>, name: Text)
    requires folder.Folder? && name in folder.entries && SLASH !in name
    requires folder.entries[name].Folder? ==> name == PYCACHE
    requires !folder.entries[name].Folder? ==> !Listed(name, folder.entries[name])
    requires FoundIs(files, base, folder, done) && Clean(folder, done)
    ensures FoundIs(files, base, folder, done + {name}) && Clean(folder, done + {name})
  {
    hide Reaches, Head;
    forall path: Text, node | Reaches(folder, path, node) && Head(path) == name ensures false {
      NotSkipped(folder, path, node);
    }
  }

  lemma NotSkipped(folder: Node, path: Text, node: Node)
    requires Reaches(folder, path, node)
    ensures folder.Folder? && Head(path) in folder.entries
    ensures var entry := folder.entries[Head(path)];
            if entry.Folder? then Head(path) != PYCACHE
            else Listed(Head(path), entry) && path == Head(path) && node == entry
  {
    if |Head(path)| < |path| {
      assert folder.entries[Head(path)].Folder?;
    }
  }

  lemma AddFile(files: map<Text, Node>, base: Text, folder: Node, done: set<Text>, name: Text)
    requires folder.Folder? && name in folder.entries && SLASH !in name && name !in done
    requires Listed(name, folder.entries[name]) && !WalkRefuses(folder.entries[name])
    requires FoundIs(files, base, folder, done) && Clean(folder, done)
    ensures FoundIs(files[base + name := folder.entries[name]], base, folder, done + {name})
    ensures Clean(folder, done + {name})
  {
    hide Reaches, Head;
    var entry := folder.entries[name];
    forall path: Text, node | Reaches(folder, path, node) && Head(path) == name
      ensures path == name && node == entry
    {
      NotSkipped(folder, path, node);
    }
    ReachesHere(folder, name, entry);
    HeadOf(name, []);
    assert (base + name)[|base|..] == name;
    forall full | full in files ensures full != base + name {
      assert Head(full[|base|..]) in done;
    }
  }

  // ---------- The stream of a tree ----------

  /** A file the hash can take: read, with a name that UTF-8 can hold and lengths that eight bytes can. */
  predicate Hashable(path: Text, node: Node)
  {
    node.File? && CanRecord(path, node.data)
  }

  ghost predicate Refused(root: Node)
  {
    !root.Folder? || exists path: Text, node :: Reaches(root, path, node) && !Hashable(path, node)
  }

  ghost predicate FilesOf(root: Node, files: map<Text, Bytes>)
  {
    forall path: Text, data: Bytes :: Reaches(root, path, File(data)) <==> path in files && files[path] == data
  }

  ghost predicate StreamOfTree(root: Node, stream: Bytes)
  {
    exists files :: FilesOf(root, files) && IsStreamOf(files, stream)
  }

  lemma UncleanIsRefused(root: Node)
    ensures Unclean(root) ==> Refused(root)
  {
    if Unclean(root) {
      var path: Text, node :| Reaches(root, path, node) && WalkRefuses(node);
      assert !Hashable(path, node);
    }
  }

  /** The walk of a whole tree: the paths it comes to, and what is there. */
  ghost predicate IsWalkOf(root: Node, found: map<Text, Node>)
  {
    && (forall path: Text, node :: Reaches(root, path, node) ==> path in found && found[path] == node)
    && (forall path :: path in found ==> Reaches(root, path, found[path]))
  }

  lemma WholeWalk(root: Node, found: map<Text, Node>)
    requires root.Folder? && FoundIs(found, [], root, root.entries.Keys)
    ensures IsWalkOf(root, found)
  {
    hide Reaches, Head;
    var base: Text := [];
    forall path: Text, node | Reaches(root, path, node) ensures path in found && found[path] == node {
      HeadInside(root, path, node);
      assert base + path == path;
    }
    forall path | path in found ensures Reaches(root, path, found[path]) {
      assert path[|base|..] == path;
    }
  }

  /** Returns what is fed to the hash. The order in which folders list their entries does not show in it. */
  method SourceStream(root: Node) returns (stream: Result<Bytes>)
    requires GoodNames(root)
    ensures stream.Refusal? <==> Refused(root)
    ensures stream.Ok? ==> StreamOfTree(root, stream.value)
  {
    hide GoodNames, Unclean, FoundIs, StreamOfTree;
    if !root.Folder? {
      return Refusal;
    }
    var found := Walk([], root);
    UncleanIsRefused(root);
    if found.Refusal? {
      return Refusal;
    }
    WholeWalk(root, found.value);
    stream := HashFound(root, found.value);
  }

  function DataOf(found: map<Text, Node>): map<Text, Bytes>
  {
    map path | path in found && found[path].File? :: found[path].data
  }

  method HashFound(root: Node, found: map<Text, Node>) returns (stream: Result<Bytes>)
    requires root.Folder? && IsWalkOf(root, found)
    ensures stream.Refusal? <==> Refused(root)
    ensures stream.Ok? ==> StreamOfTree(root, stream.value)
  {
    hide IsWalkOf, Refused, StreamOfTree, Reaches, Ordered, Stream, Prefixed, Encodable, LengthsFit;
    var names := Sorted(found.Keys);
    var fed: Bytes := [];
    ghost var records: seq<Record> := [];
    StreamOfNothing();
    for i := 0 to |names|
      invariant fed == Stream(records)
      invariant IsHashed(names[..i], found, records)
    {
      var name := names[i];
      assert name in found.Keys;
      var node := found[name];
      if !node.File? || !Encodable(name) {
        OneRefused(root, found, name);
        return Refusal;
      }
      var record := RecordOf(name, node.data);
      if !LengthsFit(record) {
        OneRefused(root, found, name);
        return Refusal;
      }
      StreamGrows(records, record);
      records := records + [record];
      fed := fed + Prefixed(record.name) + Prefixed(record.data);
    }
    assert names[..|names|] == names;
    AllHashed(root, found, names, records);
    return Ok(fed);
  }

  lemma StreamOfNothing()
    ensures Stream([]) == []
  {
  }

  lemma {:induction false} StreamGrows(records: seq<Record>, record: Record)
    ensures Stream(records + [record]) == Stream(records) + Prefixed(record.name) + Prefixed(record.data)
  {
    hide Prefixed;
    if records == [] {
      assert [record][1..] == [];
      assert [] + [record] == [record];
    } else {
      StreamGrows(records[1..], record);
      assert (records + [record])[1..] == records[1..] + [record];
    }
  }

  /** `records` are those of `names`, and each could be taken. */
  ghost predicate IsHashed(names: seq<Text>, found: map<Text, Node>, records: seq<Record>)
  {
    && |records| == |names|
    && forall i :: 0 <= i < |names| ==> HashedAt(names[i], found, records[i])
  }

  predicate HashedAt(name: Text, found: map<Text, Node>, record: Record)
  {
    name in found && Hashable(name, found[name]) && record == RecordOf(name, found[name].data)
  }

  lemma OneRefused(root: Node, found: map<Text, Node>, name: Text)
    requires IsWalkOf(root, found) && name in found && !Hashable(name, found[name])
    ensures Refused(root)
  {
    hide Hashable, Reaches;
  }

  lemma AllHashed(root: Node, found: map<Text, Node>, names: seq<Text>, records: seq<Record>)
    requires root.Folder? && IsWalkOf(root, found)
    requires SortedNames(names, found.Keys) && IsHashed(names, found, records)
    ensures !Refused(root) && StreamOfTree(root, Stream(records))
  {
    hide Reaches, Ordered, Stream, RecordOf;
    var files := DataOf(found);
    forall name | name in found ensures Hashable(name, found[name]) {
      assert name in names;
      var i :| 0 <= i < |names| && names[i] == name;
      assert HashedAt(names[i], found, records[i]);
    }
    assert files.Keys == found.Keys;
    assert FilesOf(root, files);
    assert CanRecordAll(files);
    forall i | 0 <= i < |names| ensures names[i] in files && records[i] == RecordOf(names[i], files[names[i]]) {
      assert HashedAt(names[i], found, records[i]);
    }
    assert records == RecordsOf(names, files);
    assert IsStreamOf(files, Stream(records));
  }

  // ---------- One tree, one stream ----------

  lemma SameFilesOf(root: Node, f: map<Text, Bytes>, g: map<Text, Bytes>)
    requires FilesOf(root, f) && FilesOf(root, g)
    ensures f == g
  {
    hide Reaches;
    forall path | path in f ensures path in g && f[path] == g[path] {
      assert Reaches(root, path, File(f[path]));
    }
    forall path | path in g ensures path in f {
      assert Reaches(root, path, File(g[path]));
    }
  }

  /** Whatever order the folders are listed in, a tree gives one stream. */
  lemma TreeDecidesStream(root: Node, s: Bytes, t: Bytes)
    requires StreamOfTree(root, s) && StreamOfTree(root, t)
    ensures s == t
  {
    hide Reaches, IsStreamOf, FilesOf;
    var f :| FilesOf(root, f) && IsStreamOf(f, s);
    var g :| FilesOf(root, g) && IsStreamOf(g, t);
    SameFilesOf(root, f, g);
    FilesDecideStream(f, s, t);
  }

  /** No two trees give one stream unless every path leads to the same bytes in both. */
  lemma StreamDecidesTree(one: Node, two: Node, stream: Bytes, path: Text, data: Bytes)
    requires StreamOfTree(one, stream) && StreamOfTree(two, stream)
    ensures Reaches(one, path, File(data)) <==> Reaches(two, path, File(data))
  {
    hide Reaches, IsStreamOf;
    var f :| FilesOf(one, f) && IsStreamOf(f, stream);
    var g :| FilesOf(two, g) && IsStreamOf(g, stream);
    StreamDecidesFiles(f, g, stream);
    assert Reaches(one, path, File(data)) <==> path in f && f[path] == data;
  }

  /** Trees whose files differ nowhere give the same stream, so an edit in a skipped folder does not move it. */
  lemma SameFilesSameStream(one: Node, two: Node, s: Bytes, t: Bytes)
    requires StreamOfTree(one, s) && StreamOfTree(two, t)
    requires forall path: Text, data: Bytes :: Reaches(one, path, File(data)) <==> Reaches(two, path, File(data))
    ensures s == t
  {
    hide Reaches, IsStreamOf;
    var f :| FilesOf(one, f) && IsStreamOf(f, s);
    assert FilesOf(two, f);
    TreeDecidesStream(two, s, t);
  }
}

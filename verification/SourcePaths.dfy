/** Which files of a tree the hash covers, name by name on the way down, and what each adds to the stream. */
module SourcePaths {
  import opened JsonStrings
  import opened Utf8
  import opened SourceHash
  import opened SourceTree

  /** The names on the way to an entry, joined by slashes. */
  function JoinPath(names: seq<Text>): Text
    requires names != []
  {
    if |names| == 1 then names[0] else names[0] + FromString("/") + JoinPath(names[1..])
  }

  /**
   The names lead down to `node`, which is no folder: through no folder called `__pycache__`, and not to a file called
   `.DS_Store`. A link to a folder counts whatever its name is.
  */
  ghost predicate LiesAt(folder: Node, names: seq<Text>, node: Node)
    decreases |names|
  {
    folder.Folder? && names != [] && names[0] in folder.entries &&
    var entry := folder.entries[names[0]];
    if |names| == 1 then entry == node && !entry.Folder? && (entry.LinkToFolder? || names[0] != FromString(".DS_Store"))
    else names[0] != FromString("__pycache__") && LiesAt(entry, names[1..], node)
  }

  lemma SkippedNames()
    ensures PYCACHE == FromString("__pycache__") && DS_STORE == FromString(".DS_Store")
  {
  }

  lemma {:induction false} LyingIsReached(folder: Node, names: seq<Text>, node: Node)
    requires GoodNames(folder) && LiesAt(folder, names, node)
    ensures Reaches(folder, JoinPath(names), node)
    decreases |names|
  {
    hide Reaches, FromString, GoodNames;
    SkippedNames();
    NamesBelow(folder, names[0]);
    if |names| == 1 {
      ReachesHere(folder, names[0], node);
    } else {
      LyingIsReached(folder.entries[names[0]], names[1..], node);
      ReachesBelow(folder, names[0], JoinPath(names[1..]), node);
      SlashIsOne(names[0], JoinPath(names[1..]));
    }
  }

  lemma SlashIsOne(name: Text, path: Text)
    ensures name + FromString("/") + path == Below(name, path)
  {
    assert FromString("/") == [SourceTree.SLASH];
  }

  lemma NamesBelow(folder: Node, name: Text)
    requires GoodNames(folder) && folder.Folder? && name in folder.entries
    ensures SourceTree.SLASH !in name && GoodNames(folder.entries[name])
  {
  }

  lemma {:induction false} ReachedLies(folder: Node, path: Text, node: Node) returns (names: seq<Text>)
    requires Reaches(folder, path, node)
    ensures names != [] && JoinPath(names) == path && LiesAt(folder, names, node)
    decreases |path|
  {
    hide FromString;
    SkippedNames();
    var name := Head(path);
    if |name| == |path| {
      names := [name];
    } else {
      var rest := path[|name| + 1..];
      var below := ReachedLies(folder.entries[name], rest, node);
      names := [name] + below;
      assert names[1..] == below;
      SlashIsOne(name, rest);
      assert path == name + [path[|name|]] + rest;
    }
  }

  /** The walk comes to exactly the entries that names lead to. */
  lemma ReachesExactly(folder: Node, path: Text, node: Node)
    requires GoodNames(folder)
    ensures Reaches(folder, path, node)
            <==> exists names :: names != [] && JoinPath(names) == path && LiesAt(folder, names, node)
  {
    hide Reaches, LiesAt, JoinPath, GoodNames;
    if Reaches(folder, path, node) {
      var names := ReachedLies(folder, path, node);
    }
    if names :| names != [] && JoinPath(names) == path && LiesAt(folder, names, node) {
      LyingIsReached(folder, names, node);
    }
  }

  // ---------- What cannot be hashed ----------

  /** A file that was read, with a name that has no surrogate, and lengths below 2 to the 64. */
  ghost predicate Fits(path: Text, node: Node)
  {
    && node.File? && |node.data| < 0x1_0000_0000_0000_0000
    && (forall i :: 0 <= i < |path| ==> !(0xD800 <= path[i] <= 0xDFFF))
    && |Encode(path)| < 0x1_0000_0000_0000_0000
  }

  lemma LengthLimit()
    ensures LENGTH_LIMIT == 0x1_0000_0000_0000_0000
  {
    assert Pow256(4) == 0x1_0000_0000;
    assert Pow256(8) == 256 * (256 * (256 * (256 * Pow256(4))));
  }

  lemma HashableExactly(path: Text, node: Node)
    ensures Hashable(path, node) <==> Fits(path, node)
  {
    hide Encode, Pow256;
    LengthLimit();
  }

  /** A tree is refused exactly when it is no folder or holds a link, an odd file, or a file that does not fit. */
  lemma RefusedExactly(root: Node)
    requires GoodNames(root)
    ensures Refused(root) <==>
              !root.Folder? || exists names, node :: LiesAt(root, names, node) && !Fits(JoinPath(names), node)
  {
    hide Reaches, JoinPath, GoodNames, Hashable, Fits;
    if root.Folder? && Refused(root) {
      var path: Text, node :| Reaches(root, path, node) && !Hashable(path, node);
      HashableExactly(path, node);
      var names := ReachedLies(root, path, node);
    }
    if names, node :| LiesAt(root, names, node) && !Fits(JoinPath(names), node) {
      LyingIsReached(root, names, node);
      HashableExactly(JoinPath(names), node);
    }
  }

  // ---------- What a file adds ----------

  /** The eight bytes of a length, written out. */
  function EightBytes(n: nat): Bytes
  {
    [n / 0x100_0000_0000_0000 % 256, n / 0x1_0000_0000_0000 % 256, n / 0x100_0000_0000 % 256, n / 0x1_0000_0000 % 256,
     n / 0x100_0000 % 256, n / 0x1_0000 % 256, n / 0x100 % 256, n % 256]
  }

  lemma BigEndianStep(n: nat, k: nat)
    requires k > 0
    ensures BigEndian(n, k) == BigEndian(n / 256, k - 1) + [n % 256]
  {
  }

  lemma LengthIsEightBytes(n: nat)
    ensures BigEndian(n, 8) == EightBytes(n)
  {
    hide BigEndian;
    var a, b, c := n / 0x100, n / 0x1_0000, n / 0x100_0000;
    var d, e, f, g := n / 0x1_0000_0000, n / 0x100_0000_0000, n / 0x1_0000_0000_0000, n / 0x100_0000_0000_0000;
    BigEndianStep(n, 8);
    BigEndianStep(a, 7);
    BigEndianStep(b, 6);
    BigEndianStep(c, 5);
    BigEndianStep(d, 4);
    BigEndianStep(e, 3);
    BigEndianStep(f, 2);
    BigEndianStep(g, 1);
    assert BigEndian(g / 256, 0) == [];
    assert a / 256 == b && b / 256 == c && c / 256 == d && d / 256 == e && e / 256 == f && f / 256 == g;
  }

  /** A file adds the length of its name, its name, the length of its bytes and its bytes. */
  lemma StreamOfOne(record: Record)
    ensures Stream([record])
            == EightBytes(|record.name|) + record.name + EightBytes(|record.data|) + record.data
  {
    hide BigEndian, EightBytes;
    LengthIsEightBytes(|record.name|);
    LengthIsEightBytes(|record.data|);
    assert [record][1..] == [] && Stream([]) == [];
  }

  lemma {:induction false} StreamConcat(x: seq<Record>, y: seq<Record>)
    ensures Stream(x + y) == Stream(x) + Stream(y)
  {
    if x == [] {
      assert x + y == y;
    } else {
      StreamConcat(x[1..], y);
      assert (x + y)[0] == x[0] && (x + y)[1..] == x[1..] + y;
      hide Prefixed;
      var first := Prefixed(x[0].name) + Prefixed(x[0].data);
      assert Stream(x + y) == first + Stream(x[1..] + y) && Stream(x) == first + Stream(x[1..]);
      hide Stream;
      Appended(first, Stream(x[1..]), Stream(y));
    }
  }

  lemma Appended(a: Bytes, b: Bytes, c: Bytes)
    ensures a + (b + c) == (a + b) + c
  {
  }

  /** Names are ordered by their first differing code point, and a prefix comes first. */
  lemma {:induction false} BeforeExactly(a: Text, b: Text)
    ensures Before(a, b) <==>
              exists k :: 0 <= k <= |a| && k < |b| && a[..k] == b[..k] && (k < |a| ==> a[k] < b[k])
  {
    if a != [] && b != [] && a[0] == b[0] {
      var c, d := a[1..], b[1..];
      BeforeExactly(c, d);
      if k :| 0 <= k <= |a| && k < |b| && a[..k] == b[..k] && (k < |a| ==> a[k] < b[k]) {
        assert k > 0;
        assert c[..k - 1] == a[..k][1..] && d[..k - 1] == b[..k][1..];
        assert k < |a| ==> c[k - 1] < d[k - 1];
      }
      if k :| 0 <= k <= |c| && k < |d| && c[..k] == d[..k] && (k < |c| ==> c[k] < d[k]) {
        assert a[..k + 1] == [a[0]] + c[..k] && b[..k + 1] == [b[0]] + d[..k];
        assert k + 1 < |a| ==> a[k + 1] < b[k + 1];
      }
    } else {
      assert a[..0] == b[..0];
      assert forall k :: 0 < k <= |a| && k < |b| && a[..k] == b[..k] ==> a[..k][0] == a[0] && b[..k][0] == b[0];
    }
  }
}

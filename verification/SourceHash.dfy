/**
 The stream of bytes that the hash of a source tree is taken of: every file's name and bytes, each after its length, in
 the order of the sorted names. The hash itself is not modelled; what is fed to it is.
*/
module SourceHash {
  import opened Options
  import opened JsonStrings
  import opened Utf8

  // ---------- Lengths as eight bytes ----------

  function Pow256(k: nat): (p: nat)
    ensures p >= 1
  {
    if k == 0 then 1 else 256 * Pow256(k - 1)
  }

  const LENGTH_LIMIT: nat := Pow256(8)

  /** `n` as `k` bytes, the most significant first. */
  function BigEndian(n: nat, k: nat): (b: Bytes)
    ensures |b| == k
  {
    if k == 0 then []
    else
      var low: int := n % 256;
      BigEndian(n / 256, k - 1) + [low]
  }

  function FromBigEndian(b: Bytes): nat
  {
    if b == [] then 0 else FromBigEndian(b[..|b| - 1]) * 256 + b[|b| - 1]
  }

  lemma {:induction false} BigEndianRoundTrips(n: nat, k: nat)
    requires n < Pow256(k)
    ensures FromBigEndian(BigEndian(n, k)) == n
  {
    if k > 0 {
      BigEndianRoundTrips(n / 256, k - 1);
      var b := BigEndian(n, k);
      assert b[..k - 1] == BigEndian(n / 256, k - 1);
    }
  }

  // ---------- The stream ----------

  datatype Record = Record(name: Bytes, data: Bytes)

  predicate LengthsFit(record: Record)
  {
    |record.name| < LENGTH_LIMIT && |record.data| < LENGTH_LIMIT
  }

  function Prefixed(b: Bytes): Bytes
  {
    BigEndian(|b|, 8) + b
  }

  function Stream(records: seq<Record>): Bytes
  {
    if records == [] then []
    else Prefixed(records[0].name) + Prefixed(records[0].data) + Stream(records[1..])
  }

  /** Takes one length and that many bytes off the front. */
  function Take(b: Bytes): (r: Option<(Bytes, Bytes)>)
    ensures r.Some? ==> |r.value.1| < |b|
  {
    if |b| < 8 || |b| < 8 + FromBigEndian(b[..8]) then None
    else
      var end := 8 + FromBigEndian(b[..8]);
      Some((b[8..end], b[end..]))
  }

  /** Reads a stream back, or finds that it is none. */
  function Decode(b: Bytes): Option<seq<Record>>
    decreases |b|
  {
    if b == [] then Some([])
    else
      var name := Take(b);
      if name.None? then None
      else
        var data := Take(name.value.1);
        if data.None? then None
        else
          var rest := Decode(data.value.1);
          if rest.None? then None else Some([Record(name.value.0, data.value.0)] + rest.value)
  }

  lemma TakePrefixed(b: Bytes, rest: Bytes)
    requires |b| < LENGTH_LIMIT
    ensures Take(Prefixed(b) + rest) == Some((b, rest))
  {
    hide BigEndian, FromBigEndian, Pow256;
    var whole := Prefixed(b) + rest;
    assert whole[..8] == BigEndian(|b|, 8);
    BigEndianRoundTrips(|b|, 8);
    assert whole[8..8 + |b|] == b;
    assert whole[8 + |b|..] == rest;
  }

  lemma {:induction false} StreamRoundTrips(records: seq<Record>)
    requires forall i :: 0 <= i < |records| ==> LengthsFit(records[i])
    ensures Decode(Stream(records)) == Some(records)
  {
    hide BigEndian, FromBigEndian, Pow256, Take;
    if records != [] {
      var first, rest := records[0], records[1..];
      StreamRoundTrips(rest);
      assert LengthsFit(first);
      TakePrefixed(first.name, Prefixed(first.data) + Stream(rest));
      TakePrefixed(first.data, Stream(rest));
      assert Stream(records) == Prefixed(first.name) + (Prefixed(first.data) + Stream(rest));
      assert [first] + rest == records;
    }
  }

  // ---------- Sorted names ----------

  /** How Python orders two strings: by their first differing code point, a prefix first. */
  predicate Before(a: Text, b: Text)
  {
    b != [] && (a == [] || a[0] < b[0] || (a[0] == b[0] && Before(a[1..], b[1..])))
  }

  lemma {:induction false} BeforeIsAsymmetric(a: Text, b: Text)
    ensures !(Before(a, b) && Before(b, a))
  {
    if a != [] && b != [] {
      BeforeIsAsymmetric(a[1..], b[1..]);
    }
  }

  lemma {:induction false} BeforeIsTotal(a: Text, b: Text)
    ensures Before(a, b) || Before(b, a) || a == b
  {
    if a != [] && b != [] {
      BeforeIsTotal(a[1..], b[1..]);
      assert a == [a[0]] + a[1..];
      assert b == [b[0]] + b[1..];
    }
  }

  lemma {:induction false} BeforeIsTransitive(a: Text, b: Text, c: Text)
    requires Before(a, b) && Before(b, c)
    ensures Before(a, c)
  {
    if a != [] && a[0] == b[0] == c[0] {
      BeforeIsTransitive(a[1..], b[1..], c[1..]);
    }
  }

  ghost predicate Ordered(names: seq<Text>)
  {
    forall i: nat, j: nat :: i < j < |names| ==> Before(names[i], names[j])
  }

  /** Two sorted sequences of the same names are the same. */
  lemma {:induction false} OneSortedOrder(a: seq<Text>, b: seq<Text>)
    requires Ordered(a) && Ordered(b)
    requires forall name :: name in a <==> name in b
    ensures a == b
  {
    hide Before;
    assert b != [] ==> a != [] by {
      if b != [] {
        assert b[0] in a;
      }
    }
    if a != [] {
      assert a[0] in b;
      SameFirst(a, b);
      forall name ensures name in a[1..] <==> name in b[1..] {
        TailLacksFirst(a, name);
        TailLacksFirst(b, name);
      }
      OneSortedOrder(a[1..], b[1..]);
      assert a == [a[0]] + a[1..];
      assert b == [b[0]] + b[1..];
    }
  }

  lemma SameFirst(a: seq<Text>, b: seq<Text>)
    requires Ordered(a) && Ordered(b) && a != [] && b != []
    requires forall name :: name in a <==> name in b
    ensures a[0] == b[0]
  {
    hide Before;
    assert a[0] in b && b[0] in a;
    var i: nat :| i < |b| && b[i] == a[0];
    var j: nat :| j < |a| && a[j] == b[0];
    if a[0] != b[0] {
      BeforeIsAsymmetric(a[0], b[0]);
    }
  }

  lemma TailLacksFirst(a: seq<Text>, name: Text)
    requires Ordered(a) && a != []
    ensures name in a[1..] <==> name in a && name != a[0]
  {
    hide Before;
    BeforeIsAsymmetric(a[0], a[0]);
    assert a == [a[0]] + a[1..];
  }

  ghost predicate SortedNames(names: seq<Text>, keys: set<Text>)
  {
    Ordered(names) && forall name :: name in names <==> name in keys
  }

  /** Where `name` belongs among sorted names: everything before `at` is before it. */
  method PlaceFor(names: seq<Text>, name: Text) returns (at: nat)
    requires Ordered(names) && name !in names
    ensures at <= |names|
    ensures forall i: nat :: i < at ==> Before(names[i], name)
    ensures forall i: nat :: at <= i < |names| ==> Before(name, names[i])
  {
    hide Before;
    at := 0;
    while at < |names| && Before(names[at], name)
      invariant at <= |names|
      invariant forall i: nat :: i < at ==> Before(names[i], name)
    {
      at := at + 1;
    }
    if at < |names| {
      BeforeIsTotal(names[at], name);
      forall i: nat | at < i < |names| ensures Before(name, names[i]) {
        BeforeIsTransitive(name, names[at], names[i]);
      }
    }
  }

  /** The names in sorted order, whatever order they are taken in. */
  method Sorted(keys: set<Text>) returns (names: seq<Text>)
    ensures SortedNames(names, keys)
  {
    hide Before;
    names := [];
    var left := keys;
    while left != {}
      invariant left <= keys
      invariant SortedNames(names, keys - left)
    {
      var name :| name in left;
      var at := PlaceFor(names, name);
      InsertKeepsOrder(names, keys - left, name, at);
      names := names[..at] + [name] + names[at..];
      left := left - {name};
      assert keys - left == keys - (left + {name}) + {name};
    }
    assert keys - {} == keys;
  }

  lemma InsertKeepsOrder(names: seq<Text>, keys: set<Text>, name: Text, at: nat)
    requires SortedNames(names, keys) && name !in keys && at <= |names|
    requires forall i: nat :: i < at ==> Before(names[i], name)
    requires forall i: nat :: at <= i < |names| ==> Before(name, names[i])
    ensures SortedNames(names[..at] + [name] + names[at..], keys + {name})
  {
    hide Before;
    var longer := names[..at] + [name] + names[at..];
    assert Ordered(longer);
    assert names == names[..at] + names[at..];
  }

  // ---------- The stream of a set of files ----------

  function RecordOf(name: Text, data: Bytes): Record
    requires Encodable(name)
  {
    Record(Encode(name), data)
  }

  predicate CanRecord(name: Text, data: Bytes)
  {
    Encodable(name) && LengthsFit(RecordOf(name, data))
  }

  predicate CanRecordAll(files: map<Text, Bytes>)
  {
    forall name :: name in files ==> CanRecord(name, files[name])
  }

  predicate NamesOf(names: seq<Text>, files: map<Text, Bytes>)
  {
    forall i :: 0 <= i < |names| ==> names[i] in files
  }

  function RecordsOf(names: seq<Text>, files: map<Text, Bytes>): (records: seq<Record>)
    requires CanRecordAll(files) && NamesOf(names, files)
    ensures |records| == |names|
    ensures forall i :: 0 <= i < |names| ==> records[i] == RecordOf(names[i], files[names[i]])
    ensures forall i :: 0 <= i < |names| ==> LengthsFit(records[i])
  {
    seq(|names|, i requires 0 <= i < |names| => RecordOf(names[i], files[names[i]]))
  }

  ghost predicate IsStreamOf(files: map<Text, Bytes>, stream: Bytes)
  {
    && CanRecordAll(files)
    && exists names :: SortedNames(names, files.Keys) && NamesOf(names, files)
                       && stream == Stream(RecordsOf(names, files))
  }

  /** The files decide the stream, whatever order they were found in. */
  lemma FilesDecideStream(files: map<Text, Bytes>, s: Bytes, t: Bytes)
    requires IsStreamOf(files, s) && IsStreamOf(files, t)
    ensures s == t
  {
    hide Ordered, Stream, CanRecordAll;
    var a :| SortedNames(a, files.Keys) && NamesOf(a, files) && s == Stream(RecordsOf(a, files));
    var b :| SortedNames(b, files.Keys) && NamesOf(b, files) && t == Stream(RecordsOf(b, files));
    OneSortedOrder(a, b);
  }

  /** The stream decides the files: no two sets of files give the same one. */
  lemma StreamDecidesFiles(f: map<Text, Bytes>, g: map<Text, Bytes>, stream: Bytes)
    requires IsStreamOf(f, stream) && IsStreamOf(g, stream)
    ensures f == g
  {
    hide Ordered, Stream, CanRecordAll;
    var a :| SortedNames(a, f.Keys) && NamesOf(a, f) && stream == Stream(RecordsOf(a, f));
    var b :| SortedNames(b, g.Keys) && NamesOf(b, g) && stream == Stream(RecordsOf(b, g));
    StreamRoundTrips(RecordsOf(a, f));
    StreamRoundTrips(RecordsOf(b, g));
    SameRecords(a, f, b, g);
  }

  lemma SameRecords(a: seq<Text>, f: map<Text, Bytes>, b: seq<Text>, g: map<Text, Bytes>)
    requires CanRecordAll(f) && CanRecordAll(g) && NamesOf(a, f) && NamesOf(b, g)
    requires SortedNames(a, f.Keys) && SortedNames(b, g.Keys)
    requires RecordsOf(a, f) == RecordsOf(b, g)
    ensures f == g
  {
    hide Ordered, Encode, Encodable, RecordsOf;
    assert |a| == |b|;
    forall i | 0 <= i < |a| ensures a[i] == b[i] && f[a[i]] == g[b[i]] {
      assert CanRecord(a[i], f[a[i]]) && CanRecord(b[i], g[b[i]]);
      assert RecordOf(a[i], f[a[i]]) == RecordOf(b[i], g[b[i]]);
      EncodeInjective(a[i], b[i]);
    }
    assert a == b;
    assert f.Keys == g.Keys;
    forall name | name in f ensures f[name] == g[name] {
      assert name in a;
    }
  }
}

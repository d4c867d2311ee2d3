/**
 The cached count of a vault's chunk vectors. Checks in any number of processes read a key from the vault with separate
 queries, look the key up in one cache file, and count the vault and replace the file when it is not there, while
 writers change the vault at any moment. The count itself, and what a vector or a chunk holds, are opaque.
*/
module CensusCache {

  type Row = nat
  type Content = nat
  type Pid = nat

  datatype Source = Source(live: bool, scrubbed: bool)

  datatype Vault = Vault(stamp: nat, vectors: map<Row, Content>, chunks: map<Row, Content>, sources: map<Row, Source>)

  /** The signature of the provider in force and the digest the build recorded. */
  datatype Setting = Setting(signature: nat, modelDigest: nat)

  datatype Counts = Counts(pending: nat, stale: nat, stored: nat, current: nat, dimensions: seq<nat>, signature: nat)

  type Census = (Vault, Setting) -> Counts

  // ---------- What writers do to a vault ----------

  /**
   Notes are only imported, retired or scrubbed; a scrub may rewrite the texts of chunks. A vector that is overwritten
   or deleted comes with a new stamp, one that is added does not.
  */
  datatype Op =
    | AddVector(content: Content)
    | OverwriteVector(row: Row, content: Content, stamp: nat)
    | DeleteVector(row: Row, stamp: nat)
    | Import(chunks: map<Row, Content>)
    | Retire(row: Row)
    | Scrub(row: Row, chunks: map<Row, Content>)

  /** The highest row number, 0 for an empty table. */
  ghost function MaxRow(rows: set<Row>): (high: Row)
    ensures forall row :: row in rows ==> row <= high
    ensures high == 0 || high in rows
  {
    if rows == {} then 0
    else
      var row :| row in rows;
      var rest := MaxRow(rows - {row});
      assert rows == (rows - {row}) + {row};
      if row > rest then row else rest
  }

  ghost predicate Fresh(history: seq<Vault>, stamp: nat)
  {
    forall i :: 0 <= i < |history| ==> history[i].stamp != stamp
  }

  function Latest(history: seq<Vault>): Vault
    requires history != []
  {
    history[|history| - 1]
  }

  /** Whether an operation can be the next one after a history of vaults. */
  ghost predicate Possible(history: seq<Vault>, op: Op)
    requires history != []
  {
    var v := Latest(history);
    match op
    case AddVector(_) => true
    case OverwriteVector(row, _, stamp) => row in v.vectors && Fresh(history, stamp)
    case DeleteVector(row, stamp) => row in v.vectors && Fresh(history, stamp)
    case Import(chunks) => forall row :: row in v.chunks ==> row in chunks && chunks[row] == v.chunks[row]
    case Retire(row) => row in v.sources && v.sources[row].live
    case Scrub(row, chunks) => row in v.sources && !v.sources[row].scrubbed && chunks.Keys == v.chunks.Keys
  }

  ghost function ApplyOp(v: Vault, op: Op): Vault
  {
    match op
    case AddVector(content) => v.(vectors := v.vectors[MaxRow(v.vectors.Keys) + 1 := content])
    case OverwriteVector(row, content, stamp) => v.(vectors := v.vectors[row := content], stamp := stamp)
    case DeleteVector(row, stamp) => v.(vectors := v.vectors - {row}, stamp := stamp)
    case Import(chunks) =>
      v.(chunks := chunks, sources := v.sources[MaxRow(v.sources.Keys) + 1 := Source(true, false)])
    case Retire(row) =>
      if row in v.sources then v.(sources := v.sources[row := v.sources[row].(live := false)]) else v
    case Scrub(row, chunks) =>
      if row in v.sources then v.(sources := v.sources[row := v.sources[row].(scrubbed := true)], chunks := chunks)
      else v
  }

  // ---------- The key of a check ----------

  /** Which of the vaults of a history each query of a key read. */
  datatype Reading = Reading(setting: Setting, stampAt: nat, vectorsAt: nat, chunksAt: nat, sourcesAt: nat)

  datatype Key = Key(setting: Setting, stamp: nat, vectors: (nat, nat), chunks: (nat, nat),
                     sources: (nat, nat, nat, nat))

  function Live(sources: map<Row, Source>): set<Row>
  {
    set row | row in sources && sources[row].live
  }

  function Scrubbed(sources: map<Row, Source>): set<Row>
  {
    set row | row in sources && sources[row].scrubbed
  }

  predicate InOrder(r: Reading, end: nat)
  {
    r.stampAt <= r.vectorsAt <= r.chunksAt <= r.sourcesAt < end
  }

  ghost function KeyOf(history: seq<Vault>, r: Reading): Key
    requires InOrder(r, |history|)
  {
    var vectors, chunks := history[r.vectorsAt].vectors.Keys, history[r.chunksAt].chunks.Keys;
    var sources := history[r.sourcesAt].sources;
    Key(r.setting, history[r.stampAt].stamp, (|vectors|, MaxRow(vectors)), (|chunks|, MaxRow(chunks)),
        (|sources.Keys|, MaxRow(sources.Keys), |Live(sources)|, |Scrubbed(sources)|))
  }

  // ---------- What never goes back in a history ----------

  function Dead(sources: map<Row, Source>): set<Row>
  {
    set row | row in sources && !sources[row].live
  }

  /** Grows with every note that is imported, retired or scrubbed. */
  function Progress(sources: map<Row, Source>): nat
  {
    |sources.Keys| + |Dead(sources)| + |Scrubbed(sources)|
  }

  /** The step to vault `j`: vectors are only added unless the stamp is new, and notes only go forward. */
  ghost predicate StepGoesForward(history: seq<Vault>, j: nat)
    requires 0 < j < |history|
  {
    var v, w := history[j - 1], history[j];
    && (w.stamp == v.stamp ==> |v.vectors.Keys| <= |w.vectors.Keys|)
    && (w.stamp == v.stamp && |v.vectors.Keys| == |w.vectors.Keys| ==> w.vectors == v.vectors)
    && (w.stamp != v.stamp ==> Fresh(history[..j], w.stamp))
    && Progress(v.sources) <= Progress(w.sources)
    && (Progress(v.sources) == Progress(w.sources) ==> w.sources == v.sources && w.chunks == v.chunks)
  }

  ghost predicate GoesForward(history: seq<Vault>)
  {
    history != [] && forall j: nat :: 0 < j < |history| ==> StepGoesForward(history, j)
  }

  lemma NewKey<T>(m: map<Row, T>, row: Row, value: T)
    requires row !in m
    ensures |m[row := value].Keys| == |m.Keys| + 1
  {
    assert m[row := value].Keys == m.Keys + {row};
  }

  lemma RetireProgress(sources: map<Row, Source>, row: Row)
    requires row in sources && sources[row].live
    ensures Progress(sources[row := sources[row].(live := false)]) > Progress(sources)
  {
    var after := sources[row := sources[row].(live := false)];
    assert after.Keys == sources.Keys;
    assert Dead(after) == Dead(sources) + {row};
    assert Scrubbed(after) == Scrubbed(sources);
  }

  lemma ScrubProgress(sources: map<Row, Source>, row: Row)
    requires row in sources && !sources[row].scrubbed
    ensures Progress(sources[row := sources[row].(scrubbed := true)]) > Progress(sources)
  {
    var after := sources[row := sources[row].(scrubbed := true)];
    assert after.Keys == sources.Keys;
    assert Scrubbed(after) == Scrubbed(sources) + {row};
    assert Dead(after) == Dead(sources);
  }

  lemma ImportProgress(sources: map<Row, Source>, row: Row)
    requires row !in sources
    ensures Progress(sources[row := Source(true, false)]) > Progress(sources)
  {
    var after := sources[row := Source(true, false)];
    NewKey(sources, row, Source(true, false));
    assert Scrubbed(after) == Scrubbed(sources);
    assert Dead(after) == Dead(sources);
  }

  lemma NotesGoForward(v: Vault, op: Op, history: seq<Vault>)
    requires history != [] && Latest(history) == v && Possible(history, op)
    ensures var w := ApplyOp(v, op);
            && Progress(v.sources) <= Progress(w.sources)
            && (Progress(v.sources) == Progress(w.sources) ==> w.sources == v.sources && w.chunks == v.chunks)
  {
    hide Progress;
    match op
    case Import(_) => ImportProgress(v.sources, MaxRow(v.sources.Keys) + 1);
    case Retire(row) => RetireProgress(v.sources, row);
    case Scrub(row, _) => ScrubProgress(v.sources, row);
    case _ =>
  }

  lemma VectorsGoForward(v: Vault, op: Op, history: seq<Vault>)
    requires history != [] && Latest(history) == v && Possible(history, op)
    ensures var w := ApplyOp(v, op);
            && (w.stamp == v.stamp ==> |v.vectors.Keys| <= |w.vectors.Keys|)
            && (w.stamp == v.stamp && |v.vectors.Keys| == |w.vectors.Keys| ==> w.vectors == v.vectors)
            && (w.stamp != v.stamp ==> Fresh(history, w.stamp))
  {
    if op.AddVector? {
      NewKey(v.vectors, MaxRow(v.vectors.Keys) + 1, op.content);
    }
  }

  lemma OpGoesForward(history: seq<Vault>, op: Op)
    requires GoesForward(history) && Possible(history, op)
    ensures GoesForward(history + [ApplyOp(Latest(history), op)])
  {
    hide ApplyOp, Possible, Progress, Fresh;
    var v := Latest(history);
    var longer := history + [ApplyOp(v, op)];
    NotesGoForward(v, op, history);
    VectorsGoForward(v, op, history);
    forall j: nat | 0 < j < |longer| ensures StepGoesForward(longer, j) {
      if j < |history| {
        assert StepGoesForward(history, j);
        assert longer[..j] == history[..j];
      } else {
        assert longer[..j] == history;
      }
    }
  }

  lemma {:induction false} StampStays(history: seq<Vault>, i: nat, j: nat, k: nat)
    requires GoesForward(history) && i <= k <= j < |history|
    requires history[i].stamp == history[j].stamp
    ensures history[k].stamp == history[i].stamp
    decreases j
  {
    hide Progress;
    if k < j {
      assert StepGoesForward(history, j);
      if history[j - 1].stamp != history[j].stamp {
        assert history[..j][i].stamp != history[j].stamp;
      }
      StampStays(history, i, j - 1, k);
    }
  }

  lemma {:induction false} VectorsOnlyGrow(history: seq<Vault>, i: nat, j: nat)
    requires GoesForward(history) && i <= j < |history|
    requires forall k :: i <= k <= j ==> history[k].stamp == history[i].stamp
    ensures |history[i].vectors.Keys| <= |history[j].vectors.Keys|
    ensures |history[i].vectors.Keys| == |history[j].vectors.Keys| ==> history[j].vectors == history[i].vectors
    decreases j
  {
    hide Progress, Fresh;
    if i < j {
      VectorsOnlyGrow(history, i, j - 1);
      assert StepGoesForward(history, j);
    }
  }

  lemma {:induction false} NotesOnlyProgress(history: seq<Vault>, i: nat, j: nat)
    requires GoesForward(history) && i <= j < |history|
    ensures Progress(history[i].sources) <= Progress(history[j].sources)
    ensures Progress(history[i].sources) == Progress(history[j].sources) ==>
              history[j].sources == history[i].sources && history[j].chunks == history[i].chunks
    decreases j
  {
    hide Progress, Fresh;
    if i < j {
      NotesOnlyProgress(history, i, j - 1);
      assert StepGoesForward(history, j);
    }
  }

  lemma SameCountsSameProgress(s: map<Row, Source>, t: map<Row, Source>)
    requires |s.Keys| == |t.Keys| && |Live(s)| == |Live(t)| && |Scrubbed(s)| == |Scrubbed(t)|
    ensures Progress(s) == Progress(t)
  {
    LiveAndDead(s);
    LiveAndDead(t);
  }

  lemma LiveAndDead(sources: map<Row, Source>)
    ensures |Live(sources)| + |Dead(sources)| == |sources.Keys|
  {
    assert Live(sources) + Dead(sources) == sources.Keys;
    assert Live(sources) !! Dead(sources);
  }

  /** Two vaults that differ at most in their vectors. */
  predicate SameButRows(v: Vault, w: Vault)
  {
    v.stamp == w.stamp && v.sources == w.sources && v.chunks == w.chunks
  }

  /**
   A later reading of the same key: from the first reading's last query to the second's first, only rows may be new.
  */
  lemma SameKeySettles(history: seq<Vault>, early: Reading, late: Reading, k: nat)
    requires GoesForward(history)
    requires InOrder(early, |history|) && InOrder(late, |history|)
    requires early.sourcesAt <= k <= late.stampAt
    requires KeyOf(history, early) == KeyOf(history, late)
    ensures SameButRows(history[k], history[late.stampAt])
  {
    hide GoesForward, Progress;
    SameStamps(history, early.stampAt, k, late.stampAt, late.stampAt);
    SameCountsSameProgress(history[early.sourcesAt].sources, history[late.sourcesAt].sources);
    SameNotes(history, early.sourcesAt, k, late.stampAt, late.sourcesAt);
  }

  /** If the stamp did not move between the second reading's first two queries, no row is new either. */
  lemma SameKeySameVault(history: seq<Vault>, early: Reading, late: Reading, k: nat)
    requires GoesForward(history)
    requires InOrder(early, |history|) && InOrder(late, |history|)
    requires early.sourcesAt <= k <= late.stampAt
    requires KeyOf(history, early) == KeyOf(history, late)
    requires history[late.stampAt].stamp == history[late.vectorsAt].stamp
    ensures history[k] == history[late.stampAt]
  {
    hide GoesForward, Progress;
    SameKeySettles(history, early, late, k);
    SameStamps(history, early.stampAt, k, late.stampAt, late.vectorsAt);
    SameVectors(history, early.vectorsAt, k, late.stampAt, late.vectorsAt);
  }

  /** A vault comes back, from `l` on, exactly when no row was added up to `l`. */
  lemma ComesBackExactly(history: seq<Vault>, k: nat, l: nat, until: nat)
    requires GoesForward(history) && k <= l <= until < |history|
    requires SameButRows(history[k], history[l])
    ensures (exists t: nat :: l <= t <= until && history[t] == history[k])
            <==> |history[k].vectors.Keys| == |history[l].vectors.Keys|
  {
    hide GoesForward;
    SameStamps(history, k, k, l, l);
    if |history[k].vectors.Keys| == |history[l].vectors.Keys| {
      VectorsOnlyGrow(history, k, l);
      assert history[l] == history[k];
    }
    if t: nat :| l <= t <= until && history[t] == history[k] {
      SameStamps(history, k, l, t, t);
      VectorsOnlyGrow(history, k, l);
      VectorsOnlyGrow(history, l, t);
    }
  }

  lemma SameStamps(history: seq<Vault>, i: nat, k: nat, l: nat, j: nat)
    requires GoesForward(history) && i <= k <= l <= j < |history|
    requires history[i].stamp == history[j].stamp
    ensures forall m :: i <= m <= j ==> history[m].stamp == history[i].stamp
  {
    hide GoesForward;
    forall m | i <= m <= j ensures history[m].stamp == history[i].stamp {
      StampStays(history, i, j, m);
    }
  }

  lemma SameVectors(history: seq<Vault>, i: nat, k: nat, l: nat, j: nat)
    requires GoesForward(history) && i <= k <= l <= j < |history|
    requires forall m :: i <= m <= j ==> history[m].stamp == history[i].stamp
    requires |history[i].vectors.Keys| == |history[j].vectors.Keys|
    ensures history[k].vectors == history[l].vectors
  {
    hide GoesForward;
    VectorsOnlyGrow(history, i, k);
    VectorsOnlyGrow(history, k, l);
    VectorsOnlyGrow(history, l, j);
  }

  lemma SameNotes(history: seq<Vault>, i: nat, k: nat, l: nat, j: nat)
    requires GoesForward(history) && i <= k <= l <= j < |history|
    requires Progress(history[i].sources) == Progress(history[j].sources)
    ensures history[k].sources == history[l].sources && history[k].chunks == history[l].chunks
  {
    hide GoesForward, Progress;
    NotesOnlyProgress(history, i, k);
    NotesOnlyProgress(history, k, l);
    NotesOnlyProgress(history, l, j);
  }
}

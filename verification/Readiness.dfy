/** One readiness check that nobody interrupts, with the cache file it reads and replaces. */
module Readiness {
  import opened Options
  import opened CensusCache
  import opened CensusChecks

  /** What the build recorded; None when it recorded no number of vectors. */
  datatype Recorded = Recorded(chunksEmbedded: Option<nat>, dimensions: nat, signature: nat, modelDigest: nat)

  /** Why a vault is not ready, in the order in which the reasons are looked for. */
  datatype Reason =
    | Pending(chunks: nat)
    | Stale(chunks: nat)
    | WrongNumber(stored: nat, current: nat, recorded: nat)
    | WrongWidth
    | WrongSignature

  datatype Verdict = Ready | NothingRecorded | WrongEnvironment | NotReady(reasons: seq<Reason>) | WrongDigest

  function Rank(reason: Reason): nat
  {
    match reason
    case Pending(_) => 1
    case Stale(_) => 2
    case WrongNumber(_, _, _) => 3
    case WrongWidth => 4
    case WrongSignature => 5
  }

  /** The comparison that a reason reports fails, with these numbers. */
  predicate Fails(reason: Reason, counts: Counts, number: nat, width: nat, signature: nat)
  {
    match reason
    case Pending(chunks) => chunks == counts.pending && chunks != 0
    case Stale(chunks) => chunks == counts.stale && chunks != 0
    case WrongNumber(stored, current, recorded) =>
      && stored == counts.stored && current == counts.current && recorded == number
      && (stored != recorded || current != recorded)
    case WrongWidth => counts.dimensions != [width]
    case WrongSignature => counts.signature != signature
  }

  ghost predicate Ascending(reasons: seq<Reason>)
  {
    forall i, j :: 0 <= i < j < |reasons| ==> Rank(reasons[i]) < Rank(reasons[j])
  }

  /** Each reason is given exactly when its own comparison fails, once, with its numbers, and in order. */
  ghost predicate Explains(reasons: seq<Reason>, counts: Counts, number: nat, width: nat, signature: nat)
  {
    Ascending(reasons) && forall reason :: reason in reasons <==> Fails(reason, counts, number, width, signature)
  }

  /** The same for the first comparisons only. */
  ghost predicate ExplainsFirst(reasons: seq<Reason>, counts: Counts, number: nat, width: nat, signature: nat,
                                rank: nat)
  {
    && Ascending(reasons)
    && forall reason ::
         reason in reasons <==> Rank(reason) <= rank && Fails(reason, counts, number, width, signature)
  }

  lemma NextComparison(reasons: seq<Reason>, counts: Counts, number: nat, width: nat, signature: nat, next: Reason)
    requires ExplainsFirst(reasons, counts, number, width, signature, Rank(next) - 1)
    requires forall reason :: Rank(reason) == Rank(next) && Fails(reason, counts, number, width, signature) ==>
               reason == next
    ensures var given := if Fails(next, counts, number, width, signature) then reasons + [next] else reasons;
            ExplainsFirst(given, counts, number, width, signature, Rank(next))
  {
    hide Fails, Rank;
    forall i | 0 <= i < |reasons| ensures Rank(reasons[i]) < Rank(next) {
      assert reasons[i] in reasons;
    }
  }

  /** The highest row of a table, 0 when it has none. */
  ghost predicate Highest(rows: set<Row>, high: nat)
  {
    && (rows == {} ==> high == 0)
    && (rows != {} ==> high in rows && forall row :: row in rows ==> row <= high)
  }

  /** The highest row, found one row at a time. */
  method HighestRow(rows: set<Row>) returns (high: Row)
    ensures high == MaxRow(rows)
  {
    high := 0;
    var left := rows;
    while left != {}
      invariant left <= rows
      invariant forall row :: row in rows && row !in left ==> row <= high
      invariant high == 0 || high in rows
    {
      var row :| row in left;
      left := left - {row};
      if row > high {
        high := row;
      }
    }
  }

  /** A key whose queries all read one vault. */
  ghost function KeyNow(vault: Vault, setting: Setting): Key
  {
    KeyOf([vault], Reading(setting, 0, 0, 0, 0))
  }

  lemma KeyNowIsLatest(history: seq<Vault>, setting: Setting)
    requires history != []
    ensures var now := |history| - 1;
            KeyOf(history, Reading(setting, now, now, now, now)) == KeyNow(Latest(history), setting)
  {
    hide MaxRow, Live, Scrubbed;
  }

  lemma LiveAndScrubbed(vault: Vault)
    ensures Live(vault.sources) == set row | row in vault.sources && vault.sources[row].live
    ensures Scrubbed(vault.sources) == set row | row in vault.sources && vault.sources[row].scrubbed
  {
  }

  method VaultKey(vault: Vault, setting: Setting) returns (key: Key)
    ensures key == KeyNow(vault, setting)
    ensures key.setting == setting && key.stamp == vault.stamp
    ensures key.vectors.0 == |vault.vectors| && Highest(vault.vectors.Keys, key.vectors.1)
    ensures key.chunks.0 == |vault.chunks| && Highest(vault.chunks.Keys, key.chunks.1)
    ensures key.sources.0 == |vault.sources| && Highest(vault.sources.Keys, key.sources.1)
    ensures key.sources.2 == |set row | row in vault.sources && vault.sources[row].live|
    ensures key.sources.3 == |set row | row in vault.sources && vault.sources[row].scrubbed|
  {
    hide MaxRow, Live, Scrubbed;
    var vectors, chunks, sources := vault.vectors.Keys, vault.chunks.Keys, vault.sources.Keys;
    var highVector := HighestRow(vectors);
    var highChunk := HighestRow(chunks);
    var highSource := HighestRow(sources);
    key := Key(setting, vault.stamp, (|vectors|, highVector), (|chunks|, highChunk),
               (|sources|, highSource, |Live(vault.sources)|, |Scrubbed(vault.sources)|));
    LiveAndScrubbed(vault);
  }

  class CensusFile {
    var cached: Option<(Key, Counts)>
    ghost var made: Option<Entry>  // when, in the history of the vault, the cached counts were made

    constructor ()
      ensures cached.None? && made.None?
    {
      cached := None;
      made := None;
    }

    /** The file holds what some check left, made from this history of the vault. */
    ghost predicate Valid(history: seq<Vault>, census: Census)
      reads this
    {
      && (cached.Some? <==> made.Some?)
      && (made.Some? ==> cached.value == (made.value.key, made.value.counts) && EntryFits(made.value, history, census))
    }

    /** A hit is what some vault of the history came to under the key's setting, and was kept for this very key. */
    method Load(key: Key, ghost history: seq<Vault>, ghost census: Census) returns (counts: Option<Counts>)
      requires Valid(history, census)
      ensures counts.None? <==> made.None? || made.value.key != key
      ensures counts.Some? ==>
                var at := made.value.countedAt;
                at < |history| && counts.value == made.value.counts == census(history[at], key.setting)
    {
      counts := if cached.Some? && cached.value.0 == key then Some(cached.value.1) else None;
    }

    /** `writable` is false when the file cannot be replaced, which is no error. */
    method Store(key: Key, counts: Counts, writable: bool, ghost entry: Entry)
      modifies this
      ensures writable ==> cached == Some((key, counts)) && made == Some(entry)
      ensures !writable ==> cached == old(cached) && made == old(made)
    {
      if writable {
        cached := Some((key, counts));
        made := Some(entry);
      }
    }

    /**
     The verdict is the one a fresh count gives, whether or not there is a cache and whatever is in it. `signature` is
     that of the provider in force, `environment` says whether the run's environment is applied, and `digest` is what
     the endpoint reports for the model.
    */
    method RequireReadiness(ghost history: seq<Vault>, vault: Vault, recorded: Recorded, signature: nat,
                            environment: bool, digest: nat, useCache: bool, writable: bool, census: Census)
      returns (verdict: Verdict)
      requires history != [] && vault == Latest(history) && GoesForward(history) && Valid(history, census)
      modifies this
      ensures Valid(history, census)
      ensures verdict.NothingRecorded? <==> recorded.chunksEmbedded.None?
      ensures verdict.WrongEnvironment? <==> recorded.chunksEmbedded.Some? && !environment
      ensures verdict.NotReady? || verdict.WrongDigest? || verdict.Ready? ==>
                var counts := census(vault, Setting(signature, recorded.modelDigest));
                && recorded.chunksEmbedded.Some?
                && (verdict.Ready? || verdict.WrongDigest? <==>
                      && counts.pending == 0 && counts.stale == 0
                      && counts.stored == recorded.chunksEmbedded.value
                      && counts.current == recorded.chunksEmbedded.value
                      && counts.dimensions == [recorded.dimensions] && counts.signature == recorded.signature)
                && (verdict.Ready? ==> digest == recorded.modelDigest)
                && (verdict.WrongDigest? ==> digest != recorded.modelDigest)
                && (verdict.NotReady? ==>
                      Explains(verdict.reasons, counts, recorded.chunksEmbedded.value, recorded.dimensions,
                               recorded.signature))
    {
      hide KeyNow, EntryFits, GoesForward;
      if recorded.chunksEmbedded.None? {
        return NothingRecorded;
      }
      if !environment {
        return WrongEnvironment;
      }
      var setting := Setting(signature, recorded.modelDigest);
      var counts := census(vault, setting);
      if useCache {
        var key := VaultKey(vault, setting);
        var kept := Load(key, history, census);
        if kept.Some? {
          HitIsPresent(history, census, setting, made.value);
          counts := kept.value;
        } else {
          ghost var now := |history| - 1;
          ghost var entry := Entry(key, counts, Reading(setting, now, now, now, now), now);
          FreshEntryFits(history, census, setting, entry);
          Store(key, counts, writable, entry);
        }
      }
      var reasons := ReasonsAgainst(counts, recorded.chunksEmbedded.value, recorded.dimensions, recorded.signature);
      if reasons != [] {
        return NotReady(reasons);
      }
      verdict := if digest != recorded.modelDigest then WrongDigest else Ready;
    }
  }

  /** With no writer in between, a cached count for the present key is the present count. */
  lemma HitIsPresent(history: seq<Vault>, census: Census, setting: Setting, entry: Entry)
    requires history != [] && GoesForward(history) && EntryFits(entry, history, census)
    requires entry.key == KeyNow(Latest(history), setting)
    ensures entry.counts == census(Latest(history), setting)
  {
    hide GoesForward;
    var now := |history| - 1;
    KeyNowIsLatest(history, setting);
    assert entry.key.setting == setting;
    SameKeySameVault(history, entry.reading, Reading(setting, now, now, now, now), entry.countedAt);
  }

  lemma FreshEntryFits(history: seq<Vault>, census: Census, setting: Setting, entry: Entry)
    requires history != []
    requires var now := |history| - 1;
             entry == Entry(KeyNow(Latest(history), setting), census(Latest(history), setting),
                            Reading(setting, now, now, now, now), now)
    ensures EntryFits(entry, history, census)
  {
    hide KeyOf;
    KeyNowIsLatest(history, setting);
  }

  method ReasonsAgainst(counts: Counts, number: nat, width: nat, signature: nat) returns (reasons: seq<Reason>)
    ensures Explains(reasons, counts, number, width, signature)
    ensures reasons == [] <==>
              && counts.pending == 0 && counts.stale == 0 && counts.stored == number && counts.current == number
              && counts.dimensions == [width] && counts.signature == signature
  {
    hide ExplainsFirst, Ascending;
    NoComparison(counts, number, width, signature);
    reasons := if counts.pending != 0 then [Pending(counts.pending)] else [];
    NextComparison([], counts, number, width, signature, Pending(counts.pending));
    assert [] + [Pending(counts.pending)] == [Pending(counts.pending)];
    NextComparison(reasons, counts, number, width, signature, Stale(counts.stale));
    if counts.stale != 0 {
      reasons := reasons + [Stale(counts.stale)];
    }
    var wrongNumber := WrongNumber(counts.stored, counts.current, number);
    NextComparison(reasons, counts, number, width, signature, wrongNumber);
    if counts.stored != number || counts.current != number {
      reasons := reasons + [wrongNumber];
    }
    NextComparison(reasons, counts, number, width, signature, WrongWidth);
    if counts.dimensions != [width] {
      reasons := reasons + [WrongWidth];
    }
    NextComparison(reasons, counts, number, width, signature, WrongSignature);
    if counts.signature != signature {
      reasons := reasons + [WrongSignature];
    }
    AllComparisons(reasons, counts, number, width, signature);
  }

  lemma NoComparison(counts: Counts, number: nat, width: nat, signature: nat)
    ensures ExplainsFirst([], counts, number, width, signature, 0)
  {
  }

  lemma AllComparisons(reasons: seq<Reason>, counts: Counts, number: nat, width: nat, signature: nat)
    requires ExplainsFirst(reasons, counts, number, width, signature, 5)
    ensures Explains(reasons, counts, number, width, signature)
    ensures reasons == [] <==>
              && counts.pending == 0 && counts.stale == 0 && counts.stored == number && counts.current == number
              && counts.dimensions == [width] && counts.signature == signature
  {
    forall reason: Reason ensures Rank(reason) <= 5 {
    }
    if reasons == [] {
      assert !Fails(Pending(counts.pending), counts, number, width, signature);
      assert !Fails(Stale(counts.stale), counts, number, width, signature);
      assert !Fails(WrongNumber(counts.stored, counts.current, number), counts, number, width, signature);
      assert !Fails(WrongWidth, counts, number, width, signature);
      assert !Fails(WrongSignature, counts, number, width, signature);
    } else {
      assert Fails(reasons[0], counts, number, width, signature);
    }
  }
}

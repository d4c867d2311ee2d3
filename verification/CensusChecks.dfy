/**
 Every interleaving of readiness checks that share one census cache with writers of the vault. A query, the count of the
 vault, the load of the cache file and its replacement are single steps.
*/
module CensusChecks {
  import opened Options
  import opened CensusCache

  /** What the cache file holds. `reading` and `countedAt` say when it was made; nothing looks at them. */
  datatype Entry = Entry(key: Key, counts: Counts, reading: Reading, countedAt: nat)

  /** Where a check is. Times are places in the history of the vault; `countedAt` is when the counts were made. */
  datatype Place =
    | Start
    | HasStamp(setting: Setting, stampAt: nat)
    | HasVectors(setting: Setting, stampAt: nat, vectorsAt: nat)
    | HasChunks(setting: Setting, stampAt: nat, vectorsAt: nat, chunksAt: nat)
    | HasKey(reading: Reading)
    | Missed(reading: Reading)
    | Counted(reading: Reading, counts: Counts, countedAt: nat)
    | Done(reading: Reading, counts: Counts, hit: bool, countedAt: nat, answeredAt: nat)

  datatype State = State(history: seq<Vault>, cache: Option<Entry>, places: map<Pid, Place>)

  datatype Action =
    | Write(op: Op)
    | LoseCache
    | ReadStamp(p: Pid, setting: Setting)
    | ReadVectors(p: Pid)
    | ReadChunks(p: Pid)
    | ReadSources(p: Pid)
    | Load(p: Pid)
    | Count(p: Pid)
    | Store(p: Pid, stored: bool)

  function PlaceOf(s: State, p: Pid): Place
  {
    if p in s.places then s.places[p] else Start
  }

  ghost predicate Enabled(s: State, action: Action)
    requires s.history != []
  {
    match action
    case Write(op) => Possible(s.history, op)
    case LoseCache => true
    case ReadStamp(p, _) => PlaceOf(s, p).Start?
    case ReadVectors(p) => PlaceOf(s, p).HasStamp?
    case ReadChunks(p) => PlaceOf(s, p).HasVectors?
    case ReadSources(p) => PlaceOf(s, p).HasChunks?
    case Load(p) => PlaceOf(s, p).HasKey? && InOrder(s.places[p].reading, |s.history|)
    case Count(p) => PlaceOf(s, p).Missed?
    case Store(p, _) => PlaceOf(s, p).Counted? && InOrder(s.places[p].reading, |s.history|)
  }

  function Move(s: State, p: Pid, place: Place): State
  {
    s.(places := s.places[p := place])
  }

  /** A cache file made for the same key is a hit; one that is gone, broken or made for another key is a miss. */
  ghost function AfterLoad(s: State, r: Reading): Place
    requires s.history != [] && InOrder(r, |s.history|)
  {
    if s.cache.Some? && s.cache.value.key == KeyOf(s.history, r)
    then Done(r, s.cache.value.counts, true, s.cache.value.countedAt, |s.history| - 1)
    else Missed(r)
  }

  ghost function Apply(s: State, action: Action, census: Census): State
    requires s.history != [] && Enabled(s, action)
  {
    var now := |s.history| - 1;
    match action
    case Write(op) => s.(history := s.history + [ApplyOp(Latest(s.history), op)])
    case LoseCache => s.(cache := None)
    case ReadStamp(p, setting) => Move(s, p, HasStamp(setting, now))
    case ReadVectors(p) => var at := s.places[p]; Move(s, p, HasVectors(at.setting, at.stampAt, now))
    case ReadChunks(p) => var at := s.places[p]; Move(s, p, HasChunks(at.setting, at.stampAt, at.vectorsAt, now))
    case ReadSources(p) =>
      var at := s.places[p];
      Move(s, p, HasKey(Reading(at.setting, at.stampAt, at.vectorsAt, at.chunksAt, now)))
    case Load(p) => Move(s, p, AfterLoad(s, s.places[p].reading))
    case Count(p) =>
      var r := s.places[p].reading;
      Move(s, p, Counted(r, census(Latest(s.history), r.setting), now))
    case Store(p, stored) =>
      var at := s.places[p];
      var entry := Entry(KeyOf(s.history, at.reading), at.counts, at.reading, at.countedAt);
      var done := Done(at.reading, at.counts, false, at.countedAt, at.countedAt);
      Move(if stored then s.(cache := Some(entry)) else s, p, done)
  }

  // ---------- What every step keeps ----------

  ghost predicate EntryFits(entry: Entry, history: seq<Vault>, census: Census)
  {
    && InOrder(entry.reading, |history|) && entry.reading.sourcesAt <= entry.countedAt < |history|
    && entry.key == KeyOf(history, entry.reading)
    && entry.counts == census(history[entry.countedAt], entry.reading.setting)
  }

  /** The stamp did not move between the first two queries of the key. */
  predicate StampHeld(history: seq<Vault>, r: Reading)
    requires InOrder(r, |history|)
  {
    history[r.stampAt].stamp == history[r.vectorsAt].stamp
  }

  /** The counts are those of some vault from the first query of the key on. */
  ghost predicate TrueOfSome(counts: Counts, history: seq<Vault>, r: Reading, until: nat, census: Census)
  {
    exists t: nat :: r.stampAt <= t <= until && t < |history| && counts == census(history[t], r.setting)
  }

  /** The vault that was counted is one the check could have seen. */
  ghost predicate ComesBack(history: seq<Vault>, countedAt: nat, r: Reading, until: nat)
    requires countedAt < |history| && until < |history|
  {
    exists t: nat :: r.stampAt <= t <= until && history[t] == history[countedAt]
  }

  /** No vector was added between the count and the check's first query, if the count came first. */
  predicate NoRowAdded(history: seq<Vault>, countedAt: nat, r: Reading)
    requires countedAt < |history| && InOrder(r, |history|)
  {
    countedAt >= r.stampAt || |history[countedAt].vectors.Keys| == |history[r.stampAt].vectors.Keys|
  }

  ghost predicate AnswerFits(place: Place, history: seq<Vault>, census: Census)
    requires place.Done?
  {
    var r, c := place.reading, place.countedAt;
    && InOrder(r, |history|) && r.stampAt <= place.answeredAt < |history| && c <= place.answeredAt
    && place.counts == census(history[c], r.setting)
    && (!place.hit ==> r.stampAt <= c)
    && (c < r.stampAt ==> SameButRows(history[c], history[r.stampAt]))
    && (StampHeld(history, r) ==> NoRowAdded(history, c, r))
  }

  ghost predicate PlaceFits(place: Place, history: seq<Vault>, census: Census)
  {
    match place
    case Start => true
    case HasStamp(_, stampAt) => stampAt < |history|
    case HasVectors(_, stampAt, vectorsAt) => stampAt <= vectorsAt < |history|
    case HasChunks(_, stampAt, vectorsAt, chunksAt) => stampAt <= vectorsAt <= chunksAt < |history|
    case HasKey(r) => InOrder(r, |history|)
    case Missed(r) => InOrder(r, |history|)
    case Counted(r, counts, countedAt) =>
      InOrder(r, |history|) && r.sourcesAt <= countedAt < |history| && counts == census(history[countedAt], r.setting)
    case Done(_, _, _, _, _) => AnswerFits(place, history, census)
  }

  ghost predicate PlacesFit(s: State, census: Census)
  {
    forall p :: p in s.places ==> PlaceFits(s.places[p], s.history, census)
  }

  ghost predicate Inv(s: State, census: Census)
  {
    && GoesForward(s.history)
    && (s.cache.Some? ==> EntryFits(s.cache.value, s.history, census))
    && PlacesFit(s, census)
  }

  lemma KeyStays(history: seq<Vault>, v: Vault, r: Reading)
    requires InOrder(r, |history|)
    ensures KeyOf(history + [v], r) == KeyOf(history, r)
  {
    hide MaxRow, Live, Scrubbed;
  }

  lemma EntryStaysFit(entry: Entry, history: seq<Vault>, v: Vault, census: Census)
    requires EntryFits(entry, history, census)
    ensures EntryFits(entry, history + [v], census)
  {
    hide KeyOf;
    KeyStays(history, v, entry.reading);
  }

  lemma PlaceStaysFit(place: Place, history: seq<Vault>, v: Vault, census: Census)
    requires PlaceFits(place, history, census)
    ensures PlaceFits(place, history + [v], census)
  {
  }

  lemma WriteKeeps(s: State, op: Op, census: Census)
    requires Inv(s, census) && s.history != [] && Possible(s.history, op)
    ensures Inv(s.(history := s.history + [ApplyOp(Latest(s.history), op)]), census)
  {
    hide PlaceFits, EntryFits, GoesForward, Possible, ApplyOp;
    var v := ApplyOp(Latest(s.history), op);
    OpGoesForward(s.history, op);
    if s.cache.Some? {
      EntryStaysFit(s.cache.value, s.history, v, census);
    }
    forall p | p in s.places ensures PlaceFits(s.places[p], s.history + [v], census) {
      PlaceStaysFit(s.places[p], s.history, v, census);
    }
  }

  lemma MoveKeeps(s: State, p: Pid, place: Place, census: Census)
    requires Inv(s, census) && PlaceFits(place, s.history, census)
    ensures Inv(Move(s, p, place), census)
  {
    hide PlaceFits, GoesForward, EntryFits;
  }

  /** The vault a hit was counted in differs from the one of the check's first query at most in rows that were added. */
  lemma HitFits(s: State, r: Reading, census: Census)
    requires Inv(s, census) && InOrder(r, |s.history|)
    requires s.cache.Some? && s.cache.value.key == KeyOf(s.history, r)
    ensures PlaceFits(Done(r, s.cache.value.counts, true, s.cache.value.countedAt, |s.history| - 1), s.history, census)
  {
    hide GoesForward, PlacesFit;
    var entry := s.cache.value;
    assert entry.reading.setting == r.setting;
    if entry.countedAt < r.stampAt {
      SameKeySettles(s.history, entry.reading, r, entry.countedAt);
      if StampHeld(s.history, r) {
        SameKeySameVault(s.history, entry.reading, r, entry.countedAt);
      }
    }
  }

  lemma LoadKeeps(s: State, p: Pid, census: Census)
    requires Inv(s, census) && PlaceOf(s, p).HasKey? && InOrder(s.places[p].reading, |s.history|)
    ensures Inv(Move(s, p, AfterLoad(s, s.places[p].reading)), census)
  {
    hide Inv, KeyOf;
    var r := s.places[p].reading;
    if s.cache.Some? && s.cache.value.key == KeyOf(s.history, r) {
      HitFits(s, r, census);
    }
    HistoryIsThere(s, census);
    MoveKeeps(s, p, AfterLoad(s, r), census);
  }

  lemma HistoryIsThere(s: State, census: Census)
    requires Inv(s, census)
    ensures s.history != []
    ensures forall p :: p in s.places ==> PlaceFits(s.places[p], s.history, census)
  {
  }

  lemma StoreKeeps(s: State, p: Pid, stored: bool, census: Census)
    requires Inv(s, census) && PlaceOf(s, p).Counted? && InOrder(s.places[p].reading, |s.history|)
    ensures Inv(Apply(s, Store(p, stored), census), census)
  {
    hide GoesForward, KeyOf, PlacesFit;
    HistoryIsThere(s, census);
    var at := s.places[p];
    assert PlaceFits(at, s.history, census);
    var entry := Entry(KeyOf(s.history, at.reading), at.counts, at.reading, at.countedAt);
    var done := Done(at.reading, at.counts, false, at.countedAt, at.countedAt);
    assert PlaceFits(done, s.history, census);
    var written := if stored then s.(cache := Some(entry)) else s;
    assert PlacesFit(written, census) by {
      SamePlaces(s, written, census);
    }
    MoveKeeps(written, p, done, census);
  }

  lemma SamePlaces(s: State, t: State, census: Census)
    requires PlacesFit(s, census) && t.places == s.places && t.history == s.history
    ensures PlacesFit(t, census)
  {
    hide PlaceFits;
  }

  lemma StepKeeps(s: State, action: Action, census: Census)
    requires Inv(s, census) && s.history != [] && Enabled(s, action)
    ensures Inv(Apply(s, action, census), census)
    ensures s.history <= Apply(s, action, census).history
  {
    hide Inv, KeyOf, Possible, ApplyOp;
    HistoryIsThere(s, census);
    match action
    case Write(op) => WriteKeeps(s, op, census);
    case LoseCache => ForgetKeeps(s, census);
    case Load(p) => LoadKeeps(s, p, census);
    case Store(p, stored) => StoreKeeps(s, p, stored, census);
    case ReadStamp(p, _) => MoveKeeps(s, p, Apply(s, action, census).places[p], census);
    case ReadVectors(p) => MoveKeeps(s, p, Apply(s, action, census).places[p], census);
    case ReadChunks(p) => MoveKeeps(s, p, Apply(s, action, census).places[p], census);
    case ReadSources(p) => MoveKeeps(s, p, Apply(s, action, census).places[p], census);
    case Count(p) => MoveKeeps(s, p, Apply(s, action, census).places[p], census);
  }

  lemma ForgetKeeps(s: State, census: Census)
    requires Inv(s, census)
    ensures Inv(s.(cache := None), census)
  {
    hide PlaceFits, GoesForward;
  }

  // ---------- Every run ----------

  /** Runs start with any vault, and with no cache file. */
  ghost predicate Legal(actions: seq<Action>, first: Vault, census: Census)
    decreases |actions|, 0
  {
    actions == [] ||
    (Legal(actions[..|actions| - 1], first, census)
     && Enabled(After(actions[..|actions| - 1], first, census), actions[|actions| - 1]))
  }

  ghost function After(actions: seq<Action>, first: Vault, census: Census): (s: State)
    requires Legal(actions, first, census)
    ensures s.history != []
    decreases |actions|, 1
  {
    if actions == [] then State([first], None, map[])
    else Apply(After(actions[..|actions| - 1], first, census), actions[|actions| - 1], census)
  }

  lemma {:induction false} RunKeeps(actions: seq<Action>, first: Vault, census: Census)
    requires Legal(actions, first, census)
    ensures Inv(After(actions, first, census), census)
  {
    hide Inv, Apply, Enabled;
    if actions == [] {
      FirstState(first, census);
    } else {
      var before := actions[..|actions| - 1];
      RunKeeps(before, first, census);
      StepKeeps(After(before, first, census), actions[|actions| - 1], census);
    }
  }

  lemma FirstState(first: Vault, census: Census)
    ensures Inv(State([first], None, map[]), census)
  {
  }

  /** A count that differs whenever the vaults of a history do. */
  ghost predicate TellsApart(census: Census, history: seq<Vault>, setting: Setting)
  {
    forall i, j ::
      0 <= i < |history| && 0 <= j < |history| && census(history[i], setting) == census(history[j], setting) ==>
        history[i] == history[j]
  }

  /**
   The answer of a check at the end of a run is true: it is the count of a vault from its first query to its answer.
  */
  ghost predicate AnswerIsTrue(s: State, done: Place, census: Census)
    requires done.Done?
  {
    TrueOfSome(done.counts, s.history, done.reading, done.answeredAt, census)
  }

  ghost predicate DoneWithin(s: State, p: Pid)
  {
    && PlaceOf(s, p).Done? && InOrder(s.places[p].reading, |s.history|)
    && s.places[p].countedAt < |s.history| && s.places[p].answeredAt < |s.history|
  }

  lemma DoneFits(actions: seq<Action>, first: Vault, census: Census, p: Pid)
    requires Legal(actions, first, census) && PlaceOf(After(actions, first, census), p).Done?
    ensures var s := After(actions, first, census);
            GoesForward(s.history) && DoneWithin(s, p) && AnswerFits(s.places[p], s.history, census)
  {
    hide AnswerFits, Legal, GoesForward;
    RunKeeps(actions, first, census);
    var s := After(actions, first, census);
    HistoryIsThere(s, census);
    assert PlaceFits(s.places[p], s.history, census);
    AnswerIsWithin(s, p, census);
  }

  lemma AnswerIsWithin(s: State, p: Pid, census: Census)
    requires PlaceOf(s, p).Done? && AnswerFits(s.places[p], s.history, census)
    ensures DoneWithin(s, p)
  {
  }

  /**
   In every run the counts a check ends with are those of a vault from its first query to its answer exactly when no
   vector was added between the count and that query; a check that counted itself always meets this. A count that does
   not tell two vaults apart may be right without it.
  */
  lemma AnswersAreTrueExactly(actions: seq<Action>, first: Vault, census: Census, p: Pid)
    requires Legal(actions, first, census) && PlaceOf(After(actions, first, census), p).Done?
    ensures var s := After(actions, first, census);
            DoneWithin(s, p) &&
            var done := s.places[p];
            && done.counts == census(s.history[done.countedAt], done.reading.setting)
            && (!done.hit ==> NoRowAdded(s.history, done.countedAt, done.reading))
            && (ComesBack(s.history, done.countedAt, done.reading, done.answeredAt)
                <==> NoRowAdded(s.history, done.countedAt, done.reading))
            && (NoRowAdded(s.history, done.countedAt, done.reading) ==> AnswerIsTrue(s, done, census))
            && (TellsApart(census, s.history, done.reading.setting) ==>
                  (AnswerIsTrue(s, done, census) <==> NoRowAdded(s.history, done.countedAt, done.reading)))
  {
    hide Legal, After, GoesForward, TrueOfSome, TellsApart;
    DoneFits(actions, first, census, p);
    var s := After(actions, first, census);
    var done := s.places[p];
    var r, c := done.reading, done.countedAt;
    if c < r.stampAt {
      ComesBackExactly(s.history, c, r.stampAt, done.answeredAt);
    }
    TrueWhenItComesBack(s, done, census);
  }

  lemma TrueWhenItComesBack(s: State, done: Place, census: Census)
    requires done.Done? && done.countedAt < |s.history| && done.answeredAt < |s.history|
    requires done.counts == census(s.history[done.countedAt], done.reading.setting)
    ensures ComesBack(s.history, done.countedAt, done.reading, done.answeredAt) ==> AnswerIsTrue(s, done, census)
    ensures TellsApart(census, s.history, done.reading.setting) && AnswerIsTrue(s, done, census) ==>
              ComesBack(s.history, done.countedAt, done.reading, done.answeredAt)
  {
  }

  /** The stamp standing still between the first two queries is enough for a true answer. */
  lemma AnswersAreTrue(actions: seq<Action>, first: Vault, census: Census, p: Pid)
    requires Legal(actions, first, census) && PlaceOf(After(actions, first, census), p).Done?
    ensures var s := After(actions, first, census);
            var done := s.places[p];
            InOrder(done.reading, |s.history|)
            && (!done.hit || StampHeld(s.history, done.reading) ==>
                  TrueOfSome(done.counts, s.history, done.reading, done.answeredAt, census))
  {
    hide TrueOfSome, Legal, After, GoesForward, TellsApart, ComesBack;
    AnswersAreTrueExactly(actions, first, census, p);
    DoneFits(actions, first, census, p);
  }

  /** With the first two queries on one vault, as in one transaction, every answer is true. */
  lemma OneTransactionIsEnough(actions: seq<Action>, first: Vault, census: Census, p: Pid)
    requires Legal(actions, first, census) && PlaceOf(After(actions, first, census), p).Done?
    requires var r := After(actions, first, census).places[p].reading; r.stampAt == r.vectorsAt
    ensures var s := After(actions, first, census);
            var done := s.places[p];
            TrueOfSome(done.counts, s.history, done.reading, done.answeredAt, census)
  {
    hide TrueOfSome, Legal, After;
    AnswersAreTrue(actions, first, census, p);
  }

  // ---------- Separate queries are not enough ----------

  /** Row 2 is replaced by way of a row 3, after a check has read the stamp and before it counts the vectors. */
  const BEFORE: Vault := Vault(0, map[1 := 10, 2 := 20], map[], map[])
  const ROW_ADDED: Vault := Vault(0, map[1 := 10, 2 := 20, 3 := 30], map[], map[])
  const SECOND_GONE: Vault := Vault(1, map[1 := 10, 3 := 30], map[], map[])
  const THIRD_GONE: Vault := Vault(2, map[1 := 10], map[], map[])
  const SECOND_NEW: Vault := Vault(2, map[1 := 10, 2 := 21], map[], map[])

  const STALE_HISTORY: seq<Vault> := [BEFORE, ROW_ADDED, SECOND_GONE, THIRD_GONE, SECOND_NEW]

  lemma MaxRowIs(rows: set<Row>, high: Row)
    requires high in rows && forall row :: row in rows ==> row <= high
    ensures MaxRow(rows) == high
  {
  }

  lemma StaleSteps()
    ensures Possible([BEFORE], AddVector(30)) && ApplyOp(BEFORE, AddVector(30)) == ROW_ADDED
    ensures Possible([BEFORE, ROW_ADDED], DeleteVector(2, 1)) && ApplyOp(ROW_ADDED, DeleteVector(2, 1)) == SECOND_GONE
    ensures Possible([BEFORE, ROW_ADDED, SECOND_GONE], DeleteVector(3, 2))
            && ApplyOp(SECOND_GONE, DeleteVector(3, 2)) == THIRD_GONE
    ensures Possible([BEFORE, ROW_ADDED, SECOND_GONE, THIRD_GONE], AddVector(21))
            && ApplyOp(THIRD_GONE, AddVector(21)) == SECOND_NEW
  {
    MaxRowIs(BEFORE.vectors.Keys, 2);
    MaxRowIs(THIRD_GONE.vectors.Keys, 1);
  }

  /**
   The key is not enough by itself. A check that read its stamp before the changes and its other numbers after them has
   the key of the vault as it was at first, which no vault has held since the check began.
  */
  lemma SeparateQueriesCanMatchAStaleKey(setting: Setting)
    ensures var early, late := Reading(setting, 0, 0, 0, 0), Reading(setting, 1, 4, 4, 4);
            && KeyOf(STALE_HISTORY, early) == KeyOf(STALE_HISTORY, late)
            && !StampHeld(STALE_HISTORY, late)
            && forall t :: 1 <= t < |STALE_HISTORY| ==> STALE_HISTORY[t].vectors != STALE_HISTORY[0].vectors
  {
    assert 3 in ROW_ADDED.vectors && 3 in SECOND_GONE.vectors && 3 !in BEFORE.vectors;
    assert 2 in BEFORE.vectors && 2 !in THIRD_GONE.vectors;
    assert BEFORE.vectors[2] != SECOND_NEW.vectors[2];
    assert BEFORE.vectors.Keys == SECOND_NEW.vectors.Keys;
  }

  lemma Extend(actions: seq<Action>, first: Vault, census: Census, next: Action) returns (longer: seq<Action>)
    requires Legal(actions, first, census) && Enabled(After(actions, first, census), next)
    ensures longer == actions + [next] && Legal(longer, first, census)
    ensures After(longer, first, census) == Apply(After(actions, first, census), next, census)
  {
    hide Enabled, Apply;
    longer := actions + [next];
    assert longer[..|longer| - 1] == actions;
  }

  /** Where a run has come to, as far as the two checks of the example go. */
  ghost predicate At(actions: seq<Action>, census: Census, history: seq<Vault>, cache: Option<Entry>, first: Place,
                     second: Place)
  {
    && Legal(actions, BEFORE, census)
    && var s := After(actions, BEFORE, census);
       s.history == history && s.cache == cache && PlaceOf(s, 0) == first && PlaceOf(s, 1) == second
  }

  lemma FirstKey(setting: Setting, census: Census) returns (actions: seq<Action>)
    ensures At(actions, census, [BEFORE], None, HasKey(Reading(setting, 0, 0, 0, 0)), Start)
  {
    hide KeyOf;
    actions := [];
    actions := Extend(actions, BEFORE, census, ReadStamp(0, setting));
    actions := Extend(actions, BEFORE, census, ReadVectors(0));
    actions := Extend(actions, BEFORE, census, ReadChunks(0));
    actions := Extend(actions, BEFORE, census, ReadSources(0));
  }

  /** The entry the first check leaves. */
  ghost function FirstEntry(setting: Setting, census: Census): Entry
  {
    var early := Reading(setting, 0, 0, 0, 0);
    Entry(KeyOf([BEFORE], early), census(BEFORE, setting), early, 0)
  }

  lemma FirstStored(setting: Setting, census: Census, actions: seq<Action>) returns (longer: seq<Action>, done: Place)
    requires At(actions, census, [BEFORE], None, HasKey(Reading(setting, 0, 0, 0, 0)), Start)
    ensures At(longer, census, [BEFORE], Some(FirstEntry(setting, census)), done, Start)
  {
    hide KeyOf, Legal, After, Possible, ApplyOp;
    longer := Extend(actions, BEFORE, census, Load(0));
    longer := Extend(longer, BEFORE, census, Count(0));
    longer := Extend(longer, BEFORE, census, Store(0, true));
    done := PlaceOf(After(longer, BEFORE, census), 0);
  }

  lemma WriteAt(actions: seq<Action>, census: Census, history: seq<Vault>, cache: Option<Entry>, first: Place,
                second: Place, op: Op, next: Vault) returns (longer: seq<Action>)
    requires At(actions, census, history, cache, first, second) && history != []
    requires Possible(history, op) && ApplyOp(Latest(history), op) == next
    ensures At(longer, census, history + [next], cache, first, second)
  {
    hide KeyOf, Legal, After, Possible, ApplyOp;
    longer := Extend(actions, BEFORE, census, Write(op));
  }

  lemma SecondStamp(setting: Setting, census: Census, actions: seq<Action>, cache: Option<Entry>, first: Place)
    returns (longer: seq<Action>)
    requires At(actions, census, [BEFORE, ROW_ADDED], cache, first, Start)
    ensures At(longer, census, [BEFORE, ROW_ADDED], cache, first, HasStamp(setting, 1))
  {
    hide KeyOf, Legal, After, Possible, ApplyOp;
    longer := Extend(actions, BEFORE, census, ReadStamp(1, setting));
  }

  lemma SecondKey(setting: Setting, census: Census, actions: seq<Action>, cache: Option<Entry>, first: Place)
    returns (longer: seq<Action>)
    requires At(actions, census, STALE_HISTORY, cache, first, HasStamp(setting, 1))
    ensures At(longer, census, STALE_HISTORY, cache, first, HasKey(Reading(setting, 1, 4, 4, 4)))
  {
    hide KeyOf, Legal, After, Possible, ApplyOp;
    longer := Extend(actions, BEFORE, census, ReadVectors(1));
    longer := Extend(longer, BEFORE, census, ReadChunks(1));
    longer := Extend(longer, BEFORE, census, ReadSources(1));
  }

  lemma SecondHit(setting: Setting, census: Census, actions: seq<Action>, first: Place) returns (longer: seq<Action>)
    requires At(actions, census, STALE_HISTORY, Some(FirstEntry(setting, census)), first,
                HasKey(Reading(setting, 1, 4, 4, 4)))
    ensures At(longer, census, STALE_HISTORY, Some(FirstEntry(setting, census)), first,
               Done(Reading(setting, 1, 4, 4, 4), census(BEFORE, setting), true, 0, 4))
  {
    SeparateQueriesCanMatchAStaleKey(setting);
    longer := Extend(actions, BEFORE, census, Load(1));
  }

  /**
   Seven steps of one check, four writes and five steps of another end in a hit that is the count of no vault since the
   second check began, for every count that tells the vault at first from the four that followed.
  */
  lemma AStaleHitHappens(setting: Setting, census: Census) returns (actions: seq<Action>)
    requires forall t :: 1 <= t < |STALE_HISTORY| ==> census(STALE_HISTORY[t], setting) != census(BEFORE, setting)
    ensures Legal(actions, BEFORE, census)
    ensures var s := After(actions, BEFORE, census);
            var done := PlaceOf(s, 1);
            done.Done? && done.hit && !TrueOfSome(done.counts, s.history, done.reading, done.answeredAt, census)
  {
    hide KeyOf, Legal, After, Possible, ApplyOp, Enabled, Apply, FirstEntry;
    var cache := Some(FirstEntry(setting, census));
    var first: Place;
    StaleSteps();
    actions := FirstKey(setting, census);
    actions, first := FirstStored(setting, census, actions);
    actions := WriteAt(actions, census, [BEFORE], cache, first, Start, AddVector(30), ROW_ADDED);
    actions := SecondStamp(setting, census, actions, cache, first);
    var second := HasStamp(setting, 1);
    actions := WriteAt(actions, census, [BEFORE, ROW_ADDED], cache, first, second, DeleteVector(2, 1), SECOND_GONE);
    actions := WriteAt(actions, census, [BEFORE, ROW_ADDED, SECOND_GONE], cache, first, second, DeleteVector(3, 2),
                       THIRD_GONE);
    actions := WriteAt(actions, census, [BEFORE, ROW_ADDED, SECOND_GONE, THIRD_GONE], cache, first, second,
                       AddVector(21), SECOND_NEW);
    actions := SecondKey(setting, census, actions, cache, first);
    actions := SecondHit(setting, census, actions, first);
  }
}

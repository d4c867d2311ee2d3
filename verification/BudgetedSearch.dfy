/**
 Counted searches by any number of processes that share one state folder, one file lock and one budget. Between any two
 steps a process may be killed, or stopped by an error that leaves the call: a file that cannot be read or written, or a
 result that cannot be encoded for its log line. A lock, a file replace and the append of one line are single steps.
*/
module BudgetedSearch {
  import opened Options

  datatype Line = Line(n: nat, failed: bool)

  /** The files of the state folder. A counter file that is missing counts as 0. */
  datatype Folder = Folder(counter: Option<nat>, log: seq<Line>, vectorLog: seq<nat>)

  const EMPTY_FOLDER := Folder(None, [], [])

  function Count(folder: Folder): nat
  {
    match folder.counter
    case None => 0
    case Some(n) => n
  }

  // ---------- One search, taken as a whole ----------

  /** How a search ended: refused, counted and then stopped before its log line, or logged. */
  datatype Search = Refused | Lost | Done(failed: bool, vector: bool)

  function Admit(folder: Folder, search: Search): Folder
  {
    var n := Count(folder) + 1;
    match search
    case Refused => folder
    case Lost => folder.(counter := Some(n))
    case Done(failed, vector) =>
      Folder(Some(n), folder.log + [Line(n, failed)], if vector then folder.vectorLog + [n] else folder.vectorLog)
  }

  /** A search is refused exactly when the budget is used. */
  predicate Fits(folder: Folder, search: Search, budget: nat)
  {
    search.Refused? <==> Count(folder) >= budget
  }

  function Replay(history: seq<Search>): Folder
  {
    if history == [] then EMPTY_FOLDER else Admit(Replay(history[..|history| - 1]), history[|history| - 1])
  }

  predicate WithinBudget(history: seq<Search>, budget: nat)
  {
    history == [] ||
    (WithinBudget(history[..|history| - 1], budget)
     && Fits(Replay(history[..|history| - 1]), history[|history| - 1], budget))
  }

  // ---------- The steps of the processes ----------

  type Pid = nat

  /** Where a call of the search command is. */
  datatype Place =
    | Waiting
    | Holding
    | Read(used: nat)
    | Wrote(used: nat)
    | Counted(n: nat)
    | Running(n: nat)
    | Ran(n: nat, failed: bool, vector: bool)
    | Logged(n: nat, failed: bool)
    | Leaving(outcome: Search)
    | Finished(outcome: Search)
    | Raised
    | Killed

  /**
   `starts` and `history` are bookkeeping: the numbers runners started with, and how each call that held the lock ended.
  */
  datatype State = State(folder: Folder, temporary: Option<nat>, lock: Option<Pid>, places: map<Pid, Place>,
                         starts: seq<nat>, history: seq<Search>)

  const FIRST_STATE := State(EMPTY_FOLDER, None, None, map[], [], [])

  datatype Action =
    | Lock(p: Pid)
    | ReadCount(p: Pid)
    | WriteTemporary(p: Pid)
    | Replace(p: Pid)
    | StartRunner(p: Pid)
    | RunnerEnds(p: Pid, failed: bool, vector: bool)
    | AppendLog(p: Pid)
    | AppendVector(p: Pid)
    | Unlock(p: Pid)
    | Raise(p: Pid)
    | Kill(p: Pid)

  function PlaceOf(s: State, p: Pid): Place
  {
    if p in s.places then s.places[p] else Waiting
  }

  predicate Holds(place: Place)
  {
    !place.Waiting? && !place.Finished? && !place.Raised? && !place.Killed?
  }

  predicate Enabled(s: State, action: Action)
  {
    var place := PlaceOf(s, action.p);
    match action
    case Lock(_) => place.Waiting? && s.lock.None?
    case ReadCount(_) => place.Holding?
    case WriteTemporary(_) => place.Read?
    case Replace(_) => place.Wrote?
    case StartRunner(_) => place.Counted?
    case RunnerEnds(_, _, _) => place.Running?
    case AppendLog(_) => place.Ran?
    case AppendVector(_) => place.Logged?
    case Unlock(_) => place.Leaving?
    case Raise(_) => Holds(place)
    case Kill(_) => place.Waiting? || Holds(place)
  }

  function Move(s: State, p: Pid, place: Place): State
  {
    s.(places := s.places[p := place])
  }

  /** What a process that stops leaves behind: its lock is freed, and a counted search stays counted. */
  function AfterStop(place: Place): seq<Search>
  {
    match place
    case Counted(_) => [Lost]
    case Running(_) => [Lost]
    case Ran(_, _, _) => [Lost]
    case Logged(_, failed) => [Done(failed, false)]
    case Leaving(outcome) => [outcome]
    case _ => []
  }

  function Apply(s: State, action: Action, budget: nat): State
    requires Enabled(s, action)
  {
    var p, place := action.p, PlaceOf(s, action.p);
    match action
    case Lock(_) => Move(s, p, Holding).(lock := Some(p))
    case ReadCount(_) => Move(s, p, if Count(s.folder) >= budget then Leaving(Refused) else Read(Count(s.folder)))
    case WriteTemporary(_) => Move(s, p, Wrote(place.used)).(temporary := Some(place.used + 1))
    case Replace(_) =>
      Move(s, p, Counted(place.used + 1)).(folder := s.folder.(counter := s.temporary), temporary := None)
    case StartRunner(_) => Move(s, p, Running(place.n)).(starts := s.starts + [place.n])
    case RunnerEnds(_, failed, vector) => Move(s, p, Ran(place.n, failed, vector))
    case AppendLog(_) =>
      Move(s, p, if place.vector then Logged(place.n, place.failed) else Leaving(Done(place.failed, false)))
      .(folder := s.folder.(log := s.folder.log + [Line(place.n, place.failed)]))
    case AppendVector(_) =>
      Move(s, p, Leaving(Done(place.failed, true))).(folder := s.folder.(vectorLog := s.folder.vectorLog + [place.n]))
    case Unlock(_) => Move(s, p, Finished(place.outcome)).(lock := None, history := s.history + [place.outcome])
    case Raise(_) => Move(s, p, Raised).(lock := None, history := s.history + AfterStop(place))
    case Kill(_) =>
      Move(s, p, Killed).(lock := if s.lock == Some(p) then None else s.lock, history := s.history + AfterStop(place))
  }

  // ---------- The invariant ----------

  /** The folder while the holder of the lock is at `place`, when the searches before it left `base`. */
  ghost predicate HolderState(s: State, place: Place, base: Folder, budget: nat)
  {
    var counted := base.(counter := Some(Count(base) + 1));
    match place
    case Holding => s.folder == base
    case Read(used) => s.folder == base && used == Count(base) < budget
    case Wrote(used) => s.folder == base && used == Count(base) < budget && s.temporary == Some(used + 1)
    case Counted(n) => s.folder == counted && n == Count(base) + 1 <= budget && forall k :: k in s.starts ==> k < n
    case Running(n) => s.folder == counted && n == Count(base) + 1 <= budget
    case Ran(n, _, _) => s.folder == counted && n == Count(base) + 1 <= budget
    case Logged(n, failed) => s.folder == Admit(base, Done(failed, false)) && n == Count(base) + 1 <= budget
    case Leaving(outcome) => s.folder == Admit(base, outcome) && Fits(base, outcome, budget)
    case _ => true
  }

  ghost predicate Increasing(numbers: seq<nat>)
  {
    forall i, j :: 0 <= i < j < |numbers| ==> numbers[i] < numbers[j]
  }

  ghost predicate AllWithin(numbers: seq<nat>, low: nat, high: nat)
  {
    forall i :: 0 <= i < |numbers| ==> low <= numbers[i] <= high
  }

  ghost predicate Inv(s: State, budget: nat)
  {
    var base := Replay(s.history);
    && WithinBudget(s.history, budget) && Count(base) <= budget
    && (forall p :: p in s.places && Holds(s.places[p]) ==> s.lock == Some(p))
    && (s.lock.Some? ==> Holds(PlaceOf(s, s.lock.value)))
    && (s.lock.None? ==> s.folder == base)
    && (s.lock.Some? ==> HolderState(s, PlaceOf(s, s.lock.value), base, budget))
    && Increasing(s.starts) && AllWithin(s.starts, 1, Count(s.folder))
  }

  lemma HistoryAppend(history: seq<Search>, search: Search, budget: nat)
    requires WithinBudget(history, budget) && Fits(Replay(history), search, budget)
    ensures WithinBudget(history + [search], budget) && Replay(history + [search]) == Admit(Replay(history), search)
  {
    assert (history + [search])[..|history|] == history;
  }

  lemma LockKeeps(s: State, p: Pid, budget: nat)
    requires Inv(s, budget) && Enabled(s, Lock(p))
    ensures Inv(Apply(s, Lock(p), budget), budget)
  {
  }

  predicate Quiet(action: Action)
  {
    action.ReadCount? || action.WriteTemporary? || action.RunnerEnds?
  }

  /** The steps of the lock holder that change none of the files but the temporary one. */
  lemma QuietStepKeeps(s: State, action: Action, budget: nat)
    requires Inv(s, budget) && Enabled(s, action) && Quiet(action)
    ensures Inv(Apply(s, action, budget), budget)
  {
    hide Replay, WithinBudget, Increasing, AllWithin;
    assert s.lock == Some(action.p) && HolderState(s, PlaceOf(s, action.p), Replay(s.history), budget);
  }

  lemma AppendKeeps(s: State, action: Action, budget: nat)
    requires Inv(s, budget) && Enabled(s, action) && (action.AppendLog? || action.AppendVector?)
    ensures Inv(Apply(s, action, budget), budget)
  {
    hide Replay, WithinBudget, Increasing, AllWithin;
    assert s.lock == Some(action.p) && HolderState(s, PlaceOf(s, action.p), Replay(s.history), budget);
  }

  lemma ReplaceKeeps(s: State, p: Pid, budget: nat)
    requires Inv(s, budget) && Enabled(s, Replace(p))
    ensures Inv(Apply(s, Replace(p), budget), budget)
  {
    hide Replay, WithinBudget, Increasing;
    assert s.lock == Some(p) && HolderState(s, PlaceOf(s, p), Replay(s.history), budget);
  }

  lemma StartKeeps(s: State, p: Pid, budget: nat)
    requires Inv(s, budget) && Enabled(s, StartRunner(p))
    ensures Inv(Apply(s, StartRunner(p), budget), budget)
  {
    hide Replay, WithinBudget, Increasing;
    assert s.lock == Some(p) && HolderState(s, PlaceOf(s, p), Replay(s.history), budget);
    StartIncreases(s.starts, PlaceOf(s, p).n);
  }

  lemma StartIncreases(starts: seq<nat>, n: nat)
    requires Increasing(starts) && forall k :: k in starts ==> k < n
    ensures Increasing(starts + [n])
  {
    forall i, j | 0 <= i < j < |starts + [n]| ensures (starts + [n])[i] < (starts + [n])[j] {
      assert starts[i] in starts;
    }
  }

  lemma UnlockKeeps(s: State, p: Pid, budget: nat)
    requires Inv(s, budget) && Enabled(s, Unlock(p))
    ensures Inv(Apply(s, Unlock(p), budget), budget)
  {
    hide Replay, WithinBudget, Increasing;
    HistoryAppend(s.history, PlaceOf(s, p).outcome, budget);
  }

  lemma StopKeeps(s: State, action: Action, budget: nat)
    requires Inv(s, budget) && Enabled(s, action) && (action.Raise? || action.Kill?)
    ensures Inv(Apply(s, action, budget), budget)
  {
    hide Replay, WithinBudget, Increasing;
    var left := AfterStop(PlaceOf(s, action.p));
    if left == [] {
      assert s.history + left == s.history;
    } else {
      HistoryAppend(s.history, left[0], budget);
    }
  }

  lemma StepKeeps(s: State, action: Action, budget: nat)
    requires Inv(s, budget) && Enabled(s, action)
    ensures Inv(Apply(s, action, budget), budget)
  {
    hide Inv, Enabled, Apply;
    match action
    case Lock(p) => LockKeeps(s, p, budget);
    case Unlock(p) => UnlockKeeps(s, p, budget);
    case Raise(_) => StopKeeps(s, action, budget);
    case Kill(_) => StopKeeps(s, action, budget);
    case Replace(p) => ReplaceKeeps(s, p, budget);
    case StartRunner(p) => StartKeeps(s, p, budget);
    case AppendLog(_) => AppendKeeps(s, action, budget);
    case AppendVector(_) => AppendKeeps(s, action, budget);
    case _ => QuietStepKeeps(s, action, budget);
  }

  // ---------- Every interleaving ----------

  predicate Legal(actions: seq<Action>, budget: nat)
    decreases |actions|, 0
  {
    actions == [] ||
    (Legal(actions[..|actions| - 1], budget)
     && Enabled(After(actions[..|actions| - 1], budget), actions[|actions| - 1]))
  }

  function After(actions: seq<Action>, budget: nat): State
    requires Legal(actions, budget)
    decreases |actions|, 1
  {
    if actions == [] then FIRST_STATE
    else Apply(After(actions[..|actions| - 1], budget), actions[|actions| - 1], budget)
  }

  lemma {:induction false} ReachableInv(actions: seq<Action>, budget: nat)
    requires Legal(actions, budget)
    ensures Inv(After(actions, budget), budget)
  {
    if actions == [] {
      assert Replay([]) == EMPTY_FOLDER;
    } else {
      var before := actions[..|actions| - 1];
      ReachableInv(before, budget);
      StepKeeps(After(before, budget), actions[|actions| - 1], budget);
    }
  }

  /**
   Whenever the lock is free the folder is what some sequence of whole searches, one after the other, leaves: each was
   refused exactly when the budget was used, and each that counted was either logged or stopped before its log line.
  */
  lemma FreeFolderIsAReplay(actions: seq<Action>, budget: nat)
    requires Legal(actions, budget) && After(actions, budget).lock.None?
    ensures var s := After(actions, budget);
            s.folder == Replay(s.history) && WithinBudget(s.history, budget)
  {
    ReachableInv(actions, budget);
  }

  // ---------- Counter and runners ----------

  lemma CountStep(s: State, action: Action, budget: nat)
    requires Inv(s, budget) && Enabled(s, action)
    ensures Count(s.folder) <= Count(Apply(s, action, budget).folder)
  {
    hide Replay, WithinBudget, Increasing, AllWithin;
    if Holds(PlaceOf(s, action.p)) {
      assert s.lock == Some(action.p) && HolderState(s, PlaceOf(s, action.p), Replay(s.history), budget);
    }
  }

  lemma CountWithinBudget(s: State, budget: nat)
    requires Inv(s, budget)
    ensures Count(s.folder) <= budget
  {
    hide Replay, WithinBudget, Increasing, AllWithin;
    if s.lock.Some? {
      assert HolderState(s, PlaceOf(s, s.lock.value), Replay(s.history), budget);
    }
  }

  /** The counter never falls and never passes the budget. */
  lemma {:induction false} CounterOnlyGrows(actions: seq<Action>, k: nat, budget: nat)
    requires Legal(actions, budget) && k <= |actions|
    ensures Legal(actions[..k], budget)
    ensures Count(After(actions[..k], budget).folder) <= Count(After(actions, budget).folder) <= budget
  {
    ReachableInv(actions, budget);
    CountWithinBudget(After(actions, budget), budget);
    if k == |actions| {
      assert actions[..k] == actions;
    } else {
      var before := actions[..|actions| - 1];
      CounterOnlyGrows(before, k, budget);
      assert before[..k] == actions[..k];
      ReachableInv(before, budget);
      CountStep(After(before, budget), actions[|actions| - 1], budget);
    }
  }

  lemma {:induction false} IncreasingIsShort(numbers: seq<nat>, high: nat)
    requires Increasing(numbers) && AllWithin(numbers, 1, high)
    ensures |numbers| <= high
    ensures |numbers| == high ==> forall i :: 0 <= i < high ==> numbers[i] == i + 1
    decreases |numbers|
  {
    if numbers != [] {
      var n := |numbers| - 1;
      var rest, last := numbers[..n], numbers[n];
      forall i | 0 <= i < n ensures 1 <= rest[i] <= last - 1 {
        assert rest[i] == numbers[i] && numbers[i] < numbers[n];
      }
      IncreasingIsShort(rest, last - 1);
      forall i | 0 <= i < |numbers| && |numbers| == high ensures numbers[i] == i + 1 {
        if i < n {
          assert rest[i] == numbers[i];
        }
      }
    }
  }

  /** At most `budget` runners ever start, with numbers that strictly increase and never pass the counter. */
  lemma AtMostBudgetRunners(actions: seq<Action>, budget: nat)
    requires Legal(actions, budget)
    ensures var s := After(actions, budget);
            Increasing(s.starts) && AllWithin(s.starts, 1, Count(s.folder)) && |s.starts| <= Count(s.folder) <= budget
  {
    ReachableInv(actions, budget);
    CountWithinBudget(After(actions, budget), budget);
    IncreasingIsShort(After(actions, budget).starts, Count(After(actions, budget).folder));
  }

  // ---------- The logs ----------

  function Numbers(log: seq<Line>): seq<nat>
  {
    seq(|log|, i requires 0 <= i < |log| => log[i].n)
  }

  /** Logged numbers strictly increase and never pass the counter; vector-log numbers do too and are among them. */
  ghost predicate LogsFit(folder: Folder)
  {
    && Increasing(Numbers(folder.log)) && AllWithin(Numbers(folder.log), 1, Count(folder))
    && Increasing(folder.vectorLog) && AllWithin(folder.vectorLog, 1, Count(folder))
    && forall k :: k in folder.vectorLog ==> k in Numbers(folder.log)
  }

  lemma AppendNumber(numbers: seq<nat>, n: nat)
    requires Increasing(numbers) && AllWithin(numbers, 1, n)
    ensures Increasing(numbers + [n + 1]) && AllWithin(numbers + [n + 1], 1, n + 1)
  {
  }

  lemma AdmitKeepsLogs(folder: Folder, search: Search)
    requires LogsFit(folder)
    ensures LogsFit(Admit(folder, search))
  {
    var n := Count(folder);
    if search.Done? {
      assert Numbers(folder.log + [Line(n + 1, search.failed)]) == Numbers(folder.log) + [n + 1];
      AppendNumber(Numbers(folder.log), n);
      AppendNumber(folder.vectorLog, n);
    }
  }

  lemma {:induction false} ReplayKeepsLogs(history: seq<Search>)
    ensures LogsFit(Replay(history))
  {
    if history != [] {
      ReplayKeepsLogs(history[..|history| - 1]);
      AdmitKeepsLogs(Replay(history[..|history| - 1]), history[|history| - 1]);
    }
  }

  /** In every reachable state, also while a search is under way. */
  lemma LogsAlwaysFit(actions: seq<Action>, budget: nat)
    requires Legal(actions, budget)
    ensures LogsFit(After(actions, budget).folder)
  {
    var s := After(actions, budget);
    var base := Replay(s.history);
    ReachableInv(actions, budget);
    ReplayKeepsLogs(s.history);
    if s.lock.Some? {
      HolderLogsFit(s, PlaceOf(s, s.lock.value), base, budget);
    }
  }

  lemma HolderLogsFit(s: State, place: Place, base: Folder, budget: nat)
    requires HolderState(s, place, base, budget) && Holds(place) && LogsFit(base)
    ensures LogsFit(s.folder)
  {
    AdmitKeepsLogs(base, Lost);
    match place
    case Logged(_, failed) => AdmitKeepsLogs(base, Done(failed, false));
    case Leaving(outcome) => AdmitKeepsLogs(base, outcome);
    case _ =>
  }

  // ---------- Count and log ----------

  function Losses(history: seq<Search>): nat
  {
    if history == [] then 0 else Losses(history[..|history| - 1]) + if history[|history| - 1].Lost? then 1 else 0
  }

  lemma {:induction false} CountIsLogAndLosses(history: seq<Search>)
    ensures Count(Replay(history)) == |Replay(history).log| + Losses(history)
  {
    if history != [] {
      CountIsLogAndLosses(history[..|history| - 1]);
    }
  }

  ghost predicate LogIsComplete(folder: Folder)
  {
    |folder.log| == Count(folder) && forall i :: 0 <= i < |folder.log| ==> folder.log[i].n == i + 1
  }

  /**
   While the lock is free, the counter exceeds the log by exactly the searches that were stopped after they counted, so
   the log is 1 through the counter exactly when there was none.
  */
  lemma LogMissesOnlyTheStopped(actions: seq<Action>, budget: nat)
    requires Legal(actions, budget) && After(actions, budget).lock.None?
    ensures var s := After(actions, budget);
            && Count(s.folder) == |s.folder.log| + Losses(s.history)
            && (LogIsComplete(s.folder) <==> Losses(s.history) == 0)
  {
    var s := After(actions, budget);
    FreeFolderIsAReplay(actions, budget);
    CountIsLogAndLosses(s.history);
    ReplayKeepsLogs(s.history);
    if Losses(s.history) == 0 {
      IncreasingIsShort(Numbers(s.folder.log), Count(s.folder));
      forall i | 0 <= i < |s.folder.log| ensures s.folder.log[i].n == i + 1 {
        assert Numbers(s.folder.log)[i] == s.folder.log[i].n;
      }
    }
  }

  /** A step that stops a process between the counter and its log line. */
  predicate Strikes(s: State, action: Action)
  {
    var place := PlaceOf(s, action.p);
    (action.Raise? || action.Kill?) && (place.Counted? || place.Running? || place.Ran?)
  }

  predicate NoneLeavesLost(s: State)
  {
    forall p :: p in s.places && s.places[p].Leaving? ==> !s.places[p].outcome.Lost?
  }

  lemma LossesAppend(history: seq<Search>, search: Search)
    ensures Losses(history + [search]) == Losses(history) + if search.Lost? then 1 else 0
  {
    assert (history + [search])[..|history|] == history;
  }

  lemma PlacesStep(s: State, action: Action, budget: nat)
    requires Enabled(s, action) && NoneLeavesLost(s)
    ensures NoneLeavesLost(Apply(s, action, budget))
  {
    hide Losses;
  }

  lemma HistoryStep(s: State, action: Action, budget: nat)
    requires Enabled(s, action)
    ensures var next := Apply(s, action, budget);
            next.history == if action.Unlock? then s.history + [PlaceOf(s, action.p).outcome]
                            else if action.Raise? || action.Kill? then s.history + AfterStop(PlaceOf(s, action.p))
                            else s.history
  {
  }

  /** Every strike loses one search, and nothing else does. */
  lemma LossesStep(s: State, action: Action, budget: nat)
    requires Enabled(s, action) && NoneLeavesLost(s)
    ensures Losses(Apply(s, action, budget).history) == Losses(s.history) + if Strikes(s, action) then 1 else 0
  {
    hide Apply, Losses;
    HistoryStep(s, action, budget);
    var place := PlaceOf(s, action.p);
    if action.Unlock? {
      LossesAppend(s.history, place.outcome);
    } else if action.Raise? || action.Kill? {
      var left := AfterStop(place);
      if left == [] {
        assert s.history + left == s.history;
      } else {
        LossesAppend(s.history, left[0]);
      }
    }
  }

  predicate StrikesAt(actions: seq<Action>, budget: nat, k: nat)
    requires Legal(actions, budget)
  {
    k < |actions| && Legal(actions[..k], budget) && Strikes(After(actions[..k], budget), actions[k])
  }

  lemma StrikesBefore(actions: seq<Action>, budget: nat, k: nat)
    requires actions != [] && Legal(actions, budget)
    ensures StrikesAt(actions, budget, k) <==>
              StrikesAt(actions[..|actions| - 1], budget, k)
              || (k == |actions| - 1 && Strikes(After(actions[..|actions| - 1], budget), actions[k]))
  {
    var before := actions[..|actions| - 1];
    if k < |before| {
      assert before[..k] == actions[..k];
    }
  }

  lemma {:induction false} LossesAreStrikes(actions: seq<Action>, budget: nat)
    requires Legal(actions, budget)
    ensures NoneLeavesLost(After(actions, budget))
    ensures Losses(After(actions, budget).history) == 0 <==> forall k: nat :: !StrikesAt(actions, budget, k)
  {
    hide Strikes, StrikesAt, NoneLeavesLost, Apply, Losses;
    if actions == [] {
      NothingStruck(budget);
    } else {
      var n := |actions| - 1;
      var before := actions[..n];
      LossesAreStrikes(before, budget);
      PlacesStep(After(before, budget), actions[n], budget);
      LossesStep(After(before, budget), actions[n], budget);
      forall k: nat
        ensures StrikesAt(actions, budget, k) <==>
                  StrikesAt(before, budget, k) || (k == n && Strikes(After(before, budget), actions[n]))
      {
        StrikesBefore(actions, budget, k);
      }
      assert StrikesAt(actions, budget, n) <==>
               StrikesAt(before, budget, n) || Strikes(After(before, budget), actions[n]);
    }
  }

  lemma NothingStruck(budget: nat)
    ensures NoneLeavesLost(After([], budget)) && Losses(After([], budget).history) == 0
    ensures forall k: nat :: !StrikesAt([], budget, k)
  {
  }

  /**
   Whenever the lock is free, the log is 1 through the counter exactly when no process was stopped between the two.
  */
  lemma LogIsCompleteExactly(actions: seq<Action>, budget: nat)
    requires Legal(actions, budget) && After(actions, budget).lock.None?
    ensures LogIsComplete(After(actions, budget).folder) <==> forall k: nat :: !StrikesAt(actions, budget, k)
  {
    hide StrikesAt, LogIsComplete, Losses;
    LossesAreStrikes(actions, budget);
    LogMissesOnlyTheStopped(actions, budget);
  }

  /** With no process killed or stopped by an error, the log is exactly 1 through the counter. */
  lemma NoStopCompleteLog(actions: seq<Action>, budget: nat)
    requires Legal(actions, budget) && forall i :: 0 <= i < |actions| ==> !actions[i].Kill? && !actions[i].Raise?
    requires After(actions, budget).lock.None?
    ensures LogIsComplete(After(actions, budget).folder)
  {
    hide LogIsComplete;
    LogIsCompleteExactly(actions, budget);
  }

  // ---------- The command itself ----------

  /**
   What the search did: whether it failed, whether it has a vector status, and whether UTF-8 can hold its text, which is
   encoded for the log line and not otherwise modelled.
  */
  datatype SearchResult = SearchResult(failed: bool, vector: bool, encodable: bool)

  datatype Answer = BudgetExhausted | EncodeError | Searched(n: nat)

  /** What one call makes of the folder. */
  function SearchOf(used: nat, budget: nat, result: SearchResult): Search
  {
    if used >= budget then Refused else if !result.encodable then Lost else Done(result.failed, result.vector)
  }

  class StateFolder {
    var counter: Option<nat>
    var temporary: Option<nat>
    var log: seq<Line>
    var vectorLog: seq<nat>

    constructor ()
      ensures Files() == EMPTY_FOLDER && temporary.None?
    {
      counter, temporary, log, vectorLog := None, None, [], [];
    }

    function Files(): Folder
      reads this
    {
      Folder(counter, log, vectorLog)
    }

    /** One search whose file operations succeed, all under the lock. `result` is what the runner would give. */
    method RunBudgetedSearch(budget: nat, result: SearchResult) returns (answer: Answer)
      modifies this
      ensures var used := Count(old(Files()));
              && Files() == Admit(old(Files()), SearchOf(used, budget, result))
              && (answer.BudgetExhausted? <==> used >= budget)
              && (answer.EncodeError? <==> used < budget && !result.encodable)
              && (answer.Searched? ==> answer.n == used + 1)
      ensures var used, done := if old(counter).Some? then old(counter).value else 0, result.encodable;
              if used >= budget then Files() == old(Files())
              else
                && counter == Some(used + 1) && temporary.None?
                && log == old(log) + (if done then [Line(used + 1, result.failed)] else [])
                && vectorLog == old(vectorLog) + (if done && result.vector then [used + 1] else [])
    {
      var used := match counter case None => 0 case Some(n) => n;
      if used >= budget {
        return BudgetExhausted;
      }
      temporary := Some(used + 1);
      counter, temporary := temporary, None;
      if !result.encodable {
        return EncodeError;
      }
      log := log + [Line(used + 1, result.failed)];
      if result.vector {
        vectorLog := vectorLog + [used + 1];
      }
      return Searched(used + 1);
    }
  }

  predicate CanRunFrom(s: State, actions: seq<Action>, budget: nat)
    decreases |actions|
  {
    actions == [] || (Enabled(s, actions[0]) && CanRunFrom(Apply(s, actions[0], budget), actions[1..], budget))
  }

  function RunFrom(s: State, actions: seq<Action>, budget: nat): State
    requires CanRunFrom(s, actions, budget)
    decreases |actions|
  {
    if actions == [] then s else RunFrom(Apply(s, actions[0], budget), actions[1..], budget)
  }

  /** The steps of one whole call, in order. */
  function Call(p: Pid, result: SearchResult): seq<Action>
  {
    [Lock(p)] + ([ReadCount(p)] + ([WriteTemporary(p)] + ([Replace(p)] + CallFromCounted(p, result))))
  }

  function CallEnd(p: Pid, result: SearchResult): seq<Action>
  {
    if result.vector then [AppendVector(p)] + [Unlock(p)] else [Unlock(p)]
  }

  lemma RunCons(s: State, action: Action, rest: seq<Action>, budget: nat)
    requires Enabled(s, action) && CanRunFrom(Apply(s, action, budget), rest, budget)
    ensures CanRunFrom(s, [action] + rest, budget)
    ensures RunFrom(s, [action] + rest, budget) == RunFrom(Apply(s, action, budget), rest, budget)
  {
    assert ([action] + rest)[1..] == rest;
  }

  lemma CallEnds(s: State, p: Pid, result: SearchResult, n: nat, budget: nat)
    requires PlaceOf(s, p) == Ran(n, result.failed, result.vector)
    ensures var rest := [AppendLog(p)] + CallEnd(p, result);
            && CanRunFrom(s, rest, budget) && RunFrom(s, rest, budget).lock.None?
            && RunFrom(s, rest, budget).folder
               == s.folder.(log := s.folder.log + [Line(n, result.failed)],
                            vectorLog := if result.vector then s.folder.vectorLog + [n] else s.folder.vectorLog)
  {
    var logged := Apply(s, AppendLog(p), budget);
    if result.vector {
      var vectored := Apply(logged, AppendVector(p), budget);
      RunCons(vectored, Unlock(p), [], budget);
      assert [Unlock(p)] + [] == [Unlock(p)];
      RunCons(logged, AppendVector(p), [Unlock(p)], budget);
    } else {
      RunCons(logged, Unlock(p), [], budget);
      assert [Unlock(p)] + [] == [Unlock(p)];
    }
    RunCons(s, AppendLog(p), CallEnd(p, result), budget);
  }

  function CallFromCounted(p: Pid, result: SearchResult): seq<Action>
  {
    [StartRunner(p)] + ([RunnerEnds(p, result.failed, result.vector)] + CallFromRan(p, result))
  }

  function CallFromRan(p: Pid, result: SearchResult): seq<Action>
  {
    if result.encodable then [AppendLog(p)] + CallEnd(p, result) else [Raise(p)]
  }

  /** What a counted search adds to the logs. */
  function WithLines(folder: Folder, n: nat, result: SearchResult): Folder
  {
    if !result.encodable then folder
    else folder.(log := folder.log + [Line(n, result.failed)],
                 vectorLog := if result.vector then folder.vectorLog + [n] else folder.vectorLog)
  }

  lemma RanCallEnds(s: State, p: Pid, result: SearchResult, n: nat, budget: nat)
    requires PlaceOf(s, p) == Ran(n, result.failed, result.vector)
    ensures var rest := CallFromRan(p, result);
            && CanRunFrom(s, rest, budget) && RunFrom(s, rest, budget).lock.None?
            && RunFrom(s, rest, budget).folder == WithLines(s.folder, n, result)
  {
    hide CallEnd;
    if result.encodable {
      CallEnds(s, p, result, n, budget);
    } else {
      RunCons(s, Raise(p), [], budget);
      assert [Raise(p)] + [] == [Raise(p)];
    }
  }

  lemma CountedCallEnds(s: State, p: Pid, result: SearchResult, n: nat, budget: nat)
    requires PlaceOf(s, p) == Counted(n)
    ensures var rest := CallFromCounted(p, result);
            && CanRunFrom(s, rest, budget) && RunFrom(s, rest, budget).lock.None?
            && RunFrom(s, rest, budget).folder == WithLines(s.folder, n, result)
  {
    hide RunFrom, CanRunFrom, CallFromRan;
    var running := Apply(s, StartRunner(p), budget);
    var ran := Apply(running, RunnerEnds(p, result.failed, result.vector), budget);
    RanCallEnds(ran, p, result, n, budget);
    RunCons(running, RunnerEnds(p, result.failed, result.vector), CallFromRan(p, result), budget);
    RunCons(s, StartRunner(p), [RunnerEnds(p, result.failed, result.vector)] + CallFromRan(p, result), budget);
  }

  /** A call whose steps nobody interrupts does to the folder what the command does, also when it ends in an error. */
  lemma UninterruptedCallIsOneSearch(s: State, p: Pid, result: SearchResult, budget: nat)
    requires PlaceOf(s, p).Waiting? && s.lock.None? && Count(s.folder) < budget
    ensures CanRunFrom(s, Call(p, result), budget)
    ensures RunFrom(s, Call(p, result), budget).lock.None?
    ensures RunFrom(s, Call(p, result), budget).folder
            == Admit(s.folder, SearchOf(Count(s.folder), budget, result))
  {
    hide RunFrom, CanRunFrom, CallFromCounted;
    var holding := Apply(s, Lock(p), budget);
    var read := Apply(holding, ReadCount(p), budget);
    var wrote := Apply(read, WriteTemporary(p), budget);
    var counted, rest := Apply(wrote, Replace(p), budget), CallFromCounted(p, result);
    CountedCallEnds(counted, p, result, Count(s.folder) + 1, budget);
    RunCons(wrote, Replace(p), rest, budget);
    RunCons(read, WriteTemporary(p), [Replace(p)] + rest, budget);
    RunCons(holding, ReadCount(p), [WriteTemporary(p)] + ([Replace(p)] + rest), budget);
    RunCons(s, Lock(p), [ReadCount(p)] + ([WriteTemporary(p)] + ([Replace(p)] + rest)), budget);
  }
}

/**
 Processes claiming numbered record files under one stem. A create is exclusive: it makes the file or finds it there,
 in one step. Steps of different processes interleave in any order, a process may stop for good between two steps, and
 no file is ever deleted.
*/
module NumberedClaims {
  import opened Options

  const NUMBER_LIMIT: nat := 99

  type Pid = nat

  /** `GaveUp(true)` is a process the file system refused, `GaveUp(false)` one that ran out of numbers. */
  datatype Place = Starting | Trying(n: nat) | Claimed(n: nat) | GaveUp(failed: bool)

  datatype State = State(files: set<nat>, places: map<Pid, Place>)

  datatype Action =
    | MakeFolder(p: Pid, ok: bool)
    | Create(p: Pid)
    | CreateFails(p: Pid)

  function PlaceOf(s: State, p: Pid): Place
  {
    if p in s.places then s.places[p] else Starting
  }

  predicate Enabled(s: State, action: Action)
  {
    if action.MakeFolder? then PlaceOf(s, action.p).Starting? else PlaceOf(s, action.p).Trying?
  }

  function Move(s: State, p: Pid, place: Place): State
  {
    s.(places := s.places[p := place])
  }

  function AfterTaken(n: nat): Place
  {
    if n < NUMBER_LIMIT then Trying(n + 1) else GaveUp(false)
  }

  function Apply(s: State, action: Action): State
    requires Enabled(s, action)
  {
    match action
    case MakeFolder(p, ok) => Move(s, p, if ok then Trying(1) else GaveUp(true))
    case CreateFails(p) => Move(s, p, GaveUp(true))
    case Create(p) =>
      var n := s.places[p].n;
      if n in s.files then Move(s, p, AfterTaken(n)) else Move(s.(files := s.files + {n}), p, Claimed(n))
  }

  /** Runs start from a folder that already holds some numbered files. */
  predicate Legal(actions: seq<Action>, found: set<nat>)
    decreases |actions|, 0
  {
    actions == [] ||
    (Legal(actions[..|actions| - 1], found)
     && Enabled(After(actions[..|actions| - 1], found), actions[|actions| - 1]))
  }

  function After(actions: seq<Action>, found: set<nat>): State
    requires Legal(actions, found)
    decreases |actions|, 1
  {
    if actions == [] then State(found, map[])
    else Apply(After(actions[..|actions| - 1], found), actions[|actions| - 1])
  }

  // ---------- What every step keeps ----------

  function UpTo(k: nat): (numbers: set<nat>)
    ensures |numbers| == k
    ensures forall n :: n in numbers <==> 1 <= n <= k
  {
    if k == 0 then {} else UpTo(k - 1) + {k}
  }

  function Claimants(s: State): set<Pid>
  {
    set p | p in s.places && s.places[p].Claimed?
  }

  /** A process has seen every number below the one it is trying, and a claim is its own. */
  predicate PlaceFits(place: Place, files: set<nat>, found: set<nat>)
  {
    match place
    case Starting => true
    case Trying(n) => 1 <= n <= NUMBER_LIMIT && UpTo(n - 1) <= files
    case Claimed(n) => 1 <= n <= NUMBER_LIMIT && UpTo(n) <= files && n !in found
    case GaveUp(failed) => failed || UpTo(NUMBER_LIMIT) <= files
  }

  predicate PlacesFit(s: State, found: set<nat>)
  {
    forall p :: p in s.places ==> PlaceFits(s.places[p], s.files, found)
  }

  predicate ClaimsDiffer(s: State)
  {
    forall p, q :: p in Claimants(s) && q in Claimants(s) && p != q ==> s.places[p].n != s.places[q].n
  }

  predicate EveryFileHasAnOwner(s: State, found: set<nat>)
  {
    forall n :: n in s.files ==> n in found || exists p :: p in Claimants(s) && s.places[p].n == n
  }

  predicate Inv(s: State, found: set<nat>)
  {
    && found <= s.files
    && PlacesFit(s, found)
    && ClaimsDiffer(s)
    && EveryFileHasAnOwner(s, found)
    && |s.files| == |found| + |Claimants(s)|
  }

  lemma MoveKeeps(s: State, p: Pid, place: Place, found: set<nat>)
    requires Inv(s, found)
    requires PlaceOf(s, p).Starting? || PlaceOf(s, p).Trying?
    requires !place.Claimed? && PlaceFits(place, s.files, found)
    ensures Inv(Move(s, p, place), found)
  {
    hide UpTo;
    var t := Move(s, p, place);
    assert Claimants(t) == Claimants(s);
    assert PlacesFit(t, found);
    forall n | n in t.files && n !in found
      ensures exists q :: q in Claimants(t) && t.places[q].n == n
    {
      var q :| q in Claimants(s) && s.places[q].n == n;
      assert q in Claimants(t) && t.places[q].n == n;
    }
  }

  lemma UpToStep(n: nat, files: set<nat>)
    requires n >= 1 && UpTo(n - 1) <= files && n in files
    ensures UpTo(n) <= files
  {
    assert UpTo(n) == UpTo(n - 1) + {n};
  }

  lemma ClaimKeepsPlaces(s: State, p: Pid, t: State, found: set<nat>)
    requires PlacesFit(s, found) && found <= s.files
    requires p in s.places && s.places[p].Trying? && s.places[p].n !in s.files
    requires t == Move(s.(files := s.files + {s.places[p].n}), p, Claimed(s.places[p].n))
    ensures PlacesFit(t, found)
  {
    hide UpTo;
    var n := s.places[p].n;
    assert PlaceFits(s.places[p], s.files, found);
    UpToStep(n, t.files);
    forall q | q in t.places
      ensures PlaceFits(t.places[q], t.files, found)
    {
      if q != p {
        assert PlaceFits(s.places[q], s.files, found);
      }
    }
  }

  lemma ClaimKeepsOwners(s: State, p: Pid, t: State, found: set<nat>)
    requires Inv(s, found)
    requires p in s.places && s.places[p].Trying? && s.places[p].n !in s.files
    requires t == Move(s.(files := s.files + {s.places[p].n}), p, Claimed(s.places[p].n))
    ensures ClaimsDiffer(t)
    ensures EveryFileHasAnOwner(t, found)
    ensures |t.files| == |found| + |Claimants(t)|
  {
    hide UpTo;
    var n := s.places[p].n;
    assert Claimants(t) == Claimants(s) + {p};
    assert p !in Claimants(s);
    forall q | q in Claimants(s)
      ensures t.places[q] == s.places[q] && s.places[q].n in s.files
    {
      assert PlaceFits(s.places[q], s.files, found);
      InUpTo(s.places[q].n, s.files);
    }
    forall m | m in t.files && m !in found
      ensures exists q :: q in Claimants(t) && t.places[q].n == m
    {
      if m == n {
        assert p in Claimants(t) && t.places[p].n == m;
      } else {
        var q :| q in Claimants(s) && s.places[q].n == m;
        assert q in Claimants(t) && t.places[q].n == m;
      }
    }
  }

  lemma InUpTo(n: nat, files: set<nat>)
    requires n >= 1 && UpTo(n) <= files
    ensures n in files
  {
    assert n in UpTo(n);
  }

  lemma StepKeeps(s: State, action: Action, found: set<nat>)
    requires Inv(s, found) && Enabled(s, action)
    ensures Inv(Apply(s, action), found)
    ensures s.files <= Apply(s, action).files
  {
    hide UpTo, PlacesFit, ClaimsDiffer, EveryFileHasAnOwner;
    var p := action.p;
    var t := Apply(s, action);
    match action
    case MakeFolder(_, ok) =>
      NothingBelowOne();
      MoveKeeps(s, p, if ok then Trying(1) else GaveUp(true), found);
    case CreateFails(_) =>
      MoveKeeps(s, p, GaveUp(true), found);
    case Create(_) =>
      var n := s.places[p].n;
      if n in s.files {
        TakenFits(s, p, found);
        MoveKeeps(s, p, AfterTaken(n), found);
      } else {
        ClaimKeepsPlaces(s, p, t, found);
        ClaimKeepsOwners(s, p, t, found);
      }
  }

  lemma NothingBelowOne()
    ensures UpTo(0) == {}
  {
  }

  lemma TakenFits(s: State, p: Pid, found: set<nat>)
    requires PlacesFit(s, found)
    requires p in s.places && s.places[p].Trying? && s.places[p].n in s.files
    ensures PlaceFits(AfterTaken(s.places[p].n), s.files, found)
  {
    hide UpTo;
    assert PlaceFits(s.places[p], s.files, found);
    UpToStep(s.places[p].n, s.files);
  }

  lemma {:induction false} RunKeeps(actions: seq<Action>, found: set<nat>)
    requires Legal(actions, found)
    ensures Inv(After(actions, found), found)
  {
    hide UpTo, Inv, Enabled, Apply;
    if actions == [] {
      FirstState(found);
    } else {
      var before := actions[..|actions| - 1];
      RunKeeps(before, found);
      StepKeeps(After(before, found), actions[|actions| - 1], found);
    }
  }

  lemma FirstState(found: set<nat>)
    ensures Inv(State(found, map[]), found)
  {
    assert Claimants(State(found, map[])) == {};
  }

  // ---------- The claims of a run ----------

  /** Two processes that hold a number hold different ones, and neither number was there before. */
  lemma ClaimsAreDistinct(actions: seq<Action>, found: set<nat>, p: Pid, q: Pid)
    requires Legal(actions, found) && p != q
    requires PlaceOf(After(actions, found), p).Claimed? && PlaceOf(After(actions, found), q).Claimed?
    ensures PlaceOf(After(actions, found), p).n != PlaceOf(After(actions, found), q).n
    ensures PlaceOf(After(actions, found), p).n in After(actions, found).files - found
  {
    hide UpTo, EveryFileHasAnOwner;
    RunKeeps(actions, found);
    var s := After(actions, found);
    assert p in Claimants(s) && q in Claimants(s);
    assert PlaceFits(s.places[p], s.files, found);
    InUpTo(s.places[p].n, s.files);
  }

  /** A claim is kept for good, and no file goes away, whatever the other processes do later. */
  lemma {:induction false} ClaimIsKept(actions: seq<Action>, found: set<nat>, k: nat, p: Pid)
    requires Legal(actions, found) && k <= |actions|
    ensures Legal(actions[..k], found)
    ensures After(actions[..k], found).files <= After(actions, found).files
    ensures PlaceOf(After(actions[..k], found), p).Claimed? ==>
            PlaceOf(After(actions, found), p) == PlaceOf(After(actions[..k], found), p)
  {
    if k < |actions| {
      var before := actions[..|actions| - 1];
      ClaimIsKept(before, found, k, p);
      assert before[..k] == actions[..k];
    } else {
      assert actions[..k] == actions;
    }
  }

  /** A process that gives up was refused by the file system, or every number is taken. */
  lemma GivesUpOnlyWhenFull(actions: seq<Action>, found: set<nat>, p: Pid)
    requires Legal(actions, found)
    requires PlaceOf(After(actions, found), p) == GaveUp(false)
    ensures forall n :: 1 <= n <= 99 ==> n in After(actions, found).files
  {
    hide EveryFileHasAnOwner, ClaimsDiffer;
    RunKeeps(actions, found);
    var s := After(actions, found);
    assert PlaceFits(s.places[p], s.files, found);
  }

  predicate SeesBelow(files: set<nat>, n: nat) { n >= 1 && UpTo(n) <= files }

  /** A set of positive numbers that holds everything below each of its members is 1 to its size. */
  lemma NoGaps(files: set<nat>)
    requires forall n :: n in files ==> SeesBelow(files, n)
    ensures files == UpTo(|files|)
  {
    hide SeesBelow;
    StartIsThere(files, |files|);
    SmallerSet(UpTo(|files|), files);
  }

  lemma {:induction false} StartIsThere(files: set<nat>, k: nat)
    requires forall n :: n in files ==> SeesBelow(files, n)
    requires k <= |files|
    ensures UpTo(k) <= files
  {
    if k > 0 {
      StartIsThere(files, k - 1);
      if k !in files {
        assert files <= UpTo(k - 1) by {
          forall n | n in files ensures n in UpTo(k - 1) {
            assert SeesBelow(files, n);
            if n >= k {
              assert k in UpTo(n);
            }
          }
        }
        SmallerSet(files, UpTo(k - 1));
      }
      UpToStep(k, files);
    }
  }

  lemma {:induction false} SmallerSet(a: set<nat>, b: set<nat>)
    requires a <= b
    ensures |a| <= |b|
    ensures |a| == |b| ==> a == b
  {
    if a != {} {
      var x :| x in a;
      SmallerSet(a - {x}, b - {x});
    }
  }

  /** In a folder found with 1 to k0 and nothing else, the files are always 1 to k, one more for each claim, and k is at
      most 99 unless k0 was more. */
  lemma FilesAreOneToK(actions: seq<Action>, k0: nat)
    requires Legal(actions, UpTo(k0))
    ensures var s := After(actions, UpTo(k0));
            var k := k0 + |Claimants(s)|;
            (forall n :: n in s.files <==> 1 <= n <= k) && (k0 <= 99 ==> k <= 99)
  {
    hide UpTo, SeesBelow, Claimants;
    var s := After(actions, UpTo(k0));
    RunKeeps(actions, UpTo(k0));
    forall n | n in s.files
      ensures SeesBelow(s.files, n) && (n <= k0 || n <= NUMBER_LIMIT)
    {
      OwnerSawAllBelow(s, k0, n);
    }
    NoGaps(s.files);
    InUpToItself(|s.files|);
    UpToHolds(|s.files|);
  }

  lemma UpToHolds(k: nat)
    ensures forall n :: n in UpTo(k) <==> 1 <= n <= k
  {
  }

  lemma InUpToItself(k: nat)
    ensures k > 0 ==> k in UpTo(k)
    ensures |UpTo(k)| == k
  {
  }

  lemma OwnerSawAllBelow(s: State, k0: nat, n: nat)
    requires Inv(s, UpTo(k0)) && n in s.files
    ensures SeesBelow(s.files, n) && (n <= k0 || n <= NUMBER_LIMIT)
  {
    if n !in UpTo(k0) {
      var p :| p in Claimants(s) && s.places[p].n == n;
      assert PlaceFits(s.places[p], s.files, UpTo(k0));
    }
  }

  // ---------- One process running alone ----------

  /** The least number from `from` on that is not in use. */
  function FirstFree(files: set<nat>, from: nat): (n: nat)
    ensures n >= from && n !in files
    ensures forall m :: from <= m < n ==> m in files
    decreases files
  {
    if from in files then FirstFreeAfter(files, from) else from
  }

  function FirstFreeAfter(files: set<nat>, from: nat): (n: nat)
    requires from in files
    ensures n > from && n !in files
    ensures forall m :: from <= m < n ==> m in files
    decreases files, 0
  {
    var n := FirstFree(files - {from}, from + 1);
    n
  }

  /** The numbered files of the artifacts folder, as a process that nobody interrupts meets them. */
  class Artifacts {
    var files: set<nat>

    constructor (found: set<nat>)
      ensures files == found
    {
      files := found;
    }

    /** Returns the number of the file it made, or None. The file system answers `refused` numbers with an error. */
    method OpenNumbered(folderFails: bool, refused: set<nat>) returns (claimed: Option<nat>)
      modifies this
      ensures var free := FirstFree(old(files), 1);
              claimed == if folderFails || free > NUMBER_LIMIT || RefusedUpTo(refused, free) then None else Some(free)
      ensures files == if claimed.Some? then old(files) + {claimed.value} else old(files)
      ensures forall n :: claimed == Some(n) <==>
                !folderFails && 1 <= n <= 99 && n !in old(files)
                && forall k :: 1 <= k <= n ==> k !in refused && (k < n ==> k in old(files))
    {
      if folderFails {
        return None;
      }
      ghost var free := FirstFree(files, 1);
      for n := 1 to NUMBER_LIMIT + 1
        invariant files == old(files)
        invariant n <= free
        invariant !RefusedUpTo(refused, n - 1)
      {
        if n in refused {
          return None;
        }
        if n !in files {
          files := files + {n};
          return Some(n);
        }
      }
      return None;
    }
  }

  predicate RefusedUpTo(refused: set<nat>, last: nat)
  {
    exists n :: n in refused && 1 <= n <= last
  }

  /** The creates of one process with no other process between them. */
  function Alone(s: State, p: Pid): State
    requires PlaceOf(s, p).Trying?
    decreases NUMBER_LIMIT - s.places[p].n
  {
    var t := Apply(s, Create(p));
    if PlaceOf(t, p).Trying? then Alone(t, p) else t
  }

  /** Without interference the creates end where the loop of a single call does. */
  lemma {:induction false} AloneIsOneCall(s: State, p: Pid)
    requires PlaceOf(s, p).Trying? && s.places[p].n <= NUMBER_LIMIT
    ensures var free := FirstFree(s.files, s.places[p].n);
            Alone(s, p) == if free > NUMBER_LIMIT then Move(s, p, GaveUp(false))
                           else Move(s.(files := s.files + {free}), p, Claimed(free))
    decreases NUMBER_LIMIT - s.places[p].n
  {
    var n := s.places[p].n;
    var t := Apply(s, Create(p));
    if PlaceOf(t, p).Trying? {
      AloneIsOneCall(t, p);
      SameFirstFree(s.files, n);
      assert forall place :: Move(t, p, place).places == Move(s, p, place).places;
    } else if n in s.files {
      SameFirstFree(s.files, n);
    }
  }

  lemma SameFirstFree(files: set<nat>, n: nat)
    requires n in files
    ensures FirstFree(files, n) == FirstFree(files, n + 1)
  {
    var here, there := FirstFree(files, n), FirstFree(files, n + 1);
    assert here >= n + 1;
  }
}

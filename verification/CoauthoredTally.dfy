/**
 * The count that one pass leaves to the next, which then has fewer days to walk:
 * CoauthoredTally and coauthoredBase of
 * internal/collect/achievement_progress.go, and the part of Collect of
 * internal/collect/achievements.go that reads and writes them.
 *
 * Days are counted from Go's zero time, so the zero day is day 0.
 */
module CoauthoredTallies {
  import opened Lists
  import opened CoauthoredWalks

  const WHOLE_EVERY: int := 7

  datatype Tally = Tally(count: nat, through: int, truncated: nat, capped: bool, rule: int, walkedWhole: int)

  /** The counters a finished walk leaves. */
  datatype Walked = Walked(pulls: nat, settled: nat, truncated: nat, settledTruncated: nat, capped: bool)

  datatype Report = Report(count: nat, truncated: nat, capped: bool)

  /** One pass: the day it is made on, the version of the rule it counts by,
      whether it was told to walk everything, the co-authored pull requests it
      could see by that rule, and what its walk came back with, if it did. */
  datatype Pass = Pass(day: int, rule: int, whole: bool, created: int, seen: set<Id>, walked: Option<Walked>)

  // The code's own decisions.

  /** An earlier tally is built on when it was made by the same rule, covers
      only days before today, and the whole history was walked this week. */
  predicate Usable(stored: Option<Tally>, pass: Pass) {
    && stored.Some? && !pass.whole
    && stored.value.rule == pass.rule
    && stored.value.through != 0 && stored.value.through < pass.day
    && pass.day < stored.value.walkedWhole + WHOLE_EVERY
  }

  /** Where a pass starts from, and the first day it walks. */
  function Base(stored: Option<Tally>, pass: Pass): (Tally, int) {
    if Usable(stored, pass) then (stored.value, stored.value.through + 1)
    else (Tally(0, 0, 0, false, pass.rule, pass.day), pass.created)
  }

  function Reported(stored: Option<Tally>, pass: Pass): Option<Report> {
    if pass.walked.None? then None
    else
      var (base, from), w := Base(stored, pass), pass.walked.value;
      Some(Report(base.count + w.pulls, base.truncated + w.truncated, base.capped || w.capped))
  }

  /** What is stored after a pass: nothing new where there is nowhere to store
      it, or where the walk did not come back. */
  function Next(stored: Option<Tally>, pass: Pass): Option<Tally> {
    if pass.walked.None? || stored.None? then stored
    else
      var (base, from), w := Base(stored, pass), pass.walked.value;
      Some(Tally(base.count + w.settled, pass.day - 1, base.truncated + w.settledTruncated,
                 base.capped || w.capped, pass.rule, base.walkedWhole))
  }

  /** What is stored after the first n passes of a run. */
  function After(initial: Option<Tally>, passes: seq<Pass>, n: nat): Option<Tally>
    requires n <= |passes|
  {
    if n == 0 then initial else Next(After(initial, passes, n - 1), passes[n - 1])
  }

  // Which pull requests the numbers stand for.

  function Between(ids: set<Id>, dayOf: Id -> int, from: int, to: int): set<Id> {
    set id | id in ids && from <= dayOf(id) <= to
  }

  function Upto(ids: set<Id>, dayOf: Id -> int, to: int): set<Id> {
    set id | id in ids && dayOf(id) <= to
  }

  /** The walk of a pass over its own days is a floor of what the pass could
      see there, and its settled part of what it could see before its day. */
  ghost predicate IsFloor(dayOf: Id -> int, pass: Pass, from: int) {
    pass.walked.Some? ==>
      var w := pass.walked.value;
      && Floors(w.pulls, w.truncated, w.capped, Between(pass.seen, dayOf, from, pass.day))
      && Floors(w.settled, w.settledTruncated, w.capped, Between(pass.seen, dayOf, from, pass.day - 1))
  }

  ghost predicate Floors(count: nat, truncated: nat, capped: bool, ids: set<Id>) {
    count <= |ids| && (!capped ==> |ids| <= count + truncated)
  }

  /** The pull requests the stored count stands for after n passes. */
  ghost function Counted(initial: Option<Tally>, passes: seq<Pass>, dayOf: Id -> int, n: nat): set<Id>
    requires n <= |passes|
  {
    if n == 0 then {}
    else NextSet(After(initial, passes, n - 1), Counted(initial, passes, dayOf, n - 1), passes[n - 1], dayOf)
  }

  /** What one pass makes of them: those it starts with and those it settles. */
  ghost function NextSet(stored: Option<Tally>, counted: set<Id>, pass: Pass, dayOf: Id -> int): set<Id> {
    if pass.walked.None? || stored.None? then counted
    else (if Usable(stored, pass) then counted else {}) + Between(pass.seen, dayOf, Base(stored, pass).1, pass.day - 1)
  }

  /** The pull requests pass n starts with. */
  ghost function StartSet(initial: Option<Tally>, passes: seq<Pass>, dayOf: Id -> int, n: nat): set<Id>
    requires n < |passes|
  {
    if Usable(After(initial, passes, n), passes[n]) then Counted(initial, passes, dayOf, n) else {}
  }

  /** The pull requests the report of pass n stands for. */
  ghost function ReportedSet(initial: Option<Tally>, passes: seq<Pass>, dayOf: Id -> int, n: nat): set<Id>
    requires n < |passes|
  {
    StartSet(initial, passes, dayOf, n)
    + Between(passes[n].seen, dayOf, Base(After(initial, passes, n), passes[n]).1, passes[n].day)
  }

  /** A run begins with no tally to build on: nowhere to keep one, or one that is
      still zero. */
  predicate Begins(initial: Option<Tally>) {
    initial.Some? ==> initial.value == Tally(0, 0, 0, false, 0, 0)
  }

  ghost predicate FloorRun(initial: Option<Tally>, passes: seq<Pass>, dayOf: Id -> int) {
    && Begins(initial)
    && forall n :: 0 <= n < |passes| ==> FloorAt(initial, passes, dayOf, n)
  }

  ghost predicate FloorAt(initial: Option<Tally>, passes: seq<Pass>, dayOf: Id -> int, n: nat)
    requires n < |passes|
  {
    IsFloor(dayOf, passes[n], Base(After(initial, passes, n), passes[n]).1)
  }

  // Over whole runs.

  /** What every pass keeps: the stored count and its floor are those of the
      pull requests it stands for, all of days it covers. */
  lemma {:induction false} StoredIsAFloor(initial: Option<Tally>, passes: seq<Pass>, dayOf: Id -> int, n: nat)
    requires n <= |passes| && FloorRun(initial, passes, dayOf)
    ensures StandsFor(After(initial, passes, n), Counted(initial, passes, dayOf, n), dayOf)
  {
    if n > 0 {
      StoredIsAFloor(initial, passes, dayOf, n - 1);
      assert FloorAt(initial, passes, dayOf, n - 1);
      NextIsAFloor(After(initial, passes, n - 1), Counted(initial, passes, dayOf, n - 1), passes[n - 1], dayOf,
                   After(initial, passes, n), Counted(initial, passes, dayOf, n));
    }
  }

  lemma NextIsAFloor(stored: Option<Tally>, counted: set<Id>, pass: Pass, dayOf: Id -> int, next: Option<Tally>, ids: set<Id>)
    requires StandsFor(stored, counted, dayOf) && IsFloor(dayOf, pass, Base(stored, pass).1)
    requires next == Next(stored, pass)
    requires ids == NextSet(stored, counted, pass, dayOf)
    ensures StandsFor(next, ids, dayOf)
  {
    if pass.walked.Some? && stored.Some? {
      var w, from := pass.walked.value, Base(stored, pass).1;
      JoinFloors(Base(stored, pass).0, if Usable(stored, pass) then counted else {}, dayOf, from,
                 w.settled, w.settledTruncated, w.capped, Between(pass.seen, dayOf, from, pass.day - 1));
    }
  }

  ghost predicate StandsFor(t: Option<Tally>, ids: set<Id>, dayOf: Id -> int) {
    if t.None? then ids == {} else TallyOf(t.value, ids, dayOf)
  }

  ghost predicate TallyOf(t: Tally, ids: set<Id>, dayOf: Id -> int) {
    && Floors(t.count, t.truncated, t.capped, ids)
    && forall id :: id in ids ==> dayOf(id) <= t.through
  }

  ghost predicate StartsFrom(base: (Tally, int), ids: set<Id>, dayOf: Id -> int) {
    && Floors(base.0.count, base.0.truncated, base.0.capped, ids)
    && forall id :: id in ids ==> dayOf(id) < base.1
  }

  lemma StartIsAFloor(initial: Option<Tally>, passes: seq<Pass>, dayOf: Id -> int, n: nat)
    requires n < |passes| && FloorRun(initial, passes, dayOf)
    ensures StartsFrom(Base(After(initial, passes, n), passes[n]), StartSet(initial, passes, dayOf, n), dayOf)
  {
    StoredIsAFloor(initial, passes, dayOf, n);
  }

  lemma JoinFloors(base: Tally, a: set<Id>, dayOf: Id -> int, from: int, count: nat, truncated: nat, capped: bool, b: set<Id>)
    requires Floors(base.count, base.truncated, base.capped, a) && Floors(count, truncated, capped, b)
    requires (forall id :: id in a ==> dayOf(id) < from) && (forall id :: id in b ==> from <= dayOf(id))
    ensures Floors(base.count + count, base.truncated + truncated, base.capped || capped, a + b)
  {
    assert a !! b;
    assert |a + b| == |a| + |b|;
  }

  /** Every report is a floor of the pull requests it stands for. */
  lemma ReportIsAFloor(initial: Option<Tally>, passes: seq<Pass>, dayOf: Id -> int, n: nat)
    requires n < |passes| && FloorRun(initial, passes, dayOf) && passes[n].walked.Some?
    ensures var r := Reported(After(initial, passes, n), passes[n]).value;
      Floors(r.count, r.truncated, r.capped, ReportedSet(initial, passes, dayOf, n))
  {
    StartIsAFloor(initial, passes, dayOf, n);
    var pass, stored := passes[n], After(initial, passes, n);
    var w, from := pass.walked.value, Base(stored, pass).1;
    assert FloorAt(initial, passes, dayOf, n);
    JoinFloors(Base(stored, pass).0, StartSet(initial, passes, dayOf, n), dayOf, from,
               w.pulls, w.truncated, w.capped, Between(pass.seen, dayOf, from, pass.day));
  }

  /** The last pass before the n-th whose walk came back, or -1. */
  ghost function LastWalked(passes: seq<Pass>, n: nat): (m: int)
    requires n <= |passes|
    ensures -1 <= m < n
  {
    if n == 0 then -1 else if passes[n - 1].walked.Some? then n - 1 else LastWalked(passes, n - 1)
  }

  lemma {:induction false} StoredByLastWalked(initial: Option<Tally>, passes: seq<Pass>, n: nat)
    requires n <= |passes| && Begins(initial)
    ensures var m, t := LastWalked(passes, n), After(initial, passes, n);
      && (m == -1 ==> t == initial)
      && (m >= 0 && initial.Some? ==>
            t.Some? && passes[m].walked.Some? && t.value.through == passes[m].day - 1 && t.value.rule == passes[m].rule)
      && (t.Some? <==> initial.Some?)
  {
    if n > 0 {
      StoredByLastWalked(initial, passes, n - 1);
    }
  }

  /** Nobody merges a pull request before the account exists. */
  ghost predicate BornFirst(passes: seq<Pass>, dayOf: Id -> int) {
    forall n, id :: 0 <= n < |passes| && id in passes[n].seen ==> passes[n].created <= dayOf(id)
  }

  /** Days a pass has settled look the same to every later pass made by the
      same rule on that day or after it. */
  ghost predicate SettledDaysStay(passes: seq<Pass>, dayOf: Id -> int) {
    forall i, j :: 0 <= i < j < |passes| && passes[i].rule == passes[j].rule && passes[i].day <= passes[j].day ==>
      Upto(passes[i].seen, dayOf, passes[i].day - 1) == Upto(passes[j].seen, dayOf, passes[i].day - 1)
  }

  /** Days a pass has settled may lose pull requests, and never gain any. */
  ghost predicate SettledDaysOnlyLose(passes: seq<Pass>, dayOf: Id -> int) {
    forall i, j :: 0 <= i < j < |passes| && passes[i].rule == passes[j].rule && passes[i].day <= passes[j].day ==>
      Upto(passes[j].seen, dayOf, passes[i].day - 1) <= Upto(passes[i].seen, dayOf, passes[i].day - 1)
  }

  /** What is stored covers at least what its last walk could see of the days
      it covers. */
  lemma {:induction false} CountedCovers(initial: Option<Tally>, passes: seq<Pass>, dayOf: Id -> int, n: nat)
    requires n <= |passes| && Begins(initial) && initial.Some?
    requires BornFirst(passes, dayOf) && SettledDaysOnlyLose(passes, dayOf)
    ensures var m := LastWalked(passes, n);
      m >= 0 ==> Upto(passes[m].seen, dayOf, passes[m].day - 1) <= Counted(initial, passes, dayOf, n)
    decreases n, 0
  {
    if n > 0 && passes[n - 1].walked.None? {
      CountedCovers(initial, passes, dayOf, n - 1);
    } else if n > 0 {
      StoredByLastWalked(initial, passes, n - 1);
      StartCovers(initial, passes, dayOf, n - 1);
    }
  }

  /** What a pass starts with covers all it can see of the days it does not walk. */
  lemma {:induction false} StartCovers(initial: Option<Tally>, passes: seq<Pass>, dayOf: Id -> int, n: nat)
    requires n < |passes| && Begins(initial)
    requires BornFirst(passes, dayOf) && SettledDaysOnlyLose(passes, dayOf)
    ensures Upto(passes[n].seen, dayOf, Base(After(initial, passes, n), passes[n]).1 - 1)
         <= StartSet(initial, passes, dayOf, n)
    decreases n, 1
  {
    if Usable(After(initial, passes, n), passes[n]) {
      StoredByLastWalked(initial, passes, n);
      CountedCovers(initial, passes, dayOf, n);
      var m := LastWalked(passes, n);
      assert Upto(passes[n].seen, dayOf, passes[m].day - 1) <= Upto(passes[m].seen, dayOf, passes[m].day - 1);
    }
  }

  /** History that shrinks is never undercounted: what a report stands for holds
      every co-authored pull request the pass can see. */
  lemma NeverBelowVisible(initial: Option<Tally>, passes: seq<Pass>, dayOf: Id -> int, n: nat)
    requires n < |passes| && Begins(initial)
    requires BornFirst(passes, dayOf) && SettledDaysOnlyLose(passes, dayOf)
    ensures Upto(passes[n].seen, dayOf, passes[n].day) <= ReportedSet(initial, passes, dayOf, n)
  {
    StartCovers(initial, passes, dayOf, n);
  }

  /** Settled days that never change: then what a report stands for is exactly
      what a walk from the account's first day to the day of the pass would
      count, whatever was stored, skipped, forced or set back before it. */
  lemma RefinesTheWholeWalk(initial: Option<Tally>, passes: seq<Pass>, dayOf: Id -> int, n: nat)
    requires n < |passes| && Begins(initial)
    requires BornFirst(passes, dayOf) && SettledDaysStay(passes, dayOf)
    ensures ReportedSet(initial, passes, dayOf, n) == Between(passes[n].seen, dayOf, passes[n].created, passes[n].day)
  {
    NeverBelowVisible(initial, passes, dayOf, n);
    StartIsVisible(initial, passes, dayOf, n);
  }

  /** And the stored count is of exactly the pull requests merged on or before
      the last day it covers, as its last walk saw them. */
  lemma {:induction false} StoredIsExact(initial: Option<Tally>, passes: seq<Pass>, dayOf: Id -> int, n: nat)
    requires n <= |passes| && Begins(initial) && initial.Some?
    requires BornFirst(passes, dayOf) && SettledDaysStay(passes, dayOf)
    ensures var m, t := LastWalked(passes, n), After(initial, passes, n);
      && (m < 0 ==> Counted(initial, passes, dayOf, n) == {})
      && (m >= 0 ==> t.Some? && t.value.through == passes[m].day - 1)
      && (m >= 0 ==> Counted(initial, passes, dayOf, n) == Upto(passes[m].seen, dayOf, passes[m].day - 1))
    decreases n, 0
  {
    StoredByLastWalked(initial, passes, n);
    CountedCovers(initial, passes, dayOf, n);
    if n > 0 && passes[n - 1].walked.None? {
      StoredIsExact(initial, passes, dayOf, n - 1);
    } else if n > 0 {
      StoredByLastWalked(initial, passes, n - 1);
      StartIsVisible(initial, passes, dayOf, n - 1);
    }
  }

  lemma {:induction false} StartIsVisible(initial: Option<Tally>, passes: seq<Pass>, dayOf: Id -> int, n: nat)
    requires n < |passes| && Begins(initial)
    requires BornFirst(passes, dayOf) && SettledDaysStay(passes, dayOf)
    ensures StartSet(initial, passes, dayOf, n)
         <= Upto(passes[n].seen, dayOf, Base(After(initial, passes, n), passes[n]).1 - 1)
    decreases n, 1
  {
    if Usable(After(initial, passes, n), passes[n]) {
      StoredByLastWalked(initial, passes, n);
      StoredIsExact(initial, passes, dayOf, n);
      var m := LastWalked(passes, n);
      assert Upto(passes[m].seen, dayOf, passes[m].day - 1) == Upto(passes[n].seen, dayOf, passes[m].day - 1);
    }
  }

  /** So, with its own read exact and the settled days of those before, the number
      reported is the number of co-authored pull requests the pass can see. */
  lemma ExactReadsReportTheTruth(initial: Option<Tally>, passes: seq<Pass>, dayOf: Id -> int, n: nat)
    requires n < |passes| && FloorRun(initial, passes, dayOf) && passes[n].walked.Some?
    requires BornFirst(passes, dayOf) && SettledDaysStay(passes, dayOf)
    requires SettledExactly(passes, n) && Exact(passes[n].walked.value)
    ensures Reported(After(initial, passes, n), passes[n])
         == Some(Report(|Between(passes[n].seen, dayOf, passes[n].created, passes[n].day)|, 0, false))
  {
    ReportIsAFloor(initial, passes, dayOf, n);
    RefinesTheWholeWalk(initial, passes, dayOf, n);
    ExactTally(initial, passes, n);
  }

  /** With such reads and history that only shrinks, no pass reports fewer than it
      can see. */
  lemma NeverReportsFewer(initial: Option<Tally>, passes: seq<Pass>, dayOf: Id -> int, n: nat)
    requires n < |passes| && FloorRun(initial, passes, dayOf) && passes[n].walked.Some?
    requires BornFirst(passes, dayOf) && SettledDaysOnlyLose(passes, dayOf)
    requires SettledExactly(passes, n) && Exact(passes[n].walked.value)
    ensures |Upto(passes[n].seen, dayOf, passes[n].day)| <= Reported(After(initial, passes, n), passes[n]).value.count
  {
    ReportIsAFloor(initial, passes, dayOf, n);
    NeverBelowVisible(initial, passes, dayOf, n);
    ExactTally(initial, passes, n);
    SubsetCount(Upto(passes[n].seen, dayOf, passes[n].day), ReportedSet(initial, passes, dayOf, n));
  }

  predicate Exact(w: Walked) {
    w.truncated == 0 && w.settledTruncated == 0 && !w.capped
  }

  /** The walks of the first n passes left no floor but in the day in progress. */
  ghost predicate SettledExactly(passes: seq<Pass>, n: nat)
    requires n <= |passes|
  {
    forall k :: 0 <= k < n && passes[k].walked.Some? ==>
      passes[k].walked.value.settledTruncated == 0 && !passes[k].walked.value.capped
  }

  /** A floor of the day in progress is no part of what is stored, which then has
      none. */
  lemma {:induction false} ExactTally(initial: Option<Tally>, passes: seq<Pass>, n: nat)
    requires n <= |passes| && Begins(initial) && SettledExactly(passes, n)
    ensures var t := After(initial, passes, n);
      t.Some? ==> t.value.truncated == 0 && !t.value.capped
  {
    if n > 0 {
      ExactTally(initial, passes, n - 1);
    }
  }

  /** A pass told to walk everything reports what it sees itself, and its week
      begins anew, whatever any pass before it made of the tally. */
  lemma AWholePassStandsAlone(initial: Option<Tally>, passes: seq<Pass>, dayOf: Id -> int, n: nat)
    requires n < |passes| && passes[n].whole && passes[n].walked.Some?
    requires IsFloor(dayOf, passes[n], passes[n].created)
    ensures var r, pass := Reported(After(initial, passes, n), passes[n]), passes[n];
      && r.Some? && Floors(r.value.count, r.value.truncated, r.value.capped, Between(pass.seen, dayOf, pass.created, pass.day))
    ensures var t, pass := After(initial, passes, n + 1), passes[n];
      && (t.Some? <==> After(initial, passes, n).Some?)
      && (t.Some? ==> t.value.walkedWhole == pass.day && t.value.through == pass.day - 1 && t.value.rule == pass.rule
                      && Floors(t.value.count, t.value.truncated, t.value.capped, Between(pass.seen, dayOf, pass.created, pass.day - 1)))
  {
  }

  // For how many days a report can be too high.

  /** Whatever a stored count stands for, some pass since the last whole walk, or
      that walk itself, has seen. */
  lemma {:induction false} SeenSinceWhole(initial: Option<Tally>, passes: seq<Pass>, dayOf: Id -> int, n: nat, id: Id)
    requires n <= |passes| && Begins(initial) && id in Counted(initial, passes, dayOf, n)
    ensures var t := After(initial, passes, n);
      && t.Some? && t.value.walkedWhole <= t.value.through + 1
      && exists k :: 0 <= k < n && t.value.walkedWhole <= passes[k].day && id in passes[k].seen
  {
    var pass, stored := passes[n - 1], After(initial, passes, n - 1);
    if pass.walked.None? || stored.None? || id in StartSet(initial, passes, dayOf, n - 1) {
      SeenSinceWhole(initial, passes, dayOf, n - 1, id);
    } else {
      WholeIsNotAhead(initial, passes, n - 1);
      assert id in passes[n - 1].seen;
    }
  }

  lemma {:induction false} WholeIsNotAhead(initial: Option<Tally>, passes: seq<Pass>, n: nat)
    requires n <= |passes| && Begins(initial)
    ensures var t := After(initial, passes, n);
      t.Some? ==> t.value.walkedWhole <= t.value.through + 1
  {
    if n > 0 {
      WholeIsNotAhead(initial, passes, n - 1);
    }
  }

  /** A pull request no pass sees after day d is in no report made a week or
      more after it. */
  lemma GoneAWeekLater(initial: Option<Tally>, passes: seq<Pass>, dayOf: Id -> int, n: nat, id: Id, d: int)
    requires n < |passes| && Begins(initial)
    requires forall k :: 0 <= k < |passes| && passes[k].day > d ==> id !in passes[k].seen
    requires passes[n].day >= d + WHOLE_EVERY
    ensures id !in ReportedSet(initial, passes, dayOf, n)
  {
    if id in StartSet(initial, passes, dayOf, n) {
      SeenSinceWhole(initial, passes, dayOf, n, id);
      assert false;
    }
  }

  /** The week is exact: there is a run in which a pull request is seen on day
      d, by no pass after it, and is in the report of day d + 6. */
  lemma StillThereSixDaysLater(d: int) returns (passes: seq<Pass>, dayOf: Id -> int)
    requires d > 1
    ensures |passes| == 2 && passes[0].day == d && passes[1].day == d + WHOLE_EVERY - 1
    ensures 0 in passes[0].seen && passes[1].seen == {}
    ensures FloorRun(Some(Tally(0, 0, 0, false, 0, 0)), passes, dayOf)
    ensures BornFirst(passes, dayOf) && SettledDaysOnlyLose(passes, dayOf)
    ensures Reported(After(Some(Tally(0, 0, 0, false, 0, 0)), passes, 1), passes[1]) == Some(Report(1, 0, false))
  {
    dayOf := id => d - 1;
    var initial := Some(Tally(0, 0, 0, false, 0, 0));
    var first := Pass(d, 2, false, 1, {0}, Some(Walked(1, 1, 0, 0, false)));
    var second := Pass(d + WHOLE_EVERY - 1, 2, false, 1, {}, Some(Walked(0, 0, 0, 0, false)));
    passes := [first, second];
    assert After(initial, passes, 0) == initial;
    assert After(initial, passes, 1) == Some(Tally(1, d - 1, 0, false, 2, d));
    assert Between({0}, dayOf, 1, d) == {0} && Between({0}, dayOf, 1, d - 1) == {0};
    assert FloorAt(initial, passes, dayOf, 0);
    assert Between({}, dayOf, d, d + WHOLE_EVERY - 1) == {} && Between({}, dayOf, d, d + WHOLE_EVERY - 2) == {};
    assert FloorAt(initial, passes, dayOf, 1);
  }

  // One pass, with the walk it makes.

  ghost predicate FloorOf(world: World, pass: Pass, from: int) {
    forall dayOf: Id -> int | (forall id :: id in world.pulls ==> dayOf(id) == world.pulls[id].Day()) ::
      IsFloor(dayOf, pass, from)
  }

  /** A walk misses no more than its floors and what no search will show. */
  ghost predicate ShortByTheExcess(world: World, walked: Walked, from: int, day: int) {
    |Coauthored(world.pulls, InRange(world.pulls, from, day))| <= walked.pulls + walked.truncated + Excess(world.pulls, from, day)
  }

  /** Some numbers read some days: a floor of the co-authored pull requests merged in
      them, by no more than the ones left as floors, which are held back. */
  ghost predicate ReadsDays(world: World, ex: Excuses, count: int, truncated: int, capped: bool, from: int, to: int) {
    var merged := InRange(world.pulls, from, to);
    var all := Coauthored(world.pulls, merged);
    && 0 <= count <= |all| && 0 <= truncated <= |ex.held * merged|
    && (!capped ==> |all| <= count + truncated)
  }

  /** What the numbers of a walk read: its days, and those of them that are over. */
  ghost predicate WalkReads(world: World, ex: Excuses, w: Walked, from: int, day: int) {
    && (w.capped <==> OverfullDay(world.pulls, from, day))
    && ReadsDays(world, ex, w.pulls, w.truncated, w.capped, from, day)
    && ReadsDays(world, ex, w.settled, w.settledTruncated, w.capped, from, day - 1)
  }

  /** All that the walk of a pass over some days is: a floor of them, and exact where
      nothing is held back and no day is overfull. */
  ghost predicate Walks(world: World, ex: Excuses, pass: Pass, from: int) {
    && FloorOf(world, pass, from)
    && (pass.walked.Some? ==>
          var w := pass.walked.value;
          && WalkReads(world, ex, w, from, pass.day) && ShortByTheExcess(world, w, from, pass.day)
          && (ex.held == {} ==> w.truncated == 0 == w.settledTruncated))
  }

  /** The walk of one pass, from the day it has left. It comes back with nothing
      only when one of its queries failed or was cancelled. */
  method WalkFrom(server: Server, from: int, day: int, ghost pass: Pass, ghost world: World, ghost ex: Excuses)
    returns (walked: Option<Walked>, ghost outcome: Outcome, ghost sent: nat)
    requires pass.day == day && pass.seen == Coauthored(world.pulls, world.pulls.Keys)
    requires Honest(world, server) && Excused(world, server, ex) && ex.blind == {}
    ensures (walked.None? <==> !outcome.Done?) && Caused(server, outcome, 0, sent, from, day)
    ensures Walks(world, ex, pass.(walked := walked), from)
  {
    var w := new CoauthoredWalk(day, ex);
    var ended := w.Walk(server, from, day, world);
    outcome, sent := ended, w.queries;
    walked := if ended.Done? then Some(Walked(w.pulls, w.settled, w.truncated, w.settledTruncated, w.capped)) else None;
    if ended.Done? {
      WalkFloors(world, w.verdicts, ex, pass.(walked := walked), from);
      WalkIsShortBy(world, w.verdicts, ex, walked.value, from, day);
      WalkReadsItsDays(world, w.verdicts, ex, walked.value, from, day);
      NothingHeldBack(world.pulls, w.verdicts, ex, day);
    }
  }

  lemma NothingHeldBack(pulls: map<Id, Pull>, verdicts: map<Id, Verdict>, ex: Excuses, today: int)
    requires Sound(pulls, verdicts, ex)
    ensures ex.held == {} ==> CountersOf(pulls, verdicts, today).truncated == 0 == CountersOf(pulls, verdicts, today).settledTruncated
  {
    var floored := Having(verdicts, Floored);
    FlooredAreHeld(pulls, verdicts, ex);
    SubsetCount(Settled(pulls, floored, today), floored);
    SubsetCount(floored, ex.held);
  }

  /** What a pass that walks everything reports and keeps: numbers of its own, from
      the account's first day to its own, and a week that begins with it. */
  ghost predicate WalksEverything(world: World, ex: Excuses, rule: int, created: int, day: int, report: Report,
                                  stored: Option<Tally>, kept: Option<Tally>) {
    && ReadsDays(world, ex, report.count, report.truncated, report.capped, created, day)
    && (report.capped <==> OverfullDay(world.pulls, created, day))
    && (stored.None? ==> kept.None?)
    && (stored.Some? ==>
          && kept.Some? && kept.value.through == day - 1 && kept.value.rule == rule && kept.value.walkedWhole == day
          && kept.value.capped == report.capped
          && ReadsDays(world, ex, kept.value.count, kept.value.truncated, report.capped, created, day - 1))
  }

  /** What one that adds to a tally does: the same of the days that tally does not
      cover, on top of it, in the week it began in. */
  ghost predicate AddsTo(world: World, ex: Excuses, t: Tally, day: int, report: Report, kept: Option<Tally>) {
    var capped := OverfullDay(world.pulls, t.through + 1, day);
    && ReadsDays(world, ex, report.count - t.count, report.truncated - t.truncated, capped, t.through + 1, day)
    && report.capped == (t.capped || capped)
    && kept.Some? && kept.value.through == day - 1 && kept.value.rule == t.rule && kept.value.walkedWhole == t.walkedWhole
    && kept.value.capped == report.capped
    && ReadsDays(world, ex, kept.value.count - t.count, kept.value.truncated - t.truncated, capped, t.through + 1, day - 1)
  }

  /** A pass walks everything when it is told to, and when the tally is missing, is of
      another rule, still zero, ahead of the clock, or a week old; it keeps what it
      had when it reports nothing. */
  ghost predicate ReadsOrAdds(world: World, ex: Excuses, rule: int, whole: bool, created: int, day: int, report: Option<Report>,
                              stored: Option<Tally>, kept: Option<Tally>) {
    if report.None? then kept == stored
    else if whole || stored.None? then WalksEverything(world, ex, rule, created, day, report.value, stored, kept)
    else
      var t := stored.value;
      if t.rule != rule || t.through == 0 || day <= t.through || t.walkedWhole + 7 <= day
      then WalksEverything(world, ex, rule, created, day, report.value, stored, kept)
      else AddsTo(world, ex, t, day, report.value, kept)
  }

  lemma PassReads(world: World, ex: Excuses, rule: int, whole: bool, created: int, day: int, report: Option<Report>,
                  stored: Option<Tally>, kept: Option<Tally>, pass: Pass, from: int)
    requires Base(stored, pass).1 == from && Walks(world, ex, pass, from) && pass.rule == rule && pass.whole == whole && pass.created == created && pass.day == day
    requires report == Reported(stored, pass) && kept == Next(stored, pass)
    ensures ReadsOrAdds(world, ex, rule, whole, created, day, report, stored, kept)
  {
    if report.Some? {
      if Usable(stored, pass) {
        PassAdds(world, ex, stored.value, pass, report.value, kept);
      } else {
        PassReadsAll(world, ex, stored, pass, report.value, kept);
      }
    }
  }

  lemma PassAdds(world: World, ex: Excuses, t: Tally, pass: Pass, report: Report, kept: Option<Tally>)
    requires pass.walked.Some? && Usable(Some(t), pass) && Some(report) == Reported(Some(t), pass) && kept == Next(Some(t), pass)
    requires WalkReads(world, ex, pass.walked.value, t.through + 1, pass.day)
    ensures AddsTo(world, ex, t, pass.day, report, kept)
  {
  }

  lemma PassReadsAll(world: World, ex: Excuses, stored: Option<Tally>, pass: Pass, report: Report, kept: Option<Tally>)
    requires pass.walked.Some? && !Usable(stored, pass) && Some(report) == Reported(stored, pass) && kept == Next(stored, pass)
    requires WalkReads(world, ex, pass.walked.value, pass.created, pass.day)
    ensures WalksEverything(world, ex, pass.rule, pass.created, pass.day, report, stored, kept)
  {
  }

  class Achievements {
    /** The tally in the state file; None for a caller that keeps none. */
    var coauthored: Option<Tally>

    constructor (coauthored: Option<Tally>)
      ensures this.coauthored == coauthored
    {
      this.coauthored := coauthored;
    }

    /** Reads the days a pass has left, reports the count, and keeps what of it
        is settled. The report and what is kept are those of the pass made of
        what the walk came back with, and that walk is a floor of the account;
        it is capped exactly when a day it walked held more than a search will
        page through. */
    method Collect(server: Server, now: int, createdAt: int, rule: int, whole: bool, ghost world: World, ghost ex: Excuses)
      returns (report: Option<Report>, ghost pass: Pass, ghost outcome: Outcome, ghost sent: nat)
      requires Honest(world, server) && Excused(world, server, ex) && ex.blind == {}
      modifies this`coauthored
      ensures pass.day == now / SECONDS_A_DAY && pass.created == createdAt / SECONDS_A_DAY
      ensures pass.rule == rule && pass.whole == whole
      ensures pass.seen == Coauthored(world.pulls, world.pulls.Keys)
      ensures report == Reported(old(coauthored), pass) && coauthored == Next(old(coauthored), pass)
      ensures Walks(world, ex, pass, Base(old(coauthored), pass).1)
      ensures ReadsOrAdds(world, ex, rule, whole, createdAt / SECONDS_A_DAY, now / SECONDS_A_DAY, report, old(coauthored), coauthored)
      // Nothing is reported only when a query of the walk failed or was cancelled.
      ensures (report.None? <==> pass.walked.None?) && (pass.walked.None? <==> !outcome.Done?)
      ensures Caused(server, outcome, 0, sent, Base(old(coauthored), pass).1, pass.day)
    {
      var day := now / SECONDS_A_DAY;
      var due := Pass(day, rule, whole, createdAt / SECONDS_A_DAY, {}, None);
      var (base, from) := Base(coauthored, due);
      pass := due.(seen := Coauthored(world.pulls, world.pulls.Keys));
      report := None;
      var walked;
      walked, outcome, sent := WalkFrom(server, from, day, pass, world, ex);
      pass := pass.(walked := walked);
      PassReads(world, ex, rule, whole, createdAt / SECONDS_A_DAY, day, Reported(coauthored, pass), coauthored,
                Next(coauthored, pass), pass, from);
      if walked.Some? {
        report := Keep(walked.value, base, day, rule, pass);
      }
    }

    /** What a walk that came back adds to where its pass started from. */
    method Keep(w: Walked, base: Tally, day: int, rule: int, ghost pass: Pass) returns (report: Option<Report>)
      requires pass.walked == Some(w) && pass.day == day && pass.rule == rule && base == Base(coauthored, pass).0
      modifies this`coauthored
      ensures report == Reported(old(coauthored), pass) && coauthored == Next(old(coauthored), pass)
    {
      report := Some(Report(base.count + w.pulls, base.truncated + w.truncated, base.capped || w.capped));
      if coauthored.Some? {
        coauthored := Some(Tally(base.count + w.settled, day - 1, base.truncated + w.settledTruncated,
                                 base.capped || w.capped, rule, base.walkedWhole));
      }
    }
  }

  lemma LostAreBlind(pulls: map<Id, Pull>, verdicts: map<Id, Verdict>, ex: Excuses)
    requires Sound(pulls, verdicts, ex)
    ensures Having(verdicts, Lost) <= ex.blind
  {
    forall id | id in Having(verdicts, Lost)
      ensures id in ex.blind
    {
      assert Justified(verdicts[id], pulls[id], id, ex);
    }
  }

  lemma WalkIsShortBy(world: World, verdicts: map<Id, Verdict>, ex: Excuses, walked: Walked, from: int, day: int)
    requires Sound(world.pulls, verdicts, ex) && ex.blind == {} && verdicts.Keys <= InRange(world.pulls, from, day)
    requires EachDayRead(world.pulls, from, day, verdicts.Keys)
    requires Counters(walked.pulls, walked.settled, walked.truncated, walked.settledTruncated) == CountersOf(world.pulls, verdicts, day)
    ensures ShortByTheExcess(world, walked, from, day)
  {
    LostAreBlind(world.pulls, verdicts, ex);
    CappedCountsAreAFloor(world.pulls, verdicts, ex, from, day, day);
  }

  /** The counters of a finished walk are a floor in the terms of a pass. */
  lemma WalkFloors(world: World, verdicts: map<Id, Verdict>, ex: Excuses, pass: Pass, from: int)
    requires pass.seen == Coauthored(world.pulls, world.pulls.Keys) && pass.walked.Some?
    requires Sound(world.pulls, verdicts, ex) && ex.blind == {} && verdicts.Keys <= InRange(world.pulls, from, pass.day)
    requires EachDayRead(world.pulls, from, pass.day, verdicts.Keys)
    requires pass.walked.value.capped <==> OverfullDay(world.pulls, from, pass.day)
    requires var w := pass.walked.value;
      Counters(w.pulls, w.settled, w.truncated, w.settledTruncated) == CountersOf(world.pulls, verdicts, pass.day)
    ensures FloorOf(world, pass, from)
  {
    WalkCounts(world, verdicts, ex, pass.walked.value, from, pass.day);
    var range := InRange(world.pulls, from, pass.day);
    forall dayOf: Id -> int | (forall id :: id in world.pulls ==> dayOf(id) == world.pulls[id].Day())
      ensures IsFloor(dayOf, pass, from)
    {
      assert Between(pass.seen, dayOf, from, pass.day) == Coauthored(world.pulls, range);
      assert Between(pass.seen, dayOf, from, pass.day - 1)
          == Settled(world.pulls, Coauthored(world.pulls, range), pass.day);
    }
  }

  lemma WalkReadsItsDays(world: World, verdicts: map<Id, Verdict>, ex: Excuses, w: Walked, from: int, day: int)
    requires Sound(world.pulls, verdicts, ex) && ex.blind == {} && verdicts.Keys <= InRange(world.pulls, from, day)
    requires EachDayRead(world.pulls, from, day, verdicts.Keys)
    requires w.capped <==> OverfullDay(world.pulls, from, day)
    requires Counters(w.pulls, w.settled, w.truncated, w.settledTruncated) == CountersOf(world.pulls, verdicts, day)
    ensures WalkReads(world, ex, w, from, day)
  {
    var floored, merged := Having(verdicts, Floored), InRange(world.pulls, from, day);
    WalkCounts(world, verdicts, ex, w, from, day);
    assert Settled(world.pulls, Coauthored(world.pulls, merged), day) == Coauthored(world.pulls, InRange(world.pulls, from, day - 1));
    FlooredAreHeld(world.pulls, verdicts, ex);
    SubsetCount(floored, ex.held * merged);
    SubsetCount(Settled(world.pulls, floored, day), ex.held * InRange(world.pulls, from, day - 1));
  }

  lemma FlooredAreHeld(pulls: map<Id, Pull>, verdicts: map<Id, Verdict>, ex: Excuses)
    requires Sound(pulls, verdicts, ex)
    ensures Having(verdicts, Floored) <= ex.held
  {
    forall id | id in Having(verdicts, Floored)
      ensures id in ex.held
    {
      assert Justified(verdicts[id], pulls[id], id, ex);
    }
  }

  lemma WalkCounts(world: World, verdicts: map<Id, Verdict>, ex: Excuses, w: Walked, from: int, day: int)
    requires Sound(world.pulls, verdicts, ex) && ex.blind == {} && verdicts.Keys <= InRange(world.pulls, from, day)
    requires EachDayRead(world.pulls, from, day, verdicts.Keys)
    requires w.capped <==> OverfullDay(world.pulls, from, day)
    requires Counters(w.pulls, w.settled, w.truncated, w.settledTruncated) == CountersOf(world.pulls, verdicts, day)
    ensures var all := Coauthored(world.pulls, InRange(world.pulls, from, day));
      && w.pulls <= |all| && w.settled <= |Settled(world.pulls, all, day)|
      && (!w.capped ==> |all| <= w.pulls + w.truncated && |Settled(world.pulls, all, day)| <= w.settled + w.settledTruncated)
  {
    LostAreBlind(world.pulls, verdicts, ex);
    CappedCountsAreAFloor(world.pulls, verdicts, ex, from, day, day);
    ExcessIff(world.pulls, from, day);
  }
}

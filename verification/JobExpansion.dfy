/**
 * Which workflow runs get their jobs listed, over many sweeps: runPoints and
 * the Expanded memory of Actions.Collect in internal/collect/actions.go.
 */
module JobExpansion {
  import opened Lists

  /** A run and which attempt of it. */
  datatype RunKey = RunKey(id: int, attempt: int)

  datatype Run = Run(key: RunKey, completed: bool)

  /** Points by their identity: the finished run, or the jobs of it. */
  datatype Point = RunPoint(key: RunKey) | JobPoints(key: RunKey)

  /** A listing of jobs that answered, that says there is nothing, or that
      failed. */
  datatype Reply = Jobs | NothingHere | Failed

  ghost predicate DistinctKeys(runs: seq<Run>) {
    forall i, j :: 0 <= i < j < |runs| ==> runs[i].key != runs[j].key
  }

  /** The finished runs whose jobs are not written, in listing order. */
  function Pending(runs: seq<Run>, written: set<RunKey>): seq<RunKey> {
    if runs == [] then []
    else
      var r := runs[|runs| - 1];
      Pending(runs[..|runs| - 1], written) + if r.completed && r.key !in written then [r.key] else []
  }

  /** The first of them, as many as one sweep may list; zero is all of them. */
  function Allowed(pending: seq<RunKey>, most: nat): seq<RunKey> {
    if most == 0 || |pending| <= most then pending else pending[..most]
  }

  lemma PendingOne(runs: seq<Run>, r: Run, written: set<RunKey>)
    ensures Pending(runs + [r], written) ==
            Pending(runs, written) + (if r.completed && r.key !in written then [r.key] else [])
  {
    assert (runs + [r])[..|runs|] == runs;
  }

  lemma {:induction false} PendingKeys(runs: seq<Run>, written: set<RunKey>)
    ensures forall k :: k in Pending(runs, written) <==> k !in written && Run(k, true) in runs
    ensures DistinctKeys(runs) ==> NoDuplicates(Pending(runs, written))
  {
    if runs != [] {
      var before, r := runs[..|runs| - 1], runs[|runs| - 1];
      PendingKeys(before, written);
      assert runs == before + [r];
      assert DistinctKeys(runs) ==> forall i :: 0 <= i < |before| ==> before[i].key != r.key;
    }
  }

  /** A list read so far is a prefix of the list. */
  lemma {:induction false} PendingPrefix(runs: seq<Run>, written: set<RunKey>, i: nat)
    requires i <= |runs|
    ensures Pending(runs[..i], written) <= Pending(runs, written)
  {
    if i < |runs| {
      PendingPrefix(runs[..|runs| - 1], written, i);
      assert runs[..|runs| - 1][..i] == runs[..i];
    } else {
      assert runs[..i] == runs;
    }
  }

  ghost function JobsIn(points: seq<Point>): seq<RunKey> {
    if points == [] then []
    else JobsIn(points[..|points| - 1]) + if points[|points| - 1].JobPoints? then [points[|points| - 1].key] else []
  }

  ghost function RunsIn(points: seq<Point>): seq<RunKey> {
    if points == [] then []
    else RunsIn(points[..|points| - 1]) + if points[|points| - 1].RunPoint? then [points[|points| - 1].key] else []
  }

  lemma PointsOne(points: seq<Point>, p: Point)
    ensures JobsIn(points + [p]) == JobsIn(points) + if p.JobPoints? then [p.key] else []
    ensures RunsIn(points + [p]) == RunsIn(points) + if p.RunPoint? then [p.key] else []
  {
    assert (points + [p])[..|points|] == points;
  }

  /** The rows of a finished run, with its jobs and without. */
  lemma RunRendered(points: seq<Point>, k: RunKey)
    ensures JobsIn(points + [RunPoint(k)]) == JobsIn(points)
    ensures RunsIn(points + [RunPoint(k)]) == RunsIn(points) + [k]
    ensures JobsIn(points + [JobPoints(k)] + [RunPoint(k)]) == JobsIn(points) + [k]
    ensures RunsIn(points + [JobPoints(k)] + [RunPoint(k)]) == RunsIn(points) + [k]
  {
    PointsOne(points, RunPoint(k));
    PointsOne(points, JobPoints(k));
    PointsOne(points + [JobPoints(k)], RunPoint(k));
  }

  /** The finished runs, in listing order. */
  ghost function Completed(runs: seq<Run>): seq<RunKey> {
    if runs == [] then []
    else Completed(runs[..|runs| - 1]) + if runs[|runs| - 1].completed then [runs[|runs| - 1].key] else []
  }

  lemma {:induction false} CompletedPrefix(runs: seq<Run>, i: nat)
    requires i <= |runs|
    ensures Completed(runs[..i]) <= Completed(runs)
  {
    if i < |runs| {
      CompletedPrefix(runs[..|runs| - 1], i);
      assert runs[..|runs| - 1][..i] == runs[..i];
    } else {
      assert runs[..i] == runs;
    }
  }

  lemma CompletedOne(runs: seq<Run>, i: nat)
    requires i < |runs|
    ensures Completed(runs[..i + 1]) == Completed(runs[..i]) + if runs[i].completed then [runs[i].key] else []
    ensures Completed(runs[..i]) <= Completed(runs)
  {
    assert runs[..i + 1][..i] == runs[..i];
    CompletedPrefix(runs, i);
  }

  /** The runs of a listing whose jobs a sweep is to list. */
  function DueOf(runs: seq<Run>, written: set<RunKey>, jobs: bool, most: nat): seq<RunKey> {
    if jobs then Allowed(Pending(runs, written), most) else []
  }

  /** Whether the jobs of run i are asked for. */
  predicate AsksAt(runs: seq<Run>, i: nat, written: set<RunKey>, jobs: bool, most: nat)
    requires i < |runs|
  {
    && runs[i].completed && jobs && runs[i].key !in written
    && (most == 0 || |DueOf(runs[..i], written, jobs, most)| < most)
  }

  /** Where a sweep stops: at the first run whose jobs it asks for and does not
      get, or behind the last. */
  ghost predicate StopsAt(server: nat -> Reply, runs: seq<Run>, written: set<RunKey>, jobs: bool, most: nat, stop: nat) {
    && stop <= |runs|
    && (forall i :: 0 <= i < stop && AsksAt(runs, i, written, jobs, most) ==> !server(i).Failed?)
    && (stop < |runs| ==> AsksAt(runs, stop, written, jobs, most) && server(stop).Failed?)
  }

  /** What the first i runs come to: a row for each finished one, and the jobs that
      were due. */
  ghost predicate Renders(runs: seq<Run>, i: nat, written: set<RunKey>, jobs: bool, most: nat, points: seq<Point>, listed: seq<RunKey>)
    requires i <= |runs|
  {
    && listed == DueOf(runs[..i], written, jobs, most) == JobsIn(points)
    && RunsIn(points) == Completed(runs[..i])
  }

  lemma OneRun(runs: seq<Run>, i: nat, written: set<RunKey>, jobs: bool, most: nat, points: seq<Point>, listed: seq<RunKey>)
    requires i < |runs| && Renders(runs, i, written, jobs, most, points, listed)
    ensures var k := runs[i].key;
      if !runs[i].completed then Renders(runs, i + 1, written, jobs, most, points, listed)
      else if AsksAt(runs, i, written, jobs, most)
      then Renders(runs, i + 1, written, jobs, most, points + [JobPoints(k)] + [RunPoint(k)], listed + [k])
      else Renders(runs, i + 1, written, jobs, most, points + [RunPoint(k)], listed)
    ensures AsksAt(runs, i, written, jobs, most) <==>
      runs[i].completed && jobs && runs[i].key !in written && (most == 0 || |listed| < most)
  {
    DueOne(runs, i, written, jobs, most);
    CompletedOne(runs, i);
    RunRendered(points, runs[i].key);
  }

  /** What a sweep of the runs before its stop returns. */
  ghost predicate Returns(runs: seq<Run>, written: set<RunKey>, jobs: bool, most: nat, stop: nat,
                          points: seq<Point>, listed: seq<RunKey>, asked: seq<RunKey>)
    requires stop <= |runs|
  {
    && Renders(runs, stop, written, jobs, most, points, listed)
    && asked == if stop < |runs| then listed + [runs[stop].key] else listed
  }

  lemma DueOne(runs: seq<Run>, i: nat, written: set<RunKey>, jobs: bool, most: nat)
    requires i < |runs|
    ensures DueOf(runs[..i + 1], written, jobs, most)
         == DueOf(runs[..i], written, jobs, most) + (if AsksAt(runs, i, written, jobs, most) then [runs[i].key] else [])
    ensures DueOf(runs[..i + 1], written, jobs, most) <= DueOf(runs, written, jobs, most)
  {
    assert runs[..i + 1] == runs[..i] + [runs[i]];
    PendingOne(runs[..i], runs[i], written);
    PendingPrefix(runs, written, i + 1);
  }

  /** A sweep that returns so did what the memory is built on. */
  lemma ReturnsSwept(server: nat -> Reply, runs: seq<Run>, written: set<RunKey>, jobs: bool, most: nat, stop: nat,
                     points: seq<Point>, listed: seq<RunKey>, asked: seq<RunKey>)
    requires StopsAt(server, runs, written, jobs, most, stop) && Returns(runs, written, jobs, most, stop, points, listed, asked)
    ensures Swept(Sweep(runs, listed, asked, stop < |runs|), written, jobs, most)
  {
    if stop < |runs| {
      DueOne(runs, stop, written, jobs, most);
    } else {
      assert runs[..stop] == runs;
    }
  }

  // What that says of the runs themselves.

  /** The finished runs before a place that nobody has written. */
  ghost function FreshBefore(runs: seq<Run>, i: nat, written: set<RunKey>): set<nat>
    requires i <= |runs|
  {
    set j: nat | j < i && runs[j].completed && runs[j].key !in written
  }

  /** A run is asked for its jobs when jobs are wanted, it is finished and unwritten, and
      fewer than may be are before it; 0 is no limit. */
  ghost predicate Turn(runs: seq<Run>, i: nat, written: set<RunKey>, jobs: bool, most: nat)
    requires i < |runs|
  {
    jobs && runs[i].completed && runs[i].key !in written && (most == 0 || |FreshBefore(runs, i, written)| < most)
  }

  ghost function TurnsOf(runs: seq<Run>, n: nat, written: set<RunKey>, jobs: bool, most: nat): seq<RunKey>
    requires n <= |runs|
  {
    if n == 0 then []
    else TurnsOf(runs, n - 1, written, jobs, most) + if Turn(runs, n - 1, written, jobs, most) then [runs[n - 1].key] else []
  }

  /** Up to the first turn that failed, every turn was asked for, and the points have a
      row for each finished run and the jobs of each run whose turn it was. */
  ghost predicate TakesTurns(server: nat -> Reply, runs: seq<Run>, written: set<RunKey>, jobs: bool, most: nat, stop: nat,
                             points: seq<Point>, listed: seq<RunKey>, asked: seq<RunKey>) {
    && stop <= |runs|
    && (forall i :: 0 <= i < stop && Turn(runs, i, written, jobs, most) ==> !server(i).Failed?)
    && (stop < |runs| ==> Turn(runs, stop, written, jobs, most) && server(stop).Failed?)
    && listed == TurnsOf(runs, stop, written, jobs, most) == JobsIn(points)
    && RunsIn(points) == Completed(runs[..stop])
    && asked == if stop < |runs| then listed + [runs[stop].key] else listed
  }

  lemma {:induction false} FreshArePending(runs: seq<Run>, i: nat, written: set<RunKey>)
    requires i <= |runs|
    ensures |FreshBefore(runs, i, written)| == |Pending(runs[..i], written)|
  {
    if i == 0 {
      assert FreshBefore(runs, 0, written) == {};
    } else {
      FreshArePending(runs, i - 1, written);
      assert runs[..i][..i - 1] == runs[..i - 1];
      assert FreshBefore(runs, i, written) ==
             FreshBefore(runs, i - 1, written) + if runs[i - 1].completed && runs[i - 1].key !in written then {i - 1} else {};
    }
  }

  lemma TurnsAreAsked(runs: seq<Run>, i: nat, written: set<RunKey>, jobs: bool, most: nat)
    requires i < |runs|
    ensures Turn(runs, i, written, jobs, most) <==> AsksAt(runs, i, written, jobs, most)
  {
    FreshArePending(runs, i, written);
  }

  lemma {:induction false} TurnsAreDue(runs: seq<Run>, n: nat, written: set<RunKey>, jobs: bool, most: nat)
    requires n <= |runs|
    ensures TurnsOf(runs, n, written, jobs, most) == DueOf(runs[..n], written, jobs, most)
  {
    if n > 0 {
      TurnsAreDue(runs, n - 1, written, jobs, most);
      TurnsAreAsked(runs, n - 1, written, jobs, most);
      DueOne(runs, n - 1, written, jobs, most);
    }
  }

  lemma TurnsTaken(server: nat -> Reply, runs: seq<Run>, written: set<RunKey>, jobs: bool, most: nat, stop: nat,
                   points: seq<Point>, listed: seq<RunKey>, asked: seq<RunKey>)
    requires StopsAt(server, runs, written, jobs, most, stop) && Returns(runs, written, jobs, most, stop, points, listed, asked)
    ensures TakesTurns(server, runs, written, jobs, most, stop, points, listed, asked)
  {
    TurnsAreDue(runs, stop, written, jobs, most);
    forall i | 0 <= i < |runs|
      ensures Turn(runs, i, written, jobs, most) <==> AsksAt(runs, i, written, jobs, most)
    {
      TurnsAreAsked(runs, i, written, jobs, most);
    }
  }

  /** A memory with more runs in it, those of a listing marked as seen now. */
  function Marked(memory: map<RunKey, int>, keys: seq<RunKey>, all: seq<Run>, now: int): (marked: map<RunKey, int>)
    ensures marked.Keys == memory.Keys + Elems(keys)
    ensures forall k :: k in marked ==>
      marked[k] == if k in keys || (exists r :: r in all && r.key == k) then now else memory[k]
  {
    var kept := memory + map k | k in keys :: now;
    assert kept.Keys == memory.Keys + Elems(keys);
    map k | k in kept :: if exists r :: r in all && r.key == k then now else kept[k]
  }

  class Actions {
    const jobs: bool
    const maxJobRuns: nat
    /** The runs whose jobs have been written, and when each was last seen in a
        listing; None where no memory is kept. */
    var expanded: Option<map<RunKey, int>>

    constructor (jobs: bool, maxJobRuns: nat, expanded: Option<map<RunKey, int>>)
      ensures this.jobs == jobs && this.maxJobRuns == maxJobRuns && this.expanded == expanded
    {
      this.jobs, this.maxJobRuns, this.expanded := jobs, maxJobRuns, expanded;
    }

    function Written(): set<RunKey>
      reads this`expanded
    {
      if expanded.None? then {} else expanded.value.Keys
    }

    /** A row for each finished run, and jobs for the first few still unwritten, up
        to the run whose jobs do not come. listed names the runs whose jobs are in
        points, on an error too; asked, those whose jobs were asked for. */
    method RunPoints(server: nat -> Reply, all: seq<Run>)
      returns (points: seq<Point>, listed: seq<RunKey>, failed: bool, ghost asked: seq<RunKey>, ghost stop: nat)
      ensures StopsAt(server, all, Written(), jobs, maxJobRuns, stop) && (failed <==> stop < |all|)
      ensures Returns(all, Written(), jobs, maxJobRuns, stop, points, listed, asked)
      ensures TakesTurns(server, all, Written(), jobs, maxJobRuns, stop, points, listed, asked)
    {
      points, listed, failed, asked := [], [], false, [];
      ghost var written := Written();
      var i := 0;
      while i < |all|
        invariant 0 <= i <= |all| && !failed
        invariant forall j :: 0 <= j < i && AsksAt(all, j, written, jobs, maxJobRuns) ==> !server(j).Failed?
        invariant asked == listed && Renders(all, i, written, jobs, maxJobRuns, points, listed)
      {
        var r := all[i];
        OneRun(all, i, written, jobs, maxJobRuns, points, listed);
        if r.completed {
          if jobs && r.key !in Written() && (maxJobRuns == 0 || |listed| < maxJobRuns) {
            var reply := server(i);
            asked := asked + [r.key];
            if reply.Failed? {
              TurnsTaken(server, all, written, jobs, maxJobRuns, i, points, listed, asked);
              return points, listed, true, asked, i;
            }
            points, listed := points + [JobPoints(r.key)], listed + [r.key];
          }
          points := points + [RunPoint(r.key)];
        }
        i := i + 1;
      }
      stop := i;
      TurnsTaken(server, all, written, jobs, maxJobRuns, stop, points, listed, asked);
    }

    /** One sweep: the runs whose jobs are in what it returns are remembered
        whether or not it failed, and everything remembered that the listing
        still returns is marked as seen now. */
    method Collect(server: nat -> Reply, all: seq<Run>, now: int)
      returns (points: seq<Point>, failed: bool, ghost listed: seq<RunKey>, ghost asked: seq<RunKey>, ghost stop: nat)
      modifies this`expanded
      ensures StopsAt(server, all, old(Written()), jobs, maxJobRuns, stop) && (failed <==> stop < |all|)
      ensures Returns(all, old(Written()), jobs, maxJobRuns, stop, points, listed, asked)
      ensures TakesTurns(server, all, old(Written()), jobs, maxJobRuns, stop, points, listed, asked)
      ensures Swept(Sweep(all, listed, asked, failed), old(Written()), jobs, maxJobRuns)
      ensures expanded.Some? == old(expanded).Some?
      ensures expanded.Some? ==> Written() == old(Written()) + Elems(listed)
      ensures expanded.Some? ==> forall k :: k in expanded.value ==>
        expanded.value[k] == if k in listed || (exists r :: r in all && r.key == k) then now else old(expanded).value[k]
    {
      var keys;
      points, keys, failed, asked, stop := RunPoints(server, all);
      listed := keys;
      ReturnsSwept(server, all, Written(), jobs, maxJobRuns, stop, points, listed, asked);
      if expanded.Some? {
        expanded := Some(Marked(expanded.value, keys, all, now));
      }
    }
  }

  // Over many sweeps.

  datatype Sweep = Sweep(runs: seq<Run>, listed: seq<RunKey>, asked: seq<RunKey>, failed: bool)

  /** What a sweep does, given the runs already written. */
  ghost predicate Swept(s: Sweep, written: set<RunKey>, jobs: bool, most: nat) {
    var due := DueOf(s.runs, written, jobs, most);
    && s.asked <= due && (if s.failed then s.listed < s.asked && |s.asked| == |s.listed| + 1 else s.listed == s.asked == due)
  }

  /** The runs some sweep before the n-th listed the jobs of. */
  ghost function ListedBy(sweeps: seq<Sweep>, n: nat): set<RunKey>
    requires n <= |sweeps|
  {
    if n == 0 then {} else ListedBy(sweeps, n - 1) + Elems(sweeps[n - 1].listed)
  }

  /** A run of sweeps that begins with nothing remembered. */
  ghost predicate IsRun(sweeps: seq<Sweep>, jobs: bool, most: nat) {
    forall n :: 0 <= n < |sweeps| ==> SweptAt(sweeps, n, jobs, most)
  }

  ghost predicate SweptAt(sweeps: seq<Sweep>, n: nat, jobs: bool, most: nat)
    requires n < |sweeps|
  {
    DistinctKeys(sweeps[n].runs) && Swept(sweeps[n], ListedBy(sweeps, n), jobs, most)
  }

  lemma {:induction false} ListedGrows(sweeps: seq<Sweep>, i: nat, j: nat)
    requires i < j <= |sweeps|
    ensures Elems(sweeps[i].listed) <= ListedBy(sweeps, j)
  {
    if i < j - 1 {
      ListedGrows(sweeps, i, j - 1);
    }
  }

  /** No attempt is asked for again once a sweep has listed it, failing sweeps
      included, and no sweep asks for more than it may. */
  lemma NeverListedAgain(sweeps: seq<Sweep>, jobs: bool, most: nat, i: nat, j: nat)
    requires IsRun(sweeps, jobs, most) && i < j < |sweeps|
    ensures Elems(sweeps[i].listed) !! Elems(sweeps[j].asked)
    ensures most > 0 ==> |sweeps[j].asked| <= most
    ensures NoDuplicates(sweeps[j].asked)
  {
    ListedGrows(sweeps, i, j);
    var due := Pending(sweeps[j].runs, ListedBy(sweeps, j));
    PendingKeys(sweeps[j].runs, ListedBy(sweeps, j));
    assert SweptAt(sweeps, j, jobs, most);
    forall k | k in sweeps[j].asked
      ensures k !in ListedBy(sweeps, j)
    {
      assert k in due;
    }
  }

  /** Once the first m pending runs are written, what is pending is the rest. */
  lemma {:induction false} PendingAfter(runs: seq<Run>, written: set<RunKey>, m: nat)
    requires DistinctKeys(runs) && m <= |Pending(runs, written)|
    ensures Pending(runs, written + Elems(Pending(runs, written)[..m])) == Pending(runs, written)[m..]
  {
    if runs != [] {
      var before, r := runs[..|runs| - 1], runs[|runs| - 1];
      assert runs == before + [r];
      assert forall i :: 0 <= i < |before| ==> before[i].key != r.key;
      PendingOne(before, r, written);
      if m <= |Pending(before, written)| {
        PendingAfter(before, written, m);
        WithoutTheLast(before, r, written, m);
      } else {
        PendingAfter(before, written, |Pending(before, written)|);
        WithTheLast(before, r, written);
      }
    }
  }

  lemma WithoutTheLast(before: seq<Run>, r: Run, written: set<RunKey>, m: nat)
    requires m <= |Pending(before, written)| && forall i :: 0 <= i < |before| ==> before[i].key != r.key
    requires Pending(before, written + Elems(Pending(before, written)[..m])) == Pending(before, written)[m..]
    ensures var all := Pending(before + [r], written);
      m <= |all| && Pending(before + [r], written + Elems(all[..m])) == all[m..]
  {
    var some := Pending(before, written);
    PendingOne(before, r, written);
    assert Pending(before + [r], written)[..m] == some[..m];
    NotAmong(before, written, r.key);
    PendingOne(before, r, written + Elems(some[..m]));
  }

  lemma WithTheLast(before: seq<Run>, r: Run, written: set<RunKey>)
    requires r.completed && r.key !in written && forall i :: 0 <= i < |before| ==> before[i].key != r.key
    requires var some := Pending(before, written); Pending(before, written + Elems(some[..|some|])) == some[|some|..]
    ensures var all := Pending(before + [r], written); Pending(before + [r], written + Elems(all[..|all|])) == []
  {
    var some := Pending(before, written);
    PendingOne(before, r, written);
    assert some[..|some|] == some && (some + [r.key])[..|some + [r.key]|] == some + [r.key];
    ElemsAppend(some, [r.key]);
    assert written + Elems(some + [r.key]) == written + Elems(some) + {r.key};
    NotPending(before, written + Elems(some), r.key);
    PendingOne(before, r, written + Elems(some) + {r.key});
  }

  lemma NotAmong(runs: seq<Run>, written: set<RunKey>, k: RunKey)
    requires forall i :: 0 <= i < |runs| ==> runs[i].key != k
    ensures k !in Pending(runs, written)
  {
    PendingKeys(runs, written);
  }

  lemma {:induction false} NotPending(runs: seq<Run>, written: set<RunKey>, k: RunKey)
    requires forall i :: 0 <= i < |runs| ==> runs[i].key != k
    ensures Pending(runs, written + {k}) == Pending(runs, written)
  {
    if runs != [] {
      NotPending(runs[..|runs| - 1], written, k);
    }
  }

  /** How many of size runs n sweeps of at most most runs each get through. */
  function Filled(size: nat, most: nat, n: nat): (k: nat)
    ensures k <= size
  {
    if n == 0 then 0 else Min(size, Filled(size, most, n - 1) + most)
  }

  lemma {:induction false} FilledIs(size: nat, most: nat, n: nat)
    ensures Filled(size, most, n) == Min(size, n * most)
  {
    if n > 0 {
      FilledIs(size, most, n - 1);
      assert n * most == (n - 1) * most + most;
    }
  }

  /** A window that stands still fills in at as many runs a sweep as may be:
      after n sweeps that do not fail, exactly the first n * most finished runs
      of it have been listed, or all of them. */
  lemma WindowFillsIn(sweeps: seq<Sweep>, runs: seq<Run>, most: nat, n: nat)
    requires IsRun(sweeps, true, most) && most > 0 && n <= |sweeps|
    requires forall k :: 0 <= k < n ==> sweeps[k].runs == runs && !sweeps[k].failed
    requires DistinctKeys(runs)
    ensures var all := Pending(runs, {});
      && ListedBy(sweeps, n) == Elems(all[..Min(|all|, n * most)])
      && |ListedBy(sweeps, n)| == Min(|all|, n * most)
  {
    var all := Pending(runs, {});
    FilledIs(|all|, most, n);
    WindowFills(sweeps, runs, most, n);
    PendingKeys(runs, {});
    CountOfElems(all[..Filled(|all|, most, n)]);
  }

  /** A sweep without a limit that does not fail has the jobs of every finished run of
      its listing that was not written before, and those after it ask for no more. */
  lemma {:induction false} AllAtOnce(sweeps: seq<Sweep>, runs: seq<Run>, n: nat)
    requires IsRun(sweeps, true, 0) && 0 < n <= |sweeps| && DistinctKeys(runs)
    requires forall k :: 0 <= k < n ==> sweeps[k].runs == runs && !sweeps[k].failed
    ensures forall key :: key in ListedBy(sweeps, n) <==> Run(key, true) in runs
    ensures n > 1 ==> sweeps[n - 1].asked == []
  {
    assert SweptAt(sweeps, n - 1, true, 0);
    var before := ListedBy(sweeps, n - 1);
    PendingKeys(runs, before);
    if n > 1 {
      AllAtOnce(sweeps, runs, n - 1);
      assert forall key :: Run(key, true) in runs <==> key in before;
      assert Elems(Pending(runs, before)) == {};
      CountOfElems(Pending(runs, before));
    }
  }

  lemma {:induction false} WindowFills(sweeps: seq<Sweep>, runs: seq<Run>, most: nat, n: nat)
    requires IsRun(sweeps, true, most) && most > 0 && n <= |sweeps|
    requires forall k :: 0 <= k < n ==> sweeps[k].runs == runs && !sweeps[k].failed
    requires DistinctKeys(runs)
    ensures var all := Pending(runs, {}); ListedBy(sweeps, n) == Elems(all[..Filled(|all|, most, n)])
  {
    if n > 0 {
      WindowFills(sweeps, runs, most, n - 1);
      assert SweptAt(sweeps, n - 1, true, most) && sweeps[n - 1].runs == runs;
      NextOfWindow(sweeps[n - 1], most, Filled(|Pending(runs, {})|, most, n - 1));
    }
  }

  lemma TakeOn<T>(all: seq<T>, m: nat, k: nat)
    requires m <= k <= |all|
    ensures Elems(all[..k]) == Elems(all[..m]) + Elems(all[m..k])
  {
    assert all[..k] == all[..m] + all[m..k];
    ElemsAppend(all[..m], all[m..k]);
  }

  lemma NextOfWindow(s: Sweep, most: nat, m: nat)
    requires DistinctKeys(s.runs) && most > 0 && m <= |Pending(s.runs, {})| && !s.failed
    requires Swept(s, Elems(Pending(s.runs, {})[..m]), true, most)
    ensures var all := Pending(s.runs, {}); Elems(all[..m]) + Elems(s.listed) == Elems(all[..Min(|all|, m + most)])
  {
    var all := Pending(s.runs, {});
    PendingAfter(s.runs, {}, m);
    assert {} + Elems(all[..m]) == Elems(all[..m]);
    assert |all[m..]| > most ==> all[m..][..most] == all[m..m + most];
    assert s.listed == all[m..Min(|all|, m + most)];
    TakeOn(all, m, Min(|all|, m + most));
  }
}

/**
 * One query about several repositories, and the retries after it is refused:
 * aliasBatch, aliasBatchAsked, aliasRetry and
 * decodeAliases of internal/collect/deployments.go, and the halving of
 * Branches.Collect of internal/collect/branches.go.
 *
 * The callback of the original mutates what the caller captured, so what it
 * has done so far is a function of what has been emitted so far, and the query
 * that is built next may depend on it. The server may answer or refuse any
 * query as it likes.
 */
module AliasBatches {
  import opened Lists

  /** A repository, by its full name. */
  type Repo = nat

  const DEFAULT_ALIAS_BATCH: nat := 5
  const DEFAULT_BRANCH_BATCH: nat := 14

  datatype Refusal = TooLarge | Skippable | Fatal(code: nat)

  /** One node for each alias of the query: none for one that came back null,
      is missing, or would not decode. */
  datatype Reply<Node> = Answer(nodes: seq<Option<Node>>) | Refused(why: Refusal)

  datatype Emission<Node> = Emission(repo: Repo, node: Node)

  type Build<!Node, Query> = (seq<Repo>, seq<Emission<Node>>) -> Query

  /** What a refused batch is retried with: a smaller size, or none at all, and
      false when no retry would help. No size and true gives the batch up as gone. */
  function AliasRetry(why: Refusal, batch: nat): (nat, bool) {
    match why
    case TooLarge => if batch > 1 then (batch / 2, true) else (0, false)
    case Fatal(_) => (0, false)
    case Skippable => if batch > 1 then (1, true) else (0, true)
  }

  function BranchRetry(why: Refusal, batch: nat): (nat, bool) {
    match why
    case TooLarge => if batch > 1 then (batch / 2, true) else (0, false)
    case Fatal(_) => (0, false)
    case Skippable => if batch > 1 then (batch / 2, true) else (0, true)
  }

  type Retry = (Refusal, nat) -> (nat, bool)

  /** What a retry has to be for the recovery to work: smaller while it can be,
      nothing given up but a single repository or a refusal for good. */
  ghost predicate Recovers(retry: Retry) {
    forall why, batch: nat :: batch > 0 ==> RecoversFrom(retry(why, batch), why, batch)
  }

  ghost predicate RecoversFrom(r: (nat, bool), why: Refusal, batch: nat) {
    && (!r.1 <==> why.Fatal? || (why.TooLarge? && batch == 1))
    && (r.1 ==> r.0 < batch && (r.0 == 0 <==> batch == 1))
  }

  lemma BothRecover()
    ensures Recovers(AliasRetry) && Recovers(BranchRetry)
  {
  }

  // What became of each repository.

  /** Emitted, answered with nothing to emit, refused alone as gone, or in a
      chunk that could not be recovered, and for what it was refused. */
  datatype Verdict<Node> = Emitted(node: Node) | Null | Gone | Lost(why: Refusal)

  /** A verdict and the query that decided it: its number and the stretch of
      the list it asked about. */
  datatype Fate<Node> = Fate(verdict: Verdict<Node>, query: nat, lo: nat, hi: nat)

  ghost function EmittedOf<Node>(repos: seq<Repo>, fates: seq<Fate<Node>>): seq<Emission<Node>>
    requires |repos| == |fates|
  {
    if repos == [] then []
    else
      var k := |repos| - 1;
      EmittedOf(repos[..k], fates[..k])
      + (if fates[k].verdict.Emitted? then [Emission(repos[k], fates[k].verdict.node)] else [])
  }

  ghost function Answered<Node>(fates: seq<Fate<Node>>): nat {
    if fates == [] then 0
    else
      var k := |fates| - 1;
      Answered(fates[..k]) + if fates[k].verdict.Emitted? || fates[k].verdict.Null? then 1 else 0
  }

  ghost predicate SomeLost<Node>(fates: seq<Fate<Node>>) {
    exists i :: 0 <= i < |fates| && fates[i].verdict.Lost?
  }

  /** What a reply to a query of a size settles for one of its repositories, if
      it settles anything: a refusal that a smaller query may not meet does not. */
  ghost function Settles<Node>(reply: Reply<Node>, at: nat, size: nat): Option<Verdict<Node>> {
    match reply
    case Answer(nodes) => Some(if at < |nodes| && nodes[at].Some? then Emitted(nodes[at].value) else Null)
    case Refused(why) =>
      if why.Fatal? || (why.TooLarge? && size == 1) then Some(Lost(why))
      else if why.Skippable? && size == 1 then Some(Gone)
      else None
  }

  ghost predicate Decides<Node>(reply: Reply<Node>, v: Verdict<Node>, at: nat, size: nat) {
    Settles(reply, at, size) == Some(v)
  }

  /** A fate is what the server's reply settles, to the query built for its
      stretch once everything before it had been emitted. */
  ghost predicate Justified<Query, Node>(server: (nat, Query) -> Reply<Node>, build: Build<Node, Query>,
                                         start: seq<Emission<Node>>, repos: seq<Repo>, fates: seq<Fate<Node>>, i: nat)
    requires i < |fates|
  {
    var f := fates[i];
    && f.lo <= i < f.hi <= |repos|
    && RestsOn(server, build, EmittedBy(start, repos, fates, f.lo), repos[f.lo..f.hi], f, i - f.lo)
  }

  /** Everything emitted once the first n repositories had their fates. */
  ghost function EmittedBy<Node>(start: seq<Emission<Node>>, repos: seq<Repo>, fates: seq<Fate<Node>>, n: nat): seq<Emission<Node>>
    requires n <= |repos| && n <= |fates|
  {
    start + EmittedOf(repos[..n], fates[..n])
  }

  ghost predicate RestsOn<Query, Node>(server: (nat, Query) -> Reply<Node>, build: Build<Node, Query>,
                                       emitted: seq<Emission<Node>>, batch: seq<Repo>, f: Fate<Node>, at: nat) {
    Decides(server(f.query, build(batch, emitted)), f.verdict, at, |batch|)
  }

  lemma {:induction false} EmittedAppend<Node>(a: seq<Repo>, u: seq<Fate<Node>>, b: seq<Repo>, v: seq<Fate<Node>>)
    requires |a| == |u| && |b| == |v|
    ensures EmittedOf(a + b, u + v) == EmittedOf(a, u) + EmittedOf(b, v)
  {
    if b == [] {
      assert a + b == a && u + v == u;
    } else {
      var k := |b| - 1;
      EmittedAppend(a, u, b[..k], v[..k]);
      assert (a + b)[..|a + b| - 1] == a + b[..k] && (u + v)[..|a + b| - 1] == u + v[..k];
    }
  }

  lemma {:induction false} AnsweredAppend<Node>(u: seq<Fate<Node>>, v: seq<Fate<Node>>)
    ensures Answered(u + v) == Answered(u) + Answered(v)
  {
    if v == [] {
      assert u + v == u;
    } else {
      var k := |v| - 1;
      AnsweredAppend(u, v[..k]);
      assert (u + v)[..|u + v| - 1] == u + v[..k];
    }
  }

  lemma EmittedByAll<Node>(start: seq<Emission<Node>>, repos: seq<Repo>, fates: seq<Fate<Node>>)
    requires |repos| == |fates|
    ensures EmittedBy(start, repos, fates, |fates|) == start + EmittedOf(repos, fates)
  {
    assert repos[..|fates|] == repos && fates[..|fates|] == fates;
  }

  lemma EmittedKept<Node>(start: seq<Emission<Node>>, repos: seq<Repo>, fates: seq<Fate<Node>>, more: seq<Fate<Node>>, n: nat)
    requires n <= |repos| && n <= |fates|
    ensures EmittedBy(start, repos, fates + more, n) == EmittedBy(start, repos, fates, n)
  {
    assert (fates + more)[..n] == fates[..n];
  }

  lemma JustifiedKept<Query, Node>(server: (nat, Query) -> Reply<Node>, build: Build<Node, Query>,
                                   start: seq<Emission<Node>>, repos: seq<Repo>, fates: seq<Fate<Node>>, more: seq<Fate<Node>>, i: nat)
    requires i < |fates| && Justified(server, build, start, repos, fates, i)
    ensures Justified(server, build, start, repos, fates + more, i)
  {
    EmittedKept(start, repos, fates, more, fates[i].lo);
  }

  /** The refusals that lost a stretch of the list, in its order, one for each
      stretch; from is where in the list the first of these fates stands. */
  ghost function LossesOf<Node>(fates: seq<Fate<Node>>, from: nat): seq<Refusal> {
    if fates == [] then []
    else
      var k := |fates| - 1;
      LossesOf(fates[..k], from) + if fates[k].verdict.Lost? && fates[k].lo == from + k then [fates[k].verdict.why] else []
  }

  /** Fates come in stretches, each decided by a query of its own, sent after those
      of the stretches before it, and lost as a whole. */
  ghost predicate InStretches<Node>(fates: seq<Fate<Node>>, from: nat) {
    forall k :: 0 <= k < |fates| ==> InStretch(fates, from, k)
  }

  ghost predicate InStretch<Node>(fates: seq<Fate<Node>>, from: nat, k: nat)
    requires k < |fates|
  {
    if fates[k].lo == from + k then k > 0 ==> fates[k - 1].query < fates[k].query
    else
      && k > 0 && fates[k - 1].lo == fates[k].lo && fates[k - 1].query == fates[k].query
      && (fates[k].verdict.Lost? ==> fates[k - 1].verdict == fates[k].verdict)
  }

  /** What the two results of a reading are: how many repositories were answered for,
      and every refusal that was final. */
  ghost predicate Tallied<Node>(fates: seq<Fate<Node>>, from: nat, asked: nat, failed: seq<Refusal>) {
    asked == Answered(fates) && failed == LossesOf(fates, from) && InStretches(fates, from)
  }

  lemma TalliedAppend<Node>(u: seq<Fate<Node>>, from: nat, asked: nat, failed: seq<Refusal>, lo: nat, mid: nat,
                            v: seq<Fate<Node>>, n: nat, why: seq<Refusal>, hi: nat)
    requires Tallied(u, from, asked, failed) && Tallied(v, from + |u|, n, why)
    requires Within(u, lo, mid) && Within(v, mid, hi)
    ensures Tallied(u + v, from, asked + n, failed + why)
  {
    AnsweredAppend(u, v);
    LossesAppend(u, v, from);
    forall k | 0 <= k < |u + v|
      ensures InStretch(u + v, from, k)
    {
      if k < |u| {
        assert InStretch(u, from, k);
      } else {
        assert InStretch(v, from + |u|, k - |u|);
      }
    }
  }

  lemma {:induction false} LossesAppend<Node>(u: seq<Fate<Node>>, v: seq<Fate<Node>>, from: nat)
    ensures LossesOf(u + v, from) == LossesOf(u, from) + LossesOf(v, from + |u|)
  {
    if v == [] {
      assert u + v == u;
    } else {
      var k := |v| - 1;
      LossesAppend(u, v[..k], from);
      assert (u + v)[..|u + v| - 1] == u + v[..k];
    }
  }

  /** Where those stretches begin. */
  ghost function LossPlaces<Node>(fates: seq<Fate<Node>>, from: nat): seq<nat> {
    if fates == [] then []
    else
      var k := |fates| - 1;
      LossPlaces(fates[..k], from) + if fates[k].verdict.Lost? && fates[k].lo == from + k then [k] else []
  }

  /** Each refusal that is told is the one that lost a repository of its own stretch, in
      the order of the list, */
  lemma {:induction false} LossesInOrder<Node>(fates: seq<Fate<Node>>, from: nat)
    ensures |LossesOf(fates, from)| == |LossPlaces(fates, from)|
    ensures forall j :: 0 <= j < |LossPlaces(fates, from)| ==>
      var i := LossPlaces(fates, from)[j];
      i < |fates| && fates[i].lo == from + i && fates[i].verdict == Lost(LossesOf(fates, from)[j])
    ensures forall j, k :: 0 <= j < k < |LossPlaces(fates, from)| ==> LossPlaces(fates, from)[j] < LossPlaces(fates, from)[k]
  {
    if fates != [] {
      var k := |fates| - 1;
      LossesInOrder(fates[..k], from);
      assert LossPlaces(fates, from) == LossPlaces(fates[..k], from) + if fates[k].verdict.Lost? && fates[k].lo == from + k then [k] else [];
    }
  }

  /** by a query later than those of the ones told before it. */
  lemma LossesByLaterQueries<Node>(fates: seq<Fate<Node>>, from: nat, j: nat, k: nat)
    requires InStretches(fates, from) && j < k < |LossPlaces(fates, from)|
    ensures |LossesOf(fates, from)| == |LossPlaces(fates, from)|
    ensures LossPlaces(fates, from)[j] < LossPlaces(fates, from)[k] < |fates|
    ensures fates[LossPlaces(fates, from)[j]].query < fates[LossPlaces(fates, from)[k]].query
  {
    LossesInOrder(fates, from);
    var i, n := LossPlaces(fates, from)[j], LossPlaces(fates, from)[k];
    QueriesAscend(fates, from, i, n - 1);
    assert InStretch(fates, from, n);
  }

  /** And every repository that was lost has its refusal told, by the query that lost
      it. */
  lemma {:induction false} EveryLossIsTold<Node>(fates: seq<Fate<Node>>, from: nat, i: nat) returns (j: nat)
    requires InStretches(fates, from) && i < |fates| && fates[i].verdict.Lost?
    ensures j < |LossPlaces(fates, from)| && LossPlaces(fates, from)[j] <= i
    ensures var first := fates[LossPlaces(fates, from)[j]];
      first.query == fates[i].query && first.verdict == fates[i].verdict
    decreases |fates| + i
  {
    var k := |fates| - 1;
    assert InStretch(fates, from, i);
    if i < k {
      StretchesBefore(fates, from, k);
      j := EveryLossIsTold(fates[..k], from, i);
    } else if fates[i].lo == from + i {
      j := |LossPlaces(fates[..k], from)|;
    } else {
      j := EveryLossIsTold(fates, from, i - 1);
    }
  }

  lemma StretchesBefore<Node>(fates: seq<Fate<Node>>, from: nat, n: nat)
    requires InStretches(fates, from) && n <= |fates|
    ensures InStretches(fates[..n], from)
  {
    forall k | 0 <= k < n
      ensures InStretch(fates[..n], from, k)
    {
      assert InStretch(fates, from, k);
    }
  }

  lemma {:induction false} QueriesAscend<Node>(fates: seq<Fate<Node>>, from: nat, i: nat, k: nat)
    requires InStretches(fates, from) && i <= k < |fates|
    ensures fates[i].query <= fates[k].query
  {
    if i < k {
      QueriesAscend(fates, from, i, k - 1);
      assert InStretch(fates, from, k);
    }
  }

  /** So something was lost if and only if a refusal is told. */
  lemma ToldIffLost<Node>(fates: seq<Fate<Node>>, from: nat)
    requires InStretches(fates, from)
    ensures LossesOf(fates, from) == [] <==> !SomeLost(fates)
  {
    LossesInOrder(fates, from);
    if SomeLost(fates) {
      var i :| 0 <= i < |fates| && fates[i].verdict.Lost?;
      var j := EveryLossIsTold(fates, from, i);
    }
    if LossesOf(fates, from) != [] {
      var i := LossPlaces(fates, from)[0];
      assert fates[i].verdict.Lost?;
    }
  }

  lemma EmittedOne<Node>(batch: seq<Repo>, i: nat, more: seq<Fate<Node>>, f: Fate<Node>)
    requires i < |batch| && |more| == i
    ensures EmittedOf(batch[..i + 1], more + [f])
         == EmittedOf(batch[..i], more) + (if f.verdict.Emitted? then [Emission(batch[i], f.verdict.node)] else [])
  {
    assert batch[..i + 1][..i] == batch[..i] && (more + [f])[..i] == more;
  }

  /** A chunk decided by one reply is one stretch. */
  lemma OneStretch<Node>(reply: Reply<Node>, more: seq<Fate<Node>>, query: nat, lo: nat)
    requires ChunkFates(reply, more, query, lo)
    ensures InStretches(more, lo)
  {
    forall k | 0 <= k < |more|
      ensures InStretch(more, lo, k)
    {
      assert Decides(reply, more[k].verdict, k, |more|) && more[k] == Fate(more[k].verdict, query, lo, lo + |more|);
      assert k > 0 ==> Decides(reply, more[k - 1].verdict, k - 1, |more|) && more[k - 1] == Fate(more[k - 1].verdict, query, lo, lo + |more|);
    }
  }

  lemma {:induction false} AllAnswered<Node>(nodes: seq<Option<Node>>, more: seq<Fate<Node>>, query: nat, lo: nat, size: nat)
    requires FatesFrom(Answer(nodes), more, query, lo, size)
    ensures Answered(more) == |more| && LossesOf(more, lo) == []
  {
    if more != [] {
      var k := |more| - 1;
      assert Decides(Answer(nodes), more[k].verdict, k, size);
      AllAnswered(nodes, more[..k], query, lo, size);
    }
  }

  lemma {:induction false} ClosedChunk<Node>(batch: seq<Repo>, more: seq<Fate<Node>>, f: Fate<Node>)
    requires |batch| == |more| && (f.verdict.Gone? || f.verdict.Lost?)
    requires forall k :: 0 <= k < |more| ==> more[k] == f
    ensures EmittedOf(batch, more) == [] && Answered(more) == 0
    ensures LossesOf(more, f.lo) == if batch != [] && f.verdict.Lost? then [f.verdict.why] else []
  {
    if batch != [] {
      ClosedChunk(batch[..|batch| - 1], more[..|batch| - 1], f);
    }
  }

  ghost predicate AllAre<T>(s: seq<T>, x: T) {
    forall k :: 0 <= k < |s| ==> s[k] == x
  }

  /** A chunk given up at once tells its refusal, if it was lost. */
  lemma ClosedTallied<Node>(batch: seq<Repo>, more: seq<Fate<Node>>, v: Verdict<Node>, query: nat, from: nat)
    requires |batch| == |more| > 0 && AllAre(more, Fate(v, query, from, from + |batch|)) && (v.Gone? || v.Lost?)
    ensures Tallied(more, from, 0, if v.Lost? then [v.why] else [])
  {
    ClosedChunk(batch, more, Fate(v, query, from, from + |batch|));
    forall k | 0 <= k < |more|
      ensures InStretch(more, from, k)
    {
      assert k > 0 ==> more[k - 1] == more[k];
    }
  }

  lemma SubSlice<T>(all: seq<T>, from: nat, part: seq<T>, lo: nat, hi: nat)
    requires from + |part| <= |all| && all[from..from + |part|] == part && lo <= hi <= |part|
    ensures all[from + lo..from + hi] == part[lo..hi]
  {
    var x, y := all[from + lo..from + hi], part[lo..hi];
    forall k | 0 <= k < |y|
      ensures x[k] == y[k]
    {
      assert y[k] == all[from..from + |part|][lo + k];
    }
  }

  /** The repositories of a chunk were decided by the reply to its query. */
  ghost predicate ChunkFates<Node>(reply: Reply<Node>, more: seq<Fate<Node>>, query: nat, lo: nat) {
    FatesFrom(reply, more, query, lo, |more|)
  }

  ghost predicate FatesFrom<Node>(reply: Reply<Node>, more: seq<Fate<Node>>, query: nat, lo: nat, size: nat) {
    forall k :: 0 <= k < |more| ==>
      more[k] == Fate(more[k].verdict, query, lo, lo + size) && Decides(reply, more[k].verdict, k, size)
  }

  lemma FatesOneMore<Node>(reply: Reply<Node>, more: seq<Fate<Node>>, query: nat, lo: nat, size: nat, f: Fate<Node>)
    requires FatesFrom(reply, more, query, lo, size)
    requires f == Fate(f.verdict, query, lo, lo + size) && Decides(reply, f.verdict, |more|, size)
    ensures FatesFrom(reply, more + [f], query, lo, size)
  {
  }

  lemma ChunkRestsOn<Query, Node>(server: (nat, Query) -> Reply<Node>, build: Build<Node, Query>,
                                  emitted: seq<Emission<Node>>, batch: seq<Repo>, more: seq<Fate<Node>>,
                                  reply: Reply<Node>, query: nat, lo: nat, k: nat)
    requires k < |more| == |batch|
    requires reply == server(query, build(batch, emitted)) && ChunkFates(reply, more, query, lo)
    ensures more[k].lo == lo && more[k].hi == lo + |more| && RestsOn(server, build, emitted, batch, more[k], k)
  {
    var f := more[k];
    assert f == Fate(f.verdict, query, lo, lo + |more|);
  }

  lemma JustifiedNew<Query, Node>(server: (nat, Query) -> Reply<Node>, build: Build<Node, Query>,
                                  start: seq<Emission<Node>>, repos: seq<Repo>, fates: seq<Fate<Node>>, more: seq<Fate<Node>>,
                                  reply: Reply<Node>, query: nat, i: nat)
    requires |fates| <= i < |fates| + |more| <= |repos|
    requires reply == server(query, build(repos[|fates|..|fates| + |more|], EmittedBy(start, repos, fates, |fates|)))
    requires ChunkFates(reply, more, query, |fates|)
    ensures Justified(server, build, start, repos, fates + more, i)
  {
    EmittedKept(start, repos, fates, more, |fates|);
    ChunkRestsOn(server, build, EmittedBy(start, repos, fates, |fates|), repos[|fates|..|fates| + |more|],
                 more, reply, query, |fates|, i - |fates|);
    assert (fates + more)[i] == more[i - |fates|];
  }

  /** A chunk decided by one reply takes its place after the fates before it. */
  lemma ChunkSettled<Query, Node>(server: (nat, Query) -> Reply<Node>, build: Build<Node, Query>,
                                  start: seq<Emission<Node>>, repos: seq<Repo>, fates: seq<Fate<Node>>, more: seq<Fate<Node>>,
                                  reply: Reply<Node>, query: nat)
    requires |fates| + |more| <= |repos|
    requires forall i :: 0 <= i < |fates| ==> Justified(server, build, start, repos, fates, i)
    requires reply == server(query, build(repos[|fates|..|fates| + |more|], EmittedBy(start, repos, fates, |fates|)))
    requires ChunkFates(reply, more, query, |fates|)
    ensures forall i :: 0 <= i < |fates + more| ==> Justified(server, build, start, repos, fates + more, i)
    ensures EmittedBy(start, repos, fates + more, |fates + more|)
         == EmittedBy(start, repos, fates, |fates|) + EmittedOf(repos[|fates|..|fates| + |more|], more)
  {
    forall i | 0 <= i < |fates + more|
      ensures Justified(server, build, start, repos, fates + more, i)
    {
      if i < |fates| {
        JustifiedKept(server, build, start, repos, fates, more, i);
      } else {
        JustifiedNew(server, build, start, repos, fates, more, reply, query, i);
      }
    }
    EmittedBefore(start, repos, fates, more);
  }

  lemma EmittedBefore<Node>(start: seq<Emission<Node>>, repos: seq<Repo>, fates: seq<Fate<Node>>, more: seq<Fate<Node>>)
    requires |fates| + |more| <= |repos|
    ensures EmittedBy(start, repos, fates + more, |fates + more|)
         == EmittedBy(start, repos, fates, |fates|) + EmittedOf(repos[|fates|..|fates| + |more|], more)
  {
    assert fates[..|fates|] == fates && (fates + more)[..|fates + more|] == fates + more;
    EmittedAppend(repos[..|fates|], fates, repos[|fates|..|fates| + |more|], more);
    SplitPrefix(repos, |fates|, |fates| + |more|);
  }

  /** How many chunks of a size a list falls into. */
  function Chunks(n: nat, size: nat): nat
    requires size > 0
  {
    if n == 0 then 0 else if n <= size then 1 else 1 + Chunks(n - size, size)
  }

  lemma {:induction false} ChunksIsCeiling(n: nat, size: nat)
    requires size > 0 && n > 0
    ensures (Chunks(n, size) - 1) * size < n <= Chunks(n, size) * size
  {
    if n > size {
      ChunksIsCeiling(n - size, size);
      var c := Chunks(n - size, size);
      assert (c - 1) * size == c * size - size && (c + 1) * size == c * size + size;
    }
  }

  /** Each fate was decided by one of a stretch of queries. */
  ghost predicate Within<Node>(fates: seq<Fate<Node>>, lo: nat, hi: nat) {
    forall i :: 0 <= i < |fates| ==> lo <= fates[i].query < hi
  }

  lemma WithinAppend<Node>(fates: seq<Fate<Node>>, lo: nat, mid: nat, more: seq<Fate<Node>>, hi: nat)
    requires lo <= mid <= hi && Within(fates, lo, mid) && Within(more, mid, hi)
    ensures Within(fates + more, lo, hi)
  {
  }

  /** A reading of a list of repositories, in the order of the list. */
  class Reading<!Node(==)> {
    var queries: nat
    var emitted: seq<Emission<Node>>

    ghost const first: nat
    ghost const repos: seq<Repo>
    ghost const start: seq<Emission<Node>>
    ghost var fates: seq<Fate<Node>>

    constructor (queries: nat, emitted: seq<Emission<Node>>, ghost repos: seq<Repo>)
      ensures this.queries == queries && this.emitted == emitted
      ensures first == queries && this.repos == repos && start == emitted && fates == []
    {
      this.queries, this.emitted := queries, emitted;
      first, this.repos, start, fates := queries, repos, emitted, [];
    }

    /** Every repository up to here has one fate, each fate its evidence among the
        queries sent, and what was emitted is what the fates say, in order. */
    ghost predicate Fair<Query(!new)>(server: (nat, Query) -> Reply<Node>, build: Build<Node, Query>)
      reads this
    {
      && |fates| <= |repos|
      && emitted == EmittedBy(start, repos, fates, |fates|)
      && first <= queries && Within(fates, first, queries)
      && forall i :: 0 <= i < |fates| ==> Justified(server, build, start, repos, fates, i)
    }

    /** Asks about repos[|fates|..] of a list, a chunk at a time, and about a
        refused chunk in smaller ones. asked counts the repositories that were
        answered for, failed has every refusal that was final, in the order of the
        list. */
    method Asked<Query(!new)>(server: (nat, Query) -> Reply<Node>, build: Build<Node, Query>, retry: Retry,
                              list: seq<Repo>, size: nat)
      returns (asked: nat, failed: seq<Refusal>, ghost more: seq<Fate<Node>>)
      requires size > 0 && Recovers(retry) && Fair(server, build)
      requires |fates| + |list| <= |repos| && repos[|fates|..|fates| + |list|] == list
      modifies this
      ensures Fair(server, build)
      ensures fates == old(fates) + more && |more| == |list|
      ensures Tallied(more, |old(fates)|, asked, failed)
      ensures old(queries) <= queries <= old(queries) + 2 * |list| - Chunks(|list|, size)
      ensures Within(more, old(queries), queries)
      decreases size, 1
    {
      asked, failed, more := 0, [], [];
      var at := 0;
      while at < |list|
        invariant 0 <= at <= |list| && |more| == at
        invariant Fair(server, build) && fates == old(fates) + more
        invariant Tallied(more, |old(fates)|, asked, failed) && Within(more, old(queries), queries)
        invariant old(queries) <= queries
        invariant queries + Chunks(|list|, size) <= old(queries) + 2 * at + Chunks(|list| - at, size)
      {
        var end := Min(at + size, |list|);
        SubSlice(repos, |old(fates)|, list, at, end);
        ghost var sent := queries;
        var n, why, next := AskChunk(server, build, retry, list[at..end], size);
        TalliedAppend(more, |old(fates)|, asked, failed, old(queries), sent, next, n, why, queries);
        WithinAppend(more, old(queries), sent, next, queries);
        asked, failed, more := asked + n, failed + why, more + next;
        at := end;
      }
    }

    /** One chunk of at most size repositories. */
    method AskChunk<Query(!new)>(server: (nat, Query) -> Reply<Node>, build: Build<Node, Query>, retry: Retry,
                                 batch: seq<Repo>, size: nat)
      returns (asked: nat, failed: seq<Refusal>, ghost more: seq<Fate<Node>>)
      requires 0 < |batch| <= size && Recovers(retry) && Fair(server, build)
      requires |fates| + |batch| <= |repos| && repos[|fates|..|fates| + |batch|] == batch
      modifies this
      ensures Fair(server, build)
      ensures fates == old(fates) + more && |more| == |batch|
      ensures Tallied(more, |old(fates)|, asked, failed)
      ensures old(queries) < queries <= old(queries) + 2 * |batch| - 1
      ensures Within(more, old(queries), queries)
      decreases size, 0
    {
      var reply := server(queries, build(batch, emitted));
      ghost var query := queries;
      queries := queries + 1;
      match reply {
        case Answer(nodes) =>
          more := Decode(server, build, batch, nodes, query);
          return |batch|, [], more;
        case Refused(why) =>
          var r := retry(why, |batch|);
          assert RecoversFrom(r, why, |batch|);
          if !r.1 {
            more := Close(server, build, batch, Lost(why), why, query);
            ClosedTallied(batch, more, Lost(why), query, |old(fates)|);
            return 0, [why], more;
          } else if r.0 > 0 {
            asked, failed, more := Asked(server, build, retry, batch, r.0);
          } else {
            more := Close(server, build, batch, Gone, why, query);
            ClosedTallied(batch, more, Gone, query, |old(fates)|);
            return 0, [], more;
          }
      }
    }

    /** An answered chunk: alias k of the reply belongs to repository k. */
    method Decode<Query(!new)>(server: (nat, Query) -> Reply<Node>, build: Build<Node, Query>,
                               batch: seq<Repo>, nodes: seq<Option<Node>>, ghost query: nat)
      returns (ghost more: seq<Fate<Node>>)
      requires Fair(server, build) && batch != [] && first <= query < queries && Within(fates, first, query)
      requires |fates| + |batch| <= |repos| && repos[|fates|..|fates| + |batch|] == batch
      requires server(query, build(batch, emitted)) == Answer(nodes)
      modifies this`emitted, this`fates
      ensures Fair(server, build)
      ensures fates == old(fates) + more && |more| == |batch| && Within(more, query, queries)
      ensures Tallied(more, |old(fates)|, |batch|, [])
    {
      more := DecodeEach(batch, nodes, query, |fates|);
      OneStretch(Answer(nodes), more, query, |fates|);
      AllAnswered(nodes, more, query, |fates|, |batch|);
      ChunkSettled(server, build, start, repos, fates, more, Answer(nodes), query);
      WithinAppend(fates, first, query, more, queries);
      fates := fates + more;
    }

    method DecodeEach(batch: seq<Repo>, nodes: seq<Option<Node>>, ghost query: nat, ghost lo: nat)
      returns (ghost more: seq<Fate<Node>>)
      modifies this`emitted
      ensures |more| == |batch| && emitted == old(emitted) + EmittedOf(batch, more)
      ensures ChunkFates(Answer(nodes), more, query, lo)
    {
      more := [];
      var i := 0;
      while i < |batch|
        invariant 0 <= i <= |batch| && |more| == i
        invariant emitted == old(emitted) + EmittedOf(batch[..i], more)
        invariant FatesFrom(Answer(nodes), more, query, lo, |batch|)
      {
        var v := if i < |nodes| && nodes[i].Some? then Emitted(nodes[i].value) else Null;
        if v.Emitted? {
          emitted := emitted + [Emission(batch[i], v.node)];
        }
        ghost var f := Fate(v, query, lo, lo + |batch|);
        EmittedOne(batch, i, more, f);
        FatesOneMore(Answer(nodes), more, query, lo, |batch|, f);
        more := more + [f];
        i := i + 1;
      }
      assert batch[..i] == batch;
    }

    /** The whole of a refused chunk is given up, and nothing of it is emitted. */
    ghost method Close<Query(!new)>(server: (nat, Query) -> Reply<Node>, build: Build<Node, Query>,
                                    batch: seq<Repo>, v: Verdict<Node>, why: Refusal, query: nat)
      returns (more: seq<Fate<Node>>)
      requires Fair(server, build) && batch != [] && first <= query < queries && Within(fates, first, query)
      requires |fates| + |batch| <= |repos| && repos[|fates|..|fates| + |batch|] == batch
      requires server(query, build(batch, emitted)) == Refused(why)
      requires Decides<Node>(Refused(why), v, 0, |batch|)
      modifies this`fates
      ensures Fair(server, build)
      ensures fates == old(fates) + more && |more| == |batch| && Within(more, query, queries)
      ensures AllAre(more, Fate(v, query, |old(fates)|, |old(fates)| + |batch|))
    {
      var f := Fate(v, query, |fates|, |fates| + |batch|);
      more := seq(|batch|, _ => f);
      ClosedChunk(batch, more, f);
      ChunkSettled(server, build, start, repos, fates, more, Refused(why), query);
      WithinAppend(fates, first, query, more, queries);
      fates := fates + more;
    }
  }

  // The two collectors' entry points.

  /** How a batched read went: everything asked, nothing, or some of it. */
  datatype Result = Whole | Failure(failed: seq<Refusal>) | PartialError(asked: nat, failed: seq<Refusal>)

  /** aliasBatch: a partial failure carries the count of those answered for. */
  method AliasBatch<Query(!new), Node>(server: (nat, Query) -> Reply<Node>, build: Build<Node, Query>,
                                       repos: seq<Repo>, size: int, run: Reading<Node>)
    returns (result: Result)
    requires run.repos == repos && run.fates == [] && run.emitted == run.start && run.first == run.queries
    modifies run
    ensures run.Fair(server, build) && |run.fates| == |repos| && Within(run.fates, old(run.queries), run.queries)
    ensures result.Whole? <==> !SomeLost(run.fates)
    ensures InStretches(run.fates, 0) && (!result.Whole? ==> result.failed == LossesOf(run.fates, 0))
    ensures result.PartialError? <==> SomeLost(run.fates) && Answered(run.fates) > 0
    ensures result.PartialError? ==> result.asked == Answered(run.fates)
    ensures run.queries <= old(run.queries) + 2 * |repos| - Chunks(|repos|, if size <= 0 then DEFAULT_ALIAS_BATCH else size)
  {
    BothRecover();
    ghost var more;
    var asked, failed;
    asked, failed, more := run.Asked(server, build, AliasRetry, repos, if size <= 0 then DEFAULT_ALIAS_BATCH else size);
    assert run.fates == more;
    ToldIffLost(more, 0);
    result :=
      if failed == [] then Whole
      else if asked > 0 then PartialError(asked, failed)
      else Failure(failed);
  }

  /** Branches.Collect: every refusal halves, and what came back travels with
      what failed. */
  method Branches<Query(!new), Node>(server: (nat, Query) -> Reply<Node>, build: Build<Node, Query>,
                                     repos: seq<Repo>, size: int, run: Reading<Node>)
    returns (failed: seq<Refusal>)
    requires run.repos == repos && run.fates == [] && run.emitted == run.start && run.first == run.queries
    modifies run
    ensures run.Fair(server, build) && |run.fates| == |repos| && Within(run.fates, old(run.queries), run.queries)
    ensures failed == [] <==> !SomeLost(run.fates)
    ensures InStretches(run.fates, 0) && failed == LossesOf(run.fates, 0)
    ensures run.queries <= old(run.queries) + 2 * |repos| - Chunks(|repos|, if size <= 0 then DEFAULT_BRANCH_BATCH else size)
  {
    BothRecover();
    ghost var more;
    var asked;
    asked, failed, more := run.Asked(server, build, BranchRetry, repos, if size <= 0 then DEFAULT_BRANCH_BATCH else size);
    assert run.fates == more;
    ToldIffLost(more, 0);
  }

  // What a fair reading of a whole list says.

  /** Where the emitted repositories stand in the list. */
  ghost function Places<Node>(fates: seq<Fate<Node>>): seq<nat> {
    if fates == [] then []
    else
      var k := |fates| - 1;
      Places(fates[..k]) + if fates[k].verdict.Emitted? then [k] else []
  }

  lemma {:induction false} PlacesAscend<Node>(fates: seq<Fate<Node>>)
    ensures forall j, k :: 0 <= j < k < |Places(fates)| ==> Places(fates)[j] < Places(fates)[k]
    ensures forall i :: i in Places(fates) <==> 0 <= i < |fates| && fates[i].verdict.Emitted?
  {
    if fates != [] {
      PlacesAscend(fates[..|fates| - 1]);
      var before := Places(fates[..|fates| - 1]);
      assert forall j :: 0 <= j < |before| ==> before[j] in before;
    }
  }

  /** What is emitted follows the order of the list, each place at most once,
      and is every place whose fate it is. */
  lemma {:induction false} EmittedInOrder<Node>(repos: seq<Repo>, fates: seq<Fate<Node>>, j: nat)
    requires |repos| == |fates| && j < |Places(fates)|
    ensures |EmittedOf(repos, fates)| == |Places(fates)|
    ensures var i := Places(fates)[j];
      i < |repos| && fates[i].verdict.Emitted? && EmittedOf(repos, fates)[j] == Emission(repos[i], fates[i].verdict.node)
  {
    var k := |fates| - 1;
    PlacesAscend(fates);
    assert Places(fates)[j] in Places(fates);
    EmittedCount(repos, fates);
    EmittedCount(repos[..k], fates[..k]);
    if j < |Places(fates[..k])| {
      EmittedInOrder(repos[..k], fates[..k], j);
    }
  }

  lemma {:induction false} EmittedCount<Node>(repos: seq<Repo>, fates: seq<Fate<Node>>)
    requires |repos| == |fates|
    ensures |EmittedOf(repos, fates)| == |Places(fates)|
  {
    if fates != [] {
      EmittedCount(repos[..|repos| - 1], fates[..|repos| - 1]);
    }
  }

  lemma EmittedOnce<Node>(repos: seq<Repo>, fates: seq<Fate<Node>>, j: nat, k: nat)
    requires |repos| == |fates| && NoDuplicates(repos) && j < k < |EmittedOf(repos, fates)|
    ensures EmittedOf(repos, fates)[j].repo != EmittedOf(repos, fates)[k].repo
  {
    EmittedCount(repos, fates);
    PlacesAscend(fates);
    EmittedInOrder(repos, fates, j);
    EmittedInOrder(repos, fates, k);
  }

  ghost function GoneIn<Node>(fates: seq<Fate<Node>>): nat {
    if fates == [] then 0 else GoneIn(fates[..|fates| - 1]) + if fates[|fates| - 1].verdict.Gone? then 1 else 0
  }

  ghost function LostIn<Node>(fates: seq<Fate<Node>>): nat {
    if fates == [] then 0 else LostIn(fates[..|fates| - 1]) + if fates[|fates| - 1].verdict.Lost? then 1 else 0
  }

  /** Asked, gone alone and lost are the whole list. */
  lemma {:induction false} NothingUnaccounted<Node>(fates: seq<Fate<Node>>)
    ensures Answered(fates) + GoneIn(fates) + LostIn(fates) == |fates|
    ensures LostIn(fates) > 0 <==> SomeLost(fates)
  {
    if fates != [] {
      var k := |fates| - 1;
      NothingUnaccounted(fates[..k]);
      if SomeLost(fates[..k]) {
        var i :| 0 <= i < k && fates[..k][i].verdict.Lost?;
        assert fates[i].verdict.Lost?;
      }
      if SomeLost(fates) && !fates[k].verdict.Lost? {
        var i :| 0 <= i < |fates| && fates[i].verdict.Lost?;
        assert fates[..k][i].verdict.Lost?;
      }
    }
  }

  /** A server that refuses a query exactly because it names a repository that
      is gone, and otherwise answers for every one. */
  ghost predicate RefusesTheGone<Query(!new), Node(!new)>(server: (nat, Query) -> Reply<Node>, build: Build<Node, Query>,
                                                          alive: Repo -> bool, node: Repo -> Node) {
    forall query: nat, batch, log ::
      server(query, build(batch, log)) ==
        if (forall r :: r in batch ==> alive(r)) then Answer(seq(|batch|, i requires 0 <= i < |batch| => Some(node(batch[i]))))
        else Refused(Skippable)
  }

  ghost function Survivors<Node>(repos: seq<Repo>, alive: Repo -> bool, node: Repo -> Node): seq<Emission<Node>> {
    if repos == [] then []
    else
      var k := |repos| - 1;
      Survivors(repos[..k], alive, node) + if alive(repos[k]) then [Emission(repos[k], node(repos[k]))] else []
  }

  /** Then any fair reading, whichever way it recovers, emits exactly the
      repositories that are left, in order, and loses none: one at a time and
      halving agree. */
  lemma {:induction false} RecoveriesAgree<Query(!new), Node(!new)>(server: (nat, Query) -> Reply<Node>, build: Build<Node, Query>,
                                                start: seq<Emission<Node>>, repos: seq<Repo>, fates: seq<Fate<Node>>,
                                                alive: Repo -> bool, node: Repo -> Node, n: nat)
    requires RefusesTheGone(server, build, alive, node) && |repos| == |fates| && n <= |repos|
    requires forall i :: 0 <= i < |fates| ==> Justified(server, build, start, repos, fates, i)
    ensures EmittedOf(repos[..n], fates[..n]) == Survivors(repos[..n], alive, node)
    ensures !SomeLost(fates)
  {
    forall i | 0 <= i < |fates|
      ensures fates[i].verdict == if alive(repos[i]) then Emitted(node(repos[i])) else Gone
    {
      FateOf(server, build, start, repos, fates, alive, node, i);
    }
    if n > 0 {
      RecoveriesAgree(server, build, start, repos, fates, alive, node, n - 1);
      assert repos[..n][..n - 1] == repos[..n - 1] && fates[..n][..n - 1] == fates[..n - 1];
    }
  }

  lemma FateOf<Query(!new), Node(!new)>(server: (nat, Query) -> Reply<Node>, build: Build<Node, Query>,
                                        start: seq<Emission<Node>>, repos: seq<Repo>, fates: seq<Fate<Node>>,
                                        alive: Repo -> bool, node: Repo -> Node, i: nat)
    requires RefusesTheGone(server, build, alive, node) && |repos| == |fates| && i < |repos|
    requires Justified(server, build, start, repos, fates, i)
    ensures fates[i].verdict == if alive(repos[i]) then Emitted(node(repos[i])) else Gone
  {
    var f := fates[i];
    var batch := repos[f.lo..f.hi];
    var reply := server(f.query, build(batch, EmittedBy(start, repos, fates, f.lo)));
    assert repos[i] == batch[i - f.lo];
    if forall r :: r in batch ==> alive(r) {
      assert reply == Answer(seq(|batch|, i requires 0 <= i < |batch| => Some(node(batch[i]))));
    } else if f.hi - f.lo == 1 {
      assert batch == [repos[i]];
    }
  }
}

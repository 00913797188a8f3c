/**
 * The history of a default branch, with a budget counted in commits:
 * Commits.Collect and commitPoints of internal/collect/commits.go, and
 * Movement.CommitsSince of internal/collect/moved.go.
 */
module CommitWalks {
  import opened Lists
  import opened Walks
  import opened Cursors

  const MOST_FIRST: int := 100
  const USUAL_FIRST: int := 50
  const SMALLEST_HALVED: nat := 10

  /** A commit, and when each of its checks that is worth a row finished. */
  datatype Commit = Commit(oid: nat, at: int, checks: seq<int>)

  datatype Point = CommitPoint(oid: nat, at: int) | CheckPoint(oid: nat, at: int)

  datatype Reply = Page(history: Slice<Commit>) | TooLarge | Skippable | Failed

  function ChecksOf(c: Commit): seq<Point> {
    seq(|c.checks|, i requires 0 <= i < |c.checks| => CheckPoint(c.oid, c.checks[i]))
  }

  /** The rows of one page: each commit, then its checks. */
  function PointsOf(nodes: seq<Commit>): seq<Point> {
    if nodes == [] then []
    else
      var c := nodes[|nodes| - 1];
      PointsOf(nodes[..|nodes| - 1]) + [CommitPoint(c.oid, c.at)] + ChecksOf(c)
  }

  /** When the last row of a commit is dated. */
  function LastStamp(c: Commit): int {
    if c.checks == [] then c.at else c.checks[|c.checks| - 1]
  }

  lemma LastRow(nodes: seq<Commit>)
    requires nodes != []
    ensures PointsOf(nodes) != [] && PointsOf(nodes)[|PointsOf(nodes)| - 1].at == LastStamp(nodes[|nodes| - 1])
  {
  }

  /** How many rows some commits make. */
  ghost function RowCount(nodes: seq<Commit>): nat {
    if nodes == [] then 0 else RowCount(nodes[..|nodes| - 1]) + 1 + |nodes[|nodes| - 1].checks|
  }

  /** Each commit makes a row of its own date and one for each check, of its date, right
      behind it, and there are no other rows. */
  lemma {:induction false} RowsInOrder(nodes: seq<Commit>, i: nat)
    requires i < |nodes|
    ensures |PointsOf(nodes)| == RowCount(nodes)
    ensures var at := RowCount(nodes[..i]);
      && at + |nodes[i].checks| < |PointsOf(nodes)|
      && PointsOf(nodes)[at] == CommitPoint(nodes[i].oid, nodes[i].at)
      && forall j :: 0 <= j < |nodes[i].checks| ==> PointsOf(nodes)[at + 1 + j] == CheckPoint(nodes[i].oid, nodes[i].checks[j])
  {
    var k := |nodes| - 1;
    if k > 0 {
      RowsInOrder(nodes[..k], if i < k then i else 0);
    }
    assert i < k ==> nodes[..k][..i] == nodes[..i];
    assert PointsOf(nodes) == PointsOf(nodes[..k]) + [CommitPoint(nodes[k].oid, nodes[k].at)] + ChecksOf(nodes[k]);
  }

  lemma PointsOne(nodes: seq<Commit>, c: Commit)
    ensures PointsOf(nodes + [c]) == PointsOf(nodes) + [CommitPoint(c.oid, c.at)] + ChecksOf(c)
  {
    assert (nodes + [c])[..|nodes|] == nodes;
  }

  lemma {:induction false} PointsAppend(a: seq<Commit>, b: seq<Commit>)
    ensures PointsOf(a + b) == PointsOf(a) + PointsOf(b)
  {
    if b == [] {
      assert a + b == a;
    } else {
      var before, c := b[..|b| - 1], b[|b| - 1];
      PointsAppend(a, before);
      assert b == before + [c] && a + b == (a + before) + [c];
      PointsOne(before, c);
      PointsOne(a + before, c);
      Regroup(PointsOf(a), PointsOf(before), [CommitPoint(c.oid, c.at)], ChecksOf(c));
    }
  }

  lemma Regroup<T>(a: seq<T>, b: seq<T>, c: seq<T>, d: seq<T>)
    ensures a + (b + c + d) == (a + b) + c + d
  {
  }

  // What was asked. A walk's queries are numbered from 0, so entry k of its log
  // is the query the server answered as number k.

  datatype Ask = Ask(first: nat, after: nat)

  type Server = (nat, nat, nat) -> Reply

  function ReplyTo(server: Server, log: seq<Ask>, k: nat): Reply
    requires k < |log|
  {
    server(k, log[k].first, log[k].after)
  }

  /** How many commits were asked for, in the queries that were answered. */
  ghost function AskedIn(server: Server, log: seq<Ask>): nat {
    if log == [] then 0
    else
      var k := |log| - 1;
      AskedIn(server, log[..k]) + if ReplyTo(server, log, k).Page? then log[k].first else 0
  }

  /** How many commits the answers held. */
  ghost function ReadIn(server: Server, log: seq<Ask>): nat {
    if log == [] then 0
    else
      var k := |log| - 1;
      ReadIn(server, log[..k]) + if ReplyTo(server, log, k).Page? then |ReplyTo(server, log, k).history.nodes| else 0
  }

  /** Whether the walk goes on after a reply. */
  ghost predicate LeadsOn(w: Walk, first: nat, reply: Reply) {
    match reply
    case Page(h) => h.hasNext && (h.nodes != [] ==> !w.Past(LastStamp(h.nodes[|h.nodes| - 1])))
    case TooLarge => first > SMALLEST_HALVED
    case _ => false
  }

  /** The size of the query after one that led on: the same, or half of one that
      was too large. */
  ghost function NextFirst(server: Server, log: seq<Ask>): nat
    requires log != []
  {
    var k := |log| - 1;
    if ReplyTo(server, log, k).TooLarge? then log[k].first / 2 else log[k].first
  }

  /** The log of a walk: each query asks on from where the answers before it
      ended, while some of the budget is left, after a reply that led on. */
  ghost predicate IsLog(server: Server, w: Walk, pageSize: int, log: seq<Ask>) {
    log == [] ||
    var before, last := log[..|log| - 1], log[|log| - 1];
    && IsLog(server, w, pageSize, before)
    && AskedIn(server, before) < Budget(w, pageSize)
    && last.after == ReadIn(server, before)
    && last.first == NextSize(server, pageSize, before)
    && (before != [] ==> LeadsOn(w, before[|before| - 1].first, ReplyTo(server, before, |before| - 1)))
  }

  ghost function NextSize(server: Server, pageSize: int, log: seq<Ask>): nat {
    if log == [] then First(pageSize) else NextFirst(server, log)
  }

  function Budget(w: Walk, pageSize: int): nat {
    w.Limit(1) * First(pageSize)
  }

  /** Why a walk went no further. */
  datatype Stop = Spent | Ended | PastBound | Empty | GaveUp

  /** What the last reply of a log has to be for each reason to stop. */
  ghost predicate StopsFor(server: Server, w: Walk, pageSize: int, log: seq<Ask>, stop: Stop) {
    if stop == Spent then AskedIn(server, log) >= Budget(w, pageSize)
    else log != [] && EndsFor(w, log[|log| - 1].first, ReplyTo(server, log, |log| - 1)) == Some(stop)
  }

  /** The reason a reply gives to stop, when it does not lead on. */
  ghost function EndsFor(w: Walk, first: nat, reply: Reply): Option<Stop> {
    if LeadsOn(w, first, reply) then None
    else
      match reply
      case Page(h) => Some(if h.hasNext then PastBound else Ended)
      case Skippable => Some(Empty)
      case _ => Some(GaveUp)
  }

  /** Pages of the history as it stands, of at most as many commits as were asked
      for. */
  ghost predicate Honest(history: seq<Commit>, server: Server) {
    forall n: nat, first: nat, after: nat :: server(n, first, after).Page? ==>
      HonestSlice(history, after, server(n, first, after).history) && |server(n, first, after).history.nodes| <= first
  }

  /** Pages that hold as many as were asked for while there are as many. */
  ghost predicate Fills(history: seq<Commit>, server: Server) {
    forall n: nat, first: nat, after: nat :: server(n, first, after).Page? && after <= |history| ==>
      |server(n, first, after).history.nodes| == Min(first, |history| - after)
  }

  /** What was emitted is the rows of the first k commits. */
  ghost predicate Rendered(points: seq<Point>, history: seq<Commit>, k: nat) {
    k <= |history| && points == PointsOf(history[..k])
  }

  /** Reads the history back to the bound, half a page at a time whenever the
      page is too large. k is how many commits were read. A walk that is not
      stopped early asks for all it may read, and never for a whole page more;
      from a server that fills its pages that much is then read. */
  method Collect(server: Server, pageSize: int, w: Walk, ghost history: seq<Commit>)
    returns (points: seq<Point>, failed: bool, ghost k: nat, ghost log: seq<Ask>, ghost stop: Stop)
    requires Honest(history, server)
    ensures IsLog(server, w, pageSize, log) && StopsFor(server, w, pageSize, log, stop)
    ensures k == ReadIn(server, log) && Rendered(points, history, k)
    ensures ReadsAsFar(server, w, pageSize, history, log, stop)
    ensures AsksForCommits(server, w, pageSize, log, stop) && HalvesDownToTen(server, log, stop)
    ensures failed <==> stop == GaveUp
    ensures points <= PointsOf(history)
  {
    points, failed, k, log := [], false, 0, [];
    var first: nat := First(pageSize);
    var left: int, after, sent := Budget(w, pageSize), 0, 0;
    while left > 0
      invariant first > 0 && after == k && sent == |log| && Rendered(points, history, k)
      invariant Walking(server, w, pageSize, log, first, left, k)
      decreases left, first
    {
      var ended;
      points, first, left, after, ended, k, log := Query(server, w, pageSize, sent, first, after, left, points, k, log, history);
      sent := sent + 1;
      if ended.Some? {
        failed, stop := ended.value == GaveUp, ended.value;
        WalkEnds(server, w, pageSize, log, history, stop);
        AsksEnough(server, w, pageSize, log, history, stop);
        RenderedWithin(points, history, k);
        return;
      }
    }
    stop := Spent;
    WalkEnds(server, w, pageSize, log, history, stop);
    AsksEnough(server, w, pageSize, log, history, stop);
    RenderedWithin(points, history, k);
  }

  /** A walk has a budget of commits: as many as its pages hold at the size it began
      with, which is fifty at most, however they are halved. A walk that is
      not bounded in pages has one, and one without bounds the ceiling of them. */
  ghost predicate AsksForCommits(server: Server, w: Walk, pageSize: int, log: seq<Ask>, stop: Stop) {
    var asked, size := AskedIn(server, log), if 0 < pageSize <= 50 then pageSize else 50;
    && log != [] && log[0].first == size
    && (w.pages > 0 ==> asked < (w.pages + 1) * size && (stop == Spent ==> asked >= w.pages * size))
    && (w.pages == 0 ==> asked < 2 * size && (stop == Spent ==> asked >= size))
    && (w.pages < 0 && stop == Spent ==> asked >= 100000 * size)
  }

  /** One that is too large is asked for again at half its size while that is above
      ten, and ends the walk at ten or less. */
  ghost predicate HalvesDownToTen(server: Server, log: seq<Ask>, stop: Stop) {
    forall k :: 0 <= k < |log| && ReplyTo(server, log, k).TooLarge? ==>
      if k < |log| - 1 then log[k].first > 10 && log[k + 1].first == log[k].first / 2 else stop == GaveUp ==> log[k].first <= 10
  }

  lemma {:induction false} HalvesFromHere(server: Server, w: Walk, pageSize: int, log: seq<Ask>)
    requires IsLog(server, w, pageSize, log)
    ensures forall k :: 0 <= k < |log| - 1 && ReplyTo(server, log, k).TooLarge? ==>
      log[k].first > 10 && log[k + 1].first == log[k].first / 2
  {
    if log != [] {
      var before := log[..|log| - 1];
      HalvesFromHere(server, w, pageSize, before);
      assert forall k :: 0 <= k < |before| ==> before[k] == log[k] && ReplyTo(server, before, k) == ReplyTo(server, log, k);
    }
  }

  lemma AsksEnough(server: Server, w: Walk, pageSize: int, log: seq<Ask>, history: seq<Commit>, stop: Stop)
    requires IsLog(server, w, pageSize, log) && StopsFor(server, w, pageSize, log, stop)
    requires ReadsAsFar(server, w, pageSize, history, log, stop)
    ensures AsksForCommits(server, w, pageSize, log, stop)
    ensures HalvesDownToTen(server, log, stop)
  {
    HalvesFromHere(server, w, pageSize, log);
    BudgetIs(w, pageSize);
    BeginsAt(server, w, pageSize, log, stop);
  }

  lemma BeginsAt(server: Server, w: Walk, pageSize: int, log: seq<Ask>, stop: Stop)
    requires IsLog(server, w, pageSize, log) && StopsFor(server, w, pageSize, log, stop) && Budget(w, pageSize) > 0
    ensures log != [] && log[0].first == First(pageSize)
  {
    if log != [] {
      GoesOn(server, w, pageSize, log, 0);
    }
  }

  lemma BudgetIs(w: Walk, pageSize: int)
    ensures var size := if 0 < pageSize <= 50 then pageSize else 50;
      && First(pageSize) == size && Budget(w, pageSize) > 0
      && (w.pages > 0 ==> Budget(w, pageSize) == w.pages * size && Budget(w, pageSize) + size == (w.pages + 1) * size)
      && (w.pages == 0 ==> Budget(w, pageSize) == size)
      && (w.pages < 0 ==> Budget(w, pageSize) == 100000 * size)
  {
    var size := First(pageSize);
    assert (w.pages + 1) * size == w.pages * size + size;
  }

  lemma RenderedWithin(points: seq<Point>, history: seq<Commit>, k: nat)
    requires Rendered(points, history, k)
    ensures points <= PointsOf(history)
  {
    assert history == history[..k] + history[k..];
    PointsAppend(history[..k], history[k..]);
  }

  /** The log of a walk is the only one its server lets it have, and so is why it
      stopped. */
  lemma OneLog(server: Server, w: Walk, pageSize: int, a: seq<Ask>, x: Stop, b: seq<Ask>, y: Stop)
    requires IsLog(server, w, pageSize, a) && StopsFor(server, w, pageSize, a, x)
    requires IsLog(server, w, pageSize, b) && StopsFor(server, w, pageSize, b, y)
    ensures a == b && (x == y || AskedIn(server, a) >= Budget(w, pageSize))
  {
    var k := Min(|a|, |b|);
    SamePrefix(server, w, pageSize, a, b, k);
    assert a[..|a|] == a && b[..|b|] == b;
    if k < |a| {
      GoesOn(server, w, pageSize, a, k);
    }
    if k < |b| {
      GoesOn(server, w, pageSize, b, k);
    }
  }

  /** A query of a log follows from those before it. */
  lemma {:induction false} GoesOn(server: Server, w: Walk, pageSize: int, log: seq<Ask>, k: nat)
    requires IsLog(server, w, pageSize, log) && k < |log|
    ensures AskedIn(server, log[..k]) < Budget(w, pageSize)
    ensures log[k] == Ask(NextSize(server, pageSize, log[..k]), ReadIn(server, log[..k]))
    ensures k > 0 ==> LeadsOn(w, log[k - 1].first, ReplyTo(server, log[..k], k - 1))
  {
    if k < |log| - 1 {
      GoesOn(server, w, pageSize, log[..|log| - 1], k);
      assert log[..|log| - 1][..k] == log[..k];
    }
  }

  lemma {:induction false} SamePrefix(server: Server, w: Walk, pageSize: int, a: seq<Ask>, b: seq<Ask>, k: nat)
    requires IsLog(server, w, pageSize, a) && IsLog(server, w, pageSize, b) && k <= |a| && k <= |b|
    ensures a[..k] == b[..k]
  {
    if k > 0 {
      SamePrefix(server, w, pageSize, a, b, k - 1);
      GoesOn(server, w, pageSize, a, k - 1);
      GoesOn(server, w, pageSize, b, k - 1);
      TakeOneMore(a, k - 1);
      TakeOneMore(b, k - 1);
    }
  }

  /** One query of the walk, and whether its reply ends it: a page that is too
      large is asked for again at half its size, off the same budget. */
  method Query(server: Server, w: Walk, pageSize: int, sent: nat, first: nat, after: nat, left: int, points: seq<Point>,
               ghost k: nat, ghost log: seq<Ask>, ghost history: seq<Commit>)
    returns (more: seq<Point>, size: nat, rest: int, next: nat, ended: Option<Stop>, ghost end: nat, ghost all: seq<Ask>)
    requires Honest(history, server) && Rendered(points, history, k) && sent == |log| && after == k
    requires Walking(server, w, pageSize, log, first, left, k) && left > 0 && first > 0
    ensures |all| == |log| + 1 && Rendered(more, history, end) && end == ReadIn(server, all)
    ensures ended.None? ==> Walking(server, w, pageSize, all, size, rest, end) && next == end && size > 0
    ensures ended.None? ==> rest < left || (rest == left && size < first)
    ensures ended.Some? ==> IsLog(server, w, pageSize, all) && StopsFor(server, w, pageSize, all, ended.value)
  {
    var reply := server(sent, first, after);
    LogGrows(server, w, pageSize, log, first, left);
    all := log + [Ask(first, after)];
    more, size, rest, next, ended, end := points, first, left, after, None, k;
    if reply.TooLarge? && first > SMALLEST_HALVED {
      size := first / 2;
    } else if !reply.Page? {
      ended := Some(if reply.Skippable? then Empty else GaveUp);
    } else {
      rest := left - first;
      var pts;
      pts, next := RenderPage(reply.history, w, points, k, history);
      more, end := points + pts, k + |reply.history.nodes|;
      if next == 0 || (|pts| > 0 && w.Past(pts[|pts| - 1].at)) {
        ended := Some(if next == 0 then Ended else PastBound);
      }
    }
  }

  /** Between two queries: what is next asked and how much of the budget is left. */
  ghost predicate Walking(server: Server, w: Walk, pageSize: int, log: seq<Ask>, first: nat, left: int, k: nat) {
    && IsLog(server, w, pageSize, log)
    && left == Budget(w, pageSize) - AskedIn(server, log)
    && k == ReadIn(server, log) && first == NextSize(server, pageSize, log)
    && (log != [] ==> LeadsOn(w, log[|log| - 1].first, ReplyTo(server, log, |log| - 1)))
  }

  lemma LogGrows(server: Server, w: Walk, pageSize: int, log: seq<Ask>, first: nat, left: int)
    requires Walking(server, w, pageSize, log, first, left, ReadIn(server, log)) && left > 0
    ensures var all, reply := log + [Ask(first, ReadIn(server, log))], server(|log|, first, ReadIn(server, log));
      && IsLog(server, w, pageSize, all) && ReplyTo(server, all, |log|) == reply
      && AskedIn(server, all) == AskedIn(server, log) + (if reply.Page? then first else 0)
      && ReadIn(server, all) == ReadIn(server, log) + (if reply.Page? then |reply.history.nodes| else 0)
      && NextSize(server, pageSize, all) == if reply.TooLarge? then first / 2 else first
  {
    var all := log + [Ask(first, ReadIn(server, log))];
    assert all[..|all| - 1] == log;
  }

  /** How much a finished walk asked for, and how far that read. */
  ghost predicate ReadsAsFar(server: Server, w: Walk, pageSize: int, history: seq<Commit>, log: seq<Ask>, stop: Stop) {
    var asked, k := AskedIn(server, log), ReadIn(server, log);
    && asked < Budget(w, pageSize) + First(pageSize)
    && (stop == Spent ==> asked >= Budget(w, pageSize))
    && (Fills(history, server) ==> k == Min(|history|, asked))
    && (stop == Ended ==> k == |history|)
    && (stop == PastBound ==> StopsAt(w, history, k))
  }

  lemma WalkEnds(server: Server, w: Walk, pageSize: int, log: seq<Ask>, history: seq<Commit>, stop: Stop)
    requires Honest(history, server) && IsLog(server, w, pageSize, log) && StopsFor(server, w, pageSize, log, stop)
    ensures ReadsAsFar(server, w, pageSize, history, log, stop)
  {
    Filled(server, w, pageSize, log, history);
    if log != [] {
      Filled(server, w, pageSize, log[..|log| - 1], history);
      NeverLarger(server, w, pageSize, log);
    }
  }

  lemma {:induction false} NeverLarger(server: Server, w: Walk, pageSize: int, log: seq<Ask>)
    requires IsLog(server, w, pageSize, log) && log != []
    ensures log[|log| - 1].first <= First(pageSize)
  {
    if |log| > 1 {
      NeverLarger(server, w, pageSize, log[..|log| - 1]);
    }
  }

  /** A server that fills its pages has been read for as much as was asked. */
  lemma {:induction false} Filled(server: Server, w: Walk, pageSize: int, log: seq<Ask>, history: seq<Commit>)
    requires Honest(history, server) && IsLog(server, w, pageSize, log)
    ensures ReadIn(server, log) <= |history|
    ensures Fills(history, server) ==> ReadIn(server, log) == Min(|history|, AskedIn(server, log))
  {
    if log != [] {
      Filled(server, w, pageSize, log[..|log| - 1], history);
    }
  }

  /** The rows of a page and the cursor of the next, or the empty one when the
      history ends. */
  method RenderPage(page: Slice<Commit>, w: Walk, ghost points: seq<Point>, ghost k: nat, ghost history: seq<Commit>)
    returns (pts: seq<Point>, next: nat)
    requires Rendered(points, history, k) && HonestSlice(history, k, page)
    ensures Rendered(points + pts, history, k + |page.nodes|)
    ensures var end := k + |page.nodes|;
      && (if next == 0 then end == |history| else next == end > k)
      && (pts != [] ==> end > k && pts[|pts| - 1].at == LastStamp(history[end - 1]))
      && (next == 0 <==> !page.hasNext) && (next != 0 ==> pts != [])
      && (pts != [] <==> page.nodes != [])
      && (pts != [] ==> pts[|pts| - 1].at == LastStamp(page.nodes[|page.nodes| - 1]))
  {
    pts := RowsOf(page.nodes);
    next := if page.hasNext then page.cursor else 0;
    PointsAppend(history[..k], page.nodes);
    assert history[..k] + page.nodes == history[..k + |page.nodes|];
    if page.nodes != [] {
      LastRow(page.nodes);
    }
  }

  /** The rows of some commits, one after the other: each dated at its commit, and
      then its checks. */
  method RowsOf(nodes: seq<Commit>) returns (pts: seq<Point>)
    ensures pts == PointsOf(nodes)
  {
    pts := [];
    var i := 0;
    assert nodes[..0] == [];
    while i < |nodes|
      invariant 0 <= i <= |nodes| && pts == PointsOf(nodes[..i])
    {
      TakeOneMore(nodes, i);
      PointsOne(nodes[..i], nodes[i]);
      pts := pts + [CommitPoint(nodes[i].oid, nodes[i].at)];
      pts := pts + ChecksOf(nodes[i]);
      i := i + 1;
    }
    assert nodes[..i] == nodes;
  }

  /** The page the walk begins with. */
  function First(pageSize: int): nat {
    var first := if pageSize <= 0 || pageSize > MOST_FIRST then MOST_FIRST else pageSize;
    if first > USUAL_FIRST then USUAL_FIRST else first
  }

  // Stopping on the bound. The walk looks at its last row, which is the last
  // check of its last commit when that commit has one.

  function Committed(): Commit -> int {
    (c: Commit) => c.at
  }

  /** A page that ends after k commits stops the walk on its bound. */
  ghost predicate StopsAt(w: Walk, history: seq<Commit>, k: int) {
    0 < k <= |history| && w.Past(LastStamp(history[k - 1]))
  }

  /** Wherever a page could stop the walk, the next commit is out of the bound. */
  ghost predicate StampsFollow(w: Walk, history: seq<Commit>) {
    forall k :: StopsAt(w, history, k) && k < |history| ==> w.Past(history[k].at)
  }

  /** No walk that stops on its bound leaves a commit of the bound unread,
      wherever its pages end, exactly when the stamps follow. */
  lemma StoppingLosesNothingIff(w: Walk, history: seq<Commit>)
    requires NewestFirst(Committed(), history)
    ensures StampsFollow(w, history) <==>
      forall k :: StopsAt(w, history, k) ==> forall i :: k <= i < |history| ==> w.Past(history[i].at)
  {
    if StampsFollow(w, history) {
      forall k, i | StopsAt(w, history, k) && k <= i < |history|
        ensures w.Past(history[i].at)
      {
        assert Committed()(history[k]) >= Committed()(history[i]) > 0;
      }
    }
  }

  /** They follow whenever no check finished before its commit was made. */
  lemma ChecksAfterCommits(w: Walk, history: seq<Commit>)
    requires NewestFirst(Committed(), history)
    requires forall c :: c in history ==> c.at <= LastStamp(c)
    ensures StampsFollow(w, history)
  {
    forall k | StopsAt(w, history, k) && k < |history|
      ensures w.Past(history[k].at)
    {
      assert Committed()(history[k - 1]) >= Committed()(history[k]);
      assert history[k - 1] in history;
    }
  }

  /** So a walk that stopped on its bound, or on the end of the history, has the rows of
      every commit made at the bound or after it. */
  lemma ReadsTheBound(server: Server, w: Walk, pageSize: int, history: seq<Commit>, log: seq<Ask>, stop: Stop, points: seq<Point>)
    requires NewestFirst(Committed(), history)
    requires forall c, j :: c in history && 0 <= j < |c.checks| ==> c.at <= c.checks[j]
    requires ReadsAsFar(server, w, pageSize, history, log, stop) && stop in {Ended, PastBound}
    requires Rendered(points, history, ReadIn(server, log))
    ensures forall c :: c in history && c.at >= w.since ==>
      CommitPoint(c.oid, c.at) in points && forall j :: 0 <= j < |c.checks| ==> CheckPoint(c.oid, c.checks[j]) in points
  {
    var k := ReadIn(server, log);
    ChecksAfterCommits(w, history);
    StoppingLosesNothingIff(w, history);
    forall c | c in history && c.at >= w.since
      ensures CommitPoint(c.oid, c.at) in points && forall j :: 0 <= j < |c.checks| ==> CheckPoint(c.oid, c.checks[j]) in points
    {
      var i :| 0 <= i < |history| && history[i] == c;
      assert !w.Past(history[i].at);
      assert history[..k][i] == c;
      RowsInOrder(history[..k], i);
    }
  }

  /** A server whose pages are all full and all come. */
  ghost predicate Plain(history: seq<Commit>, server: Server) {
    && Honest(history, server) && Fills(history, server)
    && forall n: nat, first: nat, after: nat :: after <= |history| && first > 0 ==>
         && server(n, first, after).Page?
         && (server(n, first, after).history.hasNext <==> after + |server(n, first, after).history.nodes| < |history|)
  }

  /** The first end of a full page, from a place on, that is past the bound by its
      last row, or else the end of the history. */
  ghost function FirstStop(w: Walk, history: seq<Commit>, size: nat, at: nat): (k: nat)
    requires size > 0 && at <= |history|
    ensures at <= k <= |history|
    decreases |history| - at
  {
    var end := Min(at + size, |history|);
    if end == |history| || w.Past(LastStamp(history[end - 1])) then end else FirstStop(w, history, size, end)
  }

  ghost predicate PlainPage(history: seq<Commit>, at: nat, first: nat, reply: Reply) {
    && at <= |history| && reply.Page? && HonestSlice(history, at, reply.history)
    && |reply.history.nodes| == Min(first, |history| - at)
    && (reply.history.hasNext <==> at + |reply.history.nodes| < |history|)
  }

  lemma OnePlainPage(w: Walk, history: seq<Commit>, at: nat, first: nat, reply: Reply)
    requires first > 0 && PlainPage(history, at, first, reply)
    ensures var end := at + |reply.history.nodes|;
      FirstStop(w, history, first, at) == if LeadsOn(w, first, reply) then FirstStop(w, history, first, end) else end
  {
  }

  /** Where a walk stands after a log: on its way to the place, or there. */
  ghost predicate OnTheWay(server: Server, w: Walk, pageSize: int, log: seq<Ask>, history: seq<Commit>) {
    var k := ReadIn(server, log);
    && k <= |history| && NextSize(server, pageSize, log) == First(pageSize)
    && FirstStop(w, history, First(pageSize), 0) ==
       if Going(server, w, log) then FirstStop(w, history, First(pageSize), k) else k
  }

  ghost predicate Going(server: Server, w: Walk, log: seq<Ask>) {
    log == [] || LeadsOn(w, log[|log| - 1].first, ReplyTo(server, log, |log| - 1))
  }

  /** From such a server the walk stops there, unless its budget is spent before. */
  lemma {:induction false} StopsAtTheFirst(server: Server, w: Walk, pageSize: int, log: seq<Ask>, history: seq<Commit>)
    requires Plain(history, server) && IsLog(server, w, pageSize, log)
    ensures OnTheWay(server, w, pageSize, log, history)
  {
    if log != [] {
      var before := log[..|log| - 1];
      StopsAtTheFirst(server, w, pageSize, before, history);
      var reply := server(|log| - 1, First(pageSize), ReadIn(server, before));
      PlainAnswer(server, history, |log| - 1, First(pageSize), ReadIn(server, before));
      OnePlainPage(w, history, ReadIn(server, before), First(pageSize), reply);
      assert ReplyTo(server, log, |log| - 1) == reply;
    }
  }

  lemma PlainAnswer(server: Server, history: seq<Commit>, n: nat, first: nat, at: nat)
    requires Plain(history, server) && at <= |history| && first > 0
    ensures PlainPage(history, at, first, server(n, first, at))
  {
  }

  /** What a walk that stopped at k left unread of the bound, if anything. */
  lemma UnreadIff(w: Walk, history: seq<Commit>, k: nat)
    requires NewestFirst(Committed(), history) && k <= |history|
    ensures (exists i :: k <= i < |history| && !w.Past(history[i].at)) <==> k < |history| && !w.Past(history[k].at)
  {
    forall i | k <= i < |history| && w.Past(history[k].at)
      ensures w.Past(history[i].at)
    {
      assert Committed()(history[k]) >= Committed()(history[i]) > 0;
    }
  }

  /** The place is known before the walk is made, so is whether it costs a commit:
      the walk leaves one of the bound unread if and only if the commit after the
      first page end to stop at is inside it. */
  lemma LosesACommitIff(server: Server, w: Walk, pageSize: int, log: seq<Ask>, history: seq<Commit>, stop: Stop)
    requires Plain(history, server) && NewestFirst(Committed(), history)
    requires IsLog(server, w, pageSize, log) && StopsFor(server, w, pageSize, log, stop) && stop != Spent
    ensures ReadIn(server, log) == FirstStop(w, history, First(pageSize), 0)
    ensures var k := FirstStop(w, history, First(pageSize), 0);
      (exists i :: k <= i < |history| && !w.Past(history[i].at)) <==> k < |history| && !w.Past(history[k].at)
  {
    StopsAtTheFirst(server, w, pageSize, log, history);
    UnreadIff(w, history, FirstStop(w, history, First(pageSize), 0));
  }

  function FullPage(history: seq<Commit>, first: nat, after: nat): Reply {
    if after > |history| || first == 0 then Failed
    else
      var end := Min(after + first, |history|);
      Page(Slice(history[after..end], end < |history|, end))
  }

  function FullPages(history: seq<Commit>): Server {
    (n: nat, first: nat, after: nat) => FullPage(history, first, after)
  }

  lemma FullPagesArePlain(history: seq<Commit>)
    ensures Plain(history, FullPages(history))
  {
    var server := FullPages(history);
    forall n: nat, first: nat, after: nat
      ensures server(n, first, after).Page? ==>
        && after <= |history| && first > 0 && PlainPage(history, after, first, server(n, first, after))
    {
      assert server(n, first, after) == FullPage(history, first, after);
    }
  }

  /** One commit to a page, and a check dated before the bound: the walk stops with
      the next commit, inside the bound, unread. */
  method AnEarlyCheckStopsTheWalk() returns (points: seq<Point>, history: seq<Commit>, w: Walk)
    ensures NewestFirst(Committed(), history) && |history| == 2 && !w.Past(history[1].at)
    ensures points == PointsOf(history[..1])
  {
    w, history := Walk(-1, 10), [Commit(1, 30, [5]), Commit(2, 20, [])];
    ghost var k, log, stop;
    var failed;
    assert NewestFirst(Committed(), history);
    FullPagesArePlain(history);
    points, failed, k, log, stop := Collect(FullPages(history), 1, w, history);
    StopsAtTheFirst(FullPages(history), w, 1, log, history);
    assert FirstStop(w, history, 1, 0) == 1 && FirstStop(w, history, 1, 2) == 2;
    assert stop == Spent ==> k == 2;
    assert k == 1;
  }

  // Skipping the walk.

  /** The history GitHub serves from a moment on: it stops at the first commit
      made before it. */
  function Since(history: seq<Commit>, since: int): seq<Commit> {
    if history == [] || history[0].at < since then [] else [history[0]] + Since(history[1..], since)
  }

  /** When the newest commit was made, and the zero time for an empty branch. */
  function Head(history: seq<Commit>): int {
    if history == [] then 0 else history[0].at
  }

  predicate CommitsSince(head: int, since: int) {
    !(head < since)
  }

  /** A head before the moment is exactly an empty history from it on, and then
      the walk has nothing to render. */
  lemma SkippingLosesNothing(history: seq<Commit>, since: int, k: nat)
    requires since > 0 && k <= |Since(history, since)|
    ensures CommitsSince(Head(history), since) <==> Since(history, since) != []
    ensures !CommitsSince(Head(history), since) ==> PointsOf(Since(history, since)[..k]) == []
  {
  }
}

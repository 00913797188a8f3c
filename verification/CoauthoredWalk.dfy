/**
 * Counting the co-authored pull requests of a range of days: coauthoredWalk of
 * internal/collect/achievement_progress.go.
 *
 * A pull request is known by an id. The server is a pair of functions of the
 * number of queries already sent, so a proof for every server is a proof for
 * every run of replies: pages of any length, refusals at any point, commit
 * pages that never come. What an answer that does arrive must look like is
 * the hypothesis Honest.
 */
module CoauthoredWalks {
  import opened Lists

  type Id = nat

  const SEARCH_CAP: nat := 1000
  const FOLLOW_BATCH: nat := 10
  const SMALLEST_HALVED: nat := 10
  const SECONDS_A_DAY: int := 86400

  /** A merged pull request: when it merged, whether its merge commit carries
      the trailer, and whether each of its commits does. */
  datatype Pull = Pull(mergedAt: int, mergeTrailer: bool, commits: seq<bool>) {
    predicate Coauthored() {
      mergeTrailer || true in commits
    }

    function Day(): int {
      mergedAt / SECONDS_A_DAY
    }
  }

  /** The account as the server sees it, unchanged for the length of one walk,
      and the order a search lists each range of days in. */
  datatype World = World(pulls: map<Id, Pull>, listing: (int, int) -> seq<Id>)

  /** The pull requests merged from one day to another, both included. */
  function InRange(pulls: map<Id, Pull>, from: int, to: int): set<Id> {
    set id | id in pulls && from <= pulls[id].Day() <= to
  }

  function Coauthored(pulls: map<Id, Pull>, ids: set<Id>): set<Id> {
    set id | id in ids && id in pulls && pulls[id].Coauthored()
  }

  /** The ones merged before the start of a day. */
  function Settled(pulls: map<Id, Pull>, ids: set<Id>, today: int): set<Id> {
    set id | id in ids && id in pulls && MergedBefore(pulls[id], today)
  }

  /** Some day of the range holds more than one search will page through. */
  ghost predicate OverfullDay(pulls: map<Id, Pull>, from: int, to: int) {
    exists d :: from <= d <= to && |InRange(pulls, d, d)| > SEARCH_CAP
  }

  /** Every day of the range was read: the whole of one that a search can page
      through, and as much of any other as a search shows. */
  ghost predicate EachDayRead(pulls: map<Id, Pull>, from: int, to: int, read: set<Id>) {
    forall d :: from <= d <= to ==> DayRead(pulls, d, read)
  }

  ghost predicate DayRead(pulls: map<Id, Pull>, d: int, read: set<Id>) {
    var day := InRange(pulls, d, d);
    if |day| <= SEARCH_CAP then day <= read else |day * read| >= SEARCH_CAP
  }

  /** How many of the pull requests of a range no search will show. */
  function Excess(pulls: map<Id, Pull>, from: int, to: int): nat
    decreases if from <= to then to - from + 1 else 0
  {
    if to < from then 0
    else
      var merged := |InRange(pulls, to, to)|;
      Excess(pulls, from, to - 1) + if merged > SEARCH_CAP then merged - SEARCH_CAP else 0
  }

  // Answers. A cursor of 0 is the empty cursor.

  datatype CommitPage = CommitPage(totalCount: nat, nodes: seq<bool>, hasNext: bool, cursor: nat)

  datatype PullNode = PullNode(id: Option<Id>, mergedAt: int, mergeTrailer: bool, commits: CommitPage)

  datatype Failure = TooLarge | Fatal

  datatype SearchReply =
    | SearchPage(issueCount: nat, nodes: seq<PullNode>, hasNext: bool, cursor: nat)
    | SearchFailed(failure: Failure)

  /** A pull request on the worklist: no trailer so far, more commits from after on. */
  datatype UnreadPull = UnreadPull(id: Id, after: nat, settled: bool)

  datatype CommitsReply =
    | CommitPages(pages: seq<Option<CommitPage>>)
    | CommitsFailed(cancelled: bool)

  datatype Server = Server(
    search: (nat, int, int, nat, nat) -> SearchReply,
    commits: (nat, seq<UnreadPull>) -> CommitsReply)

  // What an answer must look like.

  /** A page of commits is a stretch of the pull request's own, and a next
      page begins where it ends, unless its cursor is missing. */
  ghost predicate HonestChunk(page: CommitPage, pull: Pull, after: nat) {
    && after + |page.nodes| <= |pull.commits|
    && page.nodes == pull.commits[after..after + |page.nodes|]
    && (page.hasNext ==> page.nodes != [] && (page.cursor == 0 || page.cursor == after + |page.nodes|))
  }

  ghost predicate HonestNode(node: PullNode, id: Id, pull: Pull) {
    && (node.id == None || node.id == Some(id))
    && node.mergedAt == pull.mergedAt
    && node.mergeTrailer == pull.mergeTrailer
    && node.commits.totalCount == |pull.commits|
    && HonestChunk(node.commits, pull, 0)
  }

  ghost predicate NodesFor(pulls: map<Id, Pull>, nodes: seq<PullNode>, ids: seq<Id>) {
    && |nodes| == |ids|
    && forall k :: 0 <= k < |nodes| ==> ids[k] in pulls && HonestNode(nodes[k], ids[k], pulls[ids[k]])
  }

  /** A page of a search is a stretch of the listing of its range, with the
      listing's length beside it. A next page is promised only after a page
      that held something, and denied only at the end or at the cap. */
  ghost predicate HonestSearch(world: World, from: int, to: int, after: nat, reply: SearchReply) {
    reply.SearchPage? ==>
      var list := world.listing(from, to);
      && reply.issueCount == |list|
      && after + |reply.nodes| <= |list|
      && NodesFor(world.pulls, reply.nodes, list[after..after + |reply.nodes|])
      && (reply.hasNext ==> reply.nodes != [] && reply.cursor == after + |reply.nodes|)
      && (!reply.hasNext ==> after + |reply.nodes| >= Min(|list|, SEARCH_CAP))
  }

  ghost predicate PageFor(u: UnreadPull, page: Option<CommitPage>, pulls: map<Id, Pull>) {
    page.Some? && u.id in pulls && u.after <= |pulls[u.id].commits| ==>
      HonestRest(page.value, pulls[u.id], u.after)
  }

  ghost predicate HonestPages(pulls: map<Id, Pull>, batch: seq<UnreadPull>, reply: CommitsReply) {
    reply.CommitPages? ==>
      |reply.pages| == |batch| && forall k :: 0 <= k < |batch| ==> PageFor(batch[k], reply.pages[k], pulls)
  }

  /** A later page of commits, which says there is no next page only at the end. */
  ghost predicate HonestRest(page: CommitPage, pull: Pull, after: nat) {
    && HonestChunk(page, pull, after)
    && (!page.hasNext ==> after + |page.nodes| == |pull.commits|)
  }

  ghost predicate Listed(world: World) {
    forall from, to ::
      && NoDuplicates(world.listing(from, to))
      && Elems(world.listing(from, to)) == InRange(world.pulls, from, to)
  }

  ghost predicate Honest(world: World, server: Server) {
    && Listed(world)
    && (forall n: nat, from: int, to: int, first: nat, after: nat :: after <= |world.listing(from, to)| ==>
          HonestSearch(world, from, to, after, server.search(n, from, to, first, after)))
    && (forall n: nat, batch :: HonestPages(world.pulls, batch, server.commits(n, batch)))
  }

  // What an answer may hold back. A pull request is held back when a page does
  // not say how to read it on or its commits do not come, and blind when a page of
  // its commits promises more and has no cursor to them.

  datatype Excuses = Excuses(held: set<Id>, blind: set<Id>)

  /** A pull request with commits the page does not carry says how to read on. */
  ghost predicate SaysHow(node: PullNode) {
    |node.commits.nodes| < node.commits.totalCount ==>
      node.id.Some? && node.commits.hasNext && node.commits.cursor != 0
  }

  ghost predicate AllSayHow(nodes: seq<PullNode>, ids: seq<Id>, ex: Excuses) {
    |nodes| == |ids| && forall k :: 0 <= k < |nodes| ==> SaysHow(nodes[k]) || ids[k] in ex.held
  }

  ghost predicate PageExcused(pulls: map<Id, Pull>, u: UnreadPull, page: Option<CommitPage>, ex: Excuses) {
    u.id in pulls ==> (page.None? ==> u.id in ex.held) && (NoCursor(page) ==> u.id in ex.blind)
  }

  /** A page that promises more commits and does not say where they begin. */
  predicate NoCursor(page: Option<CommitPage>) {
    page.Some? && page.value.hasNext && page.value.cursor == 0
  }

  /** The pages an answer about a batch comes to: none of them if it failed. */
  function PagesFrom(batch: seq<UnreadPull>, reply: CommitsReply): seq<Option<CommitPage>> {
    if reply.CommitPages? then reply.pages else seq(|batch|, _ => None)
  }

  ghost predicate PagesExcused(pulls: map<Id, Pull>, batch: seq<UnreadPull>, pages: seq<Option<CommitPage>>, ex: Excuses) {
    |pages| == |batch| ==> forall k :: 0 <= k < |batch| ==> PageExcused(pulls, batch[k], pages[k], ex)
  }

  ghost predicate SearchExcused(world: World, from: int, to: int, after: nat, reply: SearchReply, ex: Excuses) {
    reply.SearchPage? && after + |reply.nodes| <= |world.listing(from, to)| ==>
      AllSayHow(reply.nodes, world.listing(from, to)[after..after + |reply.nodes|], ex)
  }

  /** The server holds back no more than this, though any query may still fail. */
  ghost predicate Excused(world: World, server: Server, ex: Excuses) {
    && (forall n: nat, from: int, to: int, first: nat, after: nat ::
          SearchExcused(world, from, to, after, server.search(n, from, to, first, after), ex))
    && (forall n: nat, batch :: server.commits(n, batch) != CommitsFailed(true) ==>
          PagesExcused(world.pulls, batch, PagesFrom(batch, server.commits(n, batch)), ex))
  }

  /** A page of a search, a page that did not come, and a page without a cursor. */
  ghost predicate HeldBySearch(world: World, server: Server, id: Id, n: nat, from: int, to: int, first: nat, after: nat, k: nat) {
    var reply, list := server.search(n, from, to, first, after), world.listing(from, to);
    && reply.SearchPage? && after + |reply.nodes| <= |list|
    && k < |reply.nodes| && list[after + k] == id && !SaysHow(reply.nodes[k])
  }

  ghost predicate HeldByCommits(server: Server, id: Id, n: nat, batch: seq<UnreadPull>, k: nat) {
    var reply := server.commits(n, batch);
    && reply != CommitsFailed(true) && k < |batch| == |PagesFrom(batch, reply)|
    && batch[k].id == id && PagesFrom(batch, reply)[k].None?
  }

  ghost predicate BlindAt(server: Server, id: Id, n: nat, batch: seq<UnreadPull>, k: nat) {
    var reply := server.commits(n, batch);
    && reply != CommitsFailed(true) && k < |batch| == |PagesFrom(batch, reply)|
    && batch[k].id == id && NoCursor(PagesFrom(batch, reply)[k])
  }

  /** What a server holds back: for each of it there is a reply that does. */
  ghost function HeldBack(world: World, server: Server): Excuses {
    Excuses(
      set id | id in world.pulls &&
        ((exists n: nat, from, to, first: nat, after: nat, k: nat :: HeldBySearch(world, server, id, n, from, to, first, after, k))
         || exists n: nat, batch, k: nat :: HeldByCommits(server, id, n, batch, k)),
      set id | id in world.pulls && exists n: nat, batch, k: nat :: BlindAt(server, id, n, batch, k))
  }

  /** That is the least it may be taken to hold back. */
  lemma HeldBackIsLeast(world: World, server: Server)
    requires Honest(world, server)
    ensures Excused(world, server, HeldBack(world, server))
    ensures forall ex :: Excused(world, server, ex) ==>
              HeldBack(world, server).held <= ex.held && HeldBack(world, server).blind <= ex.blind
  {
    var least := HeldBack(world, server);
    forall n: nat, from: int, to: int, first: nat, after: nat
      ensures SearchExcused(world, from, to, after, server.search(n, from, to, first, after), least)
    {
      SearchHoldsBack(world, server, n, from, to, first, after);
    }
    forall n: nat, batch | server.commits(n, batch) != CommitsFailed(true)
      ensures PagesExcused(world.pulls, batch, PagesFrom(batch, server.commits(n, batch)), least)
    {
      PagesHoldBack(world, server, n, batch);
    }
    forall ex | Excused(world, server, ex)
      ensures least.held <= ex.held && least.blind <= ex.blind
    {
      NoLessHeldBack(world, server, ex);
    }
  }

  lemma SearchHoldsBack(world: World, server: Server, n: nat, from: int, to: int, first: nat, after: nat)
    requires Listed(world)
    ensures SearchExcused(world, from, to, after, server.search(n, from, to, first, after), HeldBack(world, server))
  {
    var reply, list := server.search(n, from, to, first, after), world.listing(from, to);
    if reply.SearchPage? && after + |reply.nodes| <= |list| {
      forall k | 0 <= k < |reply.nodes|
        ensures SaysHow(reply.nodes[k]) || list[after..after + |reply.nodes|][k] in HeldBack(world, server).held
      {
        assert list[after + k] in Elems(list) && Elems(list) == InRange(world.pulls, from, to);
        assert SaysHow(reply.nodes[k]) || HeldBySearch(world, server, list[after + k], n, from, to, first, after, k);
      }
    }
  }

  lemma PagesHoldBack(world: World, server: Server, n: nat, batch: seq<UnreadPull>)
    requires server.commits(n, batch) != CommitsFailed(true)
    ensures PagesExcused(world.pulls, batch, PagesFrom(batch, server.commits(n, batch)), HeldBack(world, server))
  {
    var pages := PagesFrom(batch, server.commits(n, batch));
    if |pages| == |batch| {
      forall k | 0 <= k < |batch|
        ensures PageExcused(world.pulls, batch[k], pages[k], HeldBack(world, server))
      {
        assert pages[k].None? ==> HeldByCommits(server, batch[k].id, n, batch, k);
        assert NoCursor(pages[k]) ==> BlindAt(server, batch[k].id, n, batch, k);
      }
    }
  }

  lemma NoLessHeldBack(world: World, server: Server, ex: Excuses)
    requires Excused(world, server, ex)
    ensures HeldBack(world, server).held <= ex.held && HeldBack(world, server).blind <= ex.blind
  {
    forall id, n: nat, from, to, first: nat, after: nat, k: nat | HeldBySearch(world, server, id, n, from, to, first, after, k)
      ensures id in ex.held
    {
      assert SearchExcused(world, from, to, after, server.search(n, from, to, first, after), ex);
    }
    forall id, n: nat, batch, k: nat | id in world.pulls && HeldByCommits(server, id, n, batch, k)
      ensures id in ex.held
    {
      assert PageExcused(world.pulls, batch[k], PagesFrom(batch, server.commits(n, batch))[k], ex);
    }
    forall id, n: nat, batch, k: nat | id in world.pulls && BlindAt(server, id, n, batch, k)
      ensures id in ex.blind
    {
      assert PageExcused(world.pulls, batch[k], PagesFrom(batch, server.commits(n, batch))[k], ex);
    }
  }

  // The worklist.

  ghost function IdsOf(unread: seq<UnreadPull>): set<Id> {
    set u | u in unread :: u.id
  }

  /** What an entry of the worklist claims: its pull request has no trailer in
      anything before its cursor. */
  ghost predicate Readable(pulls: map<Id, Pull>, today: int, u: UnreadPull) {
    && u.id in pulls
    && 0 < u.after <= |pulls[u.id].commits|
    && !pulls[u.id].mergeTrailer
    && true !in pulls[u.id].commits[..u.after]
    && u.settled == MergedBefore(pulls[u.id], today)
  }

  ghost predicate Worklist(pulls: map<Id, Pull>, today: int, unread: seq<UnreadPull>) {
    && (forall u :: u in unread ==> Readable(pulls, today, u))
    && (forall i, j :: 0 <= i < j < |unread| ==> unread[i].id != unread[j].id)
  }

  /** Commits still to read over the worklist, and one for each entry. */
  ghost function Weight(pulls: map<Id, Pull>, unread: seq<UnreadPull>): nat {
    if unread == [] then 0
    else
      var u := unread[0];
      (if u.id in pulls && u.after <= |pulls[u.id].commits| then |pulls[u.id].commits| - u.after else 0)
      + 1 + Weight(pulls, unread[1..])
  }

  lemma {:induction false} WeightAppend(pulls: map<Id, Pull>, a: seq<UnreadPull>, b: seq<UnreadPull>)
    ensures Weight(pulls, a + b) == Weight(pulls, a) + Weight(pulls, b)
  {
    if a == [] {
      assert a + b == b;
    } else {
      assert (a + b)[1..] == a[1..] + b;
      WeightAppend(pulls, a[1..], b);
    }
  }

  lemma IdsAppend(a: seq<UnreadPull>, b: seq<UnreadPull>)
    ensures IdsOf(a + b) == IdsOf(a) + IdsOf(b)
  {
    forall id | id in IdsOf(a) + IdsOf(b)
      ensures id in IdsOf(a + b)
    {
      if id in IdsOf(a) {
        var u :| u in a && u.id == id;
        assert u in a + b;
      } else {
        var u :| u in b && u.id == id;
        assert u in a + b;
      }
    }
  }

  // What the walk makes of each pull request it reads.

  /** A trailer found, a floor, no trailer in any commit, or taken for read on a page
      that promised more commits and had no cursor to them. */
  datatype Verdict = Found | Floored | Clean | Lost

  ghost function Having(verdicts: map<Id, Verdict>, v: Verdict): set<Id> {
    set id | id in verdicts && verdicts[id] == v
  }

  ghost predicate Sound(pulls: map<Id, Pull>, verdicts: map<Id, Verdict>, ex: Excuses) {
    forall id :: id in verdicts ==> id in pulls && Justified(verdicts[id], pulls[id], id, ex)
  }

  ghost predicate Justified(v: Verdict, pull: Pull, id: Id, ex: Excuses) {
    match v
    case Found => pull.Coauthored()
    case Clean => !pull.Coauthored()
    case Floored => id in ex.held
    case Lost => id in ex.blind
  }

  ghost predicate Extends(before: map<Id, Verdict>, verdicts: map<Id, Verdict>) {
    forall id :: id in before ==> id in verdicts && verdicts[id] == before[id]
  }

  datatype Counters = Counters(pulls: nat, settled: nat, truncated: nat, settledTruncated: nat)

  ghost function CountersOf(pulls: map<Id, Pull>, verdicts: map<Id, Verdict>, today: int): Counters {
    CountersOfSets(pulls, Having(verdicts, Found), Having(verdicts, Floored), today)
  }

  ghost function CountersOfSets(pulls: map<Id, Pull>, found: set<Id>, floored: set<Id>, today: int): Counters {
    Counters(|found|, |Settled(pulls, found, today)|, |floored|, |Settled(pulls, floored, today)|)
  }

  ghost function Bump(c: Counters, v: Verdict, isSettled: bool): Counters {
    match v
    case Found => c.(pulls := c.pulls + 1, settled := c.settled + if isSettled then 1 else 0)
    case Floored => c.(truncated := c.truncated + 1,
                       settledTruncated := c.settledTruncated + if isSettled then 1 else 0)
    case _ => c
  }

  predicate MergedBefore(pull: Pull, today: int) {
    pull.mergedAt < today * SECONDS_A_DAY
  }

  /** A pull request not yet read moves the counters by its own verdict and
      nothing else. */
  lemma OneMoreVerdict(pulls: map<Id, Pull>, verdicts: map<Id, Verdict>, today: int, id: Id, v: Verdict)
    requires id in pulls && id !in verdicts
    ensures CountersOf(pulls, verdicts[id := v], today) ==
            Bump(CountersOf(pulls, verdicts, today), v, MergedBefore(pulls[id], today))
  {
    HavingOneMore(verdicts, id, v, Found);
    HavingOneMore(verdicts, id, v, Floored);
    OneMoreCounted(pulls, Having(verdicts, Found), Having(verdicts, Floored), today, id, v);
  }

  lemma OneMoreCounted(pulls: map<Id, Pull>, found: set<Id>, floored: set<Id>, today: int, id: Id, v: Verdict)
    requires id in pulls && id !in found && id !in floored
    ensures CountersOfSets(pulls, if v == Found then found + {id} else found,
                           if v == Floored then floored + {id} else floored, today)
         == Bump(CountersOfSets(pulls, found, floored, today), v, MergedBefore(pulls[id], today))
  {
    if v == Found {
      SettledOneMore(pulls, found, today, id);
    } else if v == Floored {
      SettledOneMore(pulls, floored, today, id);
    }
  }

  lemma HavingOneMore(verdicts: map<Id, Verdict>, id: Id, v: Verdict, w: Verdict)
    requires id !in verdicts
    ensures id !in Having(verdicts, w)
    ensures Having(verdicts[id := v], w) == if v == w then Having(verdicts, w) + {id} else Having(verdicts, w)
  {
  }

  lemma SettledOneMore(pulls: map<Id, Pull>, ids: set<Id>, today: int, id: Id)
    requires id in pulls && id !in ids
    ensures id !in Settled(pulls, ids, today)
    ensures Settled(pulls, ids + {id}, today) ==
            if MergedBefore(pulls[id], today) then Settled(pulls, ids, today) + {id}
            else Settled(pulls, ids, today)
  {
  }

  /** The verdicts of a part of the walk over the days from..to: nothing outside the
      range, and once it is done as much of each of its days as a search shows. */
  ghost predicate Covers(before: map<Id, Verdict>, verdicts: map<Id, Verdict>, wasCapped: bool, capped: bool, done: bool,
                         pulls: map<Id, Pull>, from: int, to: int) {
    && Extends(before, verdicts)
    && before.Keys <= verdicts.Keys <= before.Keys + InRange(pulls, from, to)
    && (done ==> capped == (wasCapped || OverfullDay(pulls, from, to)))
    && (done ==> EachDayRead(pulls, from, to, verdicts.Keys))
  }

  lemma CoversBoth(a: map<Id, Verdict>, b: map<Id, Verdict>, c: map<Id, Verdict>, x: bool, y: bool, z: bool, done: bool,
                   pulls: map<Id, Pull>, from: int, mid: int, to: int)
    requires from <= mid < to && Covers(a, b, x, y, true, pulls, from, mid) && Covers(b, c, y, z, done, pulls, mid + 1, to)
    ensures Covers(a, c, x, z, done, pulls, from, to)
  {
    SplitRange(pulls, from, mid, to);
    if done {
      DaysOfBoth(pulls, from, mid, to, b.Keys, c.Keys);
    }
  }

  lemma CoversEarly(a: map<Id, Verdict>, b: map<Id, Verdict>, x: bool, y: bool, pulls: map<Id, Pull>, from: int, mid: int, to: int)
    requires from <= mid < to && Covers(a, b, x, y, false, pulls, from, mid)
    ensures Covers(a, b, x, y, false, pulls, from, to)
  {
    SplitRange(pulls, from, mid, to);
  }

  /** A query of the search. */
  datatype SearchAsk = SearchAsk(from: int, to: int, first: nat, after: nat)

  /** How a walk ends, and the query it could not go on after. */
  datatype Outcome =
    | Done
    | Failed(failure: Failure, query: nat, ask: SearchAsk)
    | Cancelled(query: nat, batch: seq<UnreadPull>)

  /** A walk that does not end ends on one of its own queries: a search that failed,
      or that the gateway gave up on at no more than ten, or a cancelled read of
      commits. */
  ghost predicate Caused(server: Server, outcome: Outcome, lo: nat, hi: nat, from: int, to: int) {
    match outcome
    case Done => true
    case Failed(failure, n, a) =>
      && lo <= n < hi && from <= a.from && a.to <= to
      && server.search(n, a.from, a.to, a.first, a.after) == SearchFailed(failure)
      && (failure == TooLarge ==> a.first <= SMALLEST_HALVED)
    case Cancelled(n, batch) => lo <= n < hi && 0 < |batch| <= 10 && server.commits(n, batch) == CommitsFailed(true)
  }

  class CoauthoredWalk {
    /** The day the pass is made on. */
    const today: int
    var pulls: nat
    var settled: nat
    var queries: nat
    var capped: bool
    var truncated: nat
    var settledTruncated: nat

    /** What the counters stand for: one verdict for each pull request read. */
    ghost var verdicts: map<Id, Verdict>
    /** What the server it reads from may hold back. */
    ghost const ex: Excuses

    constructor (today: int, ghost ex: Excuses)
      ensures this.today == today && this.ex == ex && queries == 0 && !capped && verdicts == map[]
      ensures pulls == 0 && truncated == 0 && forall ps :: Consistent(ps)
    {
      this.today, this.ex := today, ex;
      pulls, settled, queries, capped, truncated, settledTruncated := 0, 0, 0, false, 0, 0;
      verdicts := map[];
      new;
      forall ps: map<Id, Pull>
        ensures CountersOf(ps, map[], today) == Counters(0, 0, 0, 0)
      {
        assert Having(map[], Found) == {} && Having(map[], Floored) == {};
        assert Settled(ps, {}, today) == {};
      }
    }

    ghost predicate Consistent(ps: map<Id, Pull>)
      reads this`pulls, this`settled, this`truncated, this`settledTruncated, this`verdicts
    {
      && Sound(ps, verdicts, ex)
      && Counters(pulls, settled, truncated, settledTruncated) == CountersOf(ps, verdicts, today)
    }

    ghost predicate New(ps: map<Id, Pull>, id: Id)
      reads this`verdicts
    {
      id in ps && id !in verdicts
    }

    method FoundOne(isSettled: bool, ghost id: Id, ghost ps: map<Id, Pull>)
      requires Consistent(ps) && New(ps, id)
      requires ps[id].Coauthored() && isSettled == MergedBefore(ps[id], today)
      modifies this`pulls, this`settled, this`verdicts
      ensures Consistent(ps) && verdicts == old(verdicts)[id := Found]
    {
      OneMoreVerdict(ps, verdicts, today, id, Found);
      pulls := pulls + 1;
      if isSettled {
        settled := settled + 1;
      }
      verdicts := verdicts[id := Found];
    }

    method FloorOne(isSettled: bool, ghost id: Id, ghost ps: map<Id, Pull>)
      requires Consistent(ps) && New(ps, id)
      requires isSettled == MergedBefore(ps[id], today) && id in ex.held
      modifies this`truncated, this`settledTruncated, this`verdicts
      ensures Consistent(ps) && verdicts == old(verdicts)[id := Floored]
    {
      OneMoreVerdict(ps, verdicts, today, id, Floored);
      truncated := truncated + 1;
      if isSettled {
        settledTruncated := settledTruncated + 1;
      }
      verdicts := verdicts[id := Floored];
    }

    /** A pull request read to the end moves no counter. */
    ghost method PassOver(id: Id, ps: map<Id, Pull>)
      requires Consistent(ps) && New(ps, id) && !ps[id].Coauthored()
      modifies this`verdicts
      ensures Consistent(ps) && verdicts == old(verdicts)[id := Clean]
    {
      OneMoreVerdict(ps, verdicts, today, id, Clean);
      verdicts := verdicts[id := Clean];
    }

    /** Nor does one whose next page has no cursor to it. */
    ghost method Lose(id: Id, ps: map<Id, Pull>)
      requires Consistent(ps) && New(ps, id) && id in ex.blind
      modifies this`verdicts
      ensures Consistent(ps) && verdicts == old(verdicts)[id := Lost]
    {
      OneMoreVerdict(ps, verdicts, today, id, Lost);
      verdicts := verdicts[id := Lost];
    }

    /** One pull request of a search page: counted, left as a floor, known to be
        clean, or handed back, unjudged, to be read on. */
    method CountOne(node: PullNode, ghost id: Id, ghost ps: map<Id, Pull>) returns (unread: Option<UnreadPull>)
      requires Consistent(ps) && New(ps, id) && HonestNode(node, id, ps[id]) && (SaysHow(node) || id in ex.held)
      modifies this`pulls, this`settled, this`truncated, this`settledTruncated, this`verdicts
      ensures Consistent(ps)
      ensures unread.None? ==> verdicts == old(verdicts)[id := JudgedBy(node)] && (JudgedBy(node) == Floored ==> !SaysHow(node))
      ensures unread.Some? ==> verdicts == old(verdicts) && JudgedBy(node) == Floored && SaysHow(node)
      ensures unread.Some? ==> unread.value.id == id && Readable(ps, today, unread.value)
    {
      var isSettled := node.mergedAt < today * SECONDS_A_DAY;
      if node.mergeTrailer || true in node.commits.nodes {
        FoundOne(isSettled, id, ps);
        return None;
      } else if node.commits.totalCount <= |node.commits.nodes| {
        assert node.commits.nodes == ps[id].commits;
        PassOver(id, ps);
        return None;
      } else if node.id.Some? && node.commits.hasNext && node.commits.cursor != 0 {
        return Some(UnreadPull(node.id.value, node.commits.cursor, isSettled));
      } else {
        FloorOne(isSettled, id, ps);
        return None;
      }
    }

    /** What stands of a part of the walk that began with the verdicts of before,
        was handed ids, and still has a worklist to read: those verdicts, and one
        for each id that is not on the worklist. */
    ghost predicate Took(before: map<Id, Verdict>, ids: set<Id>, unread: seq<UnreadPull>, ps: map<Id, Pull>)
      reads this`pulls, this`settled, this`truncated, this`settledTruncated, this`verdicts
    {
      && Consistent(ps)
      && Worklist(ps, today, unread) && Extends(before, verdicts)
      && before.Keys <= verdicts.Keys && IdsOf(unread) !! verdicts.Keys
      && verdicts.Keys + IdsOf(unread) == before.Keys + ids
    }

    method CountNext(node: PullNode, unread: seq<UnreadPull>, ghost before: map<Id, Verdict>, ghost ids: set<Id>,
                     ghost id: Id, ghost ps: map<Id, Pull>)
      returns (more: seq<UnreadPull>)
      requires Took(before, ids, unread, ps)
      requires id in ps && id !in before.Keys + ids && HonestNode(node, id, ps[id]) && (SaysHow(node) || id in ex.held)
      modifies this`pulls, this`settled, this`truncated, this`settledTruncated, this`verdicts
      ensures Took(before, ids + {id}, more, ps)
    {
      SplitOneMore(verdicts.Keys, IdsOf(unread), before.Keys, ids, id);
      var next := CountOne(node, id, ps);
      if next.Some? {
        WorklistAppend(ps, today, unread, next.value);
        more := unread + [next.value];
      } else {
        more := unread;
      }
    }

    /** Reads a page of the search and hands back the pull requests to read on. */
    method Count(nodes: seq<PullNode>, ghost ids: seq<Id>, ghost ps: map<Id, Pull>)
      returns (unread: seq<UnreadPull>)
      requires Consistent(ps)
      requires NoDuplicates(ids) && Elems(ids) !! verdicts.Keys && NodesFor(ps, nodes, ids) && AllSayHow(nodes, ids, ex)
      modifies this`pulls, this`settled, this`truncated, this`settledTruncated, this`verdicts
      ensures Took(old(verdicts), Elems(ids), unread, ps)
    {
      unread := [];
      ghost var before := verdicts;
      var i := 0;
      while i < |nodes|
        invariant 0 <= i <= |nodes|
        invariant Took(before, Elems(ids[..i]), unread, ps)
      {
        ElemsTakeOne(ids, i);
        assert ids[i] in Elems(ids);
        unread := CountNext(nodes[i], unread, before, Elems(ids[..i]), ids[i], ps);
        i := i + 1;
      }
      assert ids[..i] == ids;
    }

    /** The next page of commits of one pull request: none came, a trailer is in
        it, there is more to read, or the commits have run out. */
    method FollowOne(u: UnreadPull, page: Option<CommitPage>, ghost ps: map<Id, Pull>)
      returns (again: Option<UnreadPull>)
      requires Consistent(ps) && New(ps, u.id) && Readable(ps, today, u)
      requires page.Some? ==> HonestRest(page.value, ps[u.id], u.after)
      requires PageExcused(ps, u, page, ex)
      modifies this`pulls, this`settled, this`truncated, this`settledTruncated, this`verdicts
      ensures Consistent(ps)
      ensures again.Some? ==> verdicts == old(verdicts)
      ensures again.Some? ==> again.value.id == u.id && u.after < again.value.after && Readable(ps, today, again.value)
      ensures again.Some? <==> page.Some? && true !in page.value.nodes && page.value.hasNext && page.value.cursor != 0
      ensures again.None? ==> verdicts == old(verdicts)[u.id :=
        if page.None? then Floored
        else if true in page.value.nodes then Found
        else if NoCursor(page) then Lost
        else Clean]
    {
      again := None;
      if page.None? {
        FloorOne(u.settled, u.id, ps);
      } else if true in page.value.nodes {
        FoundOne(u.settled, u.id, ps);
      } else if page.value.hasNext && page.value.cursor != 0 {
        NoTrailerYet(page.value, ps[u.id], u.after);
        again := Some(UnreadPull(u.id, page.value.cursor, u.settled));
      } else if page.value.hasNext {
        Lose(u.id, ps);
      } else {
        NoTrailerYet(page.value, ps[u.id], u.after);
        PassOver(u.id, ps);
      }
    }

    method FollowNext(u: UnreadPull, page: Option<CommitPage>, ghost rest: seq<UnreadPull>,
                      ghost before: map<Id, Verdict>, ghost ids: set<Id>, ghost ps: map<Id, Pull>)
      returns (again: seq<UnreadPull>)
      requires Took(before, ids, [u] + rest, ps)
      requires PageFor(u, page, ps) && PageExcused(ps, u, page, ex)
      modifies this`pulls, this`settled, this`truncated, this`settledTruncated, this`verdicts
      ensures Took(before, ids, rest + again, ps)
      ensures Weight(ps, rest + again) < Weight(ps, [u] + rest)
    {
      WorklistTail(ps, today, u, rest);
      MoveOne(verdicts.Keys, IdsOf(rest), before.Keys + ids, u.id);
      WeightAppend(ps, [u], rest);
      var next := FollowOne(u, page, ps);
      if next.Some? {
        WorklistAppend(ps, today, rest, next.value);
        WeightAppend(ps, rest, [next.value]);
        again := [next.value];
      } else {
        again := [];
        assert rest + again == rest;
      }
    }

    /** What one answered query settles of its batch, and what it puts back at the
        end of the worklist. */
    method FollowBatch(batch: seq<UnreadPull>, pages: seq<Option<CommitPage>>, rest: seq<UnreadPull>,
                       ghost before: map<Id, Verdict>, ghost ids: set<Id>, ghost ps: map<Id, Pull>)
      returns (unread: seq<UnreadPull>)
      requires batch != [] && Took(before, ids, batch + rest, ps)
      requires HonestPages(ps, batch, CommitPages(pages)) && PagesExcused(ps, batch, pages, ex)
      modifies this`pulls, this`settled, this`truncated, this`settledTruncated, this`verdicts
      ensures Took(before, ids, unread, ps)
      ensures Weight(ps, unread) < Weight(ps, batch + rest)
    {
      unread := rest;
      var i := 0;
      ghost var work := batch + rest;
      assert batch[i..] == batch;
      while i < |batch|
        invariant 0 <= i <= |batch|
        invariant work == batch[i..] + unread
        invariant Took(before, ids, work, ps)
        invariant Weight(ps, work) <= Weight(ps, batch + rest) - i
      {
        ghost var later := batch[i + 1..] + unread;
        HeadFirst(batch, i, unread);
        assert PageFor(batch[i], pages[i], ps) && PageExcused(ps, batch[i], pages[i], ex);
        var again := FollowNext(batch[i], pages[i], later, before, ids, ps);
        Associative(batch[i + 1..], unread, again);
        unread := unread + again;
        work := later + again;
        i := i + 1;
      }
      assert work == unread;
    }

    /** Works the worklist off, ten entries to a query, each entry going to its back
        again while it has commits left and no trailer has been seen. */
    method Follow(server: Server, worklist: seq<UnreadPull>,
                  ghost before: map<Id, Verdict>, ghost ids: set<Id>, ghost ps: map<Id, Pull>, ghost from: int, ghost to: int)
      returns (outcome: Outcome, ghost left: seq<UnreadPull>)
      requires Took(before, ids, worklist, ps)
      requires CommitsHonest(ps, server, ex)
      modifies this`pulls, this`settled, this`truncated, this`settledTruncated, this`verdicts, this`queries
      ensures Took(before, ids, left, ps)
      ensures outcome.Done? ==> left == []
      ensures queries >= old(queries) && !outcome.Failed? && Caused(server, outcome, old(queries), queries, from, to)
    {
      var unread := worklist;
      while |unread| > 0
        invariant Took(before, ids, unread, ps) && queries >= old(queries)
        decreases Weight(ps, unread)
      {
        var size := Min(|unread|, FOLLOW_BATCH);
        var batch := unread[..size];
        assert batch + unread[size..] == unread;
        var reply := server.commits(queries, batch);
        assert HonestPages(ps, batch, reply);
        queries := queries + 1;
        if reply == CommitsFailed(true) {
          return Cancelled(queries - 1, batch), unread;
        }
        var pages := PagesFrom(batch, reply);
        assert PagesExcused(ps, batch, pages, ex);
        unread := FollowBatch(batch, pages, unread[size..], before, ids, ps);
      }
      return Done, [];
    }

    /** What a part of the walk over the days from..to leaves behind, given the
        pull requests judged before it. */
    ghost predicate Judged(before: map<Id, Verdict>, wasCapped: bool, done: bool, ps: map<Id, Pull>, from: int, to: int)
      reads this
    {
      Consistent(ps) && Covers(before, verdicts, wasCapped, capped, done, ps, from, to)
    }

    /** Judges every pull request of the days from..to, as two ranges when there are
        too many for one search. */
    method Walk(server: Server, from: int, to: int, ghost world: World)
      returns (outcome: Outcome)
      requires Honest(world, server) && Excused(world, server, ex) && Consistent(world.pulls)
      requires InRange(world.pulls, from, to) !! verdicts.Keys
      modifies this
      ensures Judged(old(verdicts), old(capped), outcome.Done?, world.pulls, from, to)
      ensures queries >= old(queries) && Caused(server, outcome, old(queries), queries, from, to)
      decreases if from < to then to - from else 0, 1
    {
      ghost var size, before := |world.listing(from, to)|, verdicts;
      ReadNone(world, from, to);
      var first: nat, after, got := 100, 0, 0;
      while true
        invariant 0 <= after == got <= size
        invariant ReadTo(before, world, from, to, after)
        invariant (after == 0 ==> verdicts == before) && queries >= old(queries)
        invariant capped == (old(capped) || (after > 0 && from >= to && size > SEARCH_CAP))
        invariant after > 0 ==> from >= to || size <= SEARCH_CAP
        decreases size - after
      {
        var reply;
        reply, first := Page(server, from, to, first, after, world);
        if reply.SearchFailed? {
          ReadPart(before, world, from, to, after, old(capped));
          return Failed(reply.failure, queries - 1, SearchAsk(from, to, first, after));
        }
        if after == 0 && reply.issueCount > SEARCH_CAP {
          if to - from >= 1 {
            outcome := WalkHalves(server, from, to, world);
            return outcome;
          }
          capped := true;
        }
        ghost var end;
        outcome, end := ReadOn(server, reply, from, to, after, before, world);
        if !outcome.Done? {
          return outcome;
        }
        got := got + |reply.nodes|;
        if !reply.hasNext || got >= SEARCH_CAP {
          ReadAll(before, world, from, to, end, old(capped));
          return Done;
        }
        after := reply.cursor;
        assert after == end;
      }
    }

    /** A page from a cursor on, at the first of its halved sizes that does not time
        out, or at the last there is. */
    method Page(server: Server, from: int, to: int, most: nat, after: nat, ghost world: World)
      returns (reply: SearchReply, first: nat)
      requires Honest(world, server) && Excused(world, server, ex) && after <= |world.listing(from, to)|
      modifies this`queries
      ensures HonestSearch(world, from, to, after, reply) && SearchExcused(world, from, to, after, reply, ex)
      ensures queries > old(queries) && Asked(server, from, to, most, after, old(queries), queries - old(queries) - 1, first, reply)
    {
      first := most;
      while true
        invariant queries >= old(queries) && first == Halved(most, queries - old(queries))
        invariant GaveUp(server, from, to, most, after, old(queries), queries - old(queries))
        decreases first
      {
        reply := server.search(queries, from, to, first, after);
        assert HonestSearch(world, from, to, after, reply) && SearchExcused(world, from, to, after, reply, ex);
        OneMoreSize(server, from, to, most, after, old(queries), queries - old(queries), first, reply);
        queries := queries + 1;
        if !(reply == SearchFailed(TooLarge) && first > SMALLEST_HALVED) {
          return;
        }
        first := first / 2;
      }
    }

    /** The first k pull requests of the listing have been judged, and no others
        since the walk of this range began. */
    ghost predicate ReadTo(before: map<Id, Verdict>, world: World, from: int, to: int, k: nat)
      reads this`pulls, this`settled, this`truncated, this`settledTruncated, this`verdicts
    {
      && Consistent(world.pulls) && Extends(before, verdicts)
      && before.Keys !! InRange(world.pulls, from, to)
      && k <= |world.listing(from, to)|
      && verdicts.Keys == before.Keys + Elems(world.listing(from, to)[..k])
    }

    lemma ReadNone(world: World, from: int, to: int)
      requires Consistent(world.pulls) && InRange(world.pulls, from, to) !! verdicts.Keys
      ensures ReadTo(verdicts, world, from, to, 0)
    {
    }

    lemma ReadPart(before: map<Id, Verdict>, world: World, from: int, to: int, k: nat, wasCapped: bool)
      requires Listed(world) && ReadTo(before, world, from, to, k)
      ensures Judged(before, wasCapped, false, world.pulls, from, to)
    {
      Prefix(world, from, to, k);
    }

    lemma ReadAll(before: map<Id, Verdict>, world: World, from: int, to: int, k: nat, wasCapped: bool)
      requires Listed(world) && ReadTo(before, world, from, to, k)
      requires k >= Min(|world.listing(from, to)|, SEARCH_CAP)
      requires from >= to || |world.listing(from, to)| <= SEARCH_CAP
      requires capped == (wasCapped || (from >= to && |world.listing(from, to)| > SEARCH_CAP))
      ensures Judged(before, wasCapped, true, world.pulls, from, to)
    {
      ListedLength(world, from, to);
      Prefix(world, from, to, k);
      PrefixDays(world, from, to, k, verdicts.Keys);
    }

    method ReadOn(server: Server, reply: SearchReply, from: int, to: int, ghost after: nat,
                  ghost before: map<Id, Verdict>, ghost world: World)
      returns (outcome: Outcome, ghost end: nat)
      requires Honest(world, server) && Excused(world, server, ex) && ReadTo(before, world, from, to, after)
      requires reply.SearchPage? && HonestSearch(world, from, to, after, reply) && SearchExcused(world, from, to, after, reply, ex)
      modifies this`pulls, this`settled, this`truncated, this`settledTruncated, this`verdicts, this`queries
      ensures Judged(before, capped, false, world.pulls, from, to)
      ensures queries >= old(queries) && !outcome.Failed? && Caused(server, outcome, old(queries), queries, from, to)
      ensures end == after + |reply.nodes|
      ensures outcome.Done? ==> ReadTo(before, world, from, to, end)
    {
      end := after + |reply.nodes|;
      Stretch(world, from, to, after, end);
      outcome := ReadPage(server, reply.nodes, world.listing(from, to)[after..end], world.pulls, from, to);
    }

    /** The two halves of a range of more than one day, each walked on its own. */
    method WalkHalves(server: Server, from: int, to: int, ghost world: World)
      returns (outcome: Outcome)
      requires Honest(world, server) && Excused(world, server, ex) && Consistent(world.pulls) && from < to
      requires InRange(world.pulls, from, to) !! verdicts.Keys
      modifies this
      ensures Judged(old(verdicts), old(capped), outcome.Done?, world.pulls, from, to)
      ensures queries >= old(queries) && Caused(server, outcome, old(queries), queries, from, to)
      decreases (to - from), 0
    {
      var mid := from + (to - from) / 2;
      ghost var before, was := verdicts, capped;
      SplitRange(world.pulls, from, mid, to);
      outcome := Walk(server, from, mid, world);
      if outcome.Done? {
        ghost var between, so := verdicts, capped;
        outcome := Walk(server, mid + 1, to, world);
        CoversBoth(before, between, verdicts, was, so, capped, outcome.Done?, world.pulls, from, mid, to);
      } else {
        CoversEarly(before, verdicts, was, capped, world.pulls, from, mid, to);
      }
    }

    /** One page of the search, its unread commits followed. */
    method ReadPage(server: Server, nodes: seq<PullNode>, ghost ids: seq<Id>, ghost ps: map<Id, Pull>, ghost from: int, ghost to: int)
      returns (outcome: Outcome)
      requires Consistent(ps) && CommitsHonest(ps, server, ex)
      requires NoDuplicates(ids) && Elems(ids) !! verdicts.Keys && NodesFor(ps, nodes, ids) && AllSayHow(nodes, ids, ex)
      modifies this`pulls, this`settled, this`truncated, this`settledTruncated, this`verdicts, this`queries
      ensures Consistent(ps) && Extends(old(verdicts), verdicts)
      ensures old(verdicts.Keys) <= verdicts.Keys <= old(verdicts.Keys) + Elems(ids)
      ensures outcome.Done? ==> verdicts.Keys == old(verdicts.Keys) + Elems(ids)
      ensures queries >= old(queries) && !outcome.Failed? && Caused(server, outcome, old(queries), queries, from, to)
    {
      ghost var before := verdicts;
      var unread := Count(nodes, ids, ps);
      ghost var left;
      outcome, left := Follow(server, unread, before, Elems(ids), ps, from, to);
      TookThem(before, Elems(ids), left, ps);
    }

    lemma TookThem(before: map<Id, Verdict>, ids: set<Id>, left: seq<UnreadPull>, ps: map<Id, Pull>)
      requires Took(before, ids, left, ps)
      ensures Consistent(ps) && Extends(before, verdicts)
      ensures before.Keys <= verdicts.Keys <= before.Keys + ids
      ensures left == [] ==> verdicts.Keys == before.Keys + ids
    {
      assert left == [] ==> IdsOf(left) == {};
    }
  }

  /** What a page of commits comes to for its pull request, when it settles it. */
  function JudgedBy(node: PullNode): Verdict {
    if node.mergeTrailer || true in node.commits.nodes then Found
    else if node.commits.totalCount <= |node.commits.nodes| then Clean
    else Floored
  }

  ghost predicate CommitsHonest(ps: map<Id, Pull>, server: Server, ex: Excuses) {
    forall n: nat, batch ::
      && HonestPages(ps, batch, server.commits(n, batch))
      && (server.commits(n, batch) != CommitsFailed(true) ==>
            PagesExcused(ps, batch, PagesFrom(batch, server.commits(n, batch)), ex))
  }

  /** The size of a page halved so many times. */
  function Halved(most: nat, times: nat): nat {
    if times == 0 then most else Halved(most, times - 1) / 2
  }

  /** The gateway gave up on the page at each of its first sizes, all above ten. */
  ghost predicate GaveUp(server: Server, from: int, to: int, most: nat, after: nat, query: nat, times: nat) {
    forall i: nat :: i < times ==>
      Halved(most, i) > SMALLEST_HALVED && server.search(query + i, from, to, Halved(most, i), after) == SearchFailed(TooLarge)
  }

  /** How a page was come by: at the first size the gateway did not give up on, or
      the first it would not be halved from. */
  ghost predicate Asked(server: Server, from: int, to: int, most: nat, after: nat, query: nat, times: nat, first: nat, reply: SearchReply) {
    && GaveUp(server, from, to, most, after, query, times) && first == Halved(most, times)
    && reply == server.search(query + times, from, to, first, after)
    && (reply == SearchFailed(TooLarge) ==> first <= SMALLEST_HALVED)
  }

  lemma OneMoreSize(server: Server, from: int, to: int, most: nat, after: nat, query: nat, times: nat, first: nat, reply: SearchReply)
    requires GaveUp(server, from, to, most, after, query, times) && first == Halved(most, times)
    requires reply == server.search(query + times, from, to, first, after)
    ensures if reply == SearchFailed(TooLarge) && first > SMALLEST_HALVED
            then GaveUp(server, from, to, most, after, query, times + 1) && first / 2 == Halved(most, times + 1)
            else Asked(server, from, to, most, after, query, times, first, reply)
  {
  }

  /** A page that promises more commits and has no cursor to them is taken for the
      last, where a page of the search that does so is left a floor: a trailer
      further on is then in no counter. */
  method MissedWithoutACursor() returns (w: CoauthoredWalk, ghost ps: map<Id, Pull>)
    ensures 1 in ps && ps[1].Coauthored() && w.Consistent(ps) && 1 in w.verdicts
    ensures w.pulls == 0 && w.truncated == 0
  {
    ps := map[1 := Pull(0, false, [false, false, true])];
    w := new CoauthoredWalk(1, Excuses({}, {1}));
    assert w.Consistent(ps);
    var again := w.FollowOne(UnreadPull(1, 1, true), Some(CommitPage(3, [false], true, 0)), ps);
  }

  /** The days up to mid and the days after it are the range, each once. */
  lemma SplitRange(pulls: map<Id, Pull>, from: int, mid: int, to: int)
    requires from <= mid < to
    ensures InRange(pulls, from, to) == InRange(pulls, from, mid) + InRange(pulls, mid + 1, to)
    ensures InRange(pulls, from, mid) !! InRange(pulls, mid + 1, to)
    ensures OverfullDay(pulls, from, to) <==> OverfullDay(pulls, from, mid) || OverfullDay(pulls, mid + 1, to)
  {
  }

  /** What a page that covers a stretch of the listing adds to the pages before. */
  lemma Stretch(world: World, from: int, to: int, i: nat, j: nat)
    requires Listed(world) && i <= j <= |world.listing(from, to)|
    ensures var list := world.listing(from, to);
      && Elems(list) == InRange(world.pulls, from, to)
      && Elems(list[..i]) !! Elems(list[i..])
      && Elems(list[i..]) <= Elems(list) && Elems(list[..i]) <= Elems(list)
      && Elems(list[i..j]) <= Elems(list)
      && Elems(list[..j]) == Elems(list[..i]) + Elems(list[i..j])
  {
    var list := world.listing(from, to);
    assert NoDuplicates(list) && Elems(list) == InRange(world.pulls, from, to);
    assert list[..j] == list[..i] + list[i..j];
    ElemsAppend(list[..i], list[i..j]);
  }

  lemma Prefix(world: World, from: int, to: int, k: nat)
    requires Listed(world) && k <= |world.listing(from, to)|
    ensures Elems(world.listing(from, to)[..k]) <= InRange(world.pulls, from, to)
    ensures k == 0 ==> Elems(world.listing(from, to)[..k]) == {}
    ensures k == |world.listing(from, to)| ==> Elems(world.listing(from, to)[..k]) == InRange(world.pulls, from, to)
  {
    var list := world.listing(from, to);
    assert Elems(list) == InRange(world.pulls, from, to);
    assert k == |list| ==> list[..k] == list;
  }

  /** What the first of a listing hold of each day: of a range that a search pages
      through, or of one day. */
  lemma PrefixDays(world: World, from: int, to: int, k: nat, read: set<Id>)
    requires Listed(world) && Min(|world.listing(from, to)|, SEARCH_CAP) <= k <= |world.listing(from, to)|
    requires from >= to || |world.listing(from, to)| <= SEARCH_CAP
    requires Elems(world.listing(from, to)[..k]) <= read
    ensures EachDayRead(world.pulls, from, to, read)
  {
    var list := world.listing(from, to);
    ListedLength(world, from, to);
    Prefix(world, from, to, k);
    forall d | from <= d <= to
      ensures DayRead(world.pulls, d, read)
    {
      var day := InRange(world.pulls, d, d);
      if k == |list| {
        SubsetCount(day * read, day);
        assert day <= InRange(world.pulls, from, to) && day * read == day;
      } else {
        CountOfElems(list[..k]);
        SubsetCount(Elems(list[..k]), day * read);
        SubsetCount(day * read, day);
      }
    }
  }

  lemma DaysOfBoth(pulls: map<Id, Pull>, from: int, mid: int, to: int, early: set<Id>, read: set<Id>)
    requires EachDayRead(pulls, from, mid, early) && EachDayRead(pulls, mid + 1, to, read) && early <= read
    ensures EachDayRead(pulls, from, to, read)
  {
    forall d | from <= d <= to
      ensures DayRead(pulls, d, read)
    {
      if d <= mid {
        assert DayRead(pulls, d, early);
        SubsetCount(InRange(pulls, d, d) * early, InRange(pulls, d, d) * read);
      } else {
        assert DayRead(pulls, d, read);
      }
    }
  }

  /** Days so read leave unread no more than no search will show. */
  lemma {:induction false} UnreadIsExcess(pulls: map<Id, Pull>, from: int, to: int, read: set<Id>)
    requires EachDayRead(pulls, from, to, read)
    ensures |InRange(pulls, from, to) - read| <= Excess(pulls, from, to)
    decreases if from <= to then to - from + 1 else 0
  {
    if from > to {
      assert InRange(pulls, from, to) == {};
    } else {
      UnreadIsExcess(pulls, from, to - 1, read);
      LastDay(pulls, from, to);
      UnreadOfBoth(InRange(pulls, from, to - 1), InRange(pulls, to, to), read);
      UnreadOfDay(pulls, to, read);
    }
  }

  lemma UnreadOfBoth(a: set<Id>, b: set<Id>, read: set<Id>)
    ensures |(a + b) - read| <= |a - read| + |b - read|
  {
    CoverCount((a + b) - read, a - read, b - read, {});
  }

  lemma LastDay(pulls: map<Id, Pull>, from: int, to: int)
    requires from <= to
    ensures InRange(pulls, from, to) == InRange(pulls, from, to - 1) + InRange(pulls, to, to)
  {
  }

  lemma UnreadOfDay(pulls: map<Id, Pull>, d: int, read: set<Id>)
    requires DayRead(pulls, d, read)
    ensures var merged := |InRange(pulls, d, d)|;
      |InRange(pulls, d, d) - read| <= if merged > SEARCH_CAP then merged - SEARCH_CAP else 0
  {
    var day := InRange(pulls, d, d);
    assert day == (day * read) + (day - read);
    assert |day| == |day * read| + |day - read|;
    assert day <= read ==> day - read == {};
  }

  /** Nothing is left unread if and only if no day is overfull. */
  lemma {:induction false} ExcessIff(pulls: map<Id, Pull>, from: int, to: int)
    ensures Excess(pulls, from, to) == 0 <==> !OverfullDay(pulls, from, to)
    decreases if from <= to then to - from + 1 else 0
  {
    if from <= to {
      ExcessIff(pulls, from, to - 1);
    }
  }

  lemma ListedLength(world: World, from: int, to: int)
    requires Listed(world)
    ensures |world.listing(from, to)| == |InRange(world.pulls, from, to)|
    ensures |world.listing(from, to)| <= SEARCH_CAP ==> !OverfullDay(world.pulls, from, to)
    ensures from == to && |world.listing(from, to)| > SEARCH_CAP ==> OverfullDay(world.pulls, from, to)
    ensures from > to ==> world.listing(from, to) == [] && !OverfullDay(world.pulls, from, to)
  {
    var list := world.listing(from, to);
    assert NoDuplicates(list) && Elems(list) == InRange(world.pulls, from, to);
    CountOfElems(list);
    forall d | from <= d <= to
      ensures |InRange(world.pulls, d, d)| <= |list|
    {
      SubsetCount(InRange(world.pulls, d, d), InRange(world.pulls, from, to));
    }
  }

  lemma NoTrailerYet(page: CommitPage, pull: Pull, after: nat)
    requires HonestChunk(page, pull, after) && true !in pull.commits[..after] && true !in page.nodes
    ensures true !in pull.commits[..after + |page.nodes|]
  {
    assert pull.commits[..after + |page.nodes|] == pull.commits[..after] + page.nodes;
  }

  lemma WorklistTail(pulls: map<Id, Pull>, today: int, u: UnreadPull, rest: seq<UnreadPull>)
    requires Worklist(pulls, today, [u] + rest)
    ensures Readable(pulls, today, u) && Worklist(pulls, today, rest)
    ensures u.id !in IdsOf(rest) && IdsOf([u] + rest) == IdsOf(rest) + {u.id}
  {
    var all := [u] + rest;
    assert all[0] == u && u in all;
    forall i | 0 <= i < |rest|
      ensures rest[i] == all[i + 1] && rest[i].id != u.id
    {
    }
    IdsAppend([u], rest);
    assert IdsOf([u]) == {u.id} by {
      assert u in [u];
    }
  }

  lemma HeadFirst<T>(a: seq<T>, i: nat, b: seq<T>)
    requires i < |a|
    ensures a[i..] + b == [a[i]] + (a[i + 1..] + b)
  {
  }

  lemma Associative<T>(a: seq<T>, b: seq<T>, c: seq<T>)
    ensures a + (b + c) == (a + b) + c
  {
  }

  lemma MoveOne(keys: set<Id>, work: set<Id>, total: set<Id>, id: Id)
    requires keys !! (work + {id}) && keys + (work + {id}) == total && id !in work
    ensures id !in keys && (keys + {id}) !! work && keys + {id} + work == total
  {
  }

  lemma SplitOneMore(keys: set<Id>, work: set<Id>, before: set<Id>, ids: set<Id>, id: Id)
    requires keys !! work && keys + work == before + ids && id !in before + ids
    ensures id !in keys && id !in work
    ensures (keys + {id}) !! work && keys + {id} + work == before + (ids + {id})
    ensures keys !! (work + {id}) && keys + (work + {id}) == before + (ids + {id})
  {
  }

  lemma WorklistAppend(pulls: map<Id, Pull>, today: int, unread: seq<UnreadPull>, u: UnreadPull)
    requires Worklist(pulls, today, unread) && Readable(pulls, today, u) && u.id !in IdsOf(unread)
    ensures Worklist(pulls, today, unread + [u])
    ensures IdsOf(unread + [u]) == IdsOf(unread) + {u.id}
  {
    IdsAppend(unread, [u]);
    assert IdsOf([u]) == {u.id} by {
      assert u in [u];
    }
    forall i | 0 <= i < |unread|
      ensures unread[i].id != u.id
    {
      assert unread[i] in unread;
    }
  }

  // What the counters of a finished walk say about the account.

  /** A count never exceeds the co-authored pull requests it was made over, and
      misses at most the ones left as floors and the ones lost. */
  lemma CountersAreAFloor(pulls: map<Id, Pull>, verdicts: map<Id, Verdict>, ex: Excuses, range: set<Id>, today: int)
    requires Sound(pulls, verdicts, ex) && verdicts.Keys <= range <= pulls.Keys
    ensures var c := CountersOf(pulls, verdicts, today);
      && c.pulls <= |Coauthored(pulls, range)|
      && c.settled <= |Settled(pulls, Coauthored(pulls, range), today)|
    ensures verdicts.Keys == range ==>
      var c, lost := CountersOf(pulls, verdicts, today), Having(verdicts, Lost);
      && |Coauthored(pulls, range)| <= c.pulls + c.truncated + |lost|
      && |Settled(pulls, Coauthored(pulls, range), today)| <= c.settled + c.settledTruncated + |lost|
  {
    var found, floored, lost := Having(verdicts, Found), Having(verdicts, Floored), Having(verdicts, Lost);
    var all := Coauthored(pulls, range);
    assert found <= all;
    SubsetCount(found, all);
    SettledSubset(pulls, found, all, today);
    if verdicts.Keys == range {
      forall id | id in all
        ensures id in found + floored + lost
      {
        assert Justified(verdicts[id], pulls[id], id, ex);
      }
      CoverCount(all, found, floored, lost);
      SettledCover(pulls, all, found, floored, lost, today);
      CoverCount(Settled(pulls, all, today), Settled(pulls, found, today), Settled(pulls, floored, today), lost);
    }
  }

  /** The counters of a walk that is done, capped or not: what there is is no more than
      what is counted, left as a floor or lost, and what no search will show. */
  lemma CappedCountsAreAFloor(pulls: map<Id, Pull>, verdicts: map<Id, Verdict>, ex: Excuses, from: int, to: int, today: int)
    requires Sound(pulls, verdicts, ex) && verdicts.Keys <= InRange(pulls, from, to)
    requires EachDayRead(pulls, from, to, verdicts.Keys)
    ensures var c, all, unseen := CountersOf(pulls, verdicts, today), Coauthored(pulls, InRange(pulls, from, to)),
                                  |Having(verdicts, Lost)| + Excess(pulls, from, to);
      && c.pulls <= |all| <= c.pulls + c.truncated + unseen
      && c.settled <= |Settled(pulls, all, today)| <= c.settled + c.settledTruncated + unseen
  {
    var range, read := InRange(pulls, from, to), verdicts.Keys;
    CountersAreAFloor(pulls, verdicts, ex, range, today);
    CountersAreAFloor(pulls, verdicts, ex, read, today);
    UnreadIsExcess(pulls, from, to, read);
    CoverCount(Coauthored(pulls, range), Coauthored(pulls, read), range - read, {});
    CoverCount(Settled(pulls, Coauthored(pulls, range), today), Settled(pulls, Coauthored(pulls, read), today), range - read, {});
  }

  /** Once all are judged, a co-authored pull request is in neither counter if and
      only if it was lost. */
  lemma UncountedIffLost(pulls: map<Id, Pull>, verdicts: map<Id, Verdict>, ex: Excuses, range: set<Id>, id: Id)
    requires Sound(pulls, verdicts, ex) && verdicts.Keys == range && id in Coauthored(pulls, range)
    ensures id !in Having(verdicts, Found) + Having(verdicts, Floored) <==> id in Having(verdicts, Lost)
  {
    assert Justified(verdicts[id], pulls[id], id, ex);
  }

  /** The counted and the floors cover what there is if and only if no more
      co-authored pull requests were lost than floors were left of others; and so
      of the settled ones. */
  lemma FloorHoldsIff(pulls: map<Id, Pull>, verdicts: map<Id, Verdict>, ex: Excuses, range: set<Id>, today: int)
    requires Sound(pulls, verdicts, ex) && verdicts.Keys == range <= pulls.Keys
    ensures var c, all, lost, floored := CountersOf(pulls, verdicts, today), Coauthored(pulls, range), Having(verdicts, Lost), Having(verdicts, Floored);
      && (|all| <= c.pulls + c.truncated <==> |all * lost| <= |floored - all|)
      && (|Settled(pulls, all, today)| <= c.settled + c.settledTruncated <==>
            |Settled(pulls, all * lost, today)| <= |Settled(pulls, floored - all, today)|)
  {
    var all, found, floored, lost := Coauthored(pulls, range), Having(verdicts, Found), Having(verdicts, Floored), Having(verdicts, Lost);
    forall id | id in range
      ensures Justified(verdicts[id], pulls[id], id, ex)
    {
    }
    assert all == found + (all * floored) + (all * lost);
    FloorHoldsOfSets(all, found, floored, lost);
    SettledParts(pulls, all, found, floored, lost, today);
    FloorHoldsOfSets(Settled(pulls, all, today), Settled(pulls, found, today), Settled(pulls, floored, today), Settled(pulls, lost, today));
  }

  lemma FloorHoldsOfSets(all: set<Id>, found: set<Id>, floored: set<Id>, lost: set<Id>)
    requires all == found + (all * floored) + (all * lost) && found !! floored && found !! lost && floored !! lost
    ensures |all| <= |found| + |floored| <==> |all * lost| <= |floored - all|
  {
    assert |found + (all * floored)| == |found| + |all * floored|;
    assert |all| == |found + (all * floored)| + |all * lost|;
    assert floored == (all * floored) + (floored - all);
    assert |floored| == |all * floored| + |floored - all|;
  }

  lemma SettledParts(pulls: map<Id, Pull>, all: set<Id>, found: set<Id>, floored: set<Id>, lost: set<Id>, today: int)
    requires all == found + (all * floored) + (all * lost)
    ensures var a, f, g, l := Settled(pulls, all, today), Settled(pulls, found, today), Settled(pulls, floored, today), Settled(pulls, lost, today);
      && a == f + (a * g) + (a * l)
      && a * l == Settled(pulls, all * lost, today)
      && g - a == Settled(pulls, floored - all, today)
  {
  }

  lemma SettledSubset(pulls: map<Id, Pull>, a: set<Id>, b: set<Id>, today: int)
    requires a <= b
    ensures |Settled(pulls, a, today)| <= |Settled(pulls, b, today)|
  {
    SubsetCount(Settled(pulls, a, today), Settled(pulls, b, today));
  }

  lemma SettledCover(pulls: map<Id, Pull>, all: set<Id>, a: set<Id>, b: set<Id>, c: set<Id>, today: int)
    requires all <= a + b + c
    ensures Settled(pulls, all, today) <= Settled(pulls, a, today) + Settled(pulls, b, today) + c
  {
  }

  lemma CoverCount(all: set<Id>, a: set<Id>, b: set<Id>, c: set<Id>)
    requires all <= a + b + c
    ensures |all| <= |a| + |b| + |c|
  {
    SubsetCount(all, a + b + c);
    assert |a + b| == |a| + |b| - |a * b|;
    assert |(a + b) + c| == |a + b| + |c| - |(a + b) * c|;
  }
}

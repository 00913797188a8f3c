/**
 * The walk over the pull requests and the issues of a repository, whose query is
 * asked for half the page when it is too large: Pulls.Collect of
 * internal/collect/pulls.go.
 */
module PullsWalks {
  import opened Lists
  import opened Walks
  import opened Cursors
  import opened ItemListings

  const DEFAULT_FIRST: nat := 50

  datatype Item = Item(number: nat, updatedAt: int)

  /** What a page renders: the rows of a pull request, or of an issue. */
  datatype Row = Row(kind: Kind, item: Item)

  function Updated(): Item -> int {
    (item: Item) => item.updatedAt
  }

  function PlanOf(w: Walk, asked: int): Plan<Item> {
    Plan(w, Updated(), if asked <= 0 then DEFAULT_FIRST else asked, true, w.Limit(1))
  }

  function Rows(nodes: seq<Item>, kind: Kind): seq<Row> {
    seq(|nodes|, i requires 0 <= i < |nodes| => Row(kind, nodes[i]))
  }

  /** The items of one kind, in the order they were emitted. */
  ghost function ItemsOf(rows: seq<Row>, kind: Kind): seq<Item> {
    if rows == [] then []
    else ItemsOf(rows[..|rows| - 1], kind) + if rows[|rows| - 1].kind == kind then [rows[|rows| - 1].item] else []
  }

  lemma ItemsOne(rows: seq<Row>, row: Row, kind: Kind)
    ensures ItemsOf(rows + [row], kind) == ItemsOf(rows, kind) + if row.kind == kind then [row.item] else []
  {
    assert (rows + [row])[..|rows|] == rows;
  }

  lemma {:induction false} ItemsOfAppend(rows: seq<Row>, nodes: seq<Item>, of: Kind, kind: Kind)
    ensures ItemsOf(rows + Rows(nodes, of), kind) ==
            if of == kind then ItemsOf(rows, kind) + nodes else ItemsOf(rows, kind)
  {
    if nodes == [] {
      assert rows + Rows(nodes, of) == rows;
    } else {
      var k := |nodes| - 1;
      ItemsOfAppend(rows, nodes[..k], of, kind);
      assert Rows(nodes, of) == Rows(nodes[..k], of) + [Row(of, nodes[k])];
      Regroup(rows, Rows(nodes[..k], of), [Row(of, nodes[k])]);
      ItemsOne(rows + Rows(nodes[..k], of), Row(of, nodes[k]), kind);
      SplitLast(nodes);
      Regroup(ItemsOf(rows, kind), nodes[..k], [nodes[k]]);
    }
  }

  /** What was emitted of a list is its first at items, in order. */
  ghost predicate Emitted(list: seq<Item>, points: seq<Row>, kind: Kind, at: nat) {
    at <= |list| && ItemsOf(points, kind) == list[..at]
  }

  ghost predicate EmittedBoth(server: Server<Item>, both: Both<Item>, points: seq<Row>, log: seq<Ask>) {
    && Emitted(both.pulls, points, Pulls, ReadIn(server, log, Pulls))
    && Emitted(both.issues, points, Issues, ReadIn(server, log, Issues))
  }

  /** However often the page was halved, nothing of either list is skipped or
      repeated: what was emitted of each is all that the answers held. */
  method Collect(server: Server<Item>, w: Walk, asked: int, ghost both: Both<Item>)
    returns (points: seq<Row>, failed: bool, ghost log: seq<Ask>, ghost next: Ask, ghost stop: Stop)
    requires Honest(both, server)
    ensures Leaves(server, w, asked, both, points, log, next, stop)
    ensures failed <==> stop in {NotHere, GaveUp}
  {
    points, failed, log, stop := [], false, [], Budget;
    var ask := Ask(if asked <= 0 then DEFAULT_FIRST else asked, true, 0, true, 0);
    var sent, page := 0, 1;
    while page <= w.Limit(1) && (ask.withPulls || ask.withIssues)
      invariant Stands(server, w, asked, both, points, log, ask, page) && sent == |log|
      decreases w.Limit(1) - page, ask.first
    {
      var reply, ended := server(sent, ask), None;
      points, ask, page, ended, log := Take(server, w, asked, ask, reply, page, points, log, both);
      sent := sent + 1;
      if ended.Some? {
        failed, next, stop := true, ask, ended.value;
        return;
      }
    }
    next, stop := ask, if Idle(ask) then Done else Budget;
    StandsAtLast(server, w, asked, both, points, log, ask, page);
  }

  /** What a walk has asked for and emitted when it stops. */
  ghost predicate Leaves(server: Server<Item>, w: Walk, asked: int, both: Both<Item>, points: seq<Row>, log: seq<Ask>, next: Ask,
                         stop: Stop) {
    && IsLog(server, PlanOf(w, asked), log) && StopsFor(server, PlanOf(w, asked), log, next, stop)
    && ReadsAsFar(server, PlanOf(w, asked), both, log, next, stop) && EmittedBoth(server, both, points, log)
    && AsksWithin(server, w, asked, log, stop) && HalvesDownToTen(server, log, stop)
    && ItemsOf(points, Pulls) <= both.pulls && ItemsOf(points, Issues) <= both.issues
  }

  /** And between two queries. */
  ghost predicate Stands(server: Server<Item>, w: Walk, asked: int, both: Both<Item>, points: seq<Row>, log: seq<Ask>, ask: Ask, page: int) {
    && IsLog(server, PlanOf(w, asked), log) && IsNext(server, PlanOf(w, asked), log, ask) && EmittedBoth(server, both, points, log)
    && page == PagesIn(server, log) + 1 <= w.Limit(1) + 1
  }

  lemma StandsAtLast(server: Server<Item>, w: Walk, asked: int, both: Both<Item>, points: seq<Row>, log: seq<Ask>, ask: Ask, page: int)
    requires Honest(both, server) && Stands(server, w, asked, both, points, log, ask, page) && (Idle(ask) || page > w.Limit(1))
    ensures Leaves(server, w, asked, both, points, log, ask, if Idle(ask) then Done else Budget)
  {
    LeavesSo(server, w, asked, both, points, log, ask, if Idle(ask) then Done else Budget);
  }

  lemma LeavesSo(server: Server<Item>, w: Walk, asked: int, both: Both<Item>, points: seq<Row>, log: seq<Ask>, next: Ask, stop: Stop)
    requires Honest(both, server) && EmittedBoth(server, both, points, log)
    requires IsLog(server, PlanOf(w, asked), log) && StopsFor(server, PlanOf(w, asked), log, next, stop)
    ensures Leaves(server, w, asked, both, points, log, next, stop)
  {
    WalkEnds(server, PlanOf(w, asked), both, log, next, stop);
    AsksNoMore(server, w, asked, log, next, stop);
  }

  /** The pages allowed, the first of the size asked for, or of fifty. */
  ghost predicate AsksWithin(server: Server<Item>, w: Walk, asked: int, log: seq<Ask>, stop: Stop) {
    && w.Allows(1, PagesIn(server, log), stop == Budget)
    && log != [] && log[0].first == (if asked > 0 then asked else 50) && log[0].withPulls && log[0].withIssues
  }

  /** One that is too large is asked for again at half its size while that is above
      ten, and ends the walk at ten or less. */
  ghost predicate HalvesDownToTen(server: Server<Item>, log: seq<Ask>, stop: Stop) {
    forall k :: 0 <= k < |log| && ReplyTo(server, log, k).TooLarge? ==>
      if k < |log| - 1 then log[k].first > 10 && log[k + 1].first == log[k].first / 2 else stop == GaveUp ==> log[k].first <= 10
  }

  lemma {:induction false} HalvesFromHere(server: Server<Item>, w: Walk, asked: int, log: seq<Ask>)
    requires IsLog(server, PlanOf(w, asked), log)
    ensures forall k :: 0 <= k < |log| - 1 && ReplyTo(server, log, k).TooLarge? ==>
      log[k].first > 10 && log[k + 1].first == log[k].first / 2
  {
    if log != [] {
      var before := log[..|log| - 1];
      HalvesFromHere(server, w, asked, before);
      assert forall k :: 0 <= k < |before| ==> before[k] == log[k] && ReplyTo(server, before, k) == ReplyTo(server, log, k);
    }
  }

  lemma AsksNoMore(server: Server<Item>, w: Walk, asked: int, log: seq<Ask>, next: Ask, stop: Stop)
    requires IsLog(server, PlanOf(w, asked), log) && StopsFor(server, PlanOf(w, asked), log, next, stop)
    ensures AsksWithin(server, w, asked, log, stop)
    ensures HalvesDownToTen(server, log, stop)
  {
    HalvesFromHere(server, w, asked, log);
    PagesBounded(server, PlanOf(w, asked), log);
    AsksSomething(server, PlanOf(w, asked), log, next, stop);
    BeginsWith(server, PlanOf(w, asked), log);
  }

  /** What one reply makes of the points and of what is asked next, or why it ends
      the walk. */
  method Take(server: Server<Item>, w: Walk, asked: int, ask: Ask, reply: Reply<Item>, page: int, points: seq<Row>,
              ghost log: seq<Ask>, ghost both: Both<Item>)
    returns (more: seq<Row>, next: Ask, turn: int, ended: Option<Stop>, ghost all: seq<Ask>)
    requires Honest(both, server) && reply == server(|log|, ask) && !Idle(ask) && page <= w.Limit(1)
    requires Stands(server, w, asked, both, points, log, ask, page)
    ensures all == log + [ask]
    ensures ended.None? ==> Stands(server, w, asked, both, more, all, next, turn)
    ensures ended.None? ==> turn == page + 1 || (turn == page && next.first < ask.first)
    ensures ended.Some? ==> ended.value in {NotHere, GaveUp} && Leaves(server, w, asked, both, more, all, next, ended.value)
  {
    ghost var plan := PlanOf(w, asked);
    LogGrows(server, plan, log, ask);
    all := log + [ask];
    more, next, turn, ended := points, ask, page, None;
    if reply.TooLarge? && ask.first > SMALLEST_HALVED {
      // Same cursors, half the page, and the same place in the budget.
      AfterTooLarge(server, plan, log, ask);
      next := ask.(first := ask.first / 2);
    } else if !reply.Page? {
      ended := Some(if reply.Refused? then NotHere else GaveUp);
      LeavesSo(server, w, asked, both, points, all, next, ended.value);
    } else {
      more, next := ReadPage(server, w, ask, reply, points, log, both);
      AfterPage(server, plan, both, log, ask, next);
      turn := page + 1;
    }
  }

  /** One answered page: the half of each list that was asked for. */
  method ReadPage(server: Server<Item>, w: Walk, ask: Ask, reply: Reply<Item>, points: seq<Row>,
                  ghost log: seq<Ask>, ghost both: Both<Item>)
    returns (more: seq<Row>, next: Ask)
    requires Honest(both, server) && reply == server(|log|, ask) && reply.Page? && EmittedBoth(server, both, points, log)
    requires forall kind: Kind :: ask.With(kind) ==> ask.After(kind) == ReadIn(server, log, kind)
    requires forall kind: Kind :: ReadIn(server, log + [ask], kind) == ReadIn(server, log, kind) + Held(ask, reply, kind)
    ensures EmittedBoth(server, both, more, log + [ask]) && next.first == ask.first
    ensures next.withPulls == (ask.withPulls && More(w, Updated(), reply.pulls))
    ensures next.withIssues == (ask.withIssues && More(w, Updated(), reply.issues))
    ensures next.withPulls ==> next.pullAfter == reply.pulls.cursor
    ensures next.withIssues ==> next.issueAfter == reply.issues.cursor
  {
    assert HonestReply(both, ask, reply);
    ghost var i, j := ReadIn(server, log, Pulls), ReadIn(server, log, Issues);
    assert ask.With(Pulls) == ask.withPulls && ask.With(Issues) == ask.withIssues;
    assert ReadIn(server, log + [ask], Pulls) == i + Held(ask, reply, Pulls);
    assert ReadIn(server, log + [ask], Issues) == j + Held(ask, reply, Issues);
    more, next := points, ask;
    if ask.withPulls {
      EmitSlice(w, both, more, i, j, reply.pulls, Pulls);
      more, i := more + Rows(reply.pulls.nodes, Pulls), i + |reply.pulls.nodes|;
      next := next.(withPulls := More(w, Updated(), reply.pulls), pullAfter := reply.pulls.cursor);
    }
    if ask.withIssues {
      EmitSlice(w, both, more, i, j, reply.issues, Issues);
      more, j := more + Rows(reply.issues.nodes, Issues), j + |reply.issues.nodes|;
      next := next.(withIssues := More(w, Updated(), reply.issues), issueAfter := reply.issues.cursor);
    }
  }

  lemma EmitSlice(w: Walk, both: Both<Item>, points: seq<Row>, i: nat, j: nat, s: Slice<Item>, kind: Kind)
    requires Emitted(both.pulls, points, Pulls, i) && Emitted(both.issues, points, Issues, j)
    requires HonestSlice(both.Of(kind), if kind == Pulls then i else j, s)
    ensures var more := points + Rows(s.nodes, kind);
      && Emitted(both.pulls, more, Pulls, if kind == Pulls then i + |s.nodes| else i)
      && Emitted(both.issues, more, Issues, if kind == Issues then j + |s.nodes| else j)
    ensures More(w, Updated(), s) ==> s.cursor == (if kind == Pulls then i else j) + |s.nodes|
  {
    NextSlice(w, Updated(), both.Of(kind), if kind == Pulls then i else j, s);
    ItemsOfAppend(points, s.nodes, kind, Pulls);
    ItemsOfAppend(points, s.nodes, kind, Issues);
  }

  /** A walk that read a list out emitted everything of it updated at or after
      the bound. */
  lemma ReachesTheBound(w: Walk, list: seq<Item>, points: seq<Row>, kind: Kind, at: nat)
    requires Emitted(list, points, kind, at) && NewestFirst(Updated(), list) && ReadOut(w, Updated(), list, at)
    ensures forall item :: item in list && !w.Past(item.updatedAt) ==> item in ItemsOf(points, kind)
    ensures forall item :: item in list && item.updatedAt >= w.since ==> item in ItemsOf(points, kind)
  {
    ReadOutReaches(w, Updated(), list, at);
    forall item | item in list && !w.Past(item.updatedAt)
      ensures item in list[..at]
    {
      var k :| 0 <= k < |list| && list[k] == item;
      assert !w.Past(Updated()(list[k]));
    }
  }

  /** One whose pages ran out first, reading from a server that fills them, still
      read of each list the smallest page for every page it may, or had all it
      wanted of it, however often a page was halved. */
  lemma ReachesItsBudget(server: Server<Item>, w: Walk, asked: int, both: Both<Item>, log: seq<Ask>, next: Ask, points: seq<Row>, kind: Kind)
    requires Honest(both, server) && Fills(both, server) && EmittedBoth(server, both, points, log)
    requires IsLog(server, PlanOf(w, asked), log) && StopsFor(server, PlanOf(w, asked), log, next, Budget)
    ensures var got := |ItemsOf(points, kind)|;
      || ReadOut(w, Updated(), both.Of(kind), got)
      || got >= Min(|both.Of(kind)|, Least(PlanOf(w, asked)) * w.Limit(1))
  {
    var plan := PlanOf(w, asked);
    ReadOutOrWanted(server, plan, both, log, next, kind);
    if next.With(kind) {
      HalvedWhileWanted(server, plan, both, log, next, kind);
    }
  }
}

/**
 * The searches for what an account did in other people's repositories:
 * Outbound.search of internal/collect/community.go.
 */
module OutboundSearches {
  import opened Lists
  import opened Walks

  /** GitHub serves this many results of a search at most. */
  const SEARCH_CAP: nat := 1000

  /** One item: when the search index last copied its updatedAt, which is what
      a closed search is ordered by; when it was updated; and when it closed,
      the zero time for an open one. */
  datatype Item = Item(number: nat, indexed: int, updatedAt: int, closedAt: int)

  datatype Reply = Page(issueCount: nat, nodes: seq<Item>, hasNext: bool, cursor: nat) | Failed

  /** A page of a search that does not move, which may end before the list does
      once it has served its cap. */
  ghost predicate HonestPage(list: seq<Item>, after: nat, reply: Reply) {
    reply.Page? && after <= |list| ==>
      && reply.issueCount == |list|
      && after + |reply.nodes| <= |list|
      && reply.nodes == list[after..after + |reply.nodes|]
      && (reply.hasNext ==> reply.nodes != [] && reply.cursor == after + |reply.nodes|)
      && (!reply.hasNext ==> after + |reply.nodes| >= Min(|list|, SEARCH_CAP))
  }

  ghost predicate Honest(list: seq<Item>, server: (nat, nat) -> Reply) {
    forall n: nat, after: nat :: HonestPage(list, after, server(n, after))
  }

  /** The date a list is ordered by lies between an item's closing and its update. */
  ghost predicate Indexed(list: seq<Item>) {
    && (forall i :: 0 <= i < |list| ==> list[i].closedAt <= list[i].indexed <= list[i].updatedAt && list[i].updatedAt > 0)
    && forall i, j :: 0 <= i < j < |list| ==> list[i].indexed >= list[j].indexed
  }

  /** Why a search went no further: a page ended past the bound, there was no
      next page, its pages ran out, or the query failed. */
  datatype Stop = PastBound | NoNext | Budget | Error

  /** The bound of a search: a closed one reads back to what moved since the
      sweep before, an open one is read whole. */
  function Bound(walk: Walk, moved: int): Walk {
    if moved != 0 then Walk(-1, moved) else walk
  }

  function Most(walk: Walk, moved: int, open: bool): nat {
    if open then UNBOUNDED.Limit(0) else Bound(walk, moved).Limit(1)
  }

  // What was asked. Page p is asked for after as many items as the pages before
  // it held, so those counts are the log of a search.

  type Server = (nat, nat) -> Reply

  /** How many items the first n pages held. */
  ghost function ReadBy(server: Server, n: nat): nat {
    if n == 0 then 0
    else
      var before := ReadBy(server, n - 1);
      before + if server(n, before).Page? then |server(n, before).nodes| else 0
  }

  ghost function ReplyAt(server: Server, p: nat): Reply
    requires p >= 1
  {
    server(p, ReadBy(server, p - 1))
  }

  /** Whether a search goes on after a page. */
  predicate LeadsOn(w: Walk, open: bool, reply: Reply) {
    && reply.Page? && reply.hasNext && |reply.nodes| > 0
    && (open || !w.Past(reply.nodes[|reply.nodes| - 1].updatedAt))
  }

  ghost function EndsFor(w: Walk, open: bool, reply: Reply): Stop {
    if LeadsOn(w, open, reply) then Budget
    else if reply.Failed? then Error
    else if !reply.hasNext then NoNext
    else PastBound
  }

  /** The first n pages all led on. */
  ghost predicate LedOn(server: Server, w: Walk, open: bool, n: nat) {
    n == 0 || (LedOn(server, w, open, n - 1) && LeadsOn(w, open, ReplyAt(server, n)))
  }

  /** A page after pages that led on leads on too, or ends the search. */
  lemma OneMore(server: Server, w: Walk, open: bool, most: nat, p: nat, ended: Stop)
    requires 1 <= p <= most && LedOn(server, w, open, p - 1) && ended == EndsFor(w, open, ReplyAt(server, p))
    ensures if ended == Budget then LedOn(server, w, open, p) else Asked(server, w, open, most, p, ended)
  {
  }

  lemma AllLedOn(server: Server, w: Walk, open: bool, most: nat)
    requires LedOn(server, w, open, most)
    ensures Asked(server, w, open, most, most, Budget)
  {
  }

  /** The pages asked for: each after one that led on, as many as it may be, and
      the last one the reason to stop. */
  ghost predicate Asked(server: Server, w: Walk, open: bool, most: nat, pages: nat, stop: Stop) {
    && pages <= most
    && (pages > 0 ==> LedOn(server, w, open, pages - 1) && stop == EndsFor(w, open, ReplyAt(server, pages)))
    && (stop == Budget || pages == 0 ==> stop == Budget && pages == most)
  }

  /** Reads pages of a search, k items in all. A warning is for a list that ends
      short of its own count. */
  method Search(server: Server, walk: Walk, moved: int, open: bool, ghost list: seq<Item>)
    returns (points: seq<Item>, failed: bool, warned: bool, ghost k: nat, ghost pages: nat, ghost stop: Stop)
    requires Honest(list, server)
    ensures Asked(server, Bound(walk, moved), open, Most(walk, moved, open), pages, stop)
    ensures Emitted(server, list, points, k, pages)
    // An open search that no query failed and no cap cut short is read whole.
    ensures open && !failed && !warned && |list| <= CEILING ==> k == |list|
    ensures points <= list && (failed <==> stop == Error)
    ensures warned <==> stop == NoNext && k < |list|
    ensures StoppedAt(server, Bound(walk, moved), open, Most(walk, moved, open), list, pages, stop, k)
    ensures PagesAre(walk, moved, open, pages, stop)
    ensures HasClosed(walk, moved, open, list, points, failed, warned, stop)
  {
    var w, most: int := Bound(walk, moved), Most(walk, moved, open);
    points, failed, warned, k, pages, stop := [], false, false, 0, 0, Budget;
    var after, page := 0, 1;
    while page <= most
      invariant 1 <= page == pages + 1 <= most + 1 && stop == Budget && !warned && !failed
      invariant after == k && LedOn(server, w, open, pages) && Emitted(server, list, points, k, pages)
      decreases most - page
    {
      var ended;
      points, after, ended, warned := OnePage(server, w, open, page, after, points, list);
      OneMore(server, w, open, most, page, ended);
      k, pages, stop := |points|, page, ended;
      if ended != Budget {
        failed := ended == Error;
        SearchEnds(server, w, open, most, list, pages, stop);
        FindsTheBound(server, walk, moved, open, list, points, failed, warned, k, pages, stop);
        return;
      }
      page := page + 1;
    }
    AllLedOn(server, w, open, most);
    SearchEnds(server, w, open, most, list, pages, stop);
    FindsTheBound(server, walk, moved, open, list, points, failed, warned, k, pages, stop);
  }

  /** How many pages a search reads: the ceiling of them when it is open, or reads back
      to the sweep before, and otherwise those of its walk, one if it names none. */
  ghost predicate PagesAre(walk: Walk, moved: int, open: bool, pages: nat, stop: Stop) {
    var most := if open || moved != 0 || walk.pages < 0 then 100000 else if walk.pages == 0 then 1 else walk.pages;
    pages <= most && (stop == Budget ==> pages == most)
  }

  /** A closed search that nothing cut short has all that closed since the sweep before,
      or, where there was none, since the bound of its walk. */
  ghost predicate HasClosed(walk: Walk, moved: int, open: bool, list: seq<Item>, points: seq<Item>, failed: bool, warned: bool, stop: Stop) {
    !open && !failed && !warned && Indexed(list) && (if moved != 0 then |list| <= CEILING else stop != Budget) ==>
      forall item :: item in list && item.closedAt != 0 && item.closedAt >= (if moved != 0 then moved else walk.since) ==> item in points
  }

  lemma FindsTheBound(server: Server, walk: Walk, moved: int, open: bool, list: seq<Item>, points: seq<Item>, failed: bool,
                      warned: bool, k: nat, pages: nat, stop: Stop)
    requires Emitted(server, list, points, k, pages) && (failed <==> stop == Error) && (warned <==> stop == NoNext && k < |list|)
    requires StoppedAt(server, Bound(walk, moved), open, Most(walk, moved, open), list, pages, stop, k)
    ensures HasClosed(walk, moved, open, list, points, failed, warned, stop)
  {
    if !open && !failed && !warned && Indexed(list) && (if moved != 0 then |list| <= CEILING else stop != Budget) {
      NothingClosedIsMissed(list, Bound(walk, moved), k);
    }
  }

  /** One page of a search, and whether it ends it; Budget is that it does not. */
  method OnePage(server: Server, w: Walk, open: bool, page: nat, after: nat, points: seq<Item>, ghost list: seq<Item>)
    returns (more: seq<Item>, cursor: nat, ended: Stop, warned: bool)
    requires page >= 1 && Honest(list, server) && Emitted(server, list, points, after, page - 1)
    ensures Emitted(server, list, more, |more|, page) && ended == EndsFor(w, open, ReplyAt(server, page))
    ensures ended == Budget ==> cursor == |more|
    ensures warned <==> ended == NoNext && |more| < |list|
  {
    var reply := server(page, after);
    NextPage(server, list, points, after, page);
    more, cursor, ended, warned := points, after, Budget, false;
    if reply.Failed? {
      ended := Error;
    } else {
      more := points + reply.nodes;
      if !reply.hasNext {
        ended, warned := NoNext, reply.issueCount > |more|;
      } else if |reply.nodes| == 0 || (!open && w.Past(reply.nodes[|reply.nodes| - 1].updatedAt)) {
        ended := PastBound;
      } else {
        cursor := reply.cursor;
      }
    }
  }

  ghost predicate Emitted(server: Server, list: seq<Item>, points: seq<Item>, k: nat, n: nat) {
    k == ReadBy(server, n) <= |list| && points == list[..k]
  }

  lemma NextPage(server: Server, list: seq<Item>, points: seq<Item>, k: nat, p: nat)
    requires p >= 1 && Honest(list, server) && Emitted(server, list, points, k, p - 1)
    ensures server(p, k) == ReplyAt(server, p) && HonestPage(list, k, server(p, k))
    ensures var nodes := if server(p, k).Page? then server(p, k).nodes else [];
      Emitted(server, list, points + nodes, k + |nodes|, p)
  {
    assert HonestPage(list, k, server(p, k));
    if server(p, k).Page? {
      SplitPrefix(list, k, k + |server(p, k).nodes|);
    }
  }

  lemma {:induction false} ReadsOn(server: Server, w: Walk, open: bool, list: seq<Item>, n: nat)
    requires Honest(list, server) && LedOn(server, w, open, n)
    ensures n <= ReadBy(server, n) <= |list|
  {
    if n > 0 {
      ReadsOn(server, w, open, list, n - 1);
      assert LeadsOn(w, open, ReplyAt(server, n));
      NextPage(server, list, list[..ReadBy(server, n - 1)], ReadBy(server, n - 1), n);
    }
  }

  /** What a page that does not lead on says of the list. */
  lemma LastPage(w: Walk, open: bool, list: seq<Item>, at: nat, reply: Reply)
    requires at <= |list| && HonestPage(list, at, reply)
    ensures EndsFor(w, open, reply) == NoNext ==>
      reply.Page? && at + |reply.nodes| >= Min(|list|, SEARCH_CAP) && reply.issueCount == |list|
    ensures EndsFor(w, open, reply) == PastBound ==>
      reply.Page? && reply.nodes != [] && !open && w.Past(list[at + |reply.nodes| - 1].updatedAt)
  {
    if reply.Page? && reply.nodes != [] {
      assert reply.nodes[|reply.nodes| - 1] == list[at + |reply.nodes| - 1];
    }
  }

  /** How far a search has read when it stops. */
  lemma SearchEnds(server: Server, w: Walk, open: bool, most: nat, list: seq<Item>, pages: nat, stop: Stop)
    requires Honest(list, server) && Asked(server, w, open, most, pages, stop)
    ensures StoppedAt(server, w, open, most, list, pages, stop, ReadBy(server, pages))
  {
    if pages > 0 {
      ReadsOn(server, w, open, list, pages - 1);
      var k := ReadBy(server, pages - 1);
      NextPage(server, list, list[..k], k, pages);
      LastPage(w, open, list, k, ReplyAt(server, pages));
      if stop == Budget {
        ReadsOn(server, w, open, list, pages);
      }
    }
  }

  ghost predicate StoppedAt(server: Server, w: Walk, open: bool, most: nat, list: seq<Item>, pages: nat, stop: Stop, k: nat) {
    && k <= |list|
    && (stop == Budget ==> k >= most)
    && (stop == NoNext ==> k >= Min(|list|, SEARCH_CAP) && pages > 0)
    && (stop == PastBound ==> !open && k > 0 && w.Past(list[k - 1].updatedAt))
  }

  /** A closed search that stopped on its bound or on the real end of its list
      emitted every item closed at or after the bound, whatever page it sat on. */
  lemma NothingClosedIsMissed(list: seq<Item>, w: Walk, k: nat)
    requires Indexed(list) && k <= |list|
    requires k == |list| || (k > 0 && w.Past(list[k - 1].updatedAt))
    ensures forall item :: item in list && item.closedAt != 0 && !w.Past(item.closedAt) ==> item in list[..k]
  {
    forall item | item in list && item.closedAt != 0 && !w.Past(item.closedAt)
      ensures item in list[..k]
    {
      var i :| 0 <= i < |list| && list[i] == item;
      assert i < k && list[..k][i] == item;
    }
  }

  /** The order has to be the index's copy: were a copy ahead of the item's own
      updatedAt, a search would stop with an item of the bound behind it, as this
      one does. */
  method AheadOfItsOriginal() returns (list: seq<Item>, moved: int, points: seq<Item>)
    ensures |list| == 2 && list[0].indexed >= list[1].indexed && !Indexed(list)
    ensures list[1].closedAt != 0 && !Bound(Walk(0, 0), moved).Past(list[1].closedAt)
    ensures points == list[..1]
  {
    list, moved := [Item(1, 30, 5, 0), Item(2, 20, 20, 20)], 10;
    assert list[0].indexed > list[0].updatedAt;
    var failed, warned;
    ghost var k, pages, stop;
    points, failed, warned, k, pages, stop := Search(OneByOne(list), Walk(0, 0), moved, false, list);
    StopsOnTheFirst(list, Bound(Walk(0, 0), moved), Most(Walk(0, 0), moved, false), pages, stop);
  }

  /** A search of two items, one to a page. */
  function OneByOne(list: seq<Item>): Server
    requires |list| == 2
  {
    (n: nat, after: nat) => if after < 2 then Page(2, [list[after]], after == 0, after + 1) else Page(2, [], false, 0)
  }

  lemma StopsOnTheFirst(list: seq<Item>, w: Walk, most: nat, pages: nat, stop: Stop)
    requires |list| == 2 && w.Past(list[0].updatedAt) && most > 0 && Asked(OneByOne(list), w, false, most, pages, stop)
    ensures pages == 1 && ReadBy(OneByOne(list), 1) == 1
  {
    var server := OneByOne(list);
    assert ReadBy(server, 0) == 0;
    assert ReplyAt(server, 1) == Page(2, [list[0]], true, 1);
    NotLedOn(server, w, pages - 1);
  }

  lemma {:induction false} NotLedOn(server: Server, w: Walk, n: int)
    requires !LeadsOn(w, false, ReplyAt(server, 1))
    ensures n >= 1 ==> !LedOn(server, w, false, n)
  {
    if n > 1 {
      NotLedOn(server, w, n - 1);
    }
  }
}

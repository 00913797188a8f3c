/**
 * What happened to each issue and pull request, by the item's timeline or by the
 * list of its events: IssueEvents of
 * internal/collect/issueevents.go; and when an item read can be skipped:
 * Movement.ItemsSince of internal/collect/moved.go.
 */
module IssueEvents {
  import opened Lists
  import opened Walks
  import opened Cursors
  import opened ItemListings

  const TIMELINE_PAGE: nat := 100
  const LIST_PAGE: nat := 100
  const DEFAULT_PAGES: nat := 100
  /** The items of a page, with their events and without. */
  const WITH_EVENTS: nat := 10
  const LISTING: nat := 50

  /** Which of the two roads name an event: both, only the timeline, only the
      per-issue list. */
  datatype Road = EitherRoad | TimelineOnly | ListOnly

  datatype Event = Event(id: nat, at: int, road: Road)

  /** An issue or a pull request and what happened to it, oldest first. */
  datatype Item = Item(number: nat, updatedAt: int, stacked: bool, events: seq<Event>)

  /** What the timeline serves from a moment on. */
  function Timeline(events: seq<Event>, since: int): seq<Event> {
    if events == [] then []
    else
      var e := events[|events| - 1];
      Timeline(events[..|events| - 1], since) + if e.road != ListOnly && e.at >= since then [e] else []
  }

  /** What the per-issue list serves. */
  function Listed(events: seq<Event>): seq<Event> {
    if events == [] then []
    else
      var e := events[|events| - 1];
      Listed(events[..|events| - 1]) + if e.road != TimelineOnly then [e] else []
  }

  /** The rows a timeline gives: those of the types both roads know. */
  function Rendered(nodes: seq<Event>): seq<Event> {
    if nodes == [] then []
    else
      var e := nodes[|nodes| - 1];
      Rendered(nodes[..|nodes| - 1]) + if e.road == EitherRoad then [e] else []
  }

  /** The rows of a list inside the bound. */
  function Inside(w: Walk, rows: seq<Event>): seq<Event> {
    if rows == [] then []
    else
      var e := rows[|rows| - 1];
      Inside(w, rows[..|rows| - 1]) + if w.Past(e.at) then [] else [e]
  }

  /** The events a sweep is for. */
  function Wanted(w: Walk, item: Item): seq<Event> {
    Inside(w, Listed(item.events))
  }

  /** Those are the events of the item that its list names, dated at the bound or after
      it, each as often as it happened. */
  lemma WantedAre(w: Walk, events: seq<Event>, e: Event)
    requires forall x :: x in events ==> x.at > 0
    ensures multiset(Inside(w, Listed(events)))[e] ==
            if e.road != TimelineOnly && e.at >= w.since then multiset(events)[e] else 0
  {
    ListedAre(events, e);
    InsideAre(w, Listed(events), e);
  }

  lemma {:induction false} ListedAre(events: seq<Event>, e: Event)
    ensures multiset(Listed(events))[e] == if e.road != TimelineOnly then multiset(events)[e] else 0
    ensures forall x :: x in Listed(events) ==> x in events
  {
    if events != [] {
      var last, before := events[|events| - 1], events[..|events| - 1];
      ListedAre(before, e);
      SplitLast(events);
      OneMoreOf(before, last, e);
      OneMoreOf(Listed(before), last, e);
    }
  }

  lemma {:induction false} InsideAre(w: Walk, rows: seq<Event>, e: Event)
    requires forall x :: x in rows ==> x.at > 0
    ensures multiset(Inside(w, rows))[e] == if e.at >= w.since then multiset(rows)[e] else 0
  {
    if rows != [] {
      var last, before := rows[|rows| - 1], rows[..|rows| - 1];
      InsideAre(w, before, e);
      SplitLast(rows);
      OneMoreOf(before, last, e);
      OneMoreOf(Inside(w, before), last, e);
    }
  }

  lemma OneMoreOf<T>(s: seq<T>, last: T, x: T)
    ensures multiset(s + [last])[x] == multiset(s)[x] + if last == x then 1 else 0
  {
  }

  // What holds of an account.

  /** An event is dated, and no later than its item was last updated. */
  ghost predicate WellDated(item: Item) {
    item.updatedAt > 0 && forall e :: e in item.events ==> 0 < e.at <= item.updatedAt
  }

  /** Only an item in a stack has events the timeline has no type for. */
  ghost predicate OnlyStacksHide(item: Item) {
    forall e :: e in item.events && e.road == ListOnly ==> item.stacked
  }

  function Updated(): Item -> int {
    (item: Item) => item.updatedAt
  }

  ghost predicate Account(items: seq<Item>) {
    NewestFirst(Updated(), items) && forall i :: 0 <= i < |items| ==> WellDated(items[i]) && OnlyStacksHide(items[i])
  }

  // The two roads.

  /** An item as the listing serves it: its timeline from the bound on, as far
      as one page carries it. */
  datatype Node = Node(number: nat, updatedAt: int, stacked: bool, timeline: seq<Event>, more: bool)

  function NodeOf(w: Walk, item: Item): Node {
    var t := Timeline(item.events, w.since);
    Node(item.number, item.updatedAt, item.stacked, t[..Min(TIMELINE_PAGE, |t|)], |t| > TIMELINE_PAGE)
  }

  /** A timeline that is not cut renders what the list filtered by date would if
      and only if no event of a type it lacks lies inside the bound. */
  lemma RoadsAgreeIff(w: Walk, item: Item)
    requires WellDated(item) && !NodeOf(w, item).more
    ensures Rendered(NodeOf(w, item).timeline) == Wanted(w, item) <==>
            forall e :: e in item.events && e.road == ListOnly ==> w.Past(e.at)
  {
    var t := Timeline(item.events, w.since);
    assert t[..|t|] == t;
    if forall e :: e in item.events && e.road == ListOnly ==> w.Past(e.at) {
      SameFilter(w, item.events);
    } else {
      var e :| e in item.events && e.road == ListOnly && !w.Past(e.at);
      WantedHas(w, item.events, e);
      RenderedHas(t, e);
    }
  }

  lemma {:induction false} SameFilter(w: Walk, events: seq<Event>)
    requires forall e :: e in events ==> e.at > 0 && (e.road == ListOnly ==> w.Past(e.at))
    ensures Rendered(Timeline(events, w.since)) == Inside(w, Listed(events))
  {
    if events != [] {
      var e, before := events[|events| - 1], events[..|events| - 1];
      SameFilter(w, before);
      assert e in events;
      RenderedOne(Timeline(before, w.since), e);
      InsideOne(w, Listed(before), e);
    }
  }

  lemma {:induction false} WantedHas(w: Walk, events: seq<Event>, e: Event)
    requires e in events && e.road != TimelineOnly && !w.Past(e.at)
    ensures e in Inside(w, Listed(events))
  {
    var last, before := events[|events| - 1], events[..|events| - 1];
    assert events == before + [last];
    InsideOne(w, Listed(before), last);
    if e in before {
      WantedHas(w, before, e);
    }
  }

  lemma {:induction false} RenderedHas(nodes: seq<Event>, e: Event)
    requires e.road != EitherRoad
    ensures e !in Rendered(nodes)
  {
    if nodes != [] {
      RenderedHas(nodes[..|nodes| - 1], e);
    }
  }

  lemma RenderedOne(nodes: seq<Event>, e: Event)
    ensures Rendered(nodes + [e]) == if e.road == EitherRoad then Rendered(nodes) + [e] else Rendered(nodes)
    ensures nodes + [] == nodes
  {
    assert (nodes + [e])[..|nodes|] == nodes;
  }

  lemma InsideOne(w: Walk, rows: seq<Event>, e: Event)
    ensures Inside(w, rows + [e]) == if w.Past(e.at) then Inside(w, rows) else Inside(w, rows) + [e]
    ensures rows + [] == rows
  {
    assert (rows + [e])[..|rows|] == rows;
  }

  lemma {:induction false} InsideAppend(w: Walk, a: seq<Event>, b: seq<Event>)
    ensures Inside(w, a + b) == Inside(w, a) + Inside(w, b)
  {
    if b == [] {
      assert a + b == a;
    } else {
      var before, e := b[..|b| - 1], b[|b| - 1];
      InsideAppend(w, a, before);
      SplitLast(b);
      Regroup(a, before, [e]);
      InsideOne(w, before, e);
      InsideOne(w, a + before, e);
      Regroup(Inside(w, a), Inside(w, before), [e]);
    }
  }

  /** An item last updated before the bound has nothing in it. */
  lemma {:induction false} NothingInOldItem(w: Walk, events: seq<Event>, updatedAt: int)
    requires w.Past(updatedAt) && forall e :: e in events ==> 0 < e.at <= updatedAt
    ensures Inside(w, Listed(events)) == []
  {
    if events != [] {
      var e, before := events[|events| - 1], events[..|events| - 1];
      NothingInOldItem(w, before, updatedAt);
      assert e in events;
      InsideOne(w, Listed(before), e);
    }
  }

  // Servers.

  datatype RowsReply = Rows(rows: seq<Event>) | RowsRefused | RowsFailed

  /** What lists the items, and what lists the rows of one by its number: the
      queries of each are numbered on their own. */
  datatype Host = Host(list: Server<Node>, rows: (nat, nat, nat) -> RowsReply)

  function NodesOf(w: Walk, items: seq<Item>): seq<Node> {
    seq(|items|, i requires 0 <= i < |items| => NodeOf(w, items[i]))
  }

  function NodeUpdated(): Node -> int {
    (node: Node) => node.updatedAt
  }

  ghost function Nodes(w: Walk, pulls: seq<Item>, issues: seq<Item>): ItemListings.Both<Node> {
    ItemListings.Both(NodesOf(w, pulls), NodesOf(w, issues))
  }

  /** An item's own list, as the server has it, however often it is asked. */
  ghost predicate ListOf(host: Host, item: Item) {
    forall n: nat, p: nat {:trigger HonestRows(item, p, host.rows(n, item.number, p))} ::
      HonestRows(item, p, host.rows(n, item.number, p))
  }

  /** The items' own lists. */
  ghost predicate ListsOf(host: Host, items: seq<Item>) {
    forall i :: 0 <= i < |items| ==> ListOf(host, items[i])
  }

  /** Page p of an item's own list. */
  ghost predicate HonestRows(item: Item, p: nat, reply: RowsReply) {
    reply.Rows? && p >= 1 ==>
      var all, lo := Listed(item.events), LIST_PAGE * (p - 1);
      lo <= |all| ==> reply.rows == all[lo..Min(lo + LIST_PAGE, |all|)]
  }

  ghost predicate HonestHost(w: Walk, pulls: seq<Item>, issues: seq<Item>, host: Host) {
    && Account(pulls) && Account(issues)
    && Honest(Nodes(w, pulls, issues), host.list)
    && ListsOf(host, pulls) && ListsOf(host, issues)
  }

  /** An item's own list ends before the ceiling on pages. */
  ghost predicate Short(item: Item) {
    |Listed(item.events)| < LIST_PAGE * CEILING
  }

  // One item's own list. Page p of it is the p-th query since the read began.

  /** Why a read of it went no further: it ended, it had the ceiling of pages read,
      it was refused, which is the item being gone, or a query failed. */
  datatype RowsStop = Ended | Ceiling | Gone | Broke

  ghost function RowsAt(host: Host, number: nat, from: nat, p: nat): RowsReply
    requires p >= 1
  {
    host.rows(from + p - 1, number, p)
  }

  /** What a page stops the read for; Ceiling is nothing. */
  ghost function RowsEnd(reply: RowsReply): RowsStop {
    match reply
    case RowsRefused => Gone
    case RowsFailed => Broke
    case Rows(rows) => if |rows| < LIST_PAGE then Ended else Ceiling
  }

  ghost predicate RowsAsked(host: Host, number: nat, from: nat, pages: nat, stop: RowsStop) {
    && 1 <= pages <= CEILING
    && RowsLedOn(host, number, from, pages - 1)
    && stop == RowsEnd(RowsAt(host, number, from, pages))
    && (stop == Ceiling ==> pages == CEILING)
  }

  /** One item's events from its own list, every page of it, the rows filtered:
      those of the pages that came. */
  method ItemEvents(host: Host, number: nat, w: Walk, queries: nat, ghost item: Item)
    returns (points: seq<Event>, failed: bool, sent: nat, ghost fate: Fate, ghost stop: RowsStop)
    requires number == item.number && ListOf(host, item)
    ensures sent > queries && Fares(host, w, item, queries, sent - queries, stop, points)
    ensures fate == FateOf(queries, sent - queries, stop) && failed == fate.Failing()
  {
    points, sent := [], queries;
    var page := 1;
    assert Listed(item.events)[..0] == [];
    while page <= UNBOUNDED.Limit(1)
      invariant 1 <= page <= CEILING + 1 && sent == queries + page - 1
      invariant RowsLedOn(host, number, queries, page - 1) && RowsRead(w, item, points, page - 1)
      decreases CEILING - page
    {
      var reply, ended := host.rows(sent, number, page), Ceiling;
      assert HonestRows(item, page, host.rows(sent, item.number, page));
      sent := sent + 1;
      points, ended := TakeRows(w, reply, page, points, host, number, queries, item);
      if ended != Ceiling {
        return points, ended == Broke, sent, FateOf(queries, page, ended), ended;
      }
      page := page + 1;
    }
    FaresShort(host, w, item, queries, CEILING, Ceiling, points);
    return points, false, sent, FateOf(queries, CEILING, Ceiling), Ceiling;
  }

  /** What was asked of an item's own list, and what that leaves emitted of it. */
  ghost predicate Fares(host: Host, w: Walk, item: Item, from: nat, pages: nat, stop: RowsStop, points: seq<Event>) {
    && RowsAsked(host, item.number, from, pages, stop)
    && Rests(host, item, from, from + pages, FateOf(from, pages, stop))
    && points == Got(w, item, FateOf(from, pages, stop))
  }

  /** A read that stopped short has what the pages that came held. */
  lemma FaresShort(host: Host, w: Walk, item: Item, from: nat, pages: nat, stop: RowsStop, points: seq<Event>)
    requires RowsAsked(host, item.number, from, pages, stop) && stop != Ended
    requires RowsRead(w, item, points, if stop == Ceiling then pages else pages - 1)
    ensures Fares(host, w, item, from, pages, stop, points)
  {
  }

  ghost predicate RowsLedOn(host: Host, number: nat, from: nat, n: nat) {
    forall p: nat :: 1 <= p <= n ==> RowsEnd(RowsAt(host, number, from, p)) == Ceiling
  }

  /** The wanted events of the first n pages of an item's list, all of them full. */
  ghost predicate RowsRead(w: Walk, item: Item, points: seq<Event>, n: nat) {
    LIST_PAGE * n <= |Listed(item.events)| && points == Inside(w, Listed(item.events)[..LIST_PAGE * n])
  }

  /** What one page of an item's list makes of the points so far, and whether it
      ends the read. */
  method TakeRows(w: Walk, reply: RowsReply, page: nat, points: seq<Event>,
                  ghost host: Host, ghost number: nat, ghost from: nat, ghost item: Item)
    returns (all: seq<Event>, ended: RowsStop)
    requires 1 <= page <= CEILING && RowsLedOn(host, number, from, page - 1) && RowsRead(w, item, points, page - 1)
    requires number == item.number
    requires reply == RowsAt(host, number, from, page) && HonestRows(item, page, reply)
    ensures ended == RowsEnd(reply)
    ensures ended == Ceiling ==> RowsLedOn(host, number, from, page) && RowsRead(w, item, all, page)
    ensures ended != Ceiling ==> Fares(host, w, item, from, page, ended, all)
  {
    all := points;
    if !reply.Rows? {
      ended := if reply.RowsFailed? then Broke else Gone;
      FaresShort(host, w, item, from, page, ended, all);
    } else {
      var kept := KeepInside(w, reply.rows);
      NextRows(w, item, points, page, reply.rows);
      all, ended := points + kept, if |reply.rows| < LIST_PAGE then Ended else Ceiling;
    }
  }

  lemma NextRows(w: Walk, item: Item, points: seq<Event>, page: nat, rows: seq<Event>)
    requires page >= 1 && RowsRead(w, item, points, page - 1) && HonestRows(item, page, Rows(rows))
    ensures if |rows| < LIST_PAGE then points + Inside(w, rows) == Wanted(w, item)
            else RowsRead(w, item, points + Inside(w, rows), page)
  {
    var list, lo := Listed(item.events), LIST_PAGE * (page - 1);
    StretchOf(item, page, rows);
    if |rows| < LIST_PAGE {
      InsideNext(w, list, lo, |list|);
      assert list[..|list|] == list;
    } else {
      InsideNext(w, list, lo, LIST_PAGE * page);
    }
  }

  lemma StretchOf(item: Item, page: nat, rows: seq<Event>)
    requires page >= 1 && LIST_PAGE * (page - 1) <= |Listed(item.events)| && HonestRows(item, page, Rows(rows))
    ensures var list, lo := Listed(item.events), LIST_PAGE * (page - 1);
      if |rows| < LIST_PAGE then rows == list[lo..|list|] else LIST_PAGE * page <= |list| && rows == list[lo..LIST_PAGE * page]
  {
  }

  lemma InsideNext(w: Walk, list: seq<Event>, lo: nat, hi: nat)
    requires lo <= hi <= |list|
    ensures Inside(w, list[..hi]) == Inside(w, list[..lo]) + Inside(w, list[lo..hi])
  {
    SplitPrefix(list, lo, hi);
    InsideAppend(w, list[..lo], list[lo..hi]);
  }

  lemma InsidePrefix(w: Walk, rows: seq<Event>, k: nat)
    requires k <= |rows|
    ensures Inside(w, rows[..k]) <= Inside(w, rows)
  {
    assert rows == rows[..k] + rows[k..];
    InsideAppend(w, rows[..k], rows[k..]);
  }

  method KeepInside(w: Walk, rows: seq<Event>) returns (kept: seq<Event>)
    ensures kept == Inside(w, rows)
  {
    kept := [];
    var i := 0;
    assert rows[..0] == [];
    while i < |rows|
      invariant 0 <= i <= |rows| && kept == Inside(w, rows[..i])
    {
      assert rows[..i + 1] == rows[..i] + [rows[i]];
      InsideOne(w, rows[..i], rows[i]);
      if !w.Past(rows[i].at) {
        kept := kept + [rows[i]];
      }
      i := i + 1;
    }
    assert rows[..i] == rows;
  }

  method Render(nodes: seq<Event>) returns (rows: seq<Event>)
    ensures rows == Rendered(nodes)
  {
    rows := [];
    var i := 0;
    assert nodes[..0] == [];
    while i < |nodes|
      invariant 0 <= i <= |nodes| && rows == Rendered(nodes[..i])
    {
      assert nodes[..i + 1] == nodes[..i] + [nodes[i]];
      RenderedOne(nodes[..i], nodes[i]);
      if nodes[i].road == EitherRoad {
        rows := rows + [nodes[i]];
      }
      i := i + 1;
    }
    assert nodes[..i] == nodes;
  }

  ghost function WantedAll(w: Walk, items: seq<Item>): seq<Event> {
    Flat((item: Item) => Wanted(w, item), items)
  }

  lemma WantedAppend(w: Walk, a: seq<Item>, b: seq<Item>)
    ensures WantedAll(w, a + b) == WantedAll(w, a) + WantedAll(w, b)
  {
    FlatAppend((item: Item) => Wanted(w, item), a, b);
  }

  /** Past an item last updated before the bound there is nothing to want. */
  lemma NothingInOldItems(w: Walk, items: seq<Item>)
    requires forall i :: 0 <= i < |items| ==> WellDated(items[i]) && w.Past(items[i].updatedAt)
    ensures WantedAll(w, items) == []
  {
    forall item | item in items
      ensures Wanted(w, item) == []
    {
      NothingInOldItem(w, item.events, item.updatedAt);
    }
    FlatOfNothing((item: Item) => Wanted(w, item), items);
  }

  /** What became of an item: what is wanted of it was read whole, or its own list
      was asked for, from a query on, and stopped short: so many pages came, and
      it ran past the ceiling, was gone, or failed. */
  datatype Fate = Whole | Cut(from: nat, came: nat, stop: RowsStop) {
    predicate Failing() {
      Cut? && stop == Broke
    }

    function Asked(): nat
      requires Cut?
    {
      if stop == Ceiling then came else came + 1
    }
  }

  /** The fate of an item whose own list was asked for so many pages. */
  function FateOf(from: nat, pages: nat, stop: RowsStop): Fate
    requires pages > 0
  {
    if stop == Ended then Whole else Cut(from, if stop == Ceiling then pages else pages - 1, stop)
  }

  /** A fate rests on the replies of a stretch of queries. */
  ghost predicate Rests(host: Host, item: Item, lo: nat, hi: nat, fate: Fate) {
    lo <= hi && (fate.Cut? ==>
      && fate.stop != Ended && lo <= fate.from && fate.from + fate.Asked() <= hi
      && RowsAsked(host, item.number, fate.from, fate.Asked(), fate.stop)
      && (fate.stop == Ceiling ==> !Short(item)))
  }

  /** What is emitted of an item: what is wanted, of the pages that came. */
  ghost function Got(w: Walk, item: Item, fate: Fate): (r: seq<Event>)
    ensures r <= Wanted(w, item)
  {
    if fate.Whole? then Wanted(w, item)
    else
      var list := Listed(item.events);
      var came := Min(LIST_PAGE * fate.came, |list|);
      InsidePrefix(w, list, came);
      Inside(w, list[..came])
  }

  /** What is emitted of the items from one on, one fate for each. */
  ghost function Emitted(w: Walk, items: seq<Item>, lo: nat, fates: seq<Fate>): seq<Event>
    requires |fates| <= |items|
  {
    if |fates| <= lo then []
    else
      var k := |fates| - 1;
      Emitted(w, items, lo, fates[..k]) + Got(w, items[k], fates[k])
  }

  lemma {:induction false} EmittedAppend(w: Walk, items: seq<Item>, before: seq<Fate>, fates: seq<Fate>)
    requires before <= fates && |fates| <= |items|
    ensures Emitted(w, items, 0, fates) == Emitted(w, items, 0, before) + Emitted(w, items, |before|, fates)
  {
    if |fates| > |before| {
      var k := |fates| - 1;
      EmittedAppend(w, items, before, fates[..k]);
      Regroup(Emitted(w, items, 0, before), Emitted(w, items, |before|, fates[..k]), Got(w, items[k], fates[k]));
    } else {
      assert fates == before;
    }
  }

  /** What is wanted of them and not emitted: the rest of each list cut short. */
  ghost function LeftOut(w: Walk, items: seq<Item>, fates: seq<Fate>): seq<Event>
    requires |fates| <= |items|
  {
    if fates == [] then []
    else
      var k := |fates| - 1;
      LeftOut(w, items, fates[..k]) + Wanted(w, items[k])[|Got(w, items[k], fates[k])|..]
  }

  lemma {:induction false} EmittedAndLeftOut(w: Walk, items: seq<Item>, fates: seq<Fate>)
    requires |fates| <= |items|
    ensures multiset(Emitted(w, items, 0, fates)) + multiset(LeftOut(w, items, fates)) == multiset(WantedAll(w, items[..|fates|]))
  {
    if fates != [] {
      var k := |fates| - 1;
      EmittedAndLeftOut(w, items, fates[..k]);
      WantedOne(w, items, k);
      BagsAddUp(Emitted(w, items, 0, fates[..k]), LeftOut(w, items, fates[..k]), WantedAll(w, items[..k]),
                Got(w, items[k], fates[k]), Wanted(w, items[k]));
    }
  }

  lemma WantedOne(w: Walk, items: seq<Item>, k: nat)
    requires k < |items|
    ensures WantedAll(w, items[..k + 1]) == WantedAll(w, items[..k]) + Wanted(w, items[k])
  {
    assert items[..k + 1][..k] == items[..k];
  }

  lemma BagsAddUp<T>(a: seq<T>, b: seq<T>, all: seq<T>, got: seq<T>, wanted: seq<T>)
    requires multiset(a) + multiset(b) == multiset(all) && got <= wanted
    ensures multiset(a + got) + multiset(b + wanted[|got|..]) == multiset(all + wanted)
  {
    assert wanted == got + wanted[|got|..];
  }

  lemma {:induction false} NothingLeftOut(w: Walk, items: seq<Item>, fates: seq<Fate>)
    requires |fates| <= |items| && forall i :: 0 <= i < |fates| ==> fates[i].Whole?
    ensures LeftOut(w, items, fates) == []
  {
    if fates != [] {
      NothingLeftOut(w, items, fates[..|fates| - 1]);
    }
  }

  /** The fates of the first items by the queries so far. After the failure of a
      query there is no further item. */
  ghost predicate FatesOk(host: Host, items: seq<Item>, hi: nat, fates: seq<Fate>) {
    |fates| <= |items| && forall i :: 0 <= i < |fates| ==> FateOk(host, items, hi, fates, i)
  }

  ghost predicate FateOk(host: Host, items: seq<Item>, hi: nat, fates: seq<Fate>, i: nat)
    requires i < |fates| <= |items|
  {
    Rests(host, items[i], 0, hi, fates[i]) && (fates[i].Failing() ==> i == |fates| - 1)
  }

  predicate Broken(fates: seq<Fate>) {
    fates != [] && fates[|fates| - 1].Failing()
  }

  /** One item by the road it takes: an ordinary sweep reads the timeline, and
      the list of an item the timeline cannot answer for; a backfill reads the
      list of every item. */
  method Visit(host: Host, byTimeline: bool, w: Walk, queries: nat, node: Node, ghost item: Item)
    returns (points: seq<Event>, failed: bool, sent: nat, ghost fate: Fate)
    requires WellDated(item) && OnlyStacksHide(item) && node == NodeOf(w, item)
    requires ListOf(host, item)
    ensures Rests(host, item, queries, sent, fate) && failed == fate.Failing()
    ensures points == Got(w, item, fate)
    // The timeline answers for an item without a query, and whole.
    ensures byTimeline && !node.more && !node.stacked ==> sent == queries && fate == Whole
  {
    if byTimeline && !node.more && !node.stacked {
      RoadsAgreeIff(w, item);
      points := Render(node.timeline);
      return points, false, queries, Whole;
    }
    ghost var stop;
    points, failed, sent, fate, stop := ItemEvents(host, node.number, w, queries, item);
  }

  /** Nothing is wanted of an item last updated before the bound, and nothing is
      asked about it. */
  method VisitOrSkip(host: Host, byTimeline: bool, w: Walk, queries: nat, node: Node, ghost item: Item)
    returns (points: seq<Event>, failed: bool, sent: nat, ghost fate: Fate)
    requires WellDated(item) && OnlyStacksHide(item) && node == NodeOf(w, item) && ListOf(host, item)
    ensures Rests(host, item, queries, sent, fate) && failed == fate.Failing()
    ensures points == Got(w, item, fate)
    ensures w.Past(item.updatedAt) ==> sent == queries && fate == Whole
  {
    if w.Past(node.updatedAt) {
      NothingInOldItem(w, item.events, item.updatedAt);
      return [], false, queries, Whole;
    }
    points, failed, sent, fate := Visit(host, byTimeline, w, queries, node, item);
  }

  /** What has been emitted of the items behind the ones before. */
  ghost predicate VisitedTo(host: Host, w: Walk, items: seq<Item>, before: seq<Fate>, sent: nat, fates: seq<Fate>,
                            points: seq<Event>) {
    && before <= fates && FatesOk(host, items, sent, fates)
    && points == Emitted(w, items, |before|, fates)
  }

  lemma OneItemMore(host: Host, w: Walk, items: seq<Item>, before: seq<Fate>, sent: nat, fates: seq<Fate>,
                    points: seq<Event>, now: nat, fate: Fate)
    requires VisitedTo(host, w, items, before, sent, fates, points) && !Broken(fates) && |fates| < |items|
    requires Rests(host, items[|fates|], sent, now, fate)
    ensures VisitedTo(host, w, items, before, now, fates + [fate], points + Got(w, items[|fates|], fate))
    ensures Broken(fates + [fate]) == fate.Failing()
  {
    OneFateMore(host, items, sent, fates, now, fate);
    EmittedOne(w, items, |before|, fates, fate);
  }

  lemma EmittedOne(w: Walk, items: seq<Item>, lo: nat, fates: seq<Fate>, fate: Fate)
    requires lo <= |fates| < |items|
    ensures Emitted(w, items, lo, fates + [fate]) == Emitted(w, items, lo, fates) + Got(w, items[|fates|], fate)
  {
    assert (fates + [fate])[..|fates|] == fates;
  }

  lemma OneFateMore(host: Host, items: seq<Item>, sent: nat, fates: seq<Fate>, now: nat, fate: Fate)
    requires FatesOk(host, items, sent, fates) && !Broken(fates) && |fates| < |items|
    requires Rests(host, items[|fates|], sent, now, fate)
    ensures FatesOk(host, items, now, fates + [fate])
  {
    var all := fates + [fate];
    forall i | 0 <= i < |all|
      ensures FateOk(host, items, now, all, i)
    {
      assert i < |fates| ==> FateOk(host, items, sent, fates, i);
    }
  }

  ghost predicate PageOf(w: Walk, items: seq<Item>, at: nat, nodes: seq<Node>) {
    at + |nodes| <= |items| && forall i :: 0 <= i < |nodes| ==> nodes[i] == NodeOf(w, items[at + i])
  }

  lemma NoneVisited(host: Host, w: Walk, items: seq<Item>, fates: seq<Fate>, sent: nat)
    requires FatesOk(host, items, sent, fates)
    ensures VisitedTo(host, w, items, fates, sent, fates, [])
  {
  }

  /** The items of a page in turn, up to the first that fails. */
  method VisitEach(host: Host, byTimeline: bool, w: Walk, queries: nat, nodes: seq<Node>,
                   ghost items: seq<Item>, ghost before: seq<Fate>)
    returns (points: seq<Event>, failed: bool, sent: nat, ghost fates: seq<Fate>)
    requires Account(items) && ListsOf(host, items) && PageOf(w, items, |before|, nodes)
    requires FatesOk(host, items, queries, before) && !Broken(before)
    ensures sent >= queries && VisitedTo(host, w, items, before, sent, fates, points) && failed == Broken(fates)
    ensures if failed then |fates| <= |before| + |nodes| else |fates| == |before| + |nodes|
  {
    points, failed, sent, fates := [], false, queries, before;
    NoneVisited(host, w, items, before, queries);
    var i := 0;
    while i < |nodes|
      invariant 0 <= i <= |nodes| && |fates| == |before| + i && sent >= queries && !failed && !Broken(fates)
      invariant VisitedTo(host, w, items, before, sent, fates, points)
    {
      points, failed, sent, fates := VisitNext(host, byTimeline, w, sent, nodes, i, points, items, before, fates);
      if failed {
        return;
      }
      i := i + 1;
    }
  }

  method VisitNext(host: Host, byTimeline: bool, w: Walk, queries: nat, nodes: seq<Node>, i: nat, points: seq<Event>,
                   ghost items: seq<Item>, ghost before: seq<Fate>, ghost fates: seq<Fate>)
    returns (all: seq<Event>, failed: bool, sent: nat, ghost now: seq<Fate>)
    requires Account(items) && ListsOf(host, items) && PageOf(w, items, |before|, nodes)
    requires i < |nodes| && |fates| == |before| + i
    requires VisitedTo(host, w, items, before, queries, fates, points) && !Broken(fates)
    ensures sent >= queries && VisitedTo(host, w, items, before, sent, now, all) && failed == Broken(now)
    ensures |now| == |fates| + 1
  {
    var more;
    ghost var fate;
    more, failed, sent, fate := VisitOrSkip(host, byTimeline, w, queries, nodes[i], items[|fates|]);
    OneItemMore(host, w, items, before, queries, fates, points, sent, fate);
    all, now := points + more, fates + [fate];
  }

  lemma ReadOutIsAll(w: Walk, items: seq<Item>, at: nat)
    requires Account(items) && ReadOut(w, NodeUpdated(), NodesOf(w, items), at)
    ensures WantedAll(w, items[..at]) == WantedAll(w, items)
  {
    var rest := items[at..];
    assert items[..at] + rest == items;
    WantedAppend(w, items[..at], rest);
    assert at > 0 && at < |items| ==> NodesOf(w, items)[at - 1].updatedAt == Updated()(items[at - 1]);
    forall i | 0 <= i < |rest|
      ensures WellDated(rest[i]) && w.Past(rest[i].updatedAt)
    {
      assert rest[i] == items[at + i] && Updated()(items[at - 1]) >= Updated()(items[at + i]);
    }
    NothingInOldItems(w, rest);
  }

  // The walk.

  function PlanOf(w: Walk, byTimeline: bool): Plan<Node> {
    Plan(w, NodeUpdated(), if byTimeline then WITH_EVENTS else LISTING, false, w.Limit(DEFAULT_PAGES))
  }

  /** Every event a sweep is for, as often as it should emit it. */
  ghost function AllWanted(w: Walk, pulls: seq<Item>, issues: seq<Item>): multiset<Event> {
    multiset(WantedAll(w, pulls)) + multiset(WantedAll(w, issues))
  }

  /** The fates of the items of a list that came, unless a failure kept some of them
      from being visited. */
  ghost predicate Accounted(host: Host, items: seq<Item>, at: nat, sent: nat, fates: seq<Fate>) {
    |fates| <= at <= |items| && FatesOk(host, items, sent, fates) && (!Broken(fates) ==> |fates| == at)
  }

  /** What has been emitted of the first i pull requests and the first j issues. */
  ghost predicate EmitsBoth(host: Host, w: Walk, pulls: seq<Item>, issues: seq<Item>, i: nat, j: nat, sent: nat,
                            points: seq<Event>, p: seq<Fate>, q: seq<Fate>) {
    && Accounted(host, pulls, i, sent, p) && Accounted(host, issues, j, sent, q)
    && multiset(points) == multiset(Emitted(w, pulls, 0, p)) + multiset(Emitted(w, issues, 0, q))
  }

  /** One list's half of a page, when it was asked for, and whether and from where
      it is asked for again. */
  method ReadHalf(host: Host, byTimeline: bool, w: Walk, queries: nat, asked: bool, part: Slice<Node>,
                  ghost items: seq<Item>, ghost at: nat, ghost before: seq<Fate>)
    returns (points: seq<Event>, failed: bool, sent: nat, again: bool, cursor: nat, ghost end: nat, ghost fates: seq<Fate>)
    requires Account(items) && ListsOf(host, items) && (asked ==> HonestSlice(NodesOf(w, items), at, part))
    requires Accounted(host, items, at, queries, before) && !Broken(before)
    ensures sent >= queries && end == (if asked then at + |part.nodes| else at)
    ensures Accounted(host, items, end, sent, fates) && Broken(fates) == failed
    ensures Emitted(w, items, 0, fates) == Emitted(w, items, 0, before) + points
    ensures again == (asked && More(w, NodeUpdated(), part)) && (again ==> cursor == part.cursor)
  {
    if !asked {
      return [], false, queries, false, 0, at, before;
    }
    end := at + |part.nodes|;
    points, failed, sent, fates := VisitEach(host, byTimeline, w, queries, part.nodes, items, before);
    EmittedAppend(w, items, before, fates);
    // The second test never fails: a promised page has a cursor.
    again := More(w, NodeUpdated(), part) && part.cursor != 0;
    cursor := if again then part.cursor else 0;
  }

  lemma StillAccounted(host: Host, items: seq<Item>, at: nat, sent: nat, fates: seq<Fate>, now: nat)
    requires Accounted(host, items, at, sent, fates) && sent <= now
    ensures Accounted(host, items, at, now, fates)
  {
    forall i | 0 <= i < |fates|
      ensures FateOk(host, items, now, fates, i)
    {
      assert FateOk(host, items, sent, fates, i);
    }
  }

  lemma AfterIssues(host: Host, w: Walk, pulls: seq<Item>, issues: seq<Item>, i: nat, j: nat, sent: nat,
                    points: seq<Event>, p: seq<Fate>, q: seq<Fate>, l: nat, now: nat, rows: seq<Event>, and: seq<Fate>)
    requires EmitsBoth(host, w, pulls, issues, i, j, sent, points, p, q) && sent <= now
    requires Accounted(host, issues, l, now, and) && Emitted(w, issues, 0, and) == Emitted(w, issues, 0, q) + rows
    ensures EmitsBoth(host, w, pulls, issues, i, l, now, points + rows, p, and)
  {
    StillAccounted(host, pulls, i, sent, p, now);
    assert multiset(points + rows) == multiset(points) + multiset(rows);
  }

  lemma AfterPulls(host: Host, w: Walk, pulls: seq<Item>, issues: seq<Item>, i: nat, j: nat, sent: nat,
                   points: seq<Event>, p: seq<Fate>, q: seq<Fate>, k: nat, now: nat, rows: seq<Event>, after: seq<Fate>)
    requires EmitsBoth(host, w, pulls, issues, i, j, sent, points, p, q) && sent <= now
    requires Accounted(host, pulls, k, now, after) && Emitted(w, pulls, 0, after) == Emitted(w, pulls, 0, p) + rows
    ensures EmitsBoth(host, w, pulls, issues, k, j, now, points + rows, after, q)
  {
    StillAccounted(host, issues, j, sent, q, now);
    assert multiset(points + rows) == multiset(points) + multiset(rows);
  }

  /** A page of the listing: what both halves of it emit, and what is asked next. A
      failure about an issue leaves the pull requests of the page unread. */
  method ReadPage(host: Host, byTimeline: bool, w: Walk, queries: nat, ask: Ask, reply: Reply<Node>, points: seq<Event>,
                  ghost pulls: seq<Item>, ghost issues: seq<Item>, ghost i: nat, ghost j: nat, ghost p: seq<Fate>, ghost q: seq<Fate>)
    returns (more: seq<Event>, failed: bool, sent: nat, next: Ask, ghost k: nat, ghost l: nat, ghost after: seq<Fate>, ghost and: seq<Fate>)
    requires Account(pulls) && Account(issues) && ListsOf(host, pulls) && ListsOf(host, issues) && reply.Page?
    requires ask.withPulls ==> HonestSlice(NodesOf(w, pulls), i, reply.pulls)
    requires ask.withIssues ==> HonestSlice(NodesOf(w, issues), j, reply.issues)
    requires EmitsBoth(host, w, pulls, issues, i, j, queries, points, p, q) && !Broken(p) && !Broken(q)
    ensures EmitsBoth(host, w, pulls, issues, k, l, sent, more, after, and)
    ensures failed == (Broken(after) || Broken(and)) && !(Broken(after) && Broken(and))
    ensures l == j + Held(ask, reply, Issues) && k == if Broken(and) then i else i + Held(ask, reply, Pulls)
    ensures !failed ==> NextOf(w, ask, reply, next)
  {
    var again, cursor;
    more, failed, sent, again, cursor, l, and := ReadIssues(host, byTimeline, w, queries, ask, reply, points, pulls, issues, i, j, p, q);
    next, k, after := ask.(withIssues := again, issueAfter := cursor), i, p;
    if failed {
      return;
    }
    more, failed, sent, again, cursor, k, after := ReadPulls(host, byTimeline, w, sent, ask, reply, more, pulls, issues, i, l, p, and);
    next := next.(withPulls := again, pullAfter := cursor);
  }

  method ReadIssues(host: Host, byTimeline: bool, w: Walk, queries: nat, ask: Ask, reply: Reply<Node>, points: seq<Event>,
                    ghost pulls: seq<Item>, ghost issues: seq<Item>, ghost i: nat, ghost j: nat, ghost p: seq<Fate>, ghost q: seq<Fate>)
    returns (more: seq<Event>, failed: bool, sent: nat, again: bool, cursor: nat, ghost l: nat, ghost and: seq<Fate>)
    requires Account(issues) && ListsOf(host, issues) && reply.Page?
    requires ask.withIssues ==> HonestSlice(NodesOf(w, issues), j, reply.issues)
    requires EmitsBoth(host, w, pulls, issues, i, j, queries, points, p, q) && !Broken(q)
    ensures EmitsBoth(host, w, pulls, issues, i, l, sent, more, p, and) && Broken(and) == failed
    ensures l == j + Held(ask, reply, Issues)
    ensures again == (ask.withIssues && More(w, NodeUpdated(), reply.issues)) && (again ==> cursor == reply.issues.cursor)
  {
    var rows;
    rows, failed, sent, again, cursor, l, and :=
      ReadHalf(host, byTimeline, w, queries, ask.withIssues, reply.issues, issues, j, q);
    AfterIssues(host, w, pulls, issues, i, j, queries, points, p, q, l, sent, rows, and);
    more := points + rows;
  }

  method ReadPulls(host: Host, byTimeline: bool, w: Walk, queries: nat, ask: Ask, reply: Reply<Node>, points: seq<Event>,
                   ghost pulls: seq<Item>, ghost issues: seq<Item>, ghost i: nat, ghost j: nat, ghost p: seq<Fate>, ghost q: seq<Fate>)
    returns (more: seq<Event>, failed: bool, sent: nat, again: bool, cursor: nat, ghost k: nat, ghost after: seq<Fate>)
    requires Account(pulls) && ListsOf(host, pulls) && reply.Page?
    requires ask.withPulls ==> HonestSlice(NodesOf(w, pulls), i, reply.pulls)
    requires EmitsBoth(host, w, pulls, issues, i, j, queries, points, p, q) && !Broken(p)
    ensures EmitsBoth(host, w, pulls, issues, k, j, sent, more, after, q) && Broken(after) == failed
    ensures k == i + Held(ask, reply, Pulls)
    ensures again == (ask.withPulls && More(w, NodeUpdated(), reply.pulls)) && (again ==> cursor == reply.pulls.cursor)
  {
    var rows;
    rows, failed, sent, again, cursor, k, after :=
      ReadHalf(host, byTimeline, w, queries, ask.withPulls, reply.pulls, pulls, i, p);
    AfterPulls(host, w, pulls, issues, i, j, queries, points, p, q, k, sent, rows, after);
    more := points + rows;
  }

  ghost predicate NextOf(w: Walk, ask: Ask, reply: Reply<Node>, next: Ask)
    requires reply.Page?
  {
    && next.first == ask.first
    && next.withPulls == (ask.withPulls && More(w, NodeUpdated(), reply.pulls))
    && next.withIssues == (ask.withIssues && More(w, NodeUpdated(), reply.issues))
    && (next.withPulls ==> next.pullAfter == reply.pulls.cursor)
    && (next.withIssues ==> next.issueAfter == reply.issues.cursor)
  }

  /** Where a sweep stands after a log of the listing: every item those pages held
      was visited, i pull requests and j issues. */
  ghost predicate Swept(host: Host, log: seq<Ask>, i: nat, j: nat, p: seq<Fate>, q: seq<Fate>) {
    i == ReadIn(host.list, log, Pulls) && j == ReadIn(host.list, log, Issues) && !Broken(p) && !Broken(q)
  }

  /** Where it stands when a query about an item of the last page failed: the issues
      of a page go first. */
  ghost predicate BrokenAt(host: Host, log: seq<Ask>, i: nat, j: nat, p: seq<Fate>, q: seq<Fate>) {
    && log != [] && j == ReadIn(host.list, log, Issues)
    && if Broken(q) then !Broken(p) && i == ReadIn(host.list, log[..|log| - 1], Pulls)
       else Broken(p) && i == ReadIn(host.list, log, Pulls)
  }

  /** How a sweep ends: as its listing does, or broken off where a query about an
      item failed. */
  datatype End = Listing(stop: Stop) | BrokenOff

  ghost predicate EndsAs(host: Host, byTimeline: bool, w: Walk, log: seq<Ask>, next: Ask, end: End, i: nat, j: nat,
                         p: seq<Fate>, q: seq<Fate>) {
    && IsLog(host.list, PlanOf(w, byTimeline), log)
    && match end
       case Listing(stop) => StopsFor(host.list, PlanOf(w, byTimeline), log, next, stop) && Swept(host, log, i, j, p, q)
       case BrokenOff => BrokenAt(host, log, i, j, p, q)
  }

  /** What holds between two pages: the log so far, what is asked next, and what has
      been emitted. */
  ghost predicate Stands(host: Host, byTimeline: bool, w: Walk, pulls: seq<Item>, issues: seq<Item>, log: seq<Ask>, ask: Ask,
                         i: nat, j: nat, sent: nat, points: seq<Event>, p: seq<Fate>, q: seq<Fate>) {
    && IsLog(host.list, PlanOf(w, byTimeline), log) && IsNext(host.list, PlanOf(w, byTimeline), log, ask)
    && |log| == PagesIn(host.list, log) <= w.Limit(DEFAULT_PAGES)
    && Swept(host, log, i, j, p, q) && EmitsBoth(host, w, pulls, issues, i, j, sent, points, p, q)
  }

  /** A sweep: page after page of the listing, and the events of every item on them
      that is inside the bound. p and q are what became of the first i
      pull requests and the first j issues, item by item. */
  method Collect(host: Host, byTimeline: bool, w: Walk, ghost pulls: seq<Item>, ghost issues: seq<Item>)
    returns (points: seq<Event>, failed: bool, ghost log: seq<Ask>, ghost next: Ask, ghost end: End, ghost sent: nat,
             ghost i: nat, ghost j: nat, ghost p: seq<Fate>, ghost q: seq<Fate>)
    requires HonestHost(w, pulls, issues, host)
    ensures IsEnd(host, byTimeline, w, pulls, issues, log, next, end, i, j, sent, points, p, q)
    ensures failed <==> end in {BrokenOff, Listing(GaveUp)}
  {
    points, failed, log, i, j, p, q := [], false, [], 0, 0, [], [];
    var ask := Ask(if byTimeline then WITH_EVENTS else LISTING, true, 0, true, 0);
    var queries, page := 0, 1;
    while page <= w.Limit(DEFAULT_PAGES) && (ask.withIssues || ask.withPulls)
      invariant Stands(host, byTimeline, w, pulls, issues, log, ask, i, j, queries, points, p, q) && page == |log| + 1
      decreases w.Limit(DEFAULT_PAGES) - page
    {
      var reply, ended := host.list(page - 1, ask), None;
      points, queries, ask, ended, log, i, j, p, q :=
        Take(host, byTimeline, w, queries, ask, reply, points, log, pulls, issues, i, j, p, q);
      page := page + 1;
      if ended.Some? {
        failed, next, end, sent := ended.value != Listing(NotHere), ask, ended.value, queries;
        SweepEnds(host, byTimeline, w, pulls, issues, log, next, end, i, j, sent, points, p, q);
        return;
      }
    }
    next, end, sent := ask, Listing(if Idle(ask) then Done else Budget), queries;
    ListingEnds(host, byTimeline, w, pulls, issues, log, ask, i, j, sent, points, p, q);
  }

  /** What one reply of the listing makes of the points and of what is asked next,
      or how it ends the sweep. */
  method Take(host: Host, byTimeline: bool, w: Walk, queries: nat, ask: Ask, reply: Reply<Node>, points: seq<Event>,
              ghost log: seq<Ask>, ghost pulls: seq<Item>, ghost issues: seq<Item>, ghost i: nat, ghost j: nat,
              ghost p: seq<Fate>, ghost q: seq<Fate>)
    returns (more: seq<Event>, sent: nat, next: Ask, ended: Option<End>, ghost all: seq<Ask>,
             ghost k: nat, ghost l: nat, ghost after: seq<Fate>, ghost and: seq<Fate>)
    requires HonestHost(w, pulls, issues, host) && reply == host.list(|log|, ask) && !Idle(ask)
    requires |log| < w.Limit(DEFAULT_PAGES) && Stands(host, byTimeline, w, pulls, issues, log, ask, i, j, queries, points, p, q)
    ensures all == log + [ask]
    ensures ended.None? ==> Stands(host, byTimeline, w, pulls, issues, all, next, k, l, sent, more, after, and)
    ensures ended.Some? ==> ended.value in {Listing(NotHere), Listing(GaveUp), BrokenOff}
    ensures ended.Some? ==> EndsAs(host, byTimeline, w, all, next, ended.value, k, l, after, and)
    ensures ended.Some? ==> EmitsBoth(host, w, pulls, issues, k, l, sent, more, after, and)
  {
    all := log + [ask];
    more, sent, next, ended, k, l, after, and := points, queries, ask, None, i, j, p, q;
    if !reply.Page? {
      ended := Some(Listing(if reply.Refused? then NotHere else GaveUp));
      NoPage(host, byTimeline, w, log, ask, i, j, p, q);
      return;
    }
    AsksFor(host, byTimeline, w, pulls, issues, log, ask);
    var failed;
    more, failed, sent, next, k, l, after, and :=
      ReadPage(host, byTimeline, w, queries, ask, reply, points, pulls, issues, i, j, p, q);
    if failed {
      ended := Some(BrokenOff);
      BreaksOff(host, byTimeline, w, log, ask, next, i, j, k, l, after, and);
    } else {
      AsksNext(host, byTimeline, w, pulls, issues, log, ask, next);
    }
  }

  /** A reply that is no page ends the sweep where it stood. */
  lemma NoPage(host: Host, byTimeline: bool, w: Walk, log: seq<Ask>, ask: Ask, i: nat, j: nat, p: seq<Fate>, q: seq<Fate>)
    requires IsLog(host.list, PlanOf(w, byTimeline), log) && IsNext(host.list, PlanOf(w, byTimeline), log, ask) && !Idle(ask)
    requires PagesIn(host.list, log) < w.Limit(DEFAULT_PAGES) && Swept(host, log, i, j, p, q) && !host.list(|log|, ask).Page?
    ensures EndsAs(host, byTimeline, w, log + [ask], ask,
                   Listing(if host.list(|log|, ask).Refused? then NotHere else GaveUp), i, j, p, q)
  {
    LogGrows(host.list, PlanOf(w, byTimeline), log, ask);
  }

  lemma BreaksOff(host: Host, byTimeline: bool, w: Walk, log: seq<Ask>, ask: Ask, next: Ask, i: nat, j: nat, k: nat, l: nat,
                  p: seq<Fate>, q: seq<Fate>)
    requires IsLog(host.list, PlanOf(w, byTimeline), log) && IsNext(host.list, PlanOf(w, byTimeline), log, ask) && !Idle(ask)
    requires PagesIn(host.list, log) < w.Limit(DEFAULT_PAGES)
    requires i == ReadIn(host.list, log, Pulls) && j == ReadIn(host.list, log, Issues)
    requires l == j + Held(ask, host.list(|log|, ask), Issues)
    requires k == if Broken(q) then i else i + Held(ask, host.list(|log|, ask), Pulls)
    requires Broken(q) != Broken(p)
    ensures EndsAs(host, byTimeline, w, log + [ask], next, BrokenOff, k, l, p, q)
  {
    LogGrows(host.list, PlanOf(w, byTimeline), log, ask);
    assert (log + [ask])[..|log|] == log;
  }

  lemma AsksFor(host: Host, byTimeline: bool, w: Walk, pulls: seq<Item>, issues: seq<Item>, log: seq<Ask>, ask: Ask)
    requires HonestHost(w, pulls, issues, host) && IsNext(host.list, PlanOf(w, byTimeline), log, ask)
    requires host.list(|log|, ask).Page?
    ensures ask.withPulls ==> HonestSlice(NodesOf(w, pulls), ReadIn(host.list, log, Pulls), host.list(|log|, ask).pulls)
    ensures ask.withIssues ==> HonestSlice(NodesOf(w, issues), ReadIn(host.list, log, Issues), host.list(|log|, ask).issues)
  {
    assert HonestReply(Nodes(w, pulls, issues), ask, host.list(|log|, ask));
    assert ask.With(Pulls) == ask.withPulls && ask.With(Issues) == ask.withIssues;
  }

  lemma AsksNext(host: Host, byTimeline: bool, w: Walk, pulls: seq<Item>, issues: seq<Item>, log: seq<Ask>, ask: Ask, next: Ask)
    requires HonestHost(w, pulls, issues, host) && IsLog(host.list, PlanOf(w, byTimeline), log) && !Idle(ask)
    requires IsNext(host.list, PlanOf(w, byTimeline), log, ask) && PagesIn(host.list, log) < w.Limit(DEFAULT_PAGES)
    requires host.list(|log|, ask).Page? && NextOf(w, ask, host.list(|log|, ask), next)
    ensures IsLog(host.list, PlanOf(w, byTimeline), log + [ask]) && IsNext(host.list, PlanOf(w, byTimeline), log + [ask], next)
    ensures PagesIn(host.list, log + [ask]) == PagesIn(host.list, log) + 1
    ensures forall kind: Kind :: ReadIn(host.list, log + [ask], kind) == ReadIn(host.list, log, kind) + Held(ask, host.list(|log|, ask), kind)
  {
    LogGrows(host.list, PlanOf(w, byTimeline), log, ask);
    var reply := host.list(|log|, ask);
    forall kind: Kind
      ensures next.With(kind) <==> Wants(PlanOf(w, byTimeline), ask, reply, kind)
      ensures next.With(kind) ==> next.After(kind) == reply.Part(kind).cursor
    {
      if kind == Pulls {
        assert next.With(kind) == next.withPulls && reply.Part(kind) == reply.pulls;
      } else {
        assert next.With(kind) == next.withIssues && reply.Part(kind) == reply.issues;
      }
    }
    AfterPage(host.list, PlanOf(w, byTimeline), Nodes(w, pulls, issues), log, ask, next);
  }

  /** The listing let the sweep finish: it wanted nothing more, or its pages can
      hold both lists and it filled them. */
  ghost predicate Suffices(host: Host, byTimeline: bool, w: Walk, pulls: seq<Item>, issues: seq<Item>, stop: Stop) {
    || stop == Done
    || (stop == Budget && Fills(Nodes(w, pulls, issues), host.list)
        && PlanOf(w, byTimeline).first * w.Limit(DEFAULT_PAGES) >= |pulls|
        && PlanOf(w, byTimeline).first * w.Limit(DEFAULT_PAGES) >= |issues|)
  }

  /** What a sweep is worth when it ends: no event is emitted but those wanted, none
      more than once; and with pages enough, none is left out but those of the
      lists that stopped short. */
  ghost predicate Worth(host: Host, byTimeline: bool, w: Walk, pulls: seq<Item>, issues: seq<Item>, log: seq<Ask>, next: Ask,
                        end: End, points: seq<Event>, p: seq<Fate>, q: seq<Fate>) {
    && |p| <= |pulls| && |q| <= |issues| && multiset(points) <= AllWanted(w, pulls, issues)
    && (end.Listing? ==> ReadsAsFar(host.list, PlanOf(w, byTimeline), Nodes(w, pulls, issues), log, next, end.stop))
    && (end.Listing? && Suffices(host, byTimeline, w, pulls, issues, end.stop) ==>
          AllWanted(w, pulls, issues) == multiset(points) + multiset(LeftOut(w, pulls, p)) + multiset(LeftOut(w, issues, q)))
  }

  /** How a sweep ends, what it emitted, and what that is worth. */
  ghost predicate IsEnd(host: Host, byTimeline: bool, w: Walk, pulls: seq<Item>, issues: seq<Item>, log: seq<Ask>, next: Ask,
                        end: End, i: nat, j: nat, sent: nat, points: seq<Event>, p: seq<Fate>, q: seq<Fate>) {
    && EndsAs(host, byTimeline, w, log, next, end, i, j, p, q) && EmitsBoth(host, w, pulls, issues, i, j, sent, points, p, q)
    && Worth(host, byTimeline, w, pulls, issues, log, next, end, points, p, q) && AsksWithin(host, byTimeline, w, log, end)
  }

  /** A hundred pages where the walk names no number of them, of ten items with their
      timelines or of fifty without. */
  ghost predicate AsksWithin(host: Host, byTimeline: bool, w: Walk, log: seq<Ask>, end: End) {
    && w.Allows(100, PagesIn(host.list, log), end == Listing(Budget))
    && (log != [] ==> log[0].first == (if byTimeline then 10 else 50) && log[0].withPulls && log[0].withIssues)
  }

  lemma AsksNoMore(host: Host, byTimeline: bool, w: Walk, log: seq<Ask>, next: Ask, end: End)
    requires IsLog(host.list, PlanOf(w, byTimeline), log)
    requires end.Listing? ==> StopsFor(host.list, PlanOf(w, byTimeline), log, next, end.stop)
    ensures AsksWithin(host, byTimeline, w, log, end)
  {
    PagesBounded(host.list, PlanOf(w, byTimeline), log);
    if log != [] {
      BeginsWith(host.list, PlanOf(w, byTimeline), log);
    }
  }

  /** A sweep that stopped between two pages wanted neither list or had its pages. */
  lemma ListingEnds(host: Host, byTimeline: bool, w: Walk, pulls: seq<Item>, issues: seq<Item>, log: seq<Ask>, ask: Ask,
                    i: nat, j: nat, sent: nat, points: seq<Event>, p: seq<Fate>, q: seq<Fate>)
    requires HonestHost(w, pulls, issues, host) && (Idle(ask) || |log| >= w.Limit(DEFAULT_PAGES))
    requires Stands(host, byTimeline, w, pulls, issues, log, ask, i, j, sent, points, p, q)
    ensures IsEnd(host, byTimeline, w, pulls, issues, log, ask, Listing(if Idle(ask) then Done else Budget), i, j, sent, points, p, q)
  {
    SweepEnds(host, byTimeline, w, pulls, issues, log, ask, Listing(if Idle(ask) then Done else Budget), i, j, sent, points, p, q);
  }

  lemma SweepEnds(host: Host, byTimeline: bool, w: Walk, pulls: seq<Item>, issues: seq<Item>, log: seq<Ask>, next: Ask, end: End,
                  i: nat, j: nat, sent: nat, points: seq<Event>, p: seq<Fate>, q: seq<Fate>)
    requires HonestHost(w, pulls, issues, host) && EndsAs(host, byTimeline, w, log, next, end, i, j, p, q)
    requires EmitsBoth(host, w, pulls, issues, i, j, sent, points, p, q)
    ensures IsEnd(host, byTimeline, w, pulls, issues, log, next, end, i, j, sent, points, p, q)
  {
    NoneTwice(w, pulls, issues, points, p, q);
    AsksNoMore(host, byTimeline, w, log, next, end);
    if end.Listing? {
      WalkEnds(host.list, PlanOf(w, byTimeline), Nodes(w, pulls, issues), log, next, end.stop);
      if Suffices(host, byTimeline, w, pulls, issues, end.stop) {
        NoneButLeftOut(host, byTimeline, w, pulls, issues, log, next, end.stop, points, p, q);
      }
    }
  }

  lemma NoneTwice(w: Walk, pulls: seq<Item>, issues: seq<Item>, points: seq<Event>, p: seq<Fate>, q: seq<Fate>)
    requires |p| <= |pulls| && |q| <= |issues|
    requires multiset(points) == multiset(Emitted(w, pulls, 0, p)) + multiset(Emitted(w, issues, 0, q))
    ensures multiset(points) <= AllWanted(w, pulls, issues)
  {
    OfTheWanted(w, pulls, p);
    OfTheWanted(w, issues, q);
  }

  lemma NoneButLeftOut(host: Host, byTimeline: bool, w: Walk, pulls: seq<Item>, issues: seq<Item>, log: seq<Ask>, next: Ask,
                       stop: Stop, points: seq<Event>, p: seq<Fate>, q: seq<Fate>)
    requires HonestHost(w, pulls, issues, host) && IsLog(host.list, PlanOf(w, byTimeline), log)
    requires StopsFor(host.list, PlanOf(w, byTimeline), log, next, stop) && Suffices(host, byTimeline, w, pulls, issues, stop)
    requires |p| <= |pulls| && |p| == ReadIn(host.list, log, Pulls) && |q| <= |issues| && |q| == ReadIn(host.list, log, Issues)
    requires multiset(points) == multiset(Emitted(w, pulls, 0, p)) + multiset(Emitted(w, issues, 0, q))
    ensures AllWanted(w, pulls, issues) == multiset(points) + multiset(LeftOut(w, pulls, p)) + multiset(LeftOut(w, issues, q))
  {
    ListFinished(host, byTimeline, w, pulls, issues, log, next, stop, Pulls);
    ListFinished(host, byTimeline, w, pulls, issues, log, next, stop, Issues);
    AllOfAList(w, pulls, p);
    AllOfAList(w, issues, q);
  }

  /** A list that was read out holds nothing wanted but what was emitted and what
      was left out. */
  lemma AllOfAList(w: Walk, items: seq<Item>, fates: seq<Fate>)
    requires |fates| <= |items| && Account(items) && ReadOut(w, NodeUpdated(), NodesOf(w, items), |fates|)
    ensures multiset(WantedAll(w, items)) == multiset(Emitted(w, items, 0, fates)) + multiset(LeftOut(w, items, fates))
  {
    ReadOutIsAll(w, items, |fates|);
    EmittedAndLeftOut(w, items, fates);
  }

  lemma OfTheWanted(w: Walk, items: seq<Item>, fates: seq<Fate>)
    requires |fates| <= |items|
    ensures multiset(Emitted(w, items, 0, fates)) <= multiset(WantedAll(w, items))
  {
    EmittedAndLeftOut(w, items, fates);
    WantedSplit(w, items, |fates|);
  }

  lemma WantedSplit(w: Walk, items: seq<Item>, n: nat)
    requires n <= |items|
    ensures multiset(WantedAll(w, items)) == multiset(WantedAll(w, items[..n])) + multiset(WantedAll(w, items[n..]))
  {
    var a, b := items[..n], items[n..];
    WantedAppend(w, a, b);
    assert items == a + b;
    assert multiset(WantedAll(w, a) + WantedAll(w, b)) == multiset(WantedAll(w, a)) + multiset(WantedAll(w, b));
  }

  lemma ListFinished(host: Host, byTimeline: bool, w: Walk, pulls: seq<Item>, issues: seq<Item>, log: seq<Ask>, next: Ask,
                     stop: Stop, kind: Kind)
    requires HonestHost(w, pulls, issues, host) && IsLog(host.list, PlanOf(w, byTimeline), log)
    requires StopsFor(host.list, PlanOf(w, byTimeline), log, next, stop) && Suffices(host, byTimeline, w, pulls, issues, stop)
    ensures ReadOut(w, NodeUpdated(), Nodes(w, pulls, issues).Of(kind), ReadIn(host.list, log, kind))
  {
    var plan, both := PlanOf(w, byTimeline), Nodes(w, pulls, issues);
    ReadOutOrWanted(host.list, plan, both, log, next, kind);
    if stop == Budget {
      FilledWhileWanted(host.list, plan, both, log, next, kind);
    }
  }

  // Skipping the sweep.

  /** The later of the two lists' newest updates; the zero time stands for none. */
  function LastMoved(issues: seq<Item>, pulls: seq<Item>): int {
    var issue, pull := if issues == [] then 0 else issues[0].updatedAt, if pulls == [] then 0 else pulls[0].updatedAt;
    if pull > issue then pull else issue
  }

  predicate ItemsSince(moved: int, since: int) {
    !(moved < since)
  }

  /** An item was updated at the bound or after it if and only if the newest update is
      not before it. */
  lemma MovedIff(issues: seq<Item>, pulls: seq<Item>, since: int)
    requires Account(issues) && Account(pulls) && since > 0
    ensures ItemsSince(LastMoved(issues, pulls), since) <==> exists item :: item in issues + pulls && item.updatedAt >= since
  {
    assert forall i :: 0 <= i < |issues| ==> Updated()(issues[0]) >= Updated()(issues[i]);
    assert forall i :: 0 <= i < |pulls| ==> Updated()(pulls[0]) >= Updated()(pulls[i]);
    if issues != [] {
      assert issues[0] in issues + pulls;
    }
    if pulls != [] {
      assert pulls[0] in issues + pulls;
    }
  }

  /** When no item was updated since the bound, the sweep would find nothing in
      any prefix of the two lists. */
  lemma SkippingLosesNothing(w: Walk, issues: seq<Item>, pulls: seq<Item>, i: nat, j: nat)
    requires Account(issues) && Account(pulls) && i <= |issues| && j <= |pulls|
    requires !ItemsSince(LastMoved(issues, pulls), w.since) && w.since > 0
    ensures WantedAll(w, issues[..i]) == [] && WantedAll(w, pulls[..j]) == []
  {
    NothingInOldItems(w, issues[..i]);
    NothingInOldItems(w, pulls[..j]);
  }
}

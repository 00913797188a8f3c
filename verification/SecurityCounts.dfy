/**
 * The alert lists of a repository and the count of the ones still open:
 * dependabotPages, codeScanningPages, openAlerts and the two count functions of
 * internal/collect/security.go.
 */
module SecurityCounts {
  import opened Lists
  import opened Walks

  const PER_PAGE: nat := 100

  datatype Alert = Alert(number: nat, open: bool, createdAt: int)

  /** A page of a list, and the cursor of the next when its Link names one. */
  datatype Reply = Page(rows: seq<Alert>, next: nat) | Skippable | TooDeep | Failed

  /** A server answers the query numbered n for one of the two lists, the whole
      one or the one of open alerts, from a place in it. */
  type Server = (nat, bool, nat) -> Reply

  function OpenOnes(list: seq<Alert>): seq<Alert> {
    if list == [] then []
    else OpenOnes(list[..|list| - 1]) + if list[|list| - 1].open then [list[|list| - 1]] else []
  }

  function ListFor(list: seq<Alert>, openOnly: bool): seq<Alert> {
    if openOnly then OpenOnes(list) else list
  }

  /** Pages of a hundred, with a cursor to the next exactly while there is one. */
  ghost predicate HonestPage(list: seq<Alert>, at: nat, reply: Reply) {
    reply.Page? && at <= |list| ==>
      && reply.rows == list[at..Min(at + PER_PAGE, |list|)]
      && reply.next == if at + PER_PAGE < |list| then at + PER_PAGE else 0
  }

  ghost predicate Honest(list: seq<Alert>, server: Server) {
    forall n: nat, openOnly, at: nat :: HonestPage(ListFor(list, openOnly), at, server(n, openOnly, at))
  }

  datatype Walker = Dependabot | CodeScanning

  // What was asked. Page p of a walk that begins as query from is query
  // from + p - 1, at a hundred alerts for each page before it.

  function ReplyAt(server: Server, openOnly: bool, from: nat, p: nat): Reply
    requires p >= 1
  {
    server(from + p - 1, openOnly, PER_PAGE * (p - 1))
  }

  /** Why a walk went no further: it read all the pages it may, or came to the end
      of the list or past its bound; or a page said that the list is switched
      off, or too deep to page, or failed. */
  datatype Stop = Budget | End | PastBound | Off | Deep | Error

  /** The last page of the list: short, or, by cursor, without one to the next. */
  predicate IsLast(walker: Walker, rows: seq<Alert>, next: nat) {
    |rows| < PER_PAGE || (walker == Dependabot && next == 0)
  }

  /** What a reply stops a walk for; Budget is nothing. */
  function EndsFor(walker: Walker, w: Walk, reply: Reply): Stop {
    match reply
    case Skippable => Off
    case TooDeep => Deep
    case Failed => Error
    case Page(rows, next) =>
      if IsLast(walker, rows, next) then End
      else if w.Past(rows[|rows| - 1].createdAt) then PastBound
      else Budget
  }

  /** The first n pages all led on to the next. */
  ghost predicate LedOn(server: Server, openOnly: bool, from: nat, walker: Walker, w: Walk, n: nat) {
    forall p: nat :: 1 <= p <= n ==> EndsFor(walker, w, ReplyAt(server, openOnly, from, p)) == Budget
  }

  /** The pages asked for: each after one that led on, as many as the walk may
      ask for, and the last one the reason to stop. */
  ghost predicate Asked(server: Server, openOnly: bool, from: nat, walker: Walker, w: Walk, pages: nat, stop: Stop) {
    && 1 <= pages <= w.Limit(1)
    && LedOn(server, openOnly, from, walker, w, pages - 1)
    && stop == EndsFor(walker, w, ReplyAt(server, openOnly, from, pages))
    && (stop == Budget ==> pages == w.Limit(1))
  }

  /** How many of the pages asked for came. */
  function Came(pages: nat, stop: Stop): nat {
    if stop in {Off, Deep, Error} && pages > 0 then pages - 1 else pages
  }

  /** What a walk says, by the page it stopped at: the rows of the pages that came,
      whether the list answered at all, and whether there is more of it. Only a
      first page can say that the list is off. */
  ghost predicate Says(list: seq<Alert>, pages: nat, stop: Stop, rows: seq<Alert>, answered: bool, more: bool, failed: bool) {
    && failed == (stop == Error)
    && answered == (stop != Error && !(stop == Off && pages == 1))
    && more == (stop in {Budget, PastBound} || (stop == Off && pages > 1))
    && rows == if failed then [] else FirstPages(list, Came(pages, stop))
  }

  /** What the first n pages of a list hold. */
  function FirstPages(list: seq<Alert>, n: nat): seq<Alert> {
    list[..Min(PER_PAGE * n, |list|)]
  }

  /** A list read up to a page. */
  ghost predicate ReadTo(list: seq<Alert>, rows: seq<Alert>, pages: nat) {
    PER_PAGE * pages <= |list| && rows == FirstPages(list, pages)
  }

  ghost predicate Walked(server: Server, openOnly: bool, from: nat, walker: Walker, w: Walk, list: seq<Alert>, pages: int,
                         stop: Stop, rows: seq<Alert>, answered: bool, more: bool, failed: bool) {
    pages > 0 && Asked(server, openOnly, from, walker, w, pages, stop) && Says(list, pages, stop, rows, answered, more, failed)
  }

  /** A page after pages that led on leads on too, or it is the last of the walk. */
  lemma OnePage(server: Server, openOnly: bool, from: nat, walker: Walker, w: Walk, p: nat, list: seq<Alert>, rows: seq<Alert>)
    requires 1 <= p <= w.Limit(1) && LedOn(server, openOnly, from, walker, w, p - 1) && ReadTo(list, rows, p - 1)
    requires HonestPage(list, PER_PAGE * (p - 1), ReplyAt(server, openOnly, from, p))
    ensures var reply := ReplyAt(server, openOnly, from, p);
      var stop := EndsFor(walker, w, reply);
      match stop
      case Budget =>
        && reply.Page? && LedOn(server, openOnly, from, walker, w, p) && ReadTo(list, rows + reply.rows, p)
        && (walker == Dependabot ==> reply.next == PER_PAGE * p)
      case End => reply.Page? && Walked(server, openOnly, from, walker, w, list, p, stop, rows + reply.rows, true, false, false)
      case PastBound => reply.Page? && Walked(server, openOnly, from, walker, w, list, p, stop, rows + reply.rows, true, true, false)
      case Off => Walked(server, openOnly, from, walker, w, list, p, stop, rows, p > 1, p > 1, false)
      case Deep => Walked(server, openOnly, from, walker, w, list, p, stop, rows, true, false, false)
      case Error => Walked(server, openOnly, from, walker, w, list, p, stop, [], false, false, true)
  {
    var reply := ReplyAt(server, openOnly, from, p);
    if reply.Page? {
      SplitPrefix(list, PER_PAGE * (p - 1), Min(PER_PAGE * p, |list|));
    }
  }

  /** After the last page it may ask for, a walk has more of the list behind it. */
  lemma PagesRanOut(server: Server, openOnly: bool, from: nat, walker: Walker, w: Walk, p: nat, list: seq<Alert>, rows: seq<Alert>)
    requires p == w.Limit(1) && LedOn(server, openOnly, from, walker, w, p) && ReadTo(list, rows, p)
    ensures Walked(server, openOnly, from, walker, w, list, p, Budget, rows, true, true, false)
  {
  }

  /** What one reply makes of the rows so far, and what it stops the walk for. */
  method Take(walker: Walker, w: Walk, reply: Reply, page: nat, rows: seq<Alert>,
              ghost server: Server, ghost openOnly: bool, ghost from: nat, ghost list: seq<Alert>)
    returns (all: seq<Alert>, answered: bool, more: bool, failed: bool, stop: Stop)
    requires 1 <= page <= w.Limit(1) && LedOn(server, openOnly, from, walker, w, page - 1) && ReadTo(list, rows, page - 1)
    requires reply == ReplyAt(server, openOnly, from, page) && HonestPage(list, PER_PAGE * (page - 1), reply)
    ensures stop == Budget ==> LedOn(server, openOnly, from, walker, w, page) && ReadTo(list, all, page)
    ensures stop == Budget ==> reply.Page? && (walker == Dependabot ==> reply.next == PER_PAGE * page)
    ensures stop != Budget ==> Walked(server, openOnly, from, walker, w, list, page, stop, all, answered, more, failed)
  {
    OnePage(server, openOnly, from, walker, w, page, list, rows);
    match reply {
      case Skippable => all, answered, more, failed, stop := rows, page > 1, page > 1, false, Off;
      case TooDeep => all, answered, more, failed, stop := rows, true, false, false, Deep;
      case Failed => all, answered, more, failed, stop := [], false, false, true, Error;
      case Page(batch, next) =>
        all, answered, more, failed, stop := rows + batch, true, true, false, Budget;
        if IsLast(walker, batch, next) {
          more, stop := false, End;
        } else if w.Past(batch[|batch| - 1].createdAt) {
          stop := PastBound;
        }
    }
  }

  /** By cursor: the list ends where the cursor does. */
  method DependabotPages(server: Server, w: Walk, openOnly: bool, queries: nat, ghost list: seq<Alert>)
    returns (rows: seq<Alert>, answered: bool, more: bool, failed: bool, sent: nat, ghost stop: Stop)
    requires forall n: nat, at: nat :: HonestPage(list, at, server(n, openOnly, at))
    ensures Walked(server, openOnly, queries, Dependabot, w, list, sent - queries, stop, rows, answered, more, failed)
    ensures rows <= list && (failed ==> rows == [] && !answered && !more)
  {
    rows, sent := [], queries;
    var after, page := 0, 1;
    while page <= w.Limit(1)
      invariant 1 <= page <= w.Limit(1) + 1 && sent == queries + page - 1 && after == PER_PAGE * (page - 1)
      invariant LedOn(server, openOnly, queries, Dependabot, w, page - 1) && ReadTo(list, rows, page - 1)
      decreases w.Limit(1) - page
    {
      var reply, ended := server(sent, openOnly, after), Budget;
      sent := sent + 1;
      rows, answered, more, failed, ended := Take(Dependabot, w, reply, page, rows, server, openOnly, queries, list);
      if ended != Budget {
        return rows, answered, more, failed, sent, ended;
      }
      after := reply.next;
      page := page + 1;
    }
    PagesRanOut(server, openOnly, queries, Dependabot, w, page - 1, list, rows);
    return rows, true, true, false, sent, Budget;
  }

  /** By number: the list ends at a page that is short. */
  method CodeScanningPages(server: Server, w: Walk, openOnly: bool, queries: nat, ghost list: seq<Alert>)
    returns (rows: seq<Alert>, answered: bool, more: bool, failed: bool, sent: nat, ghost stop: Stop)
    requires forall n: nat, at: nat :: HonestPage(list, at, server(n, openOnly, at))
    ensures Walked(server, openOnly, queries, CodeScanning, w, list, sent - queries, stop, rows, answered, more, failed)
    ensures rows <= list && (failed ==> rows == [] && !answered && !more)
  {
    rows, sent := [], queries;
    var page := 1;
    while page <= w.Limit(1)
      invariant 1 <= page <= w.Limit(1) + 1 && sent == queries + page - 1
      invariant LedOn(server, openOnly, queries, CodeScanning, w, page - 1) && ReadTo(list, rows, page - 1)
      decreases w.Limit(1) - page
    {
      var reply, ended := server(sent, openOnly, PER_PAGE * (page - 1)), Budget;
      sent := sent + 1;
      rows, answered, more, failed, ended := Take(CodeScanning, w, reply, page, rows, server, openOnly, queries, list);
      if ended != Budget {
        return rows, answered, more, failed, sent, ended;
      }
      page := page + 1;
    }
    PagesRanOut(server, openOnly, queries, CodeScanning, w, page - 1, list, rows);
    return rows, true, true, false, sent, Budget;
  }

  // The open count.

  function OpenCount(rows: seq<Alert>): nat {
    if rows == [] then 0 else OpenCount(rows[..|rows| - 1]) + if rows[|rows| - 1].open then 1 else 0
  }

  method CountOpen(rows: seq<Alert>) returns (open: nat)
    ensures open == OpenCount(rows)
  {
    open := 0;
    var i := 0;
    while i < |rows|
      invariant 0 <= i <= |rows| && open == OpenCount(rows[..i])
    {
      assert rows[..i + 1][..i] == rows[..i];
      if rows[i].open {
        open := open + 1;
      }
      i := i + 1;
    }
    assert rows[..i] == rows;
  }

  lemma {:induction false} OpenOnesCount(list: seq<Alert>)
    ensures OpenCount(list) == |OpenOnes(list)| <= |list|
    ensures forall a :: a in OpenOnes(list) ==> a.open
  {
    if list != [] {
      OpenOnesCount(list[..|list| - 1]);
    }
  }

  lemma {:induction false} AllOpen(rows: seq<Alert>)
    requires forall a :: a in rows ==> a.open
    ensures OpenCount(rows) == |rows|
  {
    if rows != [] {
      AllOpen(rows[..|rows| - 1]);
    }
  }

  lemma {:induction false} OpenCountOfPrefix(list: seq<Alert>, k: nat)
    requires k <= |list|
    ensures OpenCount(list[..k]) <= OpenCount(list) && OpenCount(list[..k]) <= k
  {
    if |list| > 0 && k < |list| {
      OpenCountOfPrefix(list[..|list| - 1], k);
      assert list[..|list| - 1][..k] == list[..k];
    } else if |list| > 0 {
      OpenCountOfPrefix(list[..k - 1], k - 1);
      assert list[..k] == list && list[..k - 1][..k - 1] == list[..k - 1];
    } else {
      assert list[..k] == list;
    }
  }

  method Pages(server: Server, walker: Walker, w: Walk, openOnly: bool, queries: nat, ghost list: seq<Alert>)
    returns (rows: seq<Alert>, answered: bool, more: bool, failed: bool, sent: nat, ghost stop: Stop)
    requires Honest(list, server)
    ensures Walked(server, openOnly, queries, walker, w, ListFor(list, openOnly), sent - queries, stop, rows, answered, more, failed)
  {
    ghost var served := ListFor(list, openOnly);
    assert forall n: nat, at: nat :: HonestPage(served, at, server(n, openOnly, at));
    if walker == Dependabot {
      rows, answered, more, failed, sent, stop := DependabotPages(server, w, openOnly, queries, served);
    } else {
      rows, answered, more, failed, sent, stop := CodeScanningPages(server, w, openOnly, queries, served);
    }
  }

  /** The two walks of a count: of the whole list, and, where that left more behind
      it, of the open alerts. */
  datatype TwoWalks = TwoWalks(pages: nat, stop: Stop, again: bool, openPages: nat, openStop: Stop) {
    /** The list of open alerts was asked for and answered. */
    predicate Counted() {
      again && openStop != Error && !(openStop == Off && openPages == 1)
    }
  }

  ghost predicate BothAsked(server: Server, walker: Walker, w: Walk, ws: TwoWalks) {
    && Asked(server, false, 0, walker, w, ws.pages, ws.stop)
    && (ws.again <==> ws.stop in {Budget, PastBound} || (ws.stop == Off && ws.pages > 1))
    && (ws.again ==> Asked(server, true, ws.pages, walker, UNBOUNDED, ws.openPages, ws.openStop))
  }

  /** Reads a list, and the open ones again when more was left behind it, and
      counts the open alerts. */
  method OpenAlerts(server: Server, walker: Walker, w: Walk, ghost list: seq<Alert>)
    returns (read: seq<Alert>, open: nat, answered: bool, failed: bool, ghost ws: TwoWalks)
    requires Honest(list, server)
    ensures BothAsked(server, walker, w, ws)
    ensures failed <==> ws.stop == Error || (ws.again && ws.openStop == Error)
    ensures answered <==> ws.stop != Error && !(ws.stop == Off && ws.pages == 1)
    ensures read == if ws.stop == Error then [] else FirstPages(list, Came(ws.pages, ws.stop))
    ensures open == if ws.Counted() then Min(PER_PAGE * Came(ws.openPages, ws.openStop), OpenCount(list)) else OpenCount(read)
    ensures read <= list && open <= OpenCount(list)
    ensures ReadsTheBound(w, list, ws, read)
    // The count does not depend on where the walk stopped.
    ensures !failed && Unrefused(ws) && |list| < PER_PAGE * CEILING ==> open == OpenCount(list)
    ensures !failed ==>
      (OpenCount(read) <= open <==> !(ws.Counted() && PER_PAGE * Came(ws.openPages, ws.openStop) < OpenCount(read)))
    // After a walk of one page, one reply decides it.
    ensures !failed && w.Limit(1) == 1 ==>
      (OpenCount(read) <= open <==> !(ws.again && server(1, true, 0).TooDeep? && OpenCount(read) > 0))
  {
    var more, sent, openOnes, again;
    ghost var stop, openStop, from := Budget, Budget, 0;
    read, answered, more, failed, sent, stop := Pages(server, walker, w, false, 0, list);
    ws := TwoWalks(sent, stop, more, 0, Budget);
    var rows := read;
    if !failed && more {
      from := sent;
      var behind;
      openOnes, again, behind, failed, sent, openStop := Pages(server, walker, UNBOUNDED, true, sent, list);
      ws := TwoWalks(from, stop, true, sent - from, openStop);
      if !failed && again {
        rows := openOnes;
      }
    }
    open := CountOpen(rows);
    FirstWalkReads(server, walker, w, list, ws, read);
    if ws.Counted() {
      OpenOnesRead(list, Came(ws.openPages, ws.openStop));
    }
    OpenCountOfPrefix(list, |read|);
    assert read == list[..|read|];
    if !failed {
      CountWorth(server, walker, w, list, ws, read, open);
    }
  }

  /** How far the first list is read: its pages are those of the walk, one where it
      names none; to the end, or, newest first, past every alert made at the bound or
      after it; and otherwise a hundred for each page that came. The list of open
      ones is read without a bound. */
  ghost predicate ReadsTheBound(w: Walk, list: seq<Alert>, ws: TwoWalks, read: seq<Alert>) {
    && w.Allows(1, ws.pages, ws.stop == Budget) && (ws.again ==> Walk(-1, 0).Allows(1, ws.openPages, ws.openStop == Budget))
    && (ws.stop == End ==> read == list)
    && (ws.stop == Budget ==> |read| == 100 * ws.pages)
    && (ws.stop in {Off, Deep} ==> |read| == 100 * (ws.pages - 1))
    && (ws.stop == PastBound && (forall i, j :: 0 <= i < j < |list| ==> list[i].createdAt >= list[j].createdAt) ==>
          forall a :: a in list && a.createdAt >= w.since ==> a in read)
    && (ws.again ==> ws.openStop != PastBound)
  }

  lemma FirstWalkReads(server: Server, walker: Walker, w: Walk, list: seq<Alert>, ws: TwoWalks, read: seq<Alert>)
    requires Honest(list, server) && BothAsked(server, walker, w, ws)
    requires read == if ws.stop == Error then [] else FirstPages(list, Came(ws.pages, ws.stop))
    ensures ReadsTheBound(w, list, ws, read)
  {
    assert ListFor(list, false) == list;
    assert forall n: nat, at: nat :: HonestPage(ListFor(list, false), at, server(n, false, at));
    LastPageIsAll(server, false, 0, walker, w, list, ws.pages, ws.stop);
    assert list[..|list|] == list;
    if ws.stop == PastBound {
      PastTheBound(w, list, PER_PAGE * ws.pages);
    }
  }

  lemma PastTheBound(w: Walk, list: seq<Alert>, k: nat)
    requires 0 < k <= |list| && w.Past(list[k - 1].createdAt)
    ensures (forall i, j :: 0 <= i < j < |list| ==> list[i].createdAt >= list[j].createdAt) ==>
              forall a :: a in list && a.createdAt >= w.since ==> a in list[..k]
  {
    forall i | 0 <= i < |list| && list[i].createdAt >= w.since && forall i, j :: 0 <= i < j < |list| ==> list[i].createdAt >= list[j].createdAt
      ensures list[i] in list[..k]
    {
      assert i < k;
      assert list[..k][i] == list[i];
    }
  }

  /** The count is of the places where an alert is open. */
  lemma {:induction false} OpenCountIs(rows: seq<Alert>)
    ensures OpenCount(rows) == |set i: nat | i < |rows| && rows[i].open|
  {
    var open := set i: nat | i < |rows| && rows[i].open;
    if rows == [] {
      assert open == {};
    } else {
      var k := |rows| - 1;
      OpenCountIs(rows[..k]);
      assert open == (set i: nat | i < k && rows[..k][i].open) + if rows[k].open then {k} else {};
    }
  }

  /** Neither list was refused, and the first was read to its end or left for the
      second. */
  ghost predicate Unrefused(ws: TwoWalks) {
    (ws.again || ws.stop == End) && (ws.again ==> ws.openStop !in {Off, Deep})
  }

  lemma CountWorth(server: Server, walker: Walker, w: Walk, list: seq<Alert>, ws: TwoWalks, read: seq<Alert>, open: nat)
    requires Honest(list, server) && BothAsked(server, walker, w, ws) && Reported(list, ws, read, open)
    ensures Unrefused(ws) && |list| < PER_PAGE * CEILING ==> open == OpenCount(list)
    ensures OpenCount(read) <= open <==> !(ws.Counted() && PER_PAGE * Came(ws.openPages, ws.openStop) < OpenCount(read))
    ensures w.Limit(1) == 1 ==>
      (OpenCount(read) <= open <==> !(ws.again && server(1, true, 0).TooDeep? && OpenCount(read) > 0))
  {
    if Unrefused(ws) && |list| < PER_PAGE * CEILING {
      CountIsTheWholeLists(server, walker, w, list, ws, read, open);
    }
    BelowTheRowsReadIff(list, ws, read, open);
    if w.Limit(1) == 1 {
      AfterOnePageIff(server, walker, w, list, ws, read, open);
    }
  }

  /** What the first pages of the list of open alerts hold is open. */
  lemma OpenOnesRead(list: seq<Alert>, n: nat)
    ensures OpenCount(FirstPages(OpenOnes(list), n)) == Min(PER_PAGE * n, OpenCount(list))
  {
    OpenOnesCount(list);
    OpenOnesOfPrefix(OpenOnes(list), Min(PER_PAGE * n, OpenCount(list)));
  }

  lemma OpenOnesOfPrefix(open: seq<Alert>, k: nat)
    requires k <= |open| && forall a :: a in open ==> a.open
    ensures OpenCount(open[..k]) == k
  {
    AllOpen(open[..k]);
  }

  // What the count is worth, from the contract of the method alone.

  ghost predicate Reported(list: seq<Alert>, ws: TwoWalks, read: seq<Alert>, open: nat) {
    && ws.stop != Error && !(ws.again && ws.openStop == Error)
    && read == FirstPages(list, Came(ws.pages, ws.stop))
    && open == if ws.Counted() then Min(PER_PAGE * Came(ws.openPages, ws.openStop), OpenCount(list)) else OpenCount(read)
  }

  /** The count is that of the whole list wherever the first walk stopped, so long
      as neither list was refused. */
  lemma CountIsTheWholeLists(server: Server, walker: Walker, w: Walk, list: seq<Alert>, ws: TwoWalks, read: seq<Alert>, open: nat)
    requires Honest(list, server) && BothAsked(server, walker, w, ws) && Reported(list, ws, read, open)
    requires Unrefused(ws)
    requires |list| < PER_PAGE * CEILING
    ensures open == OpenCount(list)
  {
    OpenOnesCount(list);
    if ws.again {
      LastPageIsAll(server, true, ws.pages, walker, UNBOUNDED, OpenOnes(list), ws.openPages, ws.openStop);
    } else {
      LastPageIsAll(server, false, 0, walker, w, list, ws.pages, ws.stop);
      assert list[..|list|] == list;
    }
  }

  /** A walk that came to the end read the whole list, and one that read all its
      pages read as many as they hold. */
  lemma LastPageIsAll(server: Server, openOnly: bool, from: nat, walker: Walker, w: Walk, list: seq<Alert>, pages: nat, stop: Stop)
    requires forall n: nat, at: nat :: HonestPage(list, at, server(n, openOnly, at))
    requires Asked(server, openOnly, from, walker, w, pages, stop)
    ensures PER_PAGE * (pages - 1) <= |list|
    ensures stop == End ==> |list| <= PER_PAGE * pages
    ensures stop in {Budget, PastBound} ==> PER_PAGE * pages <= |list|
    ensures stop == PastBound ==> w.Past(list[PER_PAGE * pages - 1].createdAt)
  {
    PagesAreFull(server, openOnly, from, walker, w, list, pages - 1);
    assert HonestPage(list, PER_PAGE * (pages - 1), ReplyAt(server, openOnly, from, pages));
  }

  lemma {:induction false} PagesAreFull(server: Server, openOnly: bool, from: nat, walker: Walker, w: Walk, list: seq<Alert>, n: nat)
    requires forall n: nat, at: nat :: HonestPage(list, at, server(n, openOnly, at))
    requires LedOn(server, openOnly, from, walker, w, n)
    ensures PER_PAGE * n <= |list|
  {
    if n > 0 {
      PagesAreFull(server, openOnly, from, walker, w, list, n - 1);
      assert HonestPage(list, PER_PAGE * (n - 1), ReplyAt(server, openOnly, from, n));
    }
  }

  /** It is never more than there are, and falls below the open alerts in the rows
      read exactly when the list of open ones was cut short with fewer in it. */
  lemma BelowTheRowsReadIff(list: seq<Alert>, ws: TwoWalks, read: seq<Alert>, open: nat)
    requires Reported(list, ws, read, open)
    ensures open <= OpenCount(list)
    ensures OpenCount(read) <= open <==>
            !(ws.Counted() && PER_PAGE * Came(ws.openPages, ws.openStop) < OpenCount(read))
  {
    OpenCountOfPrefix(list, |read|);
    assert read == list[..|read|];
  }

  /** After a walk of one page that comes down to one refusal: the list of open
      alerts is too deep to page from its first page on. */
  lemma AfterOnePageIff(server: Server, walker: Walker, w: Walk, list: seq<Alert>, ws: TwoWalks, read: seq<Alert>, open: nat)
    requires BothAsked(server, walker, w, ws) && Reported(list, ws, read, open) && w.Limit(1) == 1
    ensures ws.again <==> EndsFor(walker, w, server(0, false, 0)) in {Budget, PastBound}
    ensures OpenCount(read) <= open <==> !(ws.again && server(1, true, 0).TooDeep? && OpenCount(read) > 0)
  {
    BelowTheRowsReadIff(list, ws, read, open);
    OpenCountOfPrefix(list, |read|);
    assert read == list[..|read|];
    assert ReplyAt(server, false, 0, 1) == server(0, false, 0);
    assert ReplyAt(server, true, 1, 1) == server(1, true, 0);
    if ws.again {
      FirstPage(server, true, ws.pages, walker, UNBOUNDED, ws.openPages, ws.openStop);
    }
  }

  lemma FirstPage(server: Server, openOnly: bool, from: nat, walker: Walker, w: Walk, pages: nat, stop: Stop)
    requires Asked(server, openOnly, from, walker, w, pages, stop)
    ensures pages == 1 ==> stop == EndsFor(walker, w, ReplyAt(server, openOnly, from, 1))
    ensures pages > 1 ==> EndsFor(walker, w, ReplyAt(server, openOnly, from, 1)) == Budget
  {
  }

  /** A hundred and one open alerts, and a list of open ones refused as too deep:
      the hundred that were read are counted as none. */
  method TooDeepCountsNone() returns (read: seq<Alert>, open: nat)
    ensures OpenCount(read) == 100 && open == 0
  {
    var list := seq(101, i requires 0 <= i < 101 => Alert(i, true, 1));
    var server: Server := (n: nat, openOnly: bool, at: nat) => if openOnly then TooDeep else PageAt(list, at);
    assert Honest(list, server);
    var answered, failed;
    ghost var ws;
    read, open, answered, failed, ws := OpenAlerts(server, Dependabot, Walk(0, 0), list);
    assert ReplyAt(server, false, 0, 1) == PageAt(list, 0);
    assert ReplyAt(server, true, 1, 1) == TooDeep;
    FirstPage(server, false, 0, Dependabot, Walk(0, 0), ws.pages, ws.stop);
    FirstPage(server, true, 1, Dependabot, UNBOUNDED, ws.openPages, ws.openStop);
    AllOpen(read);
  }

  function PageAt(list: seq<Alert>, at: nat): Reply {
    if at > |list| then Failed
    else Page(list[at..Min(at + PER_PAGE, |list|)], if at + PER_PAGE < |list| then at + PER_PAGE else 0)
  }
}

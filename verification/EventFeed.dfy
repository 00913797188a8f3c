/**
 * The account's activity feed, read page by page while it grows and ages:
 * Events.Collect of internal/collect/events.go, and the hand-over of the newest
 * event from one sweep to the next in internal/run/feeds.go.
 *
 * Events are numbered in the order they happened, so an event is its number.
 * At request k the feed holds the events from start(k) up to but not
 * including end(k), newest first.
 */
module EventFeeds {
  import opened Lists

  const PER_PAGE: int := 100
  const MOST_PAGES: int := 3

  datatype Feed = Feed(start: nat -> int, end: nat -> int)

  /** Events are added at the front and age out at the back, between any two
      requests. */
  ghost predicate Grows(feed: Feed) {
    forall j: nat, k: nat :: j <= k ==>
      feed.start(j) <= feed.start(k) && feed.end(j) <= feed.end(k) && feed.start(k) <= feed.end(k)
  }

  /** A refusal that ends the feed: switched off, not ready, or too deep. */
  datatype Reply = Batch(rows: seq<int>) | Refused | Failed

  /** Page p of the feed, at request k. */
  ghost predicate IsPage(feed: Feed, k: nat, p: int, rows: seq<int>) {
    var top, bottom := feed.end(k) - PER_PAGE * (p - 1), Bottom(feed, k, p);
    && |rows| == (if bottom < top then top - bottom else 0)
    && forall i :: 0 <= i < |rows| ==> rows[i] == top - 1 - i
  }

  /** The oldest event page p can hold at request k. */
  function Bottom(feed: Feed, k: nat, p: int): int {
    var full := feed.end(k) - PER_PAGE * p;
    if full < feed.start(k) then feed.start(k) else full
  }

  ghost predicate Honest(feed: Feed, server: Server) {
    && Grows(feed)
    && forall k: nat, p: int :: p >= 1 && server(k, p).Batch? ==> IsPage(feed, k, p, server(k, p).rows)
  }

  /** Why a sweep went no further: it met the event the last one handed over, it
      came to the end of the feed, it had read all the pages it may, the feed
      refused it, or the request failed. */
  datatype Stop = Seen | EndOfFeed | Budget | Refusal | Error

  datatype Sweep = Sweep(after: Option<int>, newest: Option<int>, points: seq<int>, stop: Stop, reach: int)

  /** What a sweep has read once it has a newest event: of the events no newer
      than that one, exactly those no older than its reach. */
  ghost predicate ReadsDownTo(points: seq<int>, newest: int, reach: int) {
    forall x :: x <= newest ==> (x in points <==> reach <= x)
  }

  ghost predicate Sound(s: Sweep) {
    && (s.newest.Some? ==> 0 <= s.newest.value - s.reach < PER_PAGE * MOST_PAGES && ReadsDownTo(s.points, s.newest.value, s.reach))
    && (s.newest.None? ==> s.points == [])
    && (s.stop == Seen ==> s.newest.Some? && s.after.Some? && s.reach <= s.after.value)
    && (s.stop == Budget && s.after.Some? && s.newest.Some? && s.after.value <= s.newest.value ==> s.after.value < s.reach)
  }

  /** One more page of the feed leaves no gap below the pages before it. */
  lemma OnePage(feed: Feed, k0: nat, k: nat, p: int, points: seq<int>, newest: int, reach: int, rows: seq<int>)
    requires Grows(feed) && k0 < k && p >= 1 && IsPage(feed, k, p + 1, rows) && rows != []
    requires ReadsDownTo(points, newest, reach) && reach <= newest
    requires reach <= feed.end(k0) - PER_PAGE * p
    ensures ReadsDownTo(points + rows, newest, Min(reach, Bottom(feed, k, p + 1)))
  {
    var bottom := Bottom(feed, k, p + 1);
    assert feed.end(k0) <= feed.end(k);
    var top := feed.end(k) - PER_PAGE * p;
    forall x | x <= newest
      ensures x in points + rows <==> Min(reach, bottom) <= x
    {
      if bottom <= x < top {
        assert rows[top - 1 - x] == x;
      }
    }
  }

  lemma FirstPage(feed: Feed, k: nat, rows: seq<int>)
    requires Grows(feed) && IsPage(feed, k, 1, rows) && rows != []
    ensures rows[0] == feed.end(k) - 1 && Bottom(feed, k, 1) <= rows[0]
    ensures ReadsDownTo(rows, rows[0], Bottom(feed, k, 1))
  {
    var top := feed.end(k);
    forall x | x < top
      ensures x in rows <==> Bottom(feed, k, 1) <= x
    {
      if Bottom(feed, k, 1) <= x {
        assert rows[top - 1 - x] == x;
      }
    }
  }

  /** What a sweep has after pages full pages, the first of them asked as request
      k0 and the last as request k. */
  ghost predicate SoFar(feed: Feed, k0: nat, k: int, pages: int, newest: Option<int>, points: seq<int>, reach: int) {
    if pages == 0 then newest == None && points == []
    else
      && k >= 0 && newest == Some(feed.end(k0) - 1)
      && reach <= newest.value && ReadsDownTo(points, newest.value, reach)
      && feed.end(k0) - PER_PAGE * pages <= reach <= feed.end(k) - PER_PAGE * pages
  }

  /** How far down a sweep has read once it has read page p at request k. */
  function ReachAfter(feed: Feed, k: nat, p: int, reach: int): int {
    if p == 1 then Bottom(feed, k, 1) else Min(reach, Bottom(feed, k, p))
  }

  /** A page that held something, full or not. */
  lemma AddPage(feed: Feed, k0: nat, k: nat, pages: int, newest: Option<int>, points: seq<int>, reach: int, rows: seq<int>)
    requires Grows(feed) && 0 <= pages && k0 + pages == k && SoFar(feed, k0, k - 1, pages, newest, points, reach)
    requires IsPage(feed, k, pages + 1, rows) && rows != []
    ensures var top, low := feed.end(k0) - 1, ReachAfter(feed, k, pages + 1, reach);
      && (if pages == 0 then Some(rows[0]) else newest) == Some(top)
      && feed.end(k0) - PER_PAGE * (pages + 1) <= low <= top && ReadsDownTo(points + rows, top, low)
      && (|rows| == PER_PAGE ==> SoFar(feed, k0, k, pages + 1, Some(top), points + rows, low))
      && (|rows| < PER_PAGE ==> low <= feed.start(k))
  {
    if pages == 0 {
      FirstPage(feed, k, rows);
      assert points + rows == rows;
    } else {
      OnePage(feed, k - 1, k, pages, points, newest.value, reach, rows);
    }
  }

  /** How many pages a sweep may read: three, unless fewer are asked for. */
  function MostPages(pages: int): int {
    if pages <= 0 || pages > MOST_PAGES then MOST_PAGES else pages
  }

  // What was asked. Page p is the p-th request of a sweep.

  type Server = (nat, int) -> Reply

  function ReplyAt(server: Server, request: nat, p: nat): Reply
    requires p >= 1
  {
    server(request + p - 1, p)
  }

  /** What a page stops a sweep for; Budget is nothing. */
  function EndsFor(after: Option<int>, reply: Reply): Stop {
    match reply
    case Refused => Refusal
    case Failed => Error
    case Batch(rows) =>
      if after.Some? && after.value in rows then Seen
      else if |rows| < PER_PAGE then EndOfFeed
      else Budget
  }

  /** The first n pages all led on to the next. */
  ghost predicate LedOn(server: Server, request: nat, after: Option<int>, n: nat) {
    forall p: nat :: 1 <= p <= n ==> EndsFor(after, ReplyAt(server, request, p)) == Budget
  }

  /** The pages asked for: each after one that led on, as many as the sweep may
      ask for, and the last one the reason to stop. */
  ghost predicate Asked(server: Server, request: nat, after: Option<int>, most: int, n: int, stop: Stop) {
    && 1 <= n <= most && LedOn(server, request, after, n - 1)
    && stop == EndsFor(after, ReplyAt(server, request, n))
    && (stop == Budget ==> n == most)
  }

  function RowsOf(reply: Reply): seq<int> {
    if reply.Batch? then reply.rows else []
  }

  /** What the first n pages held. */
  function Rows(server: Server, request: nat, n: nat): seq<int> {
    if n == 0 then [] else Rows(server, request, n - 1) + RowsOf(ReplyAt(server, request, n))
  }

  /** The newest event of a feed is the first of its first page. */
  function NewestOf(server: Server, request: nat): Option<int> {
    var rows := RowsOf(ReplyAt(server, request, 1));
    if rows == [] then None else Some(rows[0])
  }

  /** What a sweep holds after n pages: all of what they held, and the newest. */
  ghost predicate HasRead(server: Server, request: nat, points: seq<int>, newest: Option<int>, n: int) {
    n >= 0 && points == Rows(server, request, n) && newest == if n == 0 then None else NewestOf(server, request)
  }

  lemma ReadsOn(server: Server, request: nat, points: seq<int>, newest: Option<int>, n: nat)
    requires n >= 1 && HasRead(server, request, points, newest, n - 1)
    ensures server(request + n - 1, n) == ReplyAt(server, request, n)
    ensures var rows := RowsOf(ReplyAt(server, request, n));
      HasRead(server, request, points + rows, if n == 1 && rows != [] then Some(rows[0]) else newest, n)
  {
  }

  /** Some of the first n pages, as the feed stood when it was asked for, reaches
      down to an event. */
  ghost predicate Covers(feed: Feed, request: nat, n: int, x: int) {
    exists p: nat :: 1 <= p <= n && BottomAt(feed, request, p) <= x
  }

  function BottomAt(feed: Feed, request: nat, p: nat): int
    requires p >= 1
  {
    Bottom(feed, request + p - 1, p)
  }

  /** How far down the first n pages reach. */
  ghost predicate ReachIs(feed: Feed, request: nat, n: int, reach: int) {
    n >= 1 ==> forall x :: reach <= x <==> Covers(feed, request, n, x)
  }

  lemma ReachOne(feed: Feed, request: nat, n: nat, reach: int)
    requires n >= 1 && ReachIs(feed, request, n - 1, reach)
    ensures ReachIs(feed, request, n, ReachAfter(feed, request + n - 1, n, reach))
  {
    var low := ReachAfter(feed, request + n - 1, n, reach);
    forall x
      ensures low <= x <==> Covers(feed, request, n, x)
    {
      assert n > 1 ==> (reach <= x <==> Covers(feed, request, n - 1, x));
      CoversOne(feed, request, n, x);
    }
  }

  lemma CoversOne(feed: Feed, request: nat, n: nat, x: int)
    requires n >= 1
    ensures Covers(feed, request, n, x) <==> Covers(feed, request, n - 1, x) || BottomAt(feed, request, n) <= x
  {
    if Covers(feed, request, n - 1, x) {
      var p: nat :| 1 <= p <= n - 1 && BottomAt(feed, request, p) <= x;
    }
    if BottomAt(feed, request, n) <= x {
      var p: nat := n;
      assert 1 <= p <= n && BottomAt(feed, request, p) <= x;
    }
  }

  /** Pages that all led on read the feed without a gap, and not the event handed
      over. */
  lemma {:induction false} ReadSoFar(server: Server, feed: Feed, request: nat, after: Option<int>, n: nat)
    returns (points: seq<int>, newest: Option<int>, reach: int)
    requires Honest(feed, server) && LedOn(server, request, after, n)
    ensures HasRead(server, request, points, newest, n)
    ensures SoFar(feed, request, request + n - 1, n, newest, points, reach)
    ensures ReachIs(feed, request, n, reach)
    ensures after.Some? ==> after.value !in points
  {
    points, newest, reach := [], None, 0;
    if n > 0 {
      points, newest, reach := ReadSoFar(server, feed, request, after, n - 1);
      var reply, k := ReplyAt(server, request, n), request + n - 1;
      assert EndsFor(after, reply) == Budget && IsPage(feed, k, n, reply.rows);
      ReadsOn(server, request, points, newest, n);
      AddPage(feed, request, k, n - 1, newest, points, reach, reply.rows);
      ReachOne(feed, request, n, reach);
      points, newest, reach := points + reply.rows, if n == 1 then Some(reply.rows[0]) else newest, ReachAfter(feed, k, n, reach);
    }
  }

  /** What a sweep is worth that was begun at one request and ended at another: its
      newest event is the feed's, and one that came to the end of the feed read
      all there was of it. */
  ghost predicate Worth(feed: Feed, request: nat, last: nat, s: Sweep) {
    && Sound(s)
    && (s.newest.Some? ==> s.newest.value == feed.end(request) - 1)
    && (s.stop == EndOfFeed && s.newest.Some? ==> s.reach <= feed.start(last))
    && (s.stop == EndOfFeed && s.newest.None? ==> feed.end(last) <= feed.start(last))
  }

  lemma EndsOnRows(feed: Feed, request: nat, k: nat, pages: int, newest: Option<int>, points: seq<int>, reach: int,
                   after: Option<int>, rows: seq<int>)
    requires Grows(feed) && 0 <= pages < MOST_PAGES && request + pages == k
    requires SoFar(feed, request, k - 1, pages, newest, points, reach) && (after.Some? ==> after.value !in points)
    requires IsPage(feed, k, pages + 1, rows) && rows != []
    ensures Worth(feed, request, k, Sweep(after, if pages == 0 then Some(rows[0]) else newest, points + rows,
                                          EndsFor(after, Batch(rows)), ReachAfter(feed, k, pages + 1, reach)))
  {
    AddPage(feed, request, k, pages, newest, points, reach, rows);
    assert after.Some? && after.value in points + rows ==> after.value in rows;
  }

  lemma EndsOnNothing(feed: Feed, request: nat, k: nat, pages: int, newest: Option<int>, points: seq<int>, reach: int,
                      after: Option<int>, stop: Stop)
    requires Grows(feed) && 0 <= pages < MOST_PAGES && request + pages == k
    requires SoFar(feed, request, k - 1, pages, newest, points, reach)
    requires stop in {Refusal, Error, EndOfFeed} && (stop == EndOfFeed ==> IsPage(feed, k, pages + 1, []))
    ensures Worth(feed, request, k, Sweep(after, newest, points, stop, reach))
  {
    if pages > 0 {
      assert feed.end(k - 1) <= feed.end(k);
    }
  }

  lemma OneReading(server: Server, request: nat, a: seq<int>, x: Option<int>, b: seq<int>, y: Option<int>, n: nat)
    requires HasRead(server, request, a, x, n) && HasRead(server, request, b, y, n)
    ensures a == b && x == y
  {
  }

  /** The pages of a sweep that held something. */
  ghost function Came(server: Server, request: nat, n: nat): nat
    requires n >= 1
  {
    if RowsOf(ReplyAt(server, request, n)) == [] then n - 1 else n
  }

  /** What a sweep of n pages is worth, and how far down the pages that held
      something say it reached. */
  ghost predicate Worthy(server: Server, feed: Feed, request: nat, n: int, s: Sweep) {
    n >= 1 && Worth(feed, request, request + n - 1, s) && ReachIs(feed, request, Came(server, request, n), s.reach)
  }

  lemma SweepIsSound(server: Server, feed: Feed, request: nat, after: Option<int>, most: int, n: nat, stop: Stop,
                     points: seq<int>, newest: Option<int>) returns (reach: int)
    requires Honest(feed, server) && most <= MOST_PAGES && Asked(server, request, after, most, n, stop)
    requires HasRead(server, request, points, newest, n)
    ensures Worthy(server, feed, request, n, Sweep(after, newest, points, stop, reach))
  {
    if RowsOf(ReplyAt(server, request, n)) != [] {
      reach := SoundOnRows(server, feed, request, after, n, points, newest);
    } else {
      reach := SoundOnNothing(server, feed, request, after, n, points, newest);
    }
  }

  lemma SoundOnRows(server: Server, feed: Feed, request: nat, after: Option<int>, n: nat, points: seq<int>, newest: Option<int>)
    returns (reach: int)
    requires Honest(feed, server) && 1 <= n <= MOST_PAGES && LedOn(server, request, after, n - 1)
    requires HasRead(server, request, points, newest, n) && RowsOf(ReplyAt(server, request, n)) != []
    ensures Worth(feed, request, request + n - 1,
                  Sweep(after, newest, points, EndsFor(after, ReplyAt(server, request, n)), reach))
    ensures ReachIs(feed, request, n, reach)
  {
    var rows, k := ReplyAt(server, request, n).rows, request + n - 1;
    var before, was, low := ReadSoFar(server, feed, request, after, n - 1);
    assert IsPage(feed, k, n, rows);
    ReadsOn(server, request, before, was, n);
    OneReading(server, request, points, newest, before + rows, if n == 1 then Some(rows[0]) else was, n);
    EndsOnRows(feed, request, k, n - 1, was, before, low, after, rows);
    ReachOne(feed, request, n, low);
    reach := ReachAfter(feed, k, n, low);
  }

  lemma SoundOnNothing(server: Server, feed: Feed, request: nat, after: Option<int>, n: nat, points: seq<int>, newest: Option<int>)
    returns (reach: int)
    requires Honest(feed, server) && 1 <= n <= MOST_PAGES && LedOn(server, request, after, n - 1)
    requires HasRead(server, request, points, newest, n) && RowsOf(ReplyAt(server, request, n)) == []
    ensures Worth(feed, request, request + n - 1,
                  Sweep(after, newest, points, EndsFor(after, ReplyAt(server, request, n)), reach))
    ensures ReachIs(feed, request, n - 1, reach)
  {
    var reply, k := ReplyAt(server, request, n), request + n - 1;
    var before, was, low := ReadSoFar(server, feed, request, after, n - 1);
    assert reply.Batch? ==> IsPage(feed, k, n, reply.rows);
    ReadsOn(server, request, before, was, n);
    assert before + [] == before;
    OneReading(server, request, points, newest, before, was, n);
    EndsOnNothing(feed, request, k, n - 1, was, before, low, after, EndsFor(after, reply));
    reach := low;
  }

  /** Whether a sweep joins the one before it is decided by the feed: it does if it
      stopped on the event handed over, and otherwise if and only if one of the
      pages asked for reached down to the next event after that one. */
  lemma JoinsIff(server: Server, feed: Feed, request: nat, after: int, most: int, n: nat, stop: Stop,
                 points: seq<int>, newest: Option<int>, reach: int)
    requires Honest(feed, server) && most <= MOST_PAGES && Asked(server, request, Some(after), most, n, stop) && newest.Some?
    requires Worthy(server, feed, request, n, Sweep(Some(after), newest, points, stop, reach))
    requires HasRead(server, request, points, newest, n)
    ensures var s := Sweep(Some(after), newest, points, stop, reach);
      match stop
      case Seen => Joins(s)
      case Budget => Joins(s) <==> Covers(feed, request, n, after + 1)
      case EndOfFeed => Joins(s) <==> Covers(feed, request, n, after + 1)
      case Refusal => Joins(s) <==> Covers(feed, request, n - 1, after + 1)
      case Error => Joins(s)
  {
    var reply := ReplyAt(server, request, n);
    assert reply.Batch? ==> IsPage(feed, request + n - 1, n, reply.rows);
    if stop == EndOfFeed && RowsOf(reply) == [] {
      EmptyPageCoversNothing(server, feed, request, Some(after), n, after + 1);
    }
  }

  /** A page behind the end of the feed reaches no further than those before it. */
  lemma EmptyPageCoversNothing(server: Server, feed: Feed, request: nat, after: Option<int>, n: nat, x: int)
    requires Honest(feed, server) && n > 1 && LedOn(server, request, after, n - 1) && IsPage(feed, request + n - 1, n, [])
    ensures Covers(feed, request, n, x) <==> Covers(feed, request, n - 1, x)
  {
    var points, newest, reach := ReadSoFar(server, feed, request, after, n - 1);
    var k := request + n - 1;
    assert feed.end(k - 1) <= feed.end(k);
    assert reach <= BottomAt(feed, request, n);
    CoversOne(feed, request, n, x);
    assert reach <= x <==> Covers(feed, request, n - 1, x);
  }

  class Events {
    var pages: int
    var after: Option<int>
    var newest: Option<int>

    constructor (pages: int, after: Option<int>)
      ensures this.pages == pages && this.after == after && newest == None
    {
      this.pages, this.after, newest := pages, after, None;
    }

    /** One sweep, down to the event it was handed. Its first request is number
        request; the feed may move between any two requests. */
    method Collect(server: Server, request: nat, ghost feed: Feed)
      returns (points: seq<int>, failed: bool, sent: nat, ghost stop: Stop, ghost reach: int)
      requires Honest(feed, server) && newest == None
      modifies this`newest
      ensures Asked(server, request, after, MostPages(pages), sent - request, stop)
      ensures HasRead(server, request, points, newest, sent - request)
      ensures failed <==> stop == Error
      // Three pages at most, and fewer where fewer are asked for.
      ensures sent - request <= 3 && (0 < pages < 3 ==> sent - request <= pages)
      ensures stop == Budget ==> sent - request == if 0 < pages < 3 then pages else 3
      ensures Worthy(server, feed, request, sent - request, Sweep(after, newest, points, stop, reach))
    {
      var most := MostPages(pages);
      points, failed, sent := [], false, request;
      var page := 1;
      while page <= most
        invariant 1 <= page <= most + 1 && sent == request + page - 1
        invariant LedOn(server, request, after, page - 1) && HasRead(server, request, points, newest, page - 1)
      {
        var reply, ended := server(sent, page), Budget;
        sent := sent + 1;
        points, ended := TakePage(reply, page, points, server, request);
        if ended != Budget {
          failed, stop := ended == Error, ended;
          reach := SweepIsSound(server, feed, request, after, most, page, stop, points, newest);
          return;
        }
        page := page + 1;
      }
      stop := Budget;
      assert EndsFor(after, ReplyAt(server, request, most)) == Budget;
      reach := SweepIsSound(server, feed, request, after, most, most, stop, points, newest);
    }

    /** What one page makes of the points so far, and what it stops the sweep for:
        nothing, unless it carries After, is short, or is no page. */
    method TakePage(reply: Reply, page: nat, points: seq<int>, ghost server: Server, ghost request: nat)
      returns (more: seq<int>, ended: Stop)
      requires 1 <= page <= MostPages(pages) && LedOn(server, request, after, page - 1)
      requires HasRead(server, request, points, newest, page - 1) && reply == server(request + page - 1, page)
      modifies this`newest
      ensures HasRead(server, request, more, newest, page) && ended == EndsFor(after, ReplyAt(server, request, page))
      ensures ended == Budget ==> LedOn(server, request, after, page)
      ensures ended != Budget ==> Asked(server, request, after, MostPages(pages), page, ended)
    {
      ReadsOn(server, request, points, newest, page);
      assert points + [] == points;
      if reply.Refused? {
        return points, Refusal;
      }
      if reply.Failed? {
        return points, Error;
      }
      var batch := reply.rows;
      if |batch| == 0 {
        return points, EndOfFeed;
      }
      if page == 1 {
        newest := Some(batch[0]);
      }
      var seen := after.Some? && after.value in batch;
      return points + batch, if seen then Seen else if |batch| < PER_PAGE then EndOfFeed else Budget;
    }
  }

  // Over whole runs.

  /** What the next sweep is handed: the newest event of the last sweep that did
      not fail and saw one. */
  function HandedOver(last: Option<int>, s: Sweep): Option<int> {
    if s.stop != Error && s.newest.Some? then s.newest else last
  }

  function HandedAfter(sweeps: seq<Sweep>, n: nat): Option<int>
    requires n <= |sweeps|
  {
    if n == 0 then None else HandedOver(HandedAfter(sweeps, n - 1), sweeps[n - 1])
  }

  /** A run of sweeps, each given what the ones before it hand over, on a feed
      whose events keep their order. */
  ghost predicate IsRun(sweeps: seq<Sweep>) {
    forall n :: 0 <= n < |sweeps| ==> InRunAt(sweeps, n)
  }

  ghost predicate InRunAt(sweeps: seq<Sweep>, n: nat)
    requires n < |sweeps|
  {
    InRun(sweeps[n], HandedAfter(sweeps, n))
  }

  ghost predicate InRun(s: Sweep, handed: Option<int>) {
    && Sound(s) && s.after == handed
    && (handed.Some? && s.newest.Some? ==> handed.value <= s.newest.value)
  }

  ghost function Union(sweeps: seq<Sweep>, n: nat): set<int>
    requires n <= |sweeps|
  {
    if n == 0 then {} else Union(sweeps, n - 1) + Elems(sweeps[n - 1].points)
  }

  /** A sweep that hands an event over reaches down to the one it was handed. */
  predicate Joins(s: Sweep) {
    s.stop != Error && s.newest.Some? && s.after.Some? ==> s.reach <= s.after.value + 1
  }

  /** Where the first sweep that handed an event over reached. */
  function FirstReach(sweeps: seq<Sweep>, n: nat): int
    requires n <= |sweeps|
  {
    if n == 0 then 0
    else if HandedAfter(sweeps, n - 1).None? && sweeps[n - 1].stop != Error && sweeps[n - 1].newest.Some? then sweeps[n - 1].reach
    else FirstReach(sweeps, n - 1)
  }

  /** If every sweep joins the one before it, nothing between the first one's
      reach and the event last handed over was missed. */
  lemma {:induction false} NoGap(sweeps: seq<Sweep>, n: nat, x: int)
    requires n <= |sweeps| && IsRun(sweeps) && HandedAfter(sweeps, n).Some?
    requires forall k :: 0 <= k < n ==> Joins(sweeps[k])
    requires FirstReach(sweeps, n) <= x <= HandedAfter(sweeps, n).value
    ensures x in Union(sweeps, n)
  {
    var s, last := sweeps[n - 1], HandedAfter(sweeps, n - 1);
    assert InRunAt(sweeps, n - 1) && Joins(s);
    assert Union(sweeps, n) == Union(sweeps, n - 1) + Elems(s.points);
    if s.stop != Error && s.newest.Some? && (last.None? || last.value < x) {
      assert s.reach <= x;
    } else {
      NoGap(sweeps, n - 1, x);
    }
  }

  /** What joining is in what was read: every event after the one handed over, down
      from the newest, is among the points. A sweep that stopped on the event
      handed over has them, and so has one that came to the end of a feed from
      which nothing after that event had aged out. */
  lemma WhenItJoins(s: Sweep, start: int)
    requires Sound(s) && s.newest.Some? && s.after.Some? && s.after.value <= s.newest.value
    ensures s.stop == Seen ==> Joins(s)
    ensures s.stop == EndOfFeed && s.reach <= start && start <= s.after.value + 1 ==> Joins(s)
    ensures s.stop != Error ==> (Joins(s) <==> forall x :: s.after.value < x <= s.newest.value ==> x in s.points)
  {
    if s.stop != Error && !Joins(s) {
      assert s.after.value + 1 !in s.points;
    }
  }

  /** A gap three pages below the event handed over is there for good: no later
      sweep of the run reads that far down. */
  lemma {:induction false} AGapStays(sweeps: seq<Sweep>, n: nat, m: nat, x: int)
    requires n <= m <= |sweeps| && IsRun(sweeps)
    requires HandedAfter(sweeps, n).Some? && x + PER_PAGE * MOST_PAGES <= HandedAfter(sweeps, n).value
    requires x !in Union(sweeps, n)
    ensures HandedAfter(sweeps, m).Some? && HandedAfter(sweeps, n).value <= HandedAfter(sweeps, m).value
    ensures x !in Union(sweeps, m)
  {
    if n < m {
      AGapStays(sweeps, n, m - 1, x);
      assert InRunAt(sweeps, m - 1);
    }
  }

  /** A feed of one event that four hundred more join before its second request. */
  function Burst(): Feed {
    Feed((k: nat) => 0, (k: nat) => if k == 0 then 1 else 401)
  }

  function FeedServer(feed: Feed): Server {
    (k: nat, p: int) => if p < 1 then Refused else Batch(PageRows(feed, k, p))
  }

  function PageRows(feed: Feed, k: nat, p: int): seq<int> {
    var top, bottom := feed.end(k) - PER_PAGE * (p - 1), Bottom(feed, k, p);
    seq(if bottom < top then top - bottom else 0, i => top - 1 - i)
  }

  lemma FeedServerIsHonest(feed: Feed)
    requires Grows(feed)
    ensures Honest(feed, FeedServer(feed))
  {
    forall k: nat, p: int | p >= 1
      ensures IsPage(feed, k, p, FeedServer(feed)(k, p).rows)
    {
      assert FeedServer(feed)(k, p) == Batch(PageRows(feed, k, p));
    }
  }

  /** And a feed that moves more than three pages between two sweeps leaves one: two
      sweeps of it, the second handed what the first saw. */
  method MovedTooFar() returns (ghost sweeps: seq<Sweep>, ghost x: int, first: seq<int>, second: seq<int>)
    ensures |sweeps| == 2 && IsRun(sweeps) && sweeps[1].stop == Budget && !Joins(sweeps[1])
    ensures first == sweeps[0].points && second == sweeps[1].points
    ensures FirstReach(sweeps, 2) <= x && HandedAfter(sweeps, 2).Some? && x + PER_PAGE * MOST_PAGES <= HandedAfter(sweeps, 2).value
    ensures x !in first && x !in second && x !in Union(sweeps, 2)
  {
    FeedServerIsHonest(Burst());
    ghost var one, two;
    first, one := BeforeTheBurst(FeedServer(Burst()));
    second, two := AfterTheBurst(FeedServer(Burst()));
    sweeps, x := [one, two], 50;
    TwoSweeps(one, two);
  }

  method BeforeTheBurst(server: Server) returns (points: seq<int>, ghost s: Sweep)
    requires server == FeedServer(Burst()) && Honest(Burst(), server)
    ensures points == [0] && s == Sweep(None, Some(0), points, EndOfFeed, s.reach) && Sound(s)
  {
    var e := new Events(0, None);
    var failed, sent;
    ghost var stop, reach;
    points, failed, sent, stop, reach := e.Collect(server, 0, Burst());
    s := Sweep(None, e.newest, points, stop, reach);
    FirstOfTheBurst(server, sent, stop, points, e.newest);
  }

  method AfterTheBurst(server: Server) returns (points: seq<int>, ghost s: Sweep)
    requires server == FeedServer(Burst()) && Honest(Burst(), server)
    ensures s == Sweep(Some(0), Some(400), points, Budget, s.reach) && Sound(s) && !Joins(s)
  {
    var e := new Events(0, Some(0));
    var failed, sent;
    ghost var stop, reach;
    points, failed, sent, stop, reach := e.Collect(server, 1, Burst());
    s := Sweep(Some(0), e.newest, points, stop, reach);
    RestOfTheBurst(server, sent - 1, stop);
    JoinsIff(server, Burst(), 1, 0, 3, sent - 1, stop, points, e.newest, reach);
  }

  lemma FirstOfTheBurst(server: Server, sent: nat, stop: Stop, points: seq<int>, newest: Option<int>)
    requires server == FeedServer(Burst()) && Asked(server, 0, None, 3, sent, stop) && HasRead(server, 0, points, newest, sent)
    ensures sent == 1 && stop == EndOfFeed && newest == Some(0) && points == [0]
  {
    assert ReplyAt(server, 0, 1) == Batch(PageRows(Burst(), 0, 1));
    assert PageRows(Burst(), 0, 1) == [0];
    assert EndsFor(None, ReplyAt(server, 0, 1)) == EndOfFeed;
    assert Rows(server, 0, 1) == Rows(server, 0, 0) + [0];
  }

  lemma RestOfTheBurst(server: Server, n: int, stop: Stop)
    requires server == FeedServer(Burst()) && Asked(server, 1, Some(0), 3, n, stop)
    ensures n == 3 && stop == Budget && NewestOf(server, 1) == Some(400)
    ensures !Covers(Burst(), 1, 3, 1) && Came(server, 1, 3) == 3
  {
    forall p: nat | 1 <= p <= 3
      ensures EndsFor(Some(0), ReplyAt(server, 1, p)) == Budget && |RowsOf(ReplyAt(server, 1, p))| == 100
    {
      var rows := PageRows(Burst(), p, p);
      assert ReplyAt(server, 1, p) == Batch(rows);
      assert |rows| == 100 && forall i :: 0 <= i < 100 ==> rows[i] == 400 - PER_PAGE * (p - 1) - i;
    }
  }

  lemma TwoSweeps(one: Sweep, two: Sweep)
    requires Sound(one) && one == Sweep(None, Some(0), [0], EndOfFeed, one.reach)
    requires Sound(two) && two == Sweep(Some(0), Some(400), two.points, Budget, two.reach)
    ensures var sweeps := [one, two];
      && IsRun(sweeps) && FirstReach(sweeps, 2) <= 0 && HandedAfter(sweeps, 2) == Some(400)
      && 50 !in one.points && 50 !in two.points && 50 !in Union(sweeps, 2)
  {
    var sweeps := [one, two];
    assert HandedAfter(sweeps, 0) == None && HandedAfter(sweeps, 1) == Some(0);
    assert FirstReach(sweeps, 2) == FirstReach(sweeps, 1) == one.reach;
    assert InRunAt(sweeps, 0) && InRunAt(sweeps, 1);
    assert Union(sweeps, 1) == Union(sweeps, 0) + Elems(one.points);
    assert Union(sweeps, 2) == Union(sweeps, 1) + Elems(two.points);
  }
}

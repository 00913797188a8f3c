/**
 * The cache listing of a repository, read page by page while entries come and
 * go: cacheEntries of internal/collect/actions.go.
 */
module Caches {
  import opened Lists
  import opened Walks

  const PER_PAGE: nat := 100
  const DEFAULT_PAGES: nat := 10

  /** One entry. cache is the part of its key before the content hash. */
  datatype Entry = Entry(id: int, cache: nat, ref: nat, size: int, createdAt: int, usedAt: int)

  ghost function Ids(entries: seq<Entry>): set<int> {
    set e | e in entries :: e.id
  }

  ghost predicate DistinctIds(entries: seq<Entry>) {
    forall i, j :: 0 <= i < j < |entries| ==> entries[i].id != entries[j].id
  }

  // A listing that moves.

  /** A listing, newest created first, changes by a new entry at the front or an
      entry deleted anywhere. */
  datatype Change = Insert(entry: Entry) | Delete(at: nat)

  function Apply(listing: seq<Entry>, c: Change): seq<Entry> {
    match c
    case Insert(e) => [e] + listing
    case Delete(at) => if at < |listing| then listing[..at] + listing[at + 1..] else listing
  }

  function ApplyAll(listing: seq<Entry>, changes: seq<Change>): seq<Entry> {
    if changes == [] then listing else Apply(ApplyAll(listing, changes[..|changes| - 1]), changes[|changes| - 1])
  }

  /** Entries that were not on the first listing stand before all that were, and
      there are k of them. */
  ghost predicate NewFirst(first: set<int>, listing: seq<Entry>, k: nat) {
    && k <= |listing|
    && (forall i :: 0 <= i < k ==> listing[i].id !in first)
    && (forall i :: k <= i < |listing| ==> listing[i].id in first)
  }

  ghost predicate Newer(first: set<int>, changes: seq<Change>) {
    forall c :: c in changes && c.Insert? ==> c.entry.id !in first
  }

  /** However a listing moves, what is new to it stays in front of what is left
      of it. */
  lemma {:induction false} StaysNewFirst(listing: seq<Entry>, changes: seq<Change>) returns (k: nat)
    requires Newer(Ids(listing), changes)
    ensures NewFirst(Ids(listing), ApplyAll(listing, changes), k)
  {
    if changes == [] {
      k := 0;
    } else {
      var c, before := changes[|changes| - 1], changes[..|changes| - 1];
      k := StaysNewFirst(listing, before);
      assert c in changes;
      if c.Insert? {
        k := k + 1;
      } else if c.at < k {
        k := k - 1;
      }
    }
  }

  // The walk.

  datatype Reply = Page(total: nat, caches: seq<Entry>) | Refused | Failed

  /** Page p of a listing. */
  function PageOf(listing: seq<Entry>, p: nat): seq<Entry>
    requires p >= 1
  {
    var lo := PER_PAGE * (p - 1);
    if |listing| <= lo then [] else if |listing| <= lo + PER_PAGE then listing[lo..] else listing[lo..lo + PER_PAGE]
  }

  /** The server as the walk meets it: the listing as it stands at each request. */
  ghost predicate Honest(server: nat -> Reply, listing: nat -> seq<Entry>) {
    forall p: nat :: p >= 1 && server(p).Page? ==> server(p) == Page(|listing(p)|, PageOf(listing(p), p))
  }

  /** At each request the entries newer than the first fit on the pages before the
      one that is asked for. */
  ghost predicate Drifts(listing: nat -> seq<Entry>) {
    forall p: nat :: p >= 1 ==> DriftedFrom(Ids(listing(1)), listing(p), p)
  }

  ghost predicate DriftedFrom(first: set<int>, listing: seq<Entry>, p: nat)
    requires p >= 1
  {
    exists k: nat :: k <= PER_PAGE * (p - 1) && NewFirst(first, listing, k)
  }

  /** A page holds nothing new if and only if the pages before it have room for all
      that is. */
  lemma NothingNewOnPageIff(first: set<int>, listing: seq<Entry>, k: nat, p: nat)
    requires NewFirst(first, listing, k) && p >= 1
    ensures Ids(PageOf(listing, p)) <= first <==> k <= PER_PAGE * (p - 1)
  {
    var page, lo := PageOf(listing, p), PER_PAGE * (p - 1);
    assert forall i :: 0 <= i < |page| ==> page[i] == listing[lo + i];
    if k <= lo {
      forall id | id in Ids(page)
        ensures id in first
      {
        var e :| e in page && e.id == id;
        var i :| 0 <= i < |page| && page[i] == e;
      }
    } else {
      assert page[0] in page && page[0].id in Ids(page) && page[0].id !in first;
    }
  }

  /** The entries of a page that have not been seen, after the ones that have. */
  ghost function Merged(entries: seq<Entry>, page: seq<Entry>): seq<Entry> {
    if page == [] then entries
    else
      var k := |page| - 1;
      var before := Merged(entries, page[..k]);
      if page[k].id in Ids(before) then before else before + [page[k]]
  }

  /** Merging reads each id once, as it was first seen, and loses and makes up none. */
  lemma {:induction false} MergedOnce(entries: seq<Entry>, page: seq<Entry>)
    requires DistinctIds(entries)
    ensures DistinctIds(Merged(entries, page)) && Ids(Merged(entries, page)) == Ids(entries) + Ids(page)
    ensures entries <= Merged(entries, page) && forall e :: e in Merged(entries, page) ==> e in entries || e in page
  {
    if page != [] {
      var k := |page| - 1;
      MergedOnce(entries, page[..k]);
      IdsTakeOne(page, k);
      assert page[..k + 1] == page;
      var before := Merged(entries, page[..k]);
      AddOne(before, page[k]);
    }
  }

  lemma AddOne(entries: seq<Entry>, e: Entry)
    requires DistinctIds(entries)
    ensures Ids(entries + [e]) == Ids(entries) + {e.id}
    ensures e.id !in Ids(entries) ==> DistinctIds(entries + [e])
  {
    IdsTakeOne(entries + [e], |entries|);
    assert (entries + [e])[..|entries|] == entries && (entries + [e])[..|entries| + 1] == entries + [e];
    if e.id !in Ids(entries) {
      forall i | 0 <= i < |entries|
        ensures entries[i].id != e.id
      {
        assert entries[i] in entries;
      }
    }
  }

  /** With nothing seen twice, merging is reading on. */
  lemma {:induction false} MergedNew(entries: seq<Entry>, page: seq<Entry>)
    requires DistinctIds(entries + page)
    ensures Merged(entries, page) == entries + page
  {
    if page != [] {
      var k := |page| - 1;
      var all := entries + page;
      assert all[..|all| - 1] == entries + page[..k] && all[|all| - 1] == page[k];
      assert DistinctIds(all[..|all| - 1]);
      MergedNew(entries, page[..k]);
    } else {
      assert entries + page == entries;
    }
  }

  method Merge(entries: seq<Entry>, seen: set<int>, page: seq<Entry>) returns (all: seq<Entry>, now: set<int>)
    requires seen == Ids(entries) && DistinctIds(entries)
    ensures all == Merged(entries, page) && now == Ids(all) && DistinctIds(all)
  {
    all, now := entries, seen;
    var i := 0;
    assert page[..0] == [];
    while i < |page|
      invariant 0 <= i <= |page| && all == Merged(entries, page[..i]) && now == Ids(all) && DistinctIds(all)
    {
      assert page[..i + 1][..i] == page[..i];
      AddOne(all, page[i]);
      if page[i].id !in now {
        all, now := all + [page[i]], now + {page[i].id};
      }
      i := i + 1;
    }
    assert page[..i] == page;
  }

  lemma IdsTakeOne(s: seq<Entry>, i: nat)
    requires i < |s|
    ensures Ids(s[..i + 1]) == Ids(s[..i]) + {s[i].id}
  {
    assert s[..i + 1] == s[..i] + [s[i]];
  }

  lemma {:induction false} IdsCount(s: seq<Entry>)
    requires DistinctIds(s)
    ensures |Ids(s)| == |s|
  {
    if s != [] {
      var k := |s| - 1;
      IdsCount(s[..k]);
      IdsTakeOne(s, k);
      assert s[..k + 1] == s;
    }
  }

  /** The entries a page brought. */
  function CachesAt(server: nat -> Reply, p: nat): seq<Entry> {
    if server(p).Page? then server(p).caches else []
  }

  /** What the first n pages say when each is merged into those before it. */
  ghost function PagesRead(server: nat -> Reply, n: nat): seq<Entry> {
    if n == 0 then [] else Merged(PagesRead(server, n - 1), CachesAt(server, n))
  }

  /** A page that leads to the next one, and one that is the last. */
  ghost predicate LeadsOn(server: nat -> Reply, p: nat) {
    server(p).Page? && |server(p).caches| >= PER_PAGE
  }

  ghost predicate EndsOn(server: nat -> Reply, p: nat) {
    server(p).Page? && |server(p).caches| < PER_PAGE
  }

  /** Where a walk of at most most pages stops: at the first page that does not
      lead to another, or behind the last it may read. */
  ghost predicate StopsAt(server: nat -> Reply, most: nat, stop: nat) {
    && 1 <= stop <= most + 1
    && (forall p: nat :: 1 <= p < stop ==> LeadsOn(server, p))
    && (stop <= most ==> !LeadsOn(server, stop))
  }

  /** The pages up to the stop, merged, and what the first one said there was. */
  method ReadPages(server: nat -> Reply, most: nat)
    returns (entries: seq<Entry>, listed: nat, ended: bool, failed: bool, ghost stop: nat)
    ensures StopsAt(server, most, stop)
    ensures failed <==> stop <= most && server(stop).Failed?
    ensures ended <==> stop <= most && EndsOn(server, stop)
    ensures entries == if failed then [] else PagesRead(server, if ended then stop else stop - 1)
    ensures ended ==> server(1).Page? && listed == server(1).total
  {
    entries, listed, ended, failed := [], 0, false, false;
    var seen: set<int>, page := {}, 1;
    while page <= most && !ended
      invariant 1 <= page <= most + 1 && seen == Ids(entries) && DistinctIds(entries)
      invariant forall p: nat :: 1 <= p < page ==> LeadsOn(server, p)
      invariant ended ==> page <= most && EndsOn(server, page)
      invariant entries == PagesRead(server, if ended then page else page - 1)
      invariant page > 1 || ended ==> server(1).Page? && listed == server(1).total
      decreases most - page, !ended
    {
      var reply := server(page);
      if reply.Failed? {
        return [], 0, false, true, page;
      }
      if reply.Refused? {
        return entries, listed, false, false, page;
      }
      if page == 1 {
        listed := reply.total;
      }
      entries, seen := Merge(entries, seen, reply.caches);
      if |reply.caches| < PER_PAGE {
        ended := true;
      } else {
        page := page + 1;
      }
    }
    stop := page;
  }

  /** Reads the listing and judges it: whole, unless the walk came to a short page
      with a count other than the one declared at its start. */
  method CacheEntries(server: nat -> Reply, w: Walk, ghost listing: nat -> seq<Entry>)
    returns (entries: seq<Entry>, whole: bool, failed: bool, ghost ended: bool, ghost stop: nat)
    requires Honest(server, listing)
    ensures StopsAt(server, w.Limit(DEFAULT_PAGES), stop)
    // Ten pages where the walk names none, and no fewer while they come full.
    ensures stop >= 1 && w.Allows(10, stop - 1, LeadsOn(server, stop))
    ensures failed <==> stop <= w.Limit(DEFAULT_PAGES) && server(stop).Failed?
    ensures ended <==> stop <= w.Limit(DEFAULT_PAGES) && EndsOn(server, stop)
    ensures entries == if failed then [] else PagesRead(server, if ended then stop else stop - 1)
    ensures failed ==> !whole
    ensures !failed && !ended ==> whole
    ensures ended ==> server(1).Page? && (whole <==> |entries| == server(1).total)
    ensures DistinctIds(entries)
    // On a listing that only moves as listings do, a walk that ended is whole
    // exactly when it read what the first request's listing held.
    ensures ended && Drifts(listing) && DistinctIds(listing(1)) ==>
      Ids(entries) <= Ids(listing(1)) && (whole <==> Ids(entries) == Ids(listing(1)))
    // A listing that does not move is always whole, and read in its order.
    ensures !failed && Still(listing) ==> whole && ReadTo(listing(1), stop, ended, entries)
  {
    var listed, finished;
    entries, listed, finished, failed, stop := ReadPages(server, w.Limit(DEFAULT_PAGES));
    whole, ended := !failed && (!finished || |entries| == listed), finished;
    Snapshot(server, listing, w.Limit(DEFAULT_PAGES), stop);
    PagesDistinct(server, if ended then stop else stop - 1);
  }

  /** What was read up to a stop, in terms of the listing. */
  lemma Snapshot(server: nat -> Reply, listing: nat -> seq<Entry>, most: nat, stop: nat)
    requires Honest(server, listing) && StopsAt(server, most, stop)
    ensures EndsOn(server, stop) && Drifts(listing) && DistinctIds(listing(1)) ==>
      var entries := PagesRead(server, stop);
      server(1).Page? && Ids(entries) <= Ids(listing(1))
      && (|entries| == server(1).total <==> Ids(entries) == Ids(listing(1)))
    ensures Still(listing) ==> ReadTo(listing(1), stop, false, PagesRead(server, stop - 1))
    ensures EndsOn(server, stop) && Still(listing) ==>
      server(1).Page? && PagesRead(server, stop) == listing(1) && |listing(1)| == server(1).total
  {
    PagesOfStill(server, listing, stop - 1);
    if EndsOn(server, stop) {
      assert stop > 1 ==> LeadsOn(server, 1);
      if Drifts(listing) {
        PagesOfMoving(server, listing, stop);
      }
      PagesDistinct(server, stop);
      WholeMeansAll(PagesRead(server, stop), listing(1));
      ReadOn(listing, stop, PagesRead(server, stop - 1));
    }
  }

  /** However the listing moves, if its newer entries fit on the pages already read,
      nothing new is read. */
  lemma {:induction false} PagesOfMoving(server: nat -> Reply, listing: nat -> seq<Entry>, n: nat)
    requires Honest(server, listing) && Drifts(listing)
    ensures NothingNewRead(server, listing, n)
  {
    if n > 0 {
      PagesOfMoving(server, listing, n - 1);
      OnePageMore(server, listing, n);
    }
  }

  lemma OnePageMore(server: nat -> Reply, listing: nat -> seq<Entry>, n: nat)
    requires n >= 1 && Honest(server, listing) && Drifts(listing) && NothingNewRead(server, listing, n - 1)
    ensures NothingNewRead(server, listing, n)
  {
    OnePageRead(server, n);
    NothingNewAt(server, listing, n);
  }

  lemma NothingNewAt(server: nat -> Reply, listing: nat -> seq<Entry>, n: nat)
    requires n >= 1 && Honest(server, listing) && Drifts(listing)
    ensures Ids(CachesAt(server, n)) <= Ids(listing(1))
  {
    if server(n).Page? {
      OnlyOld(listing, n);
    }
  }

  lemma {:induction false} PagesDistinct(server: nat -> Reply, n: nat)
    ensures DistinctIds(PagesRead(server, n))
  {
    if n > 0 {
      PagesDistinct(server, n - 1);
      MergedOnce(PagesRead(server, n - 1), CachesAt(server, n));
    }
  }

  /** A listing that does not move is read in its order, a hundred at a time. */
  lemma {:induction false} PagesOfStill(server: nat -> Reply, listing: nat -> seq<Entry>, n: nat)
    requires Honest(server, listing) && forall p: nat :: 1 <= p <= n ==> LeadsOn(server, p)
    ensures Still(listing) ==> ReadTo(listing(1), n + 1, false, PagesRead(server, n))
  {
    if n > 0 {
      PagesOfStill(server, listing, n - 1);
      ReadOn(listing, n, PagesRead(server, n - 1));
      assert LeadsOn(server, n);
    }
  }

  ghost predicate Still(listing: nat -> seq<Entry>) {
    DistinctIds(listing(1)) && forall p: nat :: p >= 1 ==> listing(p) == listing(1)
  }

  /** A listing that does not move, read up to a page or to its end. */
  ghost predicate ReadTo(listing: seq<Entry>, page: nat, done: bool, entries: seq<Entry>)
    requires page >= 1
  {
    entries == if done then listing else listing[..Min(PER_PAGE * (page - 1), |listing|)]
  }

  lemma ReadOn(listing: nat -> seq<Entry>, page: nat, entries: seq<Entry>)
    requires page >= 1
    ensures Still(listing) && ReadTo(listing(1), page, false, entries) ==>
      ReadTo(listing(1), page + 1, |PageOf(listing(page), page)| < PER_PAGE, Merged(entries, PageOf(listing(page), page)))
  {
    if Still(listing) && ReadTo(listing(1), page, false, entries) {
      var list, part := listing(1), PageOf(listing(page), page);
      var hi := Min(PER_PAGE * page, |list|);
      assert entries + part == list[..hi];
      MergedNew(entries, part);
      assert |part| < PER_PAGE ==> list[..hi] == list;
    }
  }

  lemma OnlyOld(listing: nat -> seq<Entry>, page: nat)
    requires page >= 1 && Drifts(listing)
    ensures Ids(PageOf(listing(page), page)) <= Ids(listing(1))
  {
    assert DriftedFrom(Ids(listing(1)), listing(page), page);
    var k: nat :| k <= PER_PAGE * (page - 1) && NewFirst(Ids(listing(1)), listing(page), k);
    NothingNewOnPageIff(Ids(listing(1)), listing(page), k, page);
  }

  lemma WholeMeansAll(entries: seq<Entry>, first: seq<Entry>)
    requires DistinctIds(entries)
    ensures DistinctIds(first) && Ids(entries) <= Ids(first) ==>
      (|entries| == |first| <==> Ids(entries) == Ids(first))
  {
    if DistinctIds(first) && Ids(entries) <= Ids(first) {
      IdsCount(entries);
      IdsCount(first);
      if |entries| == |first| {
        SubsetOfSameCount(Ids(entries), Ids(first));
      }
    }
  }

  /** The movement a listing makes between requests, in these terms: entries
      come at the front and go anywhere, and at no request have more come than the
      pages before it hold. */
  lemma MovementDrifts(listing: nat -> seq<Entry>, changes: nat -> seq<Change>)
    requires forall p: nat :: p >= 1 ==>
      listing(p) == ApplyAll(listing(1), changes(p)) && Newer(Ids(listing(1)), changes(p))
    requires forall p: nat, k: nat :: p >= 1 && NewFirst(Ids(listing(1)), listing(p), k) ==> k <= PER_PAGE * (p - 1)
    ensures Drifts(listing)
  {
    forall p: nat | p >= 1
      ensures DriftedFrom(Ids(listing(1)), listing(p), p)
    {
      var k := StaysNewFirst(listing(1), changes(p));
      assert NewFirst(Ids(listing(1)), listing(p), k);
    }
  }

  // When a right count is a right reading.

  /** How many entries newer than the first request there are at each later one. */
  ghost predicate Counts(listing: nat -> seq<Entry>, newer: nat -> nat, n: nat) {
    forall p: nat :: 1 <= p <= n ==> CountsAt(listing, newer, p)
  }

  ghost predicate CountsAt(listing: nat -> seq<Entry>, newer: nat -> nat, p: nat) {
    NewFirst(Ids(listing(1)), listing(p), newer(p))
  }

  /** At each request they fit on the pages already read. */
  ghost predicate Behind(newer: nat -> nat, n: nat) {
    forall p: nat :: 1 <= p <= n ==> newer(p) <= PER_PAGE * (p - 1)
  }

  ghost predicate NothingNewRead(server: nat -> Reply, listing: nat -> seq<Entry>, n: nat) {
    Ids(PagesRead(server, n)) <= Ids(listing(1))
  }

  /** A walk reads nothing but what the first request's listing held if and only if
      at each request the newer entries fit on the pages already read. */
  lemma {:induction false} NothingNewReadIff(server: nat -> Reply, listing: nat -> seq<Entry>, newer: nat -> nat, n: nat)
    requires Honest(server, listing) && Counts(listing, newer, n)
    requires forall p: nat :: 1 <= p <= n ==> server(p).Page?
    ensures NothingNewRead(server, listing, n) <==> Behind(newer, n)
  {
    if n > 0 {
      NothingNewReadIff(server, listing, newer, n - 1);
      BehindOne(newer, n);
      assert CountsAt(listing, newer, n);
      OnePageMoreIff(server, listing, newer(n), n);
    } else {
      assert PagesRead(server, 0) == [];
    }
  }

  lemma OnePageMoreIff(server: nat -> Reply, listing: nat -> seq<Entry>, k: nat, n: nat)
    requires n >= 1 && Honest(server, listing) && server(n).Page? && NewFirst(Ids(listing(1)), listing(n), k)
    ensures NothingNewRead(server, listing, n) <==> NothingNewRead(server, listing, n - 1) && k <= PER_PAGE * (n - 1)
  {
    OnePageRead(server, n);
    assert CachesAt(server, n) == PageOf(listing(n), n);
    NothingNewOnPageIff(Ids(listing(1)), listing(n), k, n);
  }

  lemma OnePageRead(server: nat -> Reply, n: nat)
    requires n >= 1
    ensures Ids(PagesRead(server, n)) == Ids(PagesRead(server, n - 1)) + Ids(CachesAt(server, n))
  {
    PagesDistinct(server, n - 1);
    MergedOnce(PagesRead(server, n - 1), CachesAt(server, n));
  }

  lemma BehindOne(newer: nat -> nat, n: nat)
    requires n >= 1
    ensures Behind(newer, n) <==> Behind(newer, n - 1) && newer(n) <= PER_PAGE * (n - 1)
  {
  }

  /** So a walk that ended with the count it was told read that listing if and only
      if they did. */
  lemma RightCountIsRightReadingIff(server: nat -> Reply, listing: nat -> seq<Entry>, newer: nat -> nat, most: nat, stop: nat)
    requires Honest(server, listing) && StopsAt(server, most, stop) && EndsOn(server, stop)
    requires Counts(listing, newer, stop) && DistinctIds(listing(1))
    requires server(1).Page? ==> |PagesRead(server, stop)| == server(1).total
    ensures Ids(PagesRead(server, stop)) == Ids(listing(1)) <==> Behind(newer, stop)
  {
    assert stop > 1 ==> LeadsOn(server, 1);
    forall p: nat | 1 <= p <= stop
      ensures server(p).Page?
    {
      assert p < stop ==> LeadsOn(server, p);
    }
    NothingNewReadIff(server, listing, newer, stop);
    PagesDistinct(server, stop);
    WholeMeansAll(PagesRead(server, stop), listing(1));
  }

  /** Entries that come one after the other, the last of them numbered from. */
  function Inserts(from: int, n: nat): seq<Change> {
    seq(n, i requires 0 <= i < n => Insert(Entry(from + n - 1 - i, 0, 0, 0, 0, 0)))
  }

  lemma {:induction false} AfterInserts(listing: seq<Entry>, changes: seq<Change>, from: int, n: nat)
    ensures ApplyAll(listing, changes + Inserts(from, n)) == Numbered(from, n) + ApplyAll(listing, changes)
    decreases n
  {
    var all := changes + Inserts(from, n);
    if n == 0 {
      assert all == changes;
    } else {
      var before := changes + Inserts(from + 1, n - 1);
      AfterInserts(listing, changes, from + 1, n - 1);
      LastInsert(from, n);
      assert all[..|all| - 1] == before && all[|all| - 1] == Insert(Entry(from, 0, 0, 0, 0, 0));
      assert ApplyAll(listing, all) == [Entry(from, 0, 0, 0, 0, 0)] + ApplyAll(listing, before);
    }
  }

  lemma LastInsert(from: int, n: nat)
    requires n > 0
    ensures Inserts(from, n) == Inserts(from + 1, n - 1) + [Insert(Entry(from, 0, 0, 0, 0, 0))]
    ensures Numbered(from, n) == [Entry(from, 0, 0, 0, 0, 0)] + Numbered(from + 1, n - 1)
  {
  }

  /** A listing of a hundred and fifty that loses its last entry and gains a hundred
      and one in front, all between the first request and the second. */
  function Moving(): nat -> seq<Entry> {
    (p: nat) => if p <= 1 then Numbered(0, 150) else Numbered(1000, 101) + Numbered(0, 150)[..149]
  }

  function AnswersFor(listing: nat -> seq<Entry>): nat -> Reply {
    (p: nat) => AnswerAt(listing, p)
  }

  function AnswerAt(listing: nat -> seq<Entry>, p: nat): Reply {
    if p == 0 then Refused else Page(|listing(p)|, PageOf(listing(p), p))
  }

  lemma MovingMoves(changes: seq<Change>)
    requires changes == [Delete(149)] + Inserts(1000, 101)
    ensures Moving()(2) == ApplyAll(Moving()(1), changes) && Newer(Ids(Moving()(1)), changes)
  {
    var listing := Numbered(0, 150);
    AfterInserts(listing, [Delete(149)], 1000, 101);
    assert [Delete(149)][..0] == [];
    assert listing[..149] + listing[150..] == listing[..149];
    assert ApplyAll(listing, [Delete(149)]) == listing[..149];
    IdsOfNumbered(150);
  }

  /** One entry more than the first page holds is too many: the walk says it is
      whole, and what it read is not the listing. */
  method AWholeThatIsNot() returns (entries: seq<Entry>, whole: bool, changes: seq<Change>)
    ensures Moving()(2) == ApplyAll(Moving()(1), changes) && Newer(Ids(Moving()(1)), changes)
    ensures NewFirst(Ids(Moving()(1)), Moving()(2), PER_PAGE + 1)
    ensures whole && |entries| == |Moving()(1)| && Ids(entries) != Ids(Moving()(1))
  {
    var listing := Moving();
    var server := AnswersFor(listing);
    changes := [Delete(149)] + Inserts(1000, 101);
    MovingMoves(changes);
    AnswersAreHonest(listing);
    TwoFullPages(server);
    var failed;
    ghost var ended, stop;
    entries, whole, failed, ended, stop := CacheEntries(server, Walk(0, 0), listing);
    EndsOnTheThird(server, stop);
    ThreePagesRead(server, entries);
  }

  lemma EndsOnTheThird(server: nat -> Reply, stop: nat)
    requires server == AnswersFor(Moving()) && StopsAt(server, DEFAULT_PAGES, stop)
    ensures stop == 3
  {
    TwoFullPages(server);
    assert !LeadsOn(server, 3);
    StopsThere(server, DEFAULT_PAGES, stop, 3);
  }

  lemma AnswersAreHonest(listing: nat -> seq<Entry>)
    ensures Honest(AnswersFor(listing), listing)
  {
    forall p: nat | p >= 1
      ensures AnswersFor(listing)(p) == Page(|listing(p)|, PageOf(listing(p), p))
    {
      assert AnswersFor(listing)(p) == AnswerAt(listing, p);
    }
  }

  lemma StopsThere(server: nat -> Reply, most: nat, stop: nat, there: nat)
    requires StopsAt(server, most, stop) && 1 <= there <= most && !LeadsOn(server, there)
    requires forall p: nat :: 1 <= p < there ==> LeadsOn(server, p)
    ensures stop == there
  {
  }

  lemma TwoFullPages(server: nat -> Reply)
    requires server == AnswersFor(Moving())
    ensures server(1) == AnswerAt(Moving(), 1) && server(2) == AnswerAt(Moving(), 2) && server(3) == AnswerAt(Moving(), 3)
    ensures LeadsOn(server, 1) && LeadsOn(server, 2) && EndsOn(server, 3) && server(1).total == 150
    ensures NewFirst(Ids(Moving()(1)), Moving()(2), PER_PAGE + 1)
  {
    PagesAfterTheMove(Numbered(0, 150), Numbered(1000, 101));
    MoreThanAPageAhead(Numbered(0, 150), Numbered(1000, 101) + Numbered(0, 150)[..149]);
  }

  lemma ThreePagesRead(server: nat -> Reply, entries: seq<Entry>)
    requires server == AnswersFor(Moving()) && entries == PagesRead(server, 3)
    ensures |entries| == 150 && Ids(entries) != Ids(Moving()(1))
  {
    var first, later := Numbered(0, 150), Numbered(1000, 101) + Numbered(0, 150)[..149];
    TwoFullPages(server);
    assert CachesAt(server, 1) == PageOf(first, 1) && CachesAt(server, 2) == PageOf(later, 2) && CachesAt(server, 3) == PageOf(later, 3);
    assert PagesRead(server, 0) == [] && PagesRead(server, 1) == Merged([], CachesAt(server, 1));
    assert PagesRead(server, 2) == Merged(PagesRead(server, 1), CachesAt(server, 2));
    WrongButCounted(first, later, Numbered(0, 100) + [Entry(1100, 0, 0, 0, 0, 0)] + first[100..149]);
    IdsOfNumbered(150);
    assert entries[100] in entries && Entry(1100, 0, 0, 0, 0, 0).id in Ids(entries);
  }

  lemma MoreThanAPageAhead(first: seq<Entry>, later: seq<Entry>)
    requires first == Numbered(0, 150) && later == Numbered(1000, 101) + first[..149]
    ensures DistinctIds(first) && DistinctIds(later) && NewFirst(Ids(first), later, PER_PAGE + 1)
  {
    IdsOfNumbered(150);
    forall i | 0 <= i < 149
      ensures first[i].id in Ids(first)
    {
      assert i in Ids(first);
    }
  }

  lemma WrongButCounted(first: seq<Entry>, later: seq<Entry>, entries: seq<Entry>)
    requires first == Numbered(0, 150) && later == Numbered(1000, 101) + first[..149]
    requires entries == Numbered(0, 100) + [Entry(1100, 0, 0, 0, 0, 0)] + first[100..149]
    ensures entries == Merged(Merged(Merged([], PageOf(first, 1)), PageOf(later, 2)), PageOf(later, 3))
    ensures |PageOf(first, 1)| == PER_PAGE == |PageOf(later, 2)| && |PageOf(later, 3)| < PER_PAGE
    ensures |entries| == |first|
  {
    var extra := Entry(1100, 0, 0, 0, 0, 0);
    PagesAfterTheMove(first, Numbered(1000, 101));
    assert Numbered(0, 100) == first[..100] && DistinctIds(entries) && first[99] == first[..100][99];
    ThreeMerges(first[..100], [extra], first[100..149], first[..99], [first[99]]);
  }

  function Numbered(from: int, n: nat): seq<Entry> {
    seq(n, i => Entry(from + i, 0, 0, 0, 0, 0))
  }

  lemma IdsOfNumbered(n: nat)
    ensures forall id :: id in Ids(Numbered(0, n)) <==> 0 <= id < n
  {
    forall id | 0 <= id < n
      ensures id in Ids(Numbered(0, n))
    {
      assert Numbered(0, n)[id] in Numbered(0, n);
    }
  }

  lemma PagesAfterTheMove(first: seq<Entry>, newer: seq<Entry>)
    requires |first| == 150 && |newer| == 101
    ensures PageOf(first, 1) == first[..100]
    ensures PageOf(newer + first[..149], 2) == [newer[100]] + first[..99]
    ensures PageOf(newer + first[..149], 3) == [first[99]] + first[100..149]
  {
  }

  lemma ThreeMerges(a: seq<Entry>, x: seq<Entry>, b: seq<Entry>, seen1: seq<Entry>, seen2: seq<Entry>)
    requires DistinctIds(a + x + b)
    requires (forall e :: e in seen1 ==> e in a) && (forall e :: e in seen2 ==> e in a)
    ensures Merged(Merged(Merged([], a), x + seen1), seen2 + b) == a + x + b
  {
    assert [] + a == a && (a + x + b)[..|a|] == a && (a + x + b)[..|a + x|] == a + x;
    MergedNew([], a);
    NewThenSeen(a, x, seen1);
    SeenThenNew(a + x, seen2, b);
  }

  lemma NewThenSeen(entries: seq<Entry>, a: seq<Entry>, b: seq<Entry>)
    requires DistinctIds(entries + a) && forall e :: e in b ==> e in entries
    ensures Merged(entries, a + b) == entries + a
  {
    MergedNew(entries, a);
    SeenBefore(entries, a, b);
  }

  lemma SeenThenNew(entries: seq<Entry>, a: seq<Entry>, b: seq<Entry>)
    requires DistinctIds(entries + b) && forall e :: e in a ==> e in entries
    ensures Merged(entries, a + b) == entries + b
  {
    SeenBefore(entries, [], a);
    assert [] + a == a;
    MergedInTwo(entries, a, b);
    MergedNew(entries, b);
  }

  lemma {:induction false} MergedInTwo(entries: seq<Entry>, a: seq<Entry>, b: seq<Entry>)
    ensures Merged(entries, a + b) == Merged(Merged(entries, a), b)
  {
    if b == [] {
      assert a + b == a;
    } else {
      MergedInTwo(entries, a, b[..|b| - 1]);
      assert (a + b)[..|a + b| - 1] == a + b[..|b| - 1];
    }
  }

  lemma {:induction false} SeenBefore(entries: seq<Entry>, a: seq<Entry>, b: seq<Entry>)
    requires forall e :: e in b ==> e in entries
    ensures Merged(entries, a + b) == Merged(entries, a)
  {
    if b == [] {
      assert a + b == a;
    } else {
      var k := |b| - 1;
      SeenBefore(entries, a, b[..k]);
      assert (a + b)[..|a + b| - 1] == a + b[..k];
      assert b[k] in entries;
      KeepsSeen(entries, a, b[k]);
    }
  }

  lemma {:induction false} KeepsSeen(entries: seq<Entry>, a: seq<Entry>, e: Entry)
    requires e in entries
    ensures e in Merged(entries, a) && e.id in Ids(Merged(entries, a))
  {
    if a != [] {
      KeepsSeen(entries, a[..|a| - 1], e);
    }
  }
}

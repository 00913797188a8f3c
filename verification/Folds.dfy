/**
 * The rows the entries of a cache listing are folded into, so that a row's
 * identity is unique by construction: cacheRows of internal/collect/actions.go.
 */
module Folds {
  import opened Caches

  datatype Key = Key(cache: nat, ref: nat)

  function KeyOf(e: Entry): Key {
    Key(e.cache, e.ref)
  }

  datatype Row = Row(key: Key, size: int, n: nat, newest: Entry, created: int)

  /** Used later; of two used at the same moment, the one with the larger id. */
  predicate Later(e: Entry, f: Entry) {
    e.usedAt > f.usedAt || (e.usedAt == f.usedAt && e.id > f.id)
  }

  // What a row says, in terms that do not mention an order.

  ghost function Count(entries: seq<Entry>, k: Key): nat {
    if entries == [] then 0 else Count(entries[..|entries| - 1], k) + if KeyOf(entries[|entries| - 1]) == k then 1 else 0
  }

  ghost function Size(entries: seq<Entry>, k: Key): int {
    if entries == [] then 0
    else Size(entries[..|entries| - 1], k) + if KeyOf(entries[|entries| - 1]) == k then entries[|entries| - 1].size else 0
  }

  ghost predicate Newest(entries: seq<Entry>, k: Key, best: Entry) {
    && best in entries && KeyOf(best) == k
    && forall e :: e in entries && KeyOf(e) == k ==> !Later(e, best)
  }

  ghost predicate Oldest(entries: seq<Entry>, k: Key, created: int) {
    && (exists e :: e in entries && KeyOf(e) == k && e.createdAt == created)
    && forall e :: e in entries && KeyOf(e) == k ==> created <= e.createdAt
  }

  ghost predicate RowOf(entries: seq<Entry>, row: Row) {
    && row.n == Count(entries, row.key) && row.size == Size(entries, row.key)
    && Newest(entries, row.key, row.newest) && Oldest(entries, row.key, row.created)
  }

  ghost function KeysIn(entries: seq<Entry>): set<Key> {
    set e | e in entries :: KeyOf(e)
  }

  ghost function KeysOf(rows: seq<Row>): set<Key> {
    set row | row in rows :: row.key
  }

  ghost predicate DistinctKeys(rows: seq<Row>) {
    forall i, j :: 0 <= i < j < |rows| ==> rows[i].key != rows[j].key
  }

  /** A row for each key there is, and one only. */
  ghost predicate RowsOf(entries: seq<Entry>, rows: seq<Row>) {
    && DistinctKeys(rows)
    && KeysOf(rows) == KeysIn(entries)
    && forall i :: 0 <= i < |rows| ==> RowOf(entries, rows[i])
  }

  function Started(e: Entry): Row {
    Row(KeyOf(e), e.size, 1, e, e.createdAt)
  }

  function Added(row: Row, e: Entry): Row {
    Row(row.key, row.size + e.size, row.n + 1,
        if Later(e, row.newest) then e else row.newest,
        if e.createdAt < row.created then e.createdAt else row.created)
  }

  lemma {:induction false} NoneOfKey(entries: seq<Entry>, k: Key)
    requires forall e :: e in entries ==> KeyOf(e) != k
    ensures Count(entries, k) == 0 && Size(entries, k) == 0
  {
    if entries != [] {
      NoneOfKey(entries[..|entries| - 1], k);
    }
  }

  lemma CountOne(entries: seq<Entry>, e: Entry, k: Key)
    ensures Count(entries + [e], k) == Count(entries, k) + if KeyOf(e) == k then 1 else 0
    ensures Size(entries + [e], k) == Size(entries, k) + if KeyOf(e) == k then e.size else 0
  {
    assert (entries + [e])[..|entries|] == entries;
  }

  lemma StartRow(entries: seq<Entry>, e: Entry)
    requires forall f :: f in entries ==> KeyOf(f) != KeyOf(e)
    ensures RowOf(entries + [e], Started(e))
  {
    NoneOfKey(entries, KeyOf(e));
    CountOne(entries, e, KeyOf(e));
    assert e in entries + [e];
  }

  lemma AddToRow(entries: seq<Entry>, row: Row, e: Entry)
    requires RowOf(entries, row) && KeyOf(e) == row.key
    ensures RowOf(entries + [e], Added(row, e))
  {
    CountOne(entries, e, row.key);
    var all := entries + [e];
    assert e in all && row.newest in all;
    var least :| least in entries && KeyOf(least) == row.key && least.createdAt == row.created;
    assert least in all;
  }

  lemma KeepRow(entries: seq<Entry>, row: Row, e: Entry)
    requires RowOf(entries, row) && KeyOf(e) != row.key
    ensures RowOf(entries + [e], row)
  {
    CountOne(entries, e, row.key);
    var all := entries + [e];
    assert row.newest in all;
    var least :| least in entries && KeyOf(least) == row.key && least.createdAt == row.created;
    assert least in all;
  }

  ghost function TotalN(rows: seq<Row>): nat {
    if rows == [] then 0 else TotalN(rows[..|rows| - 1]) + rows[|rows| - 1].n
  }

  ghost function TotalSize(rows: seq<Row>): int {
    if rows == [] then 0 else TotalSize(rows[..|rows| - 1]) + rows[|rows| - 1].size
  }

  ghost function SizeOfAll(entries: seq<Entry>): int {
    if entries == [] then 0 else SizeOfAll(entries[..|entries| - 1]) + entries[|entries| - 1].size
  }

  lemma {:induction false} TotalsUpdate(rows: seq<Row>, i: nat, row: Row)
    requires i < |rows|
    ensures TotalN(rows[i := row]) == TotalN(rows) - rows[i].n + row.n
    ensures TotalSize(rows[i := row]) == TotalSize(rows) - rows[i].size + row.size
  {
    var k := |rows| - 1;
    if i < k {
      TotalsUpdate(rows[..k], i, row);
      assert rows[i := row][..k] == rows[..k][i := row];
    } else {
      assert rows[i := row][..k] == rows[..k];
    }
  }

  /** Folds the entries into rows, one for every key among them. */
  method CacheRows(entries: seq<Entry>) returns (rows: seq<Row>)
    ensures RowsOf(entries, rows)
    ensures SumsUp(entries, rows)
    ensures TotalN(rows) == |entries| && TotalSize(rows) == SizeOfAll(entries)
  {
    rows := [];
    var index: map<Key, nat> := map[];
    var i := 0;
    while i < |entries|
      invariant 0 <= i <= |entries| && Folded(entries[..i], rows, index)
    {
      assert entries[..i + 1] == entries[..i] + [entries[i]];
      rows, index := FoldOne(entries[..i], rows, index, entries[i]);
      i := i + 1;
    }
    assert entries[..i] == entries;
    RowsSumUp(entries, rows);
  }

  // What that says of the entries themselves.

  /** Those entries that name a cache and a ref. */
  ghost function EntriesOf(entries: seq<Entry>, cache: nat, ref: nat): seq<Entry> {
    if entries == [] then []
    else
      var e := entries[|entries| - 1];
      EntriesOf(entries[..|entries| - 1], cache, ref) + if e.cache == cache && e.ref == ref then [e] else []
  }

  /** A row is of the most recently used of its entries, by id among those used at the
      same moment, and of when the oldest was created; it counts them and sums
      their sizes. */
  ghost predicate SumsUpOne(entries: seq<Entry>, row: Row) {
    var mine := EntriesOf(entries, row.key.cache, row.key.ref);
    && row.n == |mine| && row.size == SizeOfAll(mine)
    && row.newest in mine && (exists e :: e in mine && e.createdAt == row.created)
    && forall e :: e in mine ==>
         (e.usedAt < row.newest.usedAt || (e.usedAt == row.newest.usedAt && e.id <= row.newest.id)) && row.created <= e.createdAt
  }

  /** Each entry is in one row, that of its cache and ref. */
  ghost predicate SumsUp(entries: seq<Entry>, rows: seq<Row>) {
    && (forall i :: 0 <= i < |rows| ==> SumsUpOne(entries, rows[i]))
    && (forall e :: e in entries ==> exists i :: 0 <= i < |rows| && rows[i].key.cache == e.cache && rows[i].key.ref == e.ref)
    && forall i, j :: 0 <= i < j < |rows| ==> rows[i].key.cache != rows[j].key.cache || rows[i].key.ref != rows[j].key.ref
  }

  lemma {:induction false} EntriesOfKey(entries: seq<Entry>, k: Key)
    ensures |EntriesOf(entries, k.cache, k.ref)| == Count(entries, k)
    ensures SizeOfAll(EntriesOf(entries, k.cache, k.ref)) == Size(entries, k)
    ensures forall e :: e in EntriesOf(entries, k.cache, k.ref) <==> e in entries && KeyOf(e) == k
  {
    if entries != [] {
      var last := |entries| - 1;
      EntriesOfKey(entries[..last], k);
      var before := EntriesOf(entries[..last], k.cache, k.ref);
      assert entries == entries[..last] + [entries[last]];
      assert (before + [entries[last]])[..|before|] == before && before + [] == before;
    }
  }

  lemma RowsSumUp(entries: seq<Entry>, rows: seq<Row>)
    requires RowsOf(entries, rows)
    ensures SumsUp(entries, rows)
  {
    forall i | 0 <= i < |rows|
      ensures SumsUpOne(entries, rows[i])
    {
      EntriesOfKey(entries, rows[i].key);
      var least :| least in entries && KeyOf(least) == rows[i].key && least.createdAt == rows[i].created;
      assert least in EntriesOf(entries, rows[i].key.cache, rows[i].key.ref);
    }
    forall e | e in entries
      ensures exists i :: 0 <= i < |rows| && rows[i].key.cache == e.cache && rows[i].key.ref == e.ref
    {
      assert KeyOf(e) in KeysOf(rows);
      var row :| row in rows && row.key == KeyOf(e);
      var i :| 0 <= i < |rows| && rows[i] == row;
    }
  }

  ghost predicate Folded(entries: seq<Entry>, rows: seq<Row>, index: map<Key, nat>) {
    && RowsOf(entries, rows) && Indexed(index, rows)
    && TotalN(rows) == |entries| && TotalSize(rows) == SizeOfAll(entries)
  }

  method FoldOne(ghost entries: seq<Entry>, rows: seq<Row>, index: map<Key, nat>, e: Entry)
    returns (more: seq<Row>, now: map<Key, nat>)
    requires Folded(entries, rows, index)
    ensures Folded(entries + [e], more, now)
  {
    if KeyOf(e) in index {
      var at := index[KeyOf(e)];
      AddFolded(entries, rows, index, e);
      more, now := rows[at := Added(rows[at], e)], index;
    } else {
      StartFolded(entries, rows, index, e);
      more, now := rows + [Started(e)], index[KeyOf(e) := |rows|];
    }
  }

  lemma AddFolded(entries: seq<Entry>, rows: seq<Row>, index: map<Key, nat>, e: Entry)
    requires Folded(entries, rows, index) && KeyOf(e) in index
    ensures var at := index[KeyOf(e)]; Folded(entries + [e], rows[at := Added(rows[at], e)], index)
  {
    var at := index[KeyOf(e)];
    TotalsStart(entries, rows, e);
    AddToRows(entries, rows, at, e);
    IndexKept(index, rows, at, Added(rows[at], e));
    TotalsUpdate(rows, at, Added(rows[at], e));
  }

  lemma IndexKept(index: map<Key, nat>, rows: seq<Row>, at: nat, row: Row)
    requires Indexed(index, rows) && at < |rows| && row.key == rows[at].key
    ensures Indexed(index, rows[at := row])
  {
    KeysUpdated(rows, at, row);
  }

  lemma StartFolded(entries: seq<Entry>, rows: seq<Row>, index: map<Key, nat>, e: Entry)
    requires Folded(entries, rows, index) && KeyOf(e) !in index
    ensures Folded(entries + [e], rows + [Started(e)], index[KeyOf(e) := |rows|])
  {
    StartRows(entries, rows, e);
    IndexStarted(index, entries, rows, e);
    TotalsStart(entries, rows, e);
  }

  lemma IndexStarted(index: map<Key, nat>, entries: seq<Entry>, rows: seq<Row>, e: Entry)
    requires Indexed(index, rows)
    ensures Indexed(index[KeyOf(e) := |rows|], rows + [Started(e)])
  {
    KeysAfter(entries, rows, e);
  }

  lemma TotalsStart(entries: seq<Entry>, rows: seq<Row>, e: Entry)
    ensures TotalN(rows + [Started(e)]) == TotalN(rows) + 1
    ensures TotalSize(rows + [Started(e)]) == TotalSize(rows) + e.size
    ensures SizeOfAll(entries + [e]) == SizeOfAll(entries) + e.size
  {
    assert (entries + [e])[..|entries|] == entries && (rows + [Started(e)])[..|rows|] == rows;
  }

  ghost predicate Indexed(index: map<Key, nat>, rows: seq<Row>) {
    && index.Keys == KeysOf(rows)
    && forall k :: k in index ==> index[k] < |rows| && rows[index[k]].key == k
  }

  lemma KeysAfter(entries: seq<Entry>, rows: seq<Row>, e: Entry)
    ensures KeysIn(entries + [e]) == KeysIn(entries) + {KeyOf(e)}
    ensures KeysOf(rows + [Started(e)]) == KeysOf(rows) + {KeyOf(e)}
  {
    assert e in entries + [e] && Started(e) in rows + [Started(e)];
    forall f | f in entries
      ensures f in entries + [e]
    {
    }
    forall row | row in rows
      ensures row in rows + [Started(e)]
    {
    }
  }

  lemma KeysUpdated(rows: seq<Row>, at: nat, row: Row)
    requires at < |rows| && row.key == rows[at].key
    ensures KeysOf(rows[at := row]) == KeysOf(rows)
  {
    var all := rows[at := row];
    forall r | r in rows
      ensures r.key in KeysOf(all)
    {
      var i :| 0 <= i < |rows| && rows[i] == r;
      assert all[i] in all;
    }
  }

  lemma AddToRows(entries: seq<Entry>, rows: seq<Row>, at: nat, e: Entry)
    requires RowsOf(entries, rows) && at < |rows| && rows[at].key == KeyOf(e)
    ensures RowsOf(entries + [e], rows[at := Added(rows[at], e)])
  {
    var all := rows[at := Added(rows[at], e)];
    KeysAfter(entries, rows, e);
    KeysUpdated(rows, at, Added(rows[at], e));
    assert rows[at] in rows;
    forall i | 0 <= i < |all|
      ensures RowOf(entries + [e], all[i])
    {
      if i == at {
        AddToRow(entries, rows[at], e);
      } else {
        KeepRow(entries, rows[i], e);
      }
    }
  }

  lemma StartRows(entries: seq<Entry>, rows: seq<Row>, e: Entry)
    requires RowsOf(entries, rows) && KeyOf(e) !in KeysOf(rows)
    ensures RowsOf(entries + [e], rows + [Started(e)])
  {
    var all := rows + [Started(e)];
    KeysAfter(entries, rows, e);
    forall i | 0 <= i < |all|
      ensures RowOf(entries + [e], all[i])
    {
      if i < |rows| {
        assert rows[i] in rows;
        KeepRow(entries, rows[i], e);
      } else {
        StartRow(entries, e);
      }
    }
    forall i | 0 <= i < |rows|
      ensures rows[i].key != KeyOf(e)
    {
      assert rows[i] in rows;
    }
  }

  // The order of the entries does not matter.

  lemma {:induction false} CountOfBag(a: seq<Entry>, b: seq<Entry>, k: Key)
    requires multiset(a) == multiset(b)
    ensures Count(a, k) == Count(b, k) && Size(a, k) == Size(b, k)
  {
    if a != [] {
      var e := a[|a| - 1];
      assert a == a[..|a| - 1] + [e];
      assert e in multiset(a);
      var i :| 0 <= i < |b| && b[i] == e;
      var rest := b[..i] + b[i + 1..];
      assert b == b[..i] + [e] + b[i + 1..];
      assert multiset(a[..|a| - 1]) == multiset(a) - multiset{e} == multiset(b) - multiset{e} == multiset(rest);
      CountOfBag(a[..|a| - 1], rest, k);
      TakeOut(b[..i], e, b[i + 1..], k);
    } else {
      assert |multiset(b)| == 0;
    }
  }

  lemma {:induction false} TakeOut(a: seq<Entry>, e: Entry, b: seq<Entry>, k: Key)
    ensures Count(a + [e] + b, k) == Count(a + b, k) + if KeyOf(e) == k then 1 else 0
    ensures Size(a + [e] + b, k) == Size(a + b, k) + if KeyOf(e) == k then e.size else 0
  {
    if b == [] {
      assert a + [e] + b == a + [e] && a + b == a;
      CountOne(a, e, k);
    } else {
      var last := b[|b| - 1];
      TakeOut(a, e, b[..|b| - 1], k);
      assert a + [e] + b == (a + [e] + b[..|b| - 1]) + [last] && a + b == (a + b[..|b| - 1]) + [last];
      CountOne(a + [e] + b[..|b| - 1], last, k);
      CountOne(a + b[..|b| - 1], last, k);
    }
  }

  /** Whatever order the entries come in, ties on the moment of use included,
      the rows are the same rows. */
  lemma OrderDoesNotMatter(a: seq<Entry>, b: seq<Entry>, rowsA: seq<Row>, rowsB: seq<Row>)
    requires multiset(a) == multiset(b) && DistinctIds(a)
    requires RowsOf(a, rowsA) && RowsOf(b, rowsB)
    ensures forall row :: row in rowsA <==> row in rowsB
  {
    SameElements(a, b);
    assert KeysIn(a) == KeysIn(b);
    forall row | row in rowsA
      ensures row in rowsB
    {
      assert row.key in KeysOf(rowsB);
      var r :| r in rowsB && r.key == row.key;
      SameRow(a, b, row, r);
    }
    forall row | row in rowsB
      ensures row in rowsA
    {
      assert row.key in KeysOf(rowsA);
      var r :| r in rowsA && r.key == row.key;
      SameRow(a, b, r, row);
    }
  }

  lemma SameElements(a: seq<Entry>, b: seq<Entry>)
    requires multiset(a) == multiset(b)
    ensures forall e :: e in a <==> e in b
  {
    assert forall e :: e in a <==> e in multiset(a);
    assert forall e :: e in b <==> e in multiset(b);
  }

  lemma SameRow(a: seq<Entry>, b: seq<Entry>, x: Row, y: Row)
    requires multiset(a) == multiset(b) && DistinctIds(a) && x.key == y.key
    requires RowOf(a, x) && RowOf(b, y)
    ensures x == y
  {
    CountOfBag(a, b, x.key);
    SameElements(a, b);
    assert x.newest in b && y.newest in a;
    var i :| 0 <= i < |a| && a[i] == x.newest;
    var j :| 0 <= j < |a| && a[j] == y.newest;
    assert x.newest.id == y.newest.id;
  }
}

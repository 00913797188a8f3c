/**
 * A repository's activity log, folded into one row per activity, actor and
 * instant: activityPoints of internal/collect/repoevents.go.
 */
module RepoActivity {
  import opened Lists

  /** The actor of an entry that names none. */
  const GHOST: nat := 0

  datatype Entry = Entry(id: int, activity: nat, actor: Option<nat>, at: int, ref: nat)

  datatype Key = Key(activity: nat, actor: nat, at: int)

  /** The entries that share a key: the first listed, and every branch. */
  datatype Group = Group(key: Key, first: Entry, refs: seq<nat>)

  function KeyOf(e: Entry): Key {
    Key(e.activity, if e.actor.None? then GHOST else e.actor.value, e.at)
  }

  ghost function KeysIn(log: seq<Entry>): set<Key> {
    set e | e in log :: KeyOf(e)
  }

  ghost function KeysOf(groups: seq<Group>): set<Key> {
    set g | g in groups :: g.key
  }

  /** The branches of a key, as they follow one another in the log. */
  ghost function RefsOf(log: seq<Entry>, k: Key): seq<nat> {
    if log == [] then []
    else RefsOf(log[..|log| - 1], k) + if KeyOf(log[|log| - 1]) == k then [log[|log| - 1].ref] else []
  }

  /** A group stands for its key: every branch of it in order, and the entry
      listed first, at this place of the log. */
  ghost predicate Stands(log: seq<Entry>, g: Group, place: nat) {
    && g.refs == RefsOf(log, g.key)
    && place < |log| && log[place] == g.first && KeyOf(g.first) == g.key
    && forall i :: 0 <= i < place ==> KeyOf(log[i]) != g.key
  }

  /** One group for each key of the log, in the order the keys appear. */
  ghost predicate GroupsOf(log: seq<Entry>, groups: seq<Group>, places: seq<nat>) {
    && |places| == |groups|
    && (forall i :: 0 <= i < |groups| ==> Stands(log, groups[i], places[i]))
    && (forall i, j :: 0 <= i < j < |groups| ==> places[i] < places[j] && groups[i].key != groups[j].key)
    && KeysOf(groups) == KeysIn(log)
  }

  ghost function Events(groups: seq<Group>): nat {
    if groups == [] then 0 else Events(groups[..|groups| - 1]) + |groups[|groups| - 1].refs|
  }

  lemma {:induction false} EventsUpdate(groups: seq<Group>, i: nat, g: Group)
    requires i < |groups|
    ensures Events(groups[i := g]) == Events(groups) - |groups[i].refs| + |g.refs|
  {
    var k := |groups| - 1;
    if i < k {
      EventsUpdate(groups[..k], i, g);
      assert groups[i := g][..k] == groups[..k][i := g];
    } else {
      assert groups[i := g][..k] == groups[..k];
    }
  }

  lemma {:induction false} NoRefs(log: seq<Entry>, k: Key)
    requires forall e :: e in log ==> KeyOf(e) != k
    ensures RefsOf(log, k) == []
  {
    if log != [] {
      NoRefs(log[..|log| - 1], k);
    }
  }

  lemma StandsAfter(log: seq<Entry>, g: Group, place: nat, e: Entry)
    requires Stands(log, g, place)
    ensures Stands(log + [e], if KeyOf(e) == g.key then g.(refs := g.refs + [e.ref]) else g, place)
  {
    assert (log + [e])[..|log|] == log;
  }

  lemma KeysAfter(log: seq<Entry>, e: Entry, groups: seq<Group>, g: Group)
    ensures KeysIn(log + [e]) == KeysIn(log) + {KeyOf(e)}
    ensures KeysOf(groups + [g]) == KeysOf(groups) + {g.key}
  {
    assert e in log + [e] && g in groups + [g];
    assert forall x :: x in log ==> x in log + [e];
    assert forall x :: x in groups ==> x in groups + [g];
  }

  lemma KeysUpdated(groups: seq<Group>, i: nat, g: Group)
    requires i < |groups| && g.key == groups[i].key
    ensures KeysOf(groups[i := g]) == KeysOf(groups)
  {
    var all := groups[i := g];
    forall x | x in groups
      ensures x.key in KeysOf(all)
    {
      var j :| 0 <= j < |groups| && groups[j] == x;
      assert all[j] in all;
    }
  }

  lemma Joins(log: seq<Entry>, groups: seq<Group>, places: seq<nat>, i: nat, e: Entry)
    requires GroupsOf(log, groups, places) && i < |groups| && groups[i].key == KeyOf(e)
    ensures GroupsOf(log + [e], groups[i := groups[i].(refs := groups[i].refs + [e.ref])], places)
  {
    var g := groups[i].(refs := groups[i].refs + [e.ref]);
    KeysAfter(log, e, groups, g);
    KeysUpdated(groups, i, g);
    assert groups[i] in groups;
    forall j | 0 <= j < |groups|
      ensures Stands(log + [e], groups[i := g][j], places[j])
    {
      StandsAfter(log, groups[j], places[j], e);
    }
  }

  lemma Starts(log: seq<Entry>, groups: seq<Group>, places: seq<nat>, e: Entry)
    requires GroupsOf(log, groups, places) && KeyOf(e) !in KeysOf(groups)
    ensures GroupsOf(log + [e], groups + [Group(KeyOf(e), e, [e.ref])], places + [|log|])
  {
    KeysAfter(log, e, groups, Group(KeyOf(e), e, [e.ref]));
    NewStands(log, e);
    forall j | 0 <= j < |groups|
      ensures Stands(log + [e], groups[j], places[j]) && places[j] < |log| && groups[j].key != KeyOf(e)
    {
      assert groups[j] in groups;
      StandsAfter(log, groups[j], places[j], e);
    }
  }

  lemma NewStands(log: seq<Entry>, e: Entry)
    requires KeyOf(e) !in KeysIn(log)
    ensures Stands(log + [e], Group(KeyOf(e), e, [e.ref]), |log|)
  {
    assert forall x :: x in log ==> KeyOf(x) in KeysIn(log);
    NoRefs(log, KeyOf(e));
    assert (log + [e])[..|log|] == log;
    forall i | 0 <= i < |log|
      ensures KeyOf((log + [e])[i]) != KeyOf(e)
    {
      assert log[i] in log;
    }
  }

  ghost predicate Indexed(index: map<Key, nat>, groups: seq<Group>) {
    && index.Keys == KeysOf(groups)
    && forall k :: k in index ==> index[k] < |groups| && groups[index[k]].key == k
  }

  lemma IndexKept(index: map<Key, nat>, groups: seq<Group>, i: nat, g: Group)
    requires Indexed(index, groups) && i < |groups| && g.key == groups[i].key
    ensures Indexed(index, groups[i := g])
  {
    KeysUpdated(groups, i, g);
  }

  lemma IndexGrown(index: map<Key, nat>, groups: seq<Group>, g: Group)
    requires Indexed(index, groups)
    ensures Indexed(index[g.key := |groups|], groups + [g])
  {
    KeysAfter([], g.first, groups, g);
  }

  /** Folds a log by its keys, in the order they first appear; each entry goes into
      exactly one row. */
  method ActivityPoints(log: seq<Entry>) returns (groups: seq<Group>, ghost places: seq<nat>)
    ensures GroupsOf(log, groups, places) && Events(groups) == |log|
    ensures Folds(log, groups)
  {
    groups, places := [], [];
    var index: map<Key, nat> := map[];
    var i := 0;
    while i < |log|
      invariant 0 <= i <= |log| && Grouped(log[..i], groups, index, places)
    {
      assert log[..i + 1] == log[..i] + [log[i]];
      groups, index, places := GroupOne(log[..i], groups, index, places, log[i]);
      i := i + 1;
    }
    assert log[..i] == log;
    GroupsFold(log, groups, places);
  }

  // What that says of the entries themselves.

  /** The entries of one activity, actor and instant; none named is actor 0. */
  ghost function EntriesOf(log: seq<Entry>, activity: nat, actor: nat, at: int): seq<Entry> {
    if log == [] then []
    else
      var e := log[|log| - 1];
      EntriesOf(log[..|log| - 1], activity, actor, at)
      + if e.activity == activity && e.at == at && (if e.actor.Some? then e.actor.value else 0) == actor then [e] else []
  }

  /** A group is of the first of its entries and has a branch for each, in order. */
  ghost predicate FoldsOne(log: seq<Entry>, g: Group) {
    var mine := EntriesOf(log, g.key.activity, g.key.actor, g.key.at);
    mine != [] && g.first == mine[0] && |g.refs| == |mine| && forall i :: 0 <= i < |mine| ==> g.refs[i] == mine[i].ref
  }

  /** Each entry is in one group, that of its activity, actor and instant. */
  ghost predicate Folds(log: seq<Entry>, groups: seq<Group>) {
    && (forall i :: 0 <= i < |groups| ==> FoldsOne(log, groups[i]))
    && (forall e :: e in log ==>
          (exists i :: 0 <= i < |groups| && groups[i].key == Key(e.activity, if e.actor.Some? then e.actor.value else 0, e.at)))
    && forall i, j :: 0 <= i < j < |groups| ==> groups[i].key != groups[j].key
  }

  lemma {:induction false} EntriesOfKey(log: seq<Entry>, k: Key)
    ensures var mine := EntriesOf(log, k.activity, k.actor, k.at);
      && |RefsOf(log, k)| == |mine| && (forall i :: 0 <= i < |mine| ==> RefsOf(log, k)[i] == mine[i].ref)
      && forall e :: e in mine ==> e in log && KeyOf(e) == k
  {
    if log != [] {
      EntriesOfKey(log[..|log| - 1], k);
    }
  }

  lemma {:induction false} FirstOfKey(log: seq<Entry>, k: Key, place: nat)
    requires place < |log| && KeyOf(log[place]) == k && forall i :: 0 <= i < place ==> KeyOf(log[i]) != k
    ensures var mine := EntriesOf(log, k.activity, k.actor, k.at); mine != [] && mine[0] == log[place]
  {
    var n := |log| - 1;
    if place < n {
      FirstOfKey(log[..n], k, place);
    } else {
      NoEntries(log[..n], k);
    }
  }

  lemma {:induction false} NoEntries(log: seq<Entry>, k: Key)
    requires forall i :: 0 <= i < |log| ==> KeyOf(log[i]) != k
    ensures EntriesOf(log, k.activity, k.actor, k.at) == []
  {
    if log != [] {
      NoEntries(log[..|log| - 1], k);
    }
  }

  lemma GroupsFold(log: seq<Entry>, groups: seq<Group>, places: seq<nat>)
    requires GroupsOf(log, groups, places)
    ensures Folds(log, groups)
  {
    forall i | 0 <= i < |groups|
      ensures FoldsOne(log, groups[i])
    {
      assert Stands(log, groups[i], places[i]);
      EntriesOfKey(log, groups[i].key);
      FirstOfKey(log, groups[i].key, places[i]);
    }
    forall e | e in log
      ensures exists i :: 0 <= i < |groups| && groups[i].key == Key(e.activity, if e.actor.Some? then e.actor.value else 0, e.at)
    {
      assert KeyOf(e) in KeysOf(groups);
      var g :| g in groups && g.key == KeyOf(e);
      var i :| 0 <= i < |groups| && groups[i] == g;
    }
  }

  ghost predicate Grouped(log: seq<Entry>, groups: seq<Group>, index: map<Key, nat>, places: seq<nat>) {
    GroupsOf(log, groups, places) && Indexed(index, groups) && Events(groups) == |log|
  }

  method GroupOne(ghost log: seq<Entry>, groups: seq<Group>, index: map<Key, nat>, ghost places: seq<nat>, e: Entry)
    returns (more: seq<Group>, now: map<Key, nat>, ghost at: seq<nat>)
    requires Grouped(log, groups, index, places)
    ensures Grouped(log + [e], more, now, at)
  {
    var k := KeyOf(e);
    if k in index {
      var i := index[k];
      var g := groups[i].(refs := groups[i].refs + [e.ref]);
      Joins(log, groups, places, i, e);
      IndexKept(index, groups, i, g);
      EventsUpdate(groups, i, g);
      more, now, at := groups[i := g], index, places;
    } else {
      var g := Group(k, e, [e.ref]);
      Starts(log, groups, places, e);
      IndexGrown(index, groups, g);
      assert (groups + [g])[..|groups|] == groups;
      more, now, at := groups + [g], index[k := |groups|], places + [|log|];
    }
  }
}

/**
 * A list that is read a page at a time through a cursor, newest first. A cursor
 * of 0 is the empty cursor; any other is how far the list has been read.
 */
module Cursors {
  import opened Walks

  datatype Slice<T> = Slice(nodes: seq<T>, hasNext: bool, cursor: nat)

  /** A page of a list that does not move: a stretch of it, of any length, that
      promises another only after holding something and denies it only at the
      end. */
  ghost predicate HonestSlice<T>(list: seq<T>, after: nat, s: Slice<T>) {
    after <= |list| ==>
      && after + |s.nodes| <= |list|
      && s.nodes == list[after..after + |s.nodes|]
      && (s.hasNext ==> s.nodes != [] && s.cursor == after + |s.nodes|)
      && (!s.hasNext ==> after + |s.nodes| == |list|)
  }

  /** Whether a walk goes on after a page: the page promises another and does not
      end past the bound. */
  predicate More<T>(w: Walk, date: T -> int, s: Slice<T>) {
    s.hasNext && |s.nodes| > 0 && !w.Past(date(s.nodes[|s.nodes| - 1]))
  }

  /** Whether a walk has read all it should: it is at the end of the list, or
      the last item it read is older than the bound. */
  ghost predicate ReadOut<T>(w: Walk, date: T -> int, list: seq<T>, at: nat) {
    at <= |list| && (at == |list| || (at > 0 && w.Past(date(list[at - 1]))))
  }

  ghost predicate NewestFirst<T>(date: T -> int, list: seq<T>) {
    && (forall i :: 0 <= i < |list| ==> date(list[i]) > 0)
    && forall i, j :: 0 <= i < j < |list| ==> date(list[i]) >= date(list[j])
  }

  /** What is left unread then is older than the bound. */
  lemma ReadOutReaches<T>(w: Walk, date: T -> int, list: seq<T>, at: nat)
    requires NewestFirst(date, list) && ReadOut(w, date, list, at)
    ensures forall i :: 0 <= i < |list| && !w.Past(date(list[i])) ==> i < at
    ensures forall i :: 0 <= i < |list| && date(list[i]) >= w.since ==> i < at
  {
    forall i | at <= i < |list|
      ensures w.Past(date(list[i]))
    {
      OlderIsPast(w, date(list[i]), date(list[at - 1]));
    }
  }

  lemma NextSlice<T>(w: Walk, date: T -> int, list: seq<T>, at: nat, s: Slice<T>)
    requires at <= |list| && HonestSlice(list, at, s)
    ensures list[..at] + s.nodes == list[..at + |s.nodes|]
    ensures More(w, date, s) ==> s.cursor == at + |s.nodes| > at
    ensures !More(w, date, s) ==> ReadOut(w, date, list, at + |s.nodes|)
  {
  }
}

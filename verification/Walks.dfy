/**
 * The bounds of a walk, in pages and in time: Walk of internal/collect/collect.go. Moments
 * are seconds since Go's zero time, so the zero time is 0.
 */
module Walks {

  const CEILING: nat := 100000

  datatype Walk = Walk(pages: int, since: int) {
    /** The number of pages allowed: zero leaves it to the caller, and below zero only
        the ceiling is left. */
    function Limit(byDefault: nat): nat {
      if pages < 0 then CEILING else if pages == 0 then byDefault else pages
    }

    /** A number of pages read within those allowed, and all of them once they are
        spent: the walk's own number, or the default of one that names none, or the
        ceiling of one below zero. */
    ghost predicate Allows(byDefault: nat, read: int, spent: bool) {
      && (pages > 0 ==> read <= pages && (spent ==> read == pages))
      && (pages == 0 ==> read <= byDefault && (spent ==> read == byDefault))
      && (pages < 0 ==> read <= 100000 && (spent ==> read == 100000))
    }

    /** Whether an item of this moment is older than the bound. */
    predicate Past(t: int) {
      since != 0 && t != 0 && t < since
    }
  }

  /** Moments being counted from the zero time, past is later than it and earlier than
      the bound. */
  lemma PastIs(w: Walk, t: nat)
    requires w.since >= 0
    ensures w.Past(t) <==> 0 < t < w.since
  {
  }

  const UNBOUNDED := Walk(-1, 0)

  lemma OlderIsPast(w: Walk, older: int, newer: int)
    requires 0 < older <= newer && w.Past(newer)
    ensures w.Past(older)
  {
  }
}

/**
 * The pull requests and the issues of a repository, listed by one query with a
 * cursor for each: what the walks of internal/collect/pulls.go and
 * internal/collect/issueevents.go ask for, query after query.
 */
module ItemListings {
  import opened Lists
  import opened Walks
  import opened Cursors

  const SMALLEST_HALVED: nat := 10

  datatype Kind = Pulls | Issues

  datatype Ask = Ask(first: nat, withPulls: bool, pullAfter: nat, withIssues: bool, issueAfter: nat) {
    predicate With(kind: Kind) {
      if kind == Pulls then withPulls else withIssues
    }

    function After(kind: Kind): nat {
      if kind == Pulls then pullAfter else issueAfter
    }
  }

  datatype Reply<T> = Page(pulls: Slice<T>, issues: Slice<T>) | TooLarge | Refused | Failed {
    function Part(kind: Kind): Slice<T>
      requires Page?
    {
      if kind == Pulls then pulls else issues
    }
  }

  /** The two lists, which do not move while they are read. */
  datatype Both<T> = Both(pulls: seq<T>, issues: seq<T>) {
    function Of(kind: Kind): seq<T> {
      if kind == Pulls then pulls else issues
    }
  }

  /** The queries of a walk are numbered from 0, so entry k of its log is the query
      the server answered as number k. */
  type Server<!T> = (nat, Ask) -> Reply<T>

  ghost predicate HonestReply<T>(both: Both<T>, ask: Ask, reply: Reply<T>) {
    reply.Page? ==> forall kind: Kind :: ask.With(kind) ==> HonestSlice(both.Of(kind), ask.After(kind), reply.Part(kind))
  }

  ghost predicate Honest<T>(both: Both<T>, server: Server<T>) {
    forall n: nat, ask :: HonestReply(both, ask, server(n, ask))
  }

  /** Pages hold as many as were asked for while there are as many. */
  ghost predicate Fills<T>(both: Both<T>, server: Server<T>) {
    forall n: nat, ask :: FillsReply(both, ask, server(n, ask))
  }

  ghost predicate FillsReply<T>(both: Both<T>, ask: Ask, reply: Reply<T>) {
    reply.Page? ==> forall kind: Kind :: ask.With(kind) && ask.After(kind) <= |both.Of(kind)| ==>
      |reply.Part(kind).nodes| == Min(ask.first, |both.Of(kind)| - ask.After(kind))
  }

  /** How a walk goes about it: its bound, the date it looks at, the size of its
      first page, and whether it asks again for half of one that is too large. */
  datatype Plan<!T> = Plan(w: Walk, date: T -> int, first: nat, halves: bool, most: nat)

  function ReplyTo<T>(server: Server<T>, log: seq<Ask>, k: nat): Reply<T>
    requires k < |log|
  {
    server(k, log[k])
  }

  /** How many items of a list the answers held. */
  ghost function ReadIn<T>(server: Server<T>, log: seq<Ask>, kind: Kind): nat {
    if log == [] then 0
    else
      var k := |log| - 1;
      ReadIn(server, log[..k], kind) + Held(log[k], ReplyTo(server, log, k), kind)
  }

  function Held<T>(ask: Ask, reply: Reply<T>, kind: Kind): nat {
    if reply.Page? && ask.With(kind) then |reply.Part(kind).nodes| else 0
  }

  /** How many pages came. */
  ghost function PagesIn<T>(server: Server<T>, log: seq<Ask>): nat {
    if log == [] then 0 else PagesIn(server, log[..|log| - 1]) + if ReplyTo(server, log, |log| - 1).Page? then 1 else 0
  }

  /** Whether there is a query after this one, of a walk that may ask for more. */
  predicate LeadsOn<T>(plan: Plan<T>, ask: Ask, reply: Reply<T>) {
    reply.Page? || (reply.TooLarge? && plan.halves && ask.first > SMALLEST_HALVED)
  }

  /** Whether that query is for a list: while its pages say there is more and do
      not end past the bound. */
  predicate Wants<T>(plan: Plan<T>, ask: Ask, reply: Reply<T>, kind: Kind) {
    ask.With(kind) && (reply.Page? ==> More(plan.w, plan.date, reply.Part(kind)))
  }

  function SizeAfter<T>(ask: Ask, reply: Reply<T>): nat {
    if reply.TooLarge? then ask.first / 2 else ask.first
  }

  /** What is asked next after a log. */
  ghost predicate IsNext<T>(server: Server<T>, plan: Plan<T>, log: seq<Ask>, ask: Ask) {
    && (forall kind: Kind :: ask.With(kind) ==> ask.After(kind) == ReadIn(server, log, kind))
    && if log == [] then ask.first == plan.first && ask.withPulls && ask.withIssues
       else
         var last, reply := log[|log| - 1], ReplyTo(server, log, |log| - 1);
         && LeadsOn(plan, last, reply) && ask.first == SizeAfter(last, reply)
         && forall kind: Kind :: ask.With(kind) <==> Wants(plan, last, reply, kind)
  }

  predicate Idle(ask: Ask) {
    !ask.withPulls && !ask.withIssues
  }

  /** The log of a walk: each query is the next one, while a list is still wanted
      and fewer pages came than it may read. */
  ghost predicate IsLog<T>(server: Server<T>, plan: Plan<T>, log: seq<Ask>) {
    log == [] ||
    var before, last := log[..|log| - 1], log[|log| - 1];
    IsLog(server, plan, before) && IsNext(server, plan, before, last) && !Idle(last) && PagesIn(server, before) < plan.most
  }

  /** Why a walk went no further: it wanted neither list, its pages ran out, or a
      query was refused or failed. */
  datatype Stop = Done | Budget | NotHere | GaveUp

  ghost predicate StopsFor<T>(server: Server<T>, plan: Plan<T>, log: seq<Ask>, ask: Ask, stop: Stop) {
    match stop
    case Done => IsNext(server, plan, log, ask) && Idle(ask)
    case Budget => IsNext(server, plan, log, ask) && PagesIn(server, log) == plan.most
    case NotHere => log != [] && ReplyTo(server, log, |log| - 1).Refused?
    case GaveUp =>
      log != []
      && var reply := ReplyTo(server, log, |log| - 1);
         !reply.Refused? && !LeadsOn(plan, log[|log| - 1], reply)
  }

  lemma LogGrows<T>(server: Server<T>, plan: Plan<T>, log: seq<Ask>, ask: Ask)
    requires IsLog(server, plan, log) && IsNext(server, plan, log, ask) && !Idle(ask) && PagesIn(server, log) < plan.most
    ensures var all, reply := log + [ask], server(|log|, ask);
      && IsLog(server, plan, all) && ReplyTo(server, all, |log|) == reply
      && PagesIn(server, all) == PagesIn(server, log) + (if reply.Page? then 1 else 0)
      && forall kind: Kind :: ReadIn(server, all, kind) == ReadIn(server, log, kind) + Held(ask, reply, kind)
  {
    assert (log + [ask])[..|log|] == log;
  }

  /** After a page: on from its cursors, of the lists still wanted. */
  lemma AfterPage<T>(server: Server<T>, plan: Plan<T>, both: Both<T>, log: seq<Ask>, ask: Ask, next: Ask)
    requires Honest(both, server) && IsLog(server, plan, log + [ask]) && IsNext(server, plan, log, ask)
    requires server(|log|, ask).Page? && next.first == ask.first
    requires forall kind: Kind :: next.With(kind) <==> Wants(plan, ask, server(|log|, ask), kind)
    requires forall kind: Kind :: next.With(kind) ==> next.After(kind) == server(|log|, ask).Part(kind).cursor
    ensures IsNext(server, plan, log + [ask], next)
  {
    var reply, all := server(|log|, ask), log + [ask];
    assert ReplyTo(server, all, |log|) == reply && all[..|log|] == log;
    forall kind: Kind | next.With(kind)
      ensures next.After(kind) == ReadIn(server, all, kind)
    {
      ReadOutOrWanted(server, plan, both, log, ask, kind);
      assert HonestReply(both, ask, reply);
    }
  }

  /** After a page too large: the same cursors, half the size. */
  lemma AfterTooLarge<T>(server: Server<T>, plan: Plan<T>, log: seq<Ask>, ask: Ask)
    requires IsLog(server, plan, log + [ask]) && IsNext(server, plan, log, ask)
    requires server(|log|, ask).TooLarge? && LeadsOn(plan, ask, server(|log|, ask))
    ensures IsNext(server, plan, log + [ask], ask.(first := ask.first / 2))
  {
    var all := log + [ask];
    assert ReplyTo(server, all, |log|) == server(|log|, ask) && all[..|log|] == log;
  }

  lemma {:induction false} PagesBounded<T>(server: Server<T>, plan: Plan<T>, log: seq<Ask>)
    requires IsLog(server, plan, log)
    ensures PagesIn(server, log) <= plan.most
  {
    if log != [] {
      PagesBounded(server, plan, log[..|log| - 1]);
    }
  }

  /** What a walk has done when it stops: it read out each list, or as many pages
      as it may and each list it no longer wanted, or it met what stopped it. */
  ghost predicate ReadsAsFar<T>(server: Server<T>, plan: Plan<T>, both: Both<T>, log: seq<Ask>, next: Ask, stop: Stop) {
    && PagesIn(server, log) <= plan.most
    && (forall kind: Kind :: ReadIn(server, log, kind) <= |both.Of(kind)|)
    && (stop in {Done, Budget} ==> forall kind: Kind ::
          next.With(kind) || ReadOut(plan.w, plan.date, both.Of(kind), ReadIn(server, log, kind)))
    && (stop == Done ==> Idle(next))
    && (stop == Budget ==> PagesIn(server, log) == plan.most)
  }

  lemma WalkEnds<T>(server: Server<T>, plan: Plan<T>, both: Both<T>, log: seq<Ask>, next: Ask, stop: Stop)
    requires Honest(both, server) && IsLog(server, plan, log) && StopsFor(server, plan, log, next, stop)
    ensures ReadsAsFar(server, plan, both, log, next, stop)
  {
    PagesBounded(server, plan, log);
    forall kind: Kind
      ensures ReadIn(server, log, kind) <= |both.Of(kind)|
      ensures stop in {Done, Budget} ==>
        next.With(kind) || ReadOut(plan.w, plan.date, both.Of(kind), ReadIn(server, log, kind))
    {
      if stop in {Done, Budget} {
        ReadOutOrWanted(server, plan, both, log, next, kind);
      } else {
        ReadWithin(server, plan, both, log, kind);
      }
    }
  }

  lemma ReadWithin<T>(server: Server<T>, plan: Plan<T>, both: Both<T>, log: seq<Ask>, kind: Kind)
    requires Honest(both, server) && IsLog(server, plan, log)
    ensures ReadIn(server, log, kind) <= |both.Of(kind)|
  {
    if log != [] {
      var k := |log| - 1;
      ReadOutOrWanted(server, plan, both, log[..k], log[k], kind);
      assert HonestReply(both, log[k], ReplyTo(server, log, k));
    }
  }

  /** A walk begins with both lists, at the size it was planned with. */
  lemma {:induction false} BeginsWith<T>(server: Server<T>, plan: Plan<T>, log: seq<Ask>)
    requires IsLog(server, plan, log) && log != []
    ensures log[0].first == plan.first && log[0].withPulls && log[0].withIssues
  {
    if |log| > 1 {
      BeginsWith(server, plan, log[..|log| - 1]);
    } else {
      assert log[..0] == [];
    }
  }

  /** And it begins. */
  lemma AsksSomething<T>(server: Server<T>, plan: Plan<T>, log: seq<Ask>, next: Ask, stop: Stop)
    requires IsLog(server, plan, log) && StopsFor(server, plan, log, next, stop) && plan.most > 0
    ensures log != []
  {
  }

  /** A list that is no longer wanted has been read out. */
  lemma {:induction false} ReadOutOrWanted<T>(server: Server<T>, plan: Plan<T>, both: Both<T>, log: seq<Ask>, ask: Ask, kind: Kind)
    requires Honest(both, server) && IsLog(server, plan, log) && IsNext(server, plan, log, ask)
    ensures ReadIn(server, log, kind) <= |both.Of(kind)|
    ensures !ask.With(kind) ==> ReadOut(plan.w, plan.date, both.Of(kind), ReadIn(server, log, kind))
  {
    if log != [] {
      var k := |log| - 1;
      var before, last, reply := log[..k], log[k], ReplyTo(server, log, k);
      ReadOutOrWanted(server, plan, both, before, last, kind);
      assert HonestReply(both, last, reply);
      if reply.Page? && last.With(kind) {
        NextSlice(plan.w, plan.date, both.Of(kind), ReadIn(server, before, kind), reply.Part(kind));
      }
    }
  }

  /** How much of a list some pages can hold. */
  function Fit(size: nat, first: nat, pages: nat): nat {
    Min(size, first * pages)
  }

  lemma FitOneMore(size: nat, first: nat, pages: nat)
    ensures Fit(size, first, pages + 1) == Fit(size, first, pages) + Min(first, size - Fit(size, first, pages))
  {
    assert first * (pages + 1) == first * pages + first;
  }

  /** From a server that fills its pages, a walk that does not halve has read of a
      list it still wants all that its pages can hold. */
  lemma {:induction false} FilledWhileWanted<T>(server: Server<T>, plan: Plan<T>, both: Both<T>, log: seq<Ask>, ask: Ask, kind: Kind)
    requires Honest(both, server) && Fills(both, server) && !plan.halves
    requires IsLog(server, plan, log) && IsNext(server, plan, log, ask)
    ensures ask.first == plan.first
    ensures ask.With(kind) ==> ReadIn(server, log, kind) == Fit(|both.Of(kind)|, plan.first, PagesIn(server, log))
  {
    if log == [] {
      assert Fit(|both.Of(kind)|, plan.first, 0) == 0;
    } else {
      var k := |log| - 1;
      var before, last, reply := log[..k], log[k], ReplyTo(server, log, k);
      FilledWhileWanted(server, plan, both, before, last, kind);
      ReadOutOrWanted(server, plan, both, before, last, kind);
      assert LeadsOn(plan, last, reply) && reply.Page? && FillsReply(both, last, reply);
      FitOneMore(|both.Of(kind)|, plan.first, PagesIn(server, before));
    }
  }

  /** How many of a list were asked for, by the queries that pages answered. */
  ghost function AskedOf<T>(server: Server<T>, log: seq<Ask>, kind: Kind): nat {
    if log == [] then 0
    else
      var k := |log| - 1;
      AskedOf(server, log[..k], kind) + if ReplyTo(server, log, k).Page? && log[k].With(kind) then log[k].first else 0
  }

  /** From a server that fills its pages a walk has read of each list all that it
      asked for, or the list, however often a page was halved. */
  lemma {:induction false} FilledAsAsked<T>(server: Server<T>, plan: Plan<T>, both: Both<T>, log: seq<Ask>, kind: Kind)
    requires Honest(both, server) && Fills(both, server) && IsLog(server, plan, log)
    ensures ReadIn(server, log, kind) == Min(|both.Of(kind)|, AskedOf(server, log, kind))
  {
    if log != [] {
      var k := |log| - 1;
      FilledAsAsked(server, plan, both, log[..k], kind);
      assert FillsReply(both, log[k], ReplyTo(server, log, k));
    }
  }

  /** The smallest page a walk asks for. */
  function Least<T>(plan: Plan<T>): nat {
    Min(plan.first, SMALLEST_HALVED / 2)
  }

  /** So a list it still wants has been asked for on every page, and no page for
      fewer than the smallest. */
  lemma {:induction false} AskedWhileWanted<T>(server: Server<T>, plan: Plan<T>, log: seq<Ask>, ask: Ask, kind: Kind)
    requires IsLog(server, plan, log) && IsNext(server, plan, log, ask)
    ensures ask.first >= Least(plan)
    ensures ask.With(kind) ==> AskedOf(server, log, kind) >= Least(plan) * PagesIn(server, log)
  {
    if log != [] {
      var k := |log| - 1;
      AskedWhileWanted(server, plan, log[..k], log[k], kind);
      OneTimesMore(Least(plan), PagesIn(server, log[..k]));
    }
  }

  lemma OneTimesMore(a: nat, n: nat)
    ensures a * (n + 1) == a * n + a
  {
  }

  /** Halving costs a walk no more than that: of a list it still wants it has read
      the smallest page for every page it may, or all of it. */
  lemma HalvedWhileWanted<T>(server: Server<T>, plan: Plan<T>, both: Both<T>, log: seq<Ask>, ask: Ask, kind: Kind)
    requires Honest(both, server) && Fills(both, server) && IsLog(server, plan, log) && IsNext(server, plan, log, ask)
    requires ask.With(kind)
    ensures ReadIn(server, log, kind) >= Min(|both.Of(kind)|, Least(plan) * PagesIn(server, log))
  {
    FilledAsAsked(server, plan, both, log, kind);
    AskedWhileWanted(server, plan, log, ask, kind);
  }
}

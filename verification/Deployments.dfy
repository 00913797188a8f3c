/**
 * The deployments of many repositories, each on its own page of its own
 * history, in shared batches: Deployments.Collect of
 * internal/collect/deployments.go.
 */
module DeploymentWalks {
  import opened Lists
  import opened Walks
  import opened Cursors
  import opened AliasBatches

  datatype Deployment = Deployment(id: nat, createdAt: int)

  /** One page of one repository. */
  type DeployPage = Slice<Deployment>

  datatype Point = Point(repo: Repo, deployment: Deployment)

  /** What one alias of a query asks: the page of a repository after a cursor. */
  datatype Ask = Ask(repo: Repo, after: nat)

  type Server = (nat, seq<Ask>) -> Reply<DeployPage>

  /** Histories are newest first and do not move while they are read. */
  type History = Repo -> seq<Deployment>

  function Created(): Deployment -> int {
    (d: Deployment) => d.createdAt
  }

  ghost predicate HonestAnswer(history: History, asks: seq<Ask>, reply: Reply<DeployPage>) {
    reply.Answer? ==> forall k :: 0 <= k < |asks| && k < |reply.nodes| && reply.nodes[k].Some? ==>
      HonestSlice(history(asks[k].repo), asks[k].after, reply.nodes[k].value)
  }

  ghost predicate Honest(history: History, server: Server) {
    forall n: nat, asks :: HonestAnswer(history, asks, server(n, asks))
  }

  // What the callback does.

  /** What a call of the batched read has filled in so far: the points, the
      cursor of each repository, and the repositories with a page to come. */
  datatype Progress = Progress(points: seq<Point>, after: map<Repo, nat>, next: seq<Repo>)

  function Cursor(after: map<Repo, nat>, repo: Repo): nat {
    if repo in after then after[repo] else 0
  }

  function PointsFor(repo: Repo, nodes: seq<Deployment>): seq<Point> {
    seq(|nodes|, i requires 0 <= i < |nodes| => Point(repo, nodes[i]))
  }

  function Emit(w: Walk, p: Progress, e: Emission<DeployPage>): Progress {
    var points := p.points + PointsFor(e.repo, e.node.nodes);
    if More(w, Created(), e.node) then Progress(points, p.after[e.repo := e.node.cursor], p.next + [e.repo])
    else p.(points := points)
  }

  function EmitAll(w: Walk, p: Progress, log: seq<Emission<DeployPage>>): Progress {
    if log == [] then p else Emit(w, EmitAll(w, p, log[..|log| - 1]), log[|log| - 1])
  }

  /** The query for a batch, with the cursors as the callback has left them. */
  function BuildAsks(w: Walk, p: Progress): Build<DeployPage, seq<Ask>> {
    (batch: seq<Repo>, log: seq<Emission<DeployPage>>) =>
      var after := EmitAll(w, p, log).after;
      seq(|batch|, i requires 0 <= i < |batch| => Ask(batch[i], Cursor(after, batch[i])))
  }

  /** The deployments of one repository, in the order they were emitted. */
  ghost function PointsOf(points: seq<Point>, repo: Repo): seq<Deployment> {
    if points == [] then []
    else
      var k := |points| - 1;
      PointsOf(points[..k], repo) + if points[k].repo == repo then [points[k].deployment] else []
  }

  lemma {:induction false} PointsOfAppend(points: seq<Point>, owner: Repo, nodes: seq<Deployment>, repo: Repo)
    ensures PointsOf(points + PointsFor(owner, nodes), repo)
         == if owner == repo then PointsOf(points, repo) + nodes else PointsOf(points, repo)
  {
    if nodes == [] {
      assert points + PointsFor(owner, nodes) == points;
    } else {
      var k := |nodes| - 1;
      var all := points + PointsFor(owner, nodes);
      PointsOfAppend(points, owner, nodes[..k], repo);
      assert all[..|all| - 1] == points + PointsFor(owner, nodes[..k]);
      assert nodes == nodes[..k] + [nodes[k]];
    }
  }

  // What one call does for one repository.

  /** The page a call emitted for a repository, if it emitted one. */
  ghost function PageOf(repos: seq<Repo>, fates: seq<Fate<DeployPage>>, repo: Repo): Option<DeployPage>
    requires |repos| == |fates|
  {
    if repos == [] then None
    else
      var k := |repos| - 1;
      if repos[k] == repo && fates[k].verdict.Emitted? then Some(fates[k].verdict.node)
      else PageOf(repos[..k], fates[..k], repo)
  }

  lemma {:induction false} PageOfAt(repos: seq<Repo>, fates: seq<Fate<DeployPage>>, i: nat)
    requires |repos| == |fates| && NoDuplicates(repos) && i < |repos|
    ensures PageOf(repos, fates, repos[i]) ==
            if fates[i].verdict.Emitted? then Some(fates[i].verdict.node) else None
  {
    var k := |repos| - 1;
    if i < k {
      PageOfAt(repos[..k], fates[..k], i);
    } else {
      PageOfNone(repos[..k], fates[..k], repos[i]);
    }
  }

  lemma {:induction false} PageOfNone(repos: seq<Repo>, fates: seq<Fate<DeployPage>>, repo: Repo)
    requires |repos| == |fates| && repo !in repos
    ensures PageOf(repos, fates, repo) == None
  {
    if repos != [] {
      PageOfNone(repos[..|repos| - 1], fates[..|repos| - 1], repo);
    }
  }

  lemma EmitStep(w: Walk, p: Progress, repos: seq<Repo>, fates: seq<Fate<DeployPage>>)
    requires |repos| == |fates| && repos != []
    ensures var k := |repos| - 1;
      var q := EmitAll(w, p, EmittedOf(repos[..k], fates[..k]));
      EmitAll(w, p, EmittedOf(repos, fates)) ==
        if fates[k].verdict.Emitted? then Emit(w, q, Emission(repos[k], fates[k].verdict.node)) else q
  {
    var k := |repos| - 1;
    var log := EmittedOf(repos, fates);
    if fates[k].verdict.Emitted? {
      assert log[..|log| - 1] == EmittedOf(repos[..k], fates[..k]);
    } else {
      assert log == EmittedOf(repos[..k], fates[..k]);
    }
  }

  /** What a page of its own leaves a repository with. */
  ghost predicate Moved(w: Walk, p: Progress, q: Progress, repo: Repo, page: Option<DeployPage>) {
    && PointsOf(q.points, repo) == (if page.Some? then PointsOf(p.points, repo) + page.value.nodes else PointsOf(p.points, repo))
    && Cursor(q.after, repo) == (if page.Some? && More(w, Created(), page.value) then page.value.cursor else Cursor(p.after, repo))
    && (repo in q.next <==> repo in p.next || (page.Some? && More(w, Created(), page.value)))
  }

  lemma EmitForOne(w: Walk, p: Progress, e: Emission<DeployPage>, repo: Repo)
    ensures Moved(w, p, Emit(w, p, e), repo, if e.repo == repo then Some(e.node) else None)
  {
    PointsOfAppend(p.points, e.repo, e.node.nodes, repo);
  }

  /** A call leaves each repository's points, cursor and place in the next round
      as its own page decides, whatever the other repositories did. */
  lemma {:induction false} CallForOne(w: Walk, p: Progress, repos: seq<Repo>, fates: seq<Fate<DeployPage>>, repo: Repo)
    requires |repos| == |fates| && NoDuplicates(repos)
    ensures Moved(w, p, EmitAll(w, p, EmittedOf(repos, fates)), repo, PageOf(repos, fates, repo))
  {
    if repos != [] {
      var k := |repos| - 1;
      CallForOne(w, p, repos[..k], fates[..k], repo);
      EmitStep(w, p, repos, fates);
      if fates[k].verdict.Emitted? {
        EmitForOne(w, EmitAll(w, p, EmittedOf(repos[..k], fates[..k])), Emission(repos[k], fates[k].verdict.node), repo);
        if repo == repos[k] {
          PageOfNone(repos[..k], fates[..k], repo);
        }
      }
    }
  }

  /** Who is left for the next round are repositories of this one, each once. */
  lemma {:induction false} NextRound(w: Walk, p: Progress, repos: seq<Repo>, fates: seq<Fate<DeployPage>>)
    requires |repos| == |fates| && NoDuplicates(repos) && p.next == []
    ensures var q := EmitAll(w, p, EmittedOf(repos, fates));
      NoDuplicates(q.next) && forall r :: r in q.next ==> r in repos
  {
    if repos != [] {
      var k := |repos| - 1;
      NextRound(w, p, repos[..k], fates[..k]);
      EmitStep(w, p, repos, fates);
      var q := EmitAll(w, p, EmittedOf(repos[..k], fates[..k]));
      assert repos[k] !in repos[..k];
      assert repos[k] !in q.next;
    }
  }

  /** A reply settles what alias k of a query asked for. */
  ghost predicate SettlesAsk(server: Server, query: nat, asks: seq<Ask>, k: nat, v: Verdict<DeployPage>) {
    k < |asks| && Decides(server(query, asks), v, k, |asks|)
  }

  /** A repository is asked about at its own cursor, whatever else was asked in
      the same query and emitted before it. */
  lemma OwnAsk(w: Walk, server: Server, p: Progress, todo: seq<Repo>, fates: seq<Fate<DeployPage>>, i: nat)
    returns (asks: seq<Ask>, k: nat)
    requires NoDuplicates(todo) && |todo| == |fates| && i < |todo|
    requires Justified(server, BuildAsks(w, p), [], todo, fates, i)
    ensures k < |asks| && asks[k] == Ask(todo[i], Cursor(p.after, todo[i]))
    ensures SettlesAsk(server, fates[i].query, asks, k, fates[i].verdict)
  {
    var f := fates[i];
    var batch, log := todo[f.lo..f.hi], [] + EmittedOf(todo[..f.lo], fates[..f.lo]);
    assert log == EmittedOf(todo[..f.lo], fates[..f.lo]);
    asks, k := BuildAsks(w, p)(batch, log), i - f.lo;
    assert batch[k] == todo[i];
    CursorKept(w, p, todo[..f.lo], fates[..f.lo], todo[i]);
  }

  lemma CursorKept(w: Walk, p: Progress, repos: seq<Repo>, fates: seq<Fate<DeployPage>>, repo: Repo)
    requires |repos| == |fates| && NoDuplicates(repos) && repo !in repos
    ensures Cursor(EmitAll(w, p, EmittedOf(repos, fates)).after, repo) == Cursor(p.after, repo)
  {
    CallForOne(w, p, repos, fates, repo);
    PageOfNone(repos, fates, repo);
  }

  lemma OwnPage(w: Walk, history: History, server: Server, p: Progress, todo: seq<Repo>,
                fates: seq<Fate<DeployPage>>, i: nat)
    requires Honest(history, server) && NoDuplicates(todo) && |todo| == |fates| && i < |todo|
    requires Justified(server, BuildAsks(w, p), [], todo, fates, i) && fates[i].verdict.Emitted?
    ensures HonestSlice(history(todo[i]), Cursor(p.after, todo[i]), fates[i].verdict.node)
  {
    var asks, k := OwnAsk(w, server, p, todo, fates, i);
    assert HonestAnswer(history, asks, server(fates[i].query, asks));
  }

  // Where a repository stands.

  /** Some pages of a history have been read and none of them ended past the
      bound. */
  ghost predicate Partway(w: Walk, h: seq<Deployment>, got: seq<Deployment>) {
    got <= h && (got != [] ==> !w.Past(got[|got| - 1].createdAt))
  }

  /** Whole pages have been read, the last of them the first to end past the
      bound or at the end of the history. */
  ghost predicate Ended(w: Walk, h: seq<Deployment>, got: seq<Deployment>) {
    && got <= h
    && (got == h || (got != [] && w.Past(got[|got| - 1].createdAt)))
    && exists m :: 0 <= m <= |got| && Partway(w, h, got[..m]) && (m < |got| || got == h)
  }

  lemma PageAdds(w: Walk, h: seq<Deployment>, was: seq<Deployment>, page: DeployPage)
    requires Partway(w, h, was) && HonestSlice(h, |was|, page)
    ensures More(w, Created(), page) ==> Partway(w, h, was + page.nodes) && page.cursor == |was + page.nodes|
    ensures !More(w, Created(), page) ==> Ended(w, h, was + page.nodes)
  {
    var got := was + page.nodes;
    assert got == h[..|got|] && got[..|was|] == was;
  }

  /** The server was asked for the page of a repository after a cursor and gave
      none: for good when the chunk was lost, and otherwise because there was
      nothing under the alias or the repository alone was refused as gone. */
  ghost predicate NoPage(server: Server, repo: Repo, after: nat, lost: bool) {
    exists query: nat, asks: seq<Ask>, k: nat, v ::
      SettlesAsk(server, query, asks, k, v) && asks[k] == Ask(repo, after) && !v.Emitted? && (lost <==> v.Lost?)
  }

  /** Where one repository of the walk stands between two rounds. Dropped maps
      the ones that gave no page to whether their chunk was lost. */
  ghost predicate Standing(w: Walk, server: Server, history: History, r: Repo, p: Progress, dropped: map<Repo, bool>, rounds: int) {
    var h, got := history(r), PointsOf(p.points, r);
    && (r in p.next || r in dropped ==> Partway(w, h, got))
    && (r in p.next ==> r !in dropped && Cursor(p.after, r) == |got| && |got| >= rounds)
    && (r in dropped ==> NoPage(server, r, |got|, dropped[r]))
    && (r !in p.next && r !in dropped ==> Ended(w, h, got))
  }

  ghost predicate Standings(w: Walk, server: Server, history: History, repos: seq<Repo>, p: Progress,
                            dropped: map<Repo, bool>, rounds: int) {
    && NoDuplicates(p.next)
    && (forall r :: r in p.next || r in dropped ==> r in repos)
    && (forall r :: r in repos ==> Standing(w, server, history, r, p, dropped, rounds))
    && (forall r :: r !in repos ==> PointsOf(p.points, r) == [])
  }

  /** The repositories of a round that gave no page, and which of them were lost. */
  ghost function Silent(todo: seq<Repo>, fates: seq<Fate<DeployPage>>): map<Repo, bool>
    requires |todo| == |fates|
  {
    map r | r in todo && (exists i :: 0 <= i < |todo| && todo[i] == r && !fates[i].verdict.Emitted?) ::
      exists i :: 0 <= i < |todo| && todo[i] == r && fates[i].verdict.Lost?
  }

  lemma SilentAt(todo: seq<Repo>, fates: seq<Fate<DeployPage>>, i: nat)
    requires |todo| == |fates| && NoDuplicates(todo) && i < |todo|
    ensures todo[i] in Silent(todo, fates) <==> !fates[i].verdict.Emitted?
    ensures !fates[i].verdict.Emitted? ==> (Silent(todo, fates)[todo[i]] <==> fates[i].verdict.Lost?)
  {
  }

  /** What the round leaves of p: nobody is waiting for the next one yet. */
  ghost function Begin(p: Progress): Progress {
    p.(next := [])
  }

  lemma RoundForOne(w: Walk, history: History, server: Server, p: Progress, fates: seq<Fate<DeployPage>>,
                    i: nat, dropped: map<Repo, bool>, rounds: int)
    requires Honest(history, server) && NoDuplicates(p.next) && |p.next| == |fates| && i < |p.next|
    requires Justified(server, BuildAsks(w, Begin(p)), [], p.next, fates, i)
    requires Standing(w, server, history, p.next[i], p, dropped, rounds)
    ensures Standing(w, server, history, p.next[i], EmitAll(w, Begin(p), EmittedOf(p.next, fates)),
                     dropped + Silent(p.next, fates), rounds + 1)
  {
    var r := p.next[i];
    CallForOne(w, Begin(p), p.next, fates, r);
    PageOfAt(p.next, fates, i);
    SilentAt(p.next, fates, i);
    if fates[i].verdict.Emitted? {
      OwnPage(w, history, server, Begin(p), p.next, fates, i);
      PageAdds(w, history(r), PointsOf(p.points, r), fates[i].verdict.node);
    } else {
      var asks, k := OwnAsk(w, server, Begin(p), p.next, fates, i);
      assert NoPage(server, r, |PointsOf(p.points, r)|, fates[i].verdict.Lost?);
    }
  }

  lemma RoundForOther(w: Walk, history: History, server: Server, p: Progress, fates: seq<Fate<DeployPage>>,
                      r: Repo, dropped: map<Repo, bool>, rounds: int)
    requires NoDuplicates(p.next) && |p.next| == |fates| && r !in p.next
    ensures var q := EmitAll(w, Begin(p), EmittedOf(p.next, fates));
      && PointsOf(q.points, r) == PointsOf(p.points, r)
      && (Standing(w, server, history, r, p, dropped, rounds) ==>
            Standing(w, server, history, r, q, dropped + Silent(p.next, fates), rounds + 1))
  {
    CallForOne(w, Begin(p), p.next, fates, r);
    PageOfNone(p.next, fates, r);
  }

  lemma RoundForAll(w: Walk, history: History, server: Server, repos: seq<Repo>, p: Progress,
                    fates: seq<Fate<DeployPage>>, dropped: map<Repo, bool>, rounds: int)
    requires Honest(history, server) && |p.next| == |fates|
    requires Standings(w, server, history, repos, p, dropped, rounds)
    requires forall i :: 0 <= i < |fates| ==> Justified(server, BuildAsks(w, Begin(p)), [], p.next, fates, i)
    ensures Standings(w, server, history, repos, EmitAll(w, Begin(p), EmittedOf(p.next, fates)),
                      dropped + Silent(p.next, fates), rounds + 1)
  {
    NextRound(w, Begin(p), p.next, fates);
    var q := EmitAll(w, Begin(p), EmittedOf(p.next, fates));
    forall r
      ensures r in repos ==> Standing(w, server, history, r, q, dropped + Silent(p.next, fates), rounds + 1)
      ensures r !in repos ==> PointsOf(q.points, r) == []
    {
      if r in p.next {
        var i :| 0 <= i < |p.next| && p.next[i] == r;
        RoundForOne(w, history, server, p, fates, i, dropped, rounds);
      } else {
        RoundForOther(w, history, server, p, fates, r, dropped, rounds);
      }
    }
  }

  // The pages of each repository, one for each round it was in.

  type Book = map<Repo, seq<DeployPage>>

  function In(book: Book, r: Repo): seq<DeployPage> {
    if r in book then book[r] else []
  }

  ghost function NodesIn(pages: seq<DeployPage>): seq<Deployment> {
    if pages == [] then [] else NodesIn(pages[..|pages| - 1]) + pages[|pages| - 1].nodes
  }

  predicate LeadOn(w: Walk, pages: seq<DeployPage>) {
    pages == [] || More(w, Created(), pages[|pages| - 1])
  }

  /** The server was asked for the page of a repository after a cursor and gave it. */
  ghost predicate ServedPage(server: Server, r: Repo, after: nat, page: DeployPage) {
    exists query: nat, asks: seq<Ask>, k: nat ::
      SettlesAsk(server, query, asks, k, Emitted(page)) && asks[k] == Ask(r, after)
  }

  /** Pages the server gave for a repository, each asked for where the ones before
      it end, and each but the last leading on to the next. */
  ghost predicate Served(w: Walk, server: Server, r: Repo, pages: seq<DeployPage>) {
    pages == [] ||
    var before, last := pages[..|pages| - 1], pages[|pages| - 1];
    Served(w, server, r, before) && LeadOn(w, before) && ServedPage(server, r, |NodesIn(before)|, last)
  }

  /** What was emitted of a repository is its pages whole: one for each round while
      it waits, and otherwise to the first that did not lead on, or to the one that
      did not come. */
  ghost predicate OnBook(w: Walk, server: Server, r: Repo, got: seq<Deployment>, pages: seq<DeployPage>,
                         waiting: bool, gone: bool, rounds: int) {
    && Served(w, server, r, pages) && got == NodesIn(pages)
    && (waiting ==> |pages| == rounds && LeadOn(w, pages))
    && (gone ==> |pages| < rounds && LeadOn(w, pages))
    && (!waiting && !gone ==> 0 < |pages| <= rounds && !LeadOn(w, pages))
  }

  ghost predicate Booked(w: Walk, server: Server, repos: seq<Repo>, p: Progress, dropped: map<Repo, bool>, book: Book, rounds: int) {
    forall r :: r in repos ==> BookedFor(w, server, r, p, dropped, book, rounds)
  }

  ghost predicate BookedFor(w: Walk, server: Server, r: Repo, p: Progress, dropped: map<Repo, bool>, book: Book, rounds: int) {
    OnBook(w, server, r, PointsOf(p.points, r), In(book, r), r in p.next, r in dropped, rounds)
  }

  /** The page each repository of a round was given is the next of its pages. */
  ghost function NextBook(book: Book, todo: seq<Repo>, fates: seq<Fate<DeployPage>>): Book
    requires |todo| == |fates|
  {
    map r | r in book.Keys + Elems(todo) ::
      In(book, r) + match PageOf(todo, fates, r) case Some(page) => [page] case None => []
  }

  lemma OnePageMore(w: Walk, server: Server, r: Repo, got: seq<Deployment>, pages: seq<DeployPage>, page: DeployPage, rounds: int)
    requires OnBook(w, server, r, got, pages, true, false, rounds) && ServedPage(server, r, |got|, page)
    ensures OnBook(w, server, r, got + page.nodes, pages + [page], More(w, Created(), page), false, rounds + 1)
  {
    assert (pages + [page])[..|pages|] == pages;
  }

  lemma BookForOne(w: Walk, server: Server, p: Progress, fates: seq<Fate<DeployPage>>, i: nat, dropped: map<Repo, bool>,
                   book: Book, rounds: int)
    requires NoDuplicates(p.next) && |p.next| == |fates| && i < |p.next| && p.next[i] !in dropped
    requires Justified(server, BuildAsks(w, Begin(p)), [], p.next, fates, i)
    requires Cursor(p.after, p.next[i]) == |PointsOf(p.points, p.next[i])|
    requires BookedFor(w, server, p.next[i], p, dropped, book, rounds)
    ensures BookedFor(w, server, p.next[i], EmitAll(w, Begin(p), EmittedOf(p.next, fates)),
                      dropped + Silent(p.next, fates), NextBook(book, p.next, fates), rounds + 1)
  {
    var r := p.next[i];
    CallForOne(w, Begin(p), p.next, fates, r);
    PageOfAt(p.next, fates, i);
    SilentAt(p.next, fates, i);
    NextPages(book, p.next, fates, i);
    if fates[i].verdict.Emitted? {
      var asks, k := OwnAsk(w, server, Begin(p), p.next, fates, i);
      var got, page := PointsOf(p.points, r), fates[i].verdict.node;
      assert ServedPage(server, r, |got|, page);
      OnePageMore(w, server, r, got, In(book, r), page, rounds);
    }
  }

  lemma NextPages(book: Book, todo: seq<Repo>, fates: seq<Fate<DeployPage>>, i: nat)
    requires NoDuplicates(todo) && |todo| == |fates| && i < |todo|
    ensures In(NextBook(book, todo, fates), todo[i]) ==
            if fates[i].verdict.Emitted? then In(book, todo[i]) + [fates[i].verdict.node] else In(book, todo[i])
  {
    PageOfAt(todo, fates, i);
  }

  lemma BookForOther(w: Walk, server: Server, p: Progress, fates: seq<Fate<DeployPage>>, r: Repo, dropped: map<Repo, bool>,
                     book: Book, rounds: int)
    requires NoDuplicates(p.next) && |p.next| == |fates| && r !in p.next
    requires BookedFor(w, server, r, p, dropped, book, rounds)
    ensures BookedFor(w, server, r, EmitAll(w, Begin(p), EmittedOf(p.next, fates)),
                      dropped + Silent(p.next, fates), NextBook(book, p.next, fates), rounds + 1)
  {
    CallForOne(w, Begin(p), p.next, fates, r);
    PageOfNone(p.next, fates, r);
    assert In(NextBook(book, p.next, fates), r) == In(book, r);
  }

  lemma BookForAll(w: Walk, history: History, server: Server, repos: seq<Repo>, p: Progress, fates: seq<Fate<DeployPage>>,
                   dropped: map<Repo, bool>, book: Book, rounds: int)
    requires |p.next| == |fates| && Standings(w, server, history, repos, p, dropped, rounds)
    requires Booked(w, server, repos, p, dropped, book, rounds)
    requires forall i :: 0 <= i < |fates| ==> Justified(server, BuildAsks(w, Begin(p)), [], p.next, fates, i)
    ensures Booked(w, server, repos, EmitAll(w, Begin(p), EmittedOf(p.next, fates)), dropped + Silent(p.next, fates),
                   NextBook(book, p.next, fates), rounds + 1)
  {
    forall r | r in repos
      ensures BookedFor(w, server, r, EmitAll(w, Begin(p), EmittedOf(p.next, fates)), dropped + Silent(p.next, fates),
                        NextBook(book, p.next, fates), rounds + 1)
    {
      assert BookedFor(w, server, r, p, dropped, book, rounds);
      if r in p.next {
        var i :| 0 <= i < |p.next| && p.next[i] == r;
        assert Standing(w, server, history, r, p, dropped, rounds);
        BookForOne(w, server, p, fates, i, dropped, book, rounds);
      } else {
        BookForOther(w, server, p, fates, r, dropped, book, rounds);
      }
    }
  }

  // The rounds of a walk.

  /** Whether a repository is asked about in a round: it was given a page in it, or
      was dropped by it. */
  predicate InRound(k: int, r: Repo, book: Book, dropped: map<Repo, bool>) {
    |In(book, r)| > k || (r in dropped && |In(book, r)| == k)
  }

  ghost predicate RoundIs(todo: seq<Repo>, k: int, repos: seq<Repo>, book: Book, dropped: map<Repo, bool>) {
    NoDuplicates(todo) && forall r :: r in todo <==> r in repos && InRound(k, r, book, dropped)
  }

  /** The repositories of each round, each as often as it was given a page, and once
      more if it was dropped. */
  ghost predicate RoundsAre(log: seq<seq<Repo>>, repos: seq<Repo>, book: Book, dropped: map<Repo, bool>) {
    forall k :: 0 <= k < |log| ==> RoundIs(log[k], k, repos, book, dropped)
  }

  /** How many repositories were asked about, round by round. */
  function Turns(log: seq<seq<Repo>>): nat {
    if log == [] then 0 else Turns(log[..|log| - 1]) + |log[|log| - 1]|
  }

  /** A round costs fewer than two queries for each repository in it. */
  ghost predicate Spent(queries: nat, log: seq<seq<Repo>>) {
    queries + |log| <= 2 * Turns(log) && (log == [] ==> queries == 0)
  }

  lemma SpentOn(queries: nat, log: seq<seq<Repo>>, todo: seq<Repo>, size: int, sent: nat)
    requires Spent(queries, log) && todo != [] && sent <= queries + 2 * |todo| - Chunks(|todo|, Size(size))
    ensures Spent(sent, log + [todo])
  {
    assert (log + [todo])[..|log|] == log;
  }

  lemma PagesAfter(p: Progress, fates: seq<Fate<DeployPage>>, r: Repo, dropped: map<Repo, bool>, book: Book)
    requires NoDuplicates(p.next) && |p.next| == |fates|
    ensures var now, gone := NextBook(book, p.next, fates), dropped + Silent(p.next, fates);
      if r in p.next
      then if r in Silent(p.next, fates) then r in gone && In(now, r) == In(book, r) else |In(now, r)| == |In(book, r)| + 1
      else In(now, r) == In(book, r) && (r in gone <==> r in dropped)
  {
    if r in p.next {
      var i :| 0 <= i < |p.next| && p.next[i] == r;
      NextPages(book, p.next, fates, i);
      SilentAt(p.next, fates, i);
    } else {
      PageOfNone(p.next, fates, r);
    }
  }

  lemma RoundsGrow(w: Walk, server: Server, history: History, repos: seq<Repo>, p: Progress, fates: seq<Fate<DeployPage>>,
                   dropped: map<Repo, bool>, book: Book, log: seq<seq<Repo>>)
    requires |p.next| == |fates| && Kept(w, server, history, repos, p, dropped, book, |log|)
    requires RoundsAre(log, repos, book, dropped)
    ensures RoundsAre(log + [p.next], repos, NextBook(book, p.next, fates), dropped + Silent(p.next, fates))
  {
    var all, now, gone := log + [p.next], NextBook(book, p.next, fates), dropped + Silent(p.next, fates);
    forall k | 0 <= k < |all|
      ensures RoundIs(all[k], k, repos, now, gone)
    {
      assert k < |log| ==> RoundIs(log[k], k, repos, book, dropped);
      forall r
        ensures r in all[k] <==> r in repos && InRound(k, r, now, gone)
      {
        PagesAfter(p, fates, r, dropped, book);
        assert r in repos ==> BookedFor(w, server, r, p, dropped, book, |log|) && Standing(w, server, history, r, p, dropped, |log|);
      }
    }
  }

  /** What stands after so many rounds. */
  ghost predicate Kept(w: Walk, server: Server, history: History, repos: seq<Repo>, p: Progress, dropped: map<Repo, bool>,
                       book: Book, rounds: int) {
    && Standings(w, server, history, repos, p, dropped, rounds)
    && Booked(w, server, repos, p, dropped, book, rounds)
  }

  /** What a round comes to: no failure, or every refusal that lost some of it, with
      how many were answered for if any were. */
  ghost function ResultOf(fates: seq<Fate<DeployPage>>): Result {
    if !SomeLost(fates) then Whole
    else if Answered(fates) > 0 then PartialError(Answered(fates), LossesOf(fates, 0))
    else Failure(LossesOf(fates, 0))
  }

  /** The failures of some rounds, joined in their order. */
  ghost function FailuresOf(rounds: seq<seq<Fate<DeployPage>>>): seq<Result> {
    if rounds == [] then []
    else
      var k := |rounds| - 1;
      FailuresOf(rounds[..k]) + if SomeLost(rounds[k]) then [ResultOf(rounds[k])] else []
  }

  lemma FailuresOne(rounds: seq<seq<Fate<DeployPage>>>, fates: seq<Fate<DeployPage>>)
    ensures FailuresOf(rounds + [fates]) == FailuresOf(rounds) + if SomeLost(fates) then [ResultOf(fates)] else []
  {
    assert (rounds + [fates])[..|rounds|] == rounds;
  }

  /** A reply to a query that named a repository settled its fate. */
  ghost predicate SettledFor(server: Server, repo: Repo, f: Fate<DeployPage>) {
    exists asks: seq<Ask>, k: nat :: SettlesAsk(server, f.query, asks, k, f.verdict) && asks[k].repo == repo
  }

  /** The fates of a round: each was settled by a reply about its repository, and one
      that was given no page in it is dropped, as lost if and only if a refusal
      lost it. */
  ghost predicate RoundTold(server: Server, todo: seq<Repo>, fates: seq<Fate<DeployPage>>, dropped: map<Repo, bool>) {
    && |fates| == |todo| && AliasBatches.InStretches(fates, 0)
    && forall i :: 0 <= i < |todo| ==> PlaceTold(server, todo[i], fates[i], dropped)
  }

  ghost predicate PlaceTold(server: Server, repo: Repo, f: Fate<DeployPage>, dropped: map<Repo, bool>) {
    && (!f.verdict.Emitted? ==> repo in dropped && (dropped[repo] <==> f.verdict.Lost?))
    && SettledFor(server, repo, f)
  }

  /** The fates of every round so far. */
  ghost predicate RoundsTold(server: Server, log: seq<seq<Repo>>, rounds: seq<seq<Fate<DeployPage>>>, dropped: map<Repo, bool>) {
    |rounds| == |log| && forall k :: 0 <= k < |log| ==> RoundTold(server, log[k], rounds[k], dropped)
  }

  lemma ThisRoundTold(w: Walk, server: Server, p: Progress, fates: seq<Fate<DeployPage>>, dropped: map<Repo, bool>)
    requires NoDuplicates(p.next) && |p.next| == |fates| && AliasBatches.InStretches(fates, 0)
    requires forall i :: 0 <= i < |fates| ==> Justified(server, BuildAsks(w, Begin(p)), [], p.next, fates, i)
    ensures RoundTold(server, p.next, fates, dropped + Silent(p.next, fates))
  {
    forall i | 0 <= i < |p.next|
      ensures PlaceTold(server, p.next[i], fates[i], dropped + Silent(p.next, fates))
    {
      SilentAt(p.next, fates, i);
      var asks, k := OwnAsk(w, server, Begin(p), p.next, fates, i);
      assert SettlesAsk(server, fates[i].query, asks, k, fates[i].verdict);
    }
  }

  /** A repository is lost to the refusal its fate tells, the server's reply to a query
      that named it, alone or for good. */
  lemma LostToARefusal(server: Server, repo: Repo, f: Fate<DeployPage>)
    requires SettledFor(server, repo, f) && f.verdict.Lost?
    ensures exists asks: seq<Ask>, k: nat ::
      k < |asks| && asks[k].repo == repo && server(f.query, asks) == Refused(f.verdict.why) && (f.verdict.why.Fatal? || |asks| == 1)
  {
    var asks: seq<Ask>, k: nat :| SettlesAsk(server, f.query, asks, k, f.verdict) && asks[k].repo == repo;
    assert server(f.query, asks) == Refused(f.verdict.why);
  }

  lemma RoundsStillTold(server: Server, log: seq<seq<Repo>>, rounds: seq<seq<Fate<DeployPage>>>, dropped: map<Repo, bool>,
                        todo: seq<Repo>, fates: seq<Fate<DeployPage>>, gone: map<Repo, bool>)
    requires RoundsTold(server, log, rounds, dropped) && RoundTold(server, todo, fates, gone)
    requires forall r :: r in dropped ==> r in gone && gone[r] == dropped[r]
    ensures RoundsTold(server, log + [todo], rounds + [fates], gone)
  {
    forall k | 0 <= k < |log|
      ensures RoundTold(server, log[k], rounds[k], gone)
    {
      assert RoundTold(server, log[k], rounds[k], dropped);
      forall i | 0 <= i < |log[k]|
        ensures PlaceTold(server, log[k][i], rounds[k][i], gone)
      {
        assert PlaceTold(server, log[k][i], rounds[k][i], dropped);
      }
    }
  }

  /** What a walk has to say of its failures: each round's, and all of them. */
  ghost predicate Told(server: Server, log: seq<seq<Repo>>, rounds: seq<seq<Fate<DeployPage>>>, dropped: map<Repo, bool>,
                       failed: seq<Result>) {
    RoundsTold(server, log, rounds, dropped) && failed == FailuresOf(rounds)
  }

  lemma ToldOn(w: Walk, server: Server, history: History, repos: seq<Repo>, p: Progress, fates: seq<Fate<DeployPage>>,
               dropped: map<Repo, bool>, book: Book, log: seq<seq<Repo>>, rounds: seq<seq<Fate<DeployPage>>>, failed: seq<Result>)
    requires |p.next| == |fates| && AliasBatches.InStretches(fates, 0) && Kept(w, server, history, repos, p, dropped, book, |log|)
    requires forall i :: 0 <= i < |fates| ==> Justified(server, BuildAsks(w, Begin(p)), [], p.next, fates, i)
    requires Told(server, log, rounds, dropped, failed)
    ensures Told(server, log + [p.next], rounds + [fates], dropped + Silent(p.next, fates),
                 if SomeLost(fates) then failed + [ResultOf(fates)] else failed)
  {
    var gone := dropped + Silent(p.next, fates);
    ThisRoundTold(w, server, p, fates, dropped);
    WaitingAreNotDropped(w, server, history, repos, p, dropped, |log|);
    RoundsStillTold(server, log, rounds, dropped, p.next, fates, gone);
    FailuresOne(rounds, fates);
  }

  /** And who was asked about in each round, what it has cost, and what has failed. */
  ghost predicate Stands(w: Walk, server: Server, history: History, repos: seq<Repo>, p: Progress, dropped: map<Repo, bool>,
                         book: Book, log: seq<seq<Repo>>, queries: nat, failed: seq<Result>) {
    && Kept(w, server, history, repos, p, dropped, book, |log|) && RoundsAre(log, repos, book, dropped)
    && Spent(queries, log) && (failed == [] <==> NoneLost(dropped))
  }

  lemma WaitingAreNotDropped(w: Walk, server: Server, history: History, repos: seq<Repo>, p: Progress, dropped: map<Repo, bool>, rounds: int)
    requires Standings(w, server, history, repos, p, dropped, rounds)
    ensures forall r :: r in p.next ==> r !in dropped
  {
    forall r | r in p.next
      ensures r !in dropped
    {
      assert Standing(w, server, history, r, p, dropped, rounds);
    }
  }

  lemma KeptByARound(w: Walk, history: History, server: Server, repos: seq<Repo>, p: Progress, fates: seq<Fate<DeployPage>>,
                     dropped: map<Repo, bool>, book: Book, log: seq<seq<Repo>>)
    requires Honest(history, server) && |p.next| == |fates| && Kept(w, server, history, repos, p, dropped, book, |log|)
    requires forall i :: 0 <= i < |fates| ==> Justified(server, BuildAsks(w, Begin(p)), [], p.next, fates, i)
    requires RoundsAre(log, repos, book, dropped)
    ensures Kept(w, server, history, repos, EmitAll(w, Begin(p), EmittedOf(p.next, fates)), dropped + Silent(p.next, fates),
                 NextBook(book, p.next, fates), |log + [p.next]|)
    ensures RoundsAre(log + [p.next], repos, NextBook(book, p.next, fates), dropped + Silent(p.next, fates))
    ensures NoneLost(dropped + Silent(p.next, fates)) <==> NoneLost(dropped) && !SomeLost(fates)
  {
    RoundForAll(w, history, server, repos, p, fates, dropped, |log|);
    BookForAll(w, history, server, repos, p, fates, dropped, book, |log|);
    RoundsGrow(w, server, history, repos, p, fates, dropped, book, log);
    WaitingAreNotDropped(w, server, history, repos, p, dropped, |log|);
    LostInRound(p.next, fates, dropped);
  }

  /** One page of each repository that is waiting for one. */
  method NextPage(server: Server, p: Progress, w: Walk, size: int, queries: nat, failed: seq<Result>,
                  ghost history: History, ghost repos: seq<Repo>, ghost dropped: map<Repo, bool>, ghost book: Book,
                  ghost log: seq<seq<Repo>>, ghost rounds: seq<seq<Fate<DeployPage>>>)
    returns (q: Progress, sent: nat, failures: seq<Result>, ghost gone: map<Repo, bool>, ghost now: Book,
             ghost fates: seq<Fate<DeployPage>>)
    requires Honest(history, server) && p.next != []
    requires Stands(w, server, history, repos, p, dropped, book, log, queries, failed)
    requires Told(server, log, rounds, dropped, failed)
    ensures Told(server, log + [p.next], rounds + [fates], gone, failures)
    ensures Stands(w, server, history, repos, q, gone, now, log + [p.next], sent, failures)
    ensures queries <= sent <= queries + 2 * |p.next| - Chunks(|p.next|, Size(size))
  {
    var result;
    q, sent, result, fates := Round(server, p.next, w, size, p.points, p.after, queries);
    gone, now := dropped + Silent(p.next, fates), NextBook(book, p.next, fates);
    failures := if result != Whole then failed + [result] else failed;
    StandsAfter(w, history, server, repos, p, fates, dropped, book, log, queries, size, sent, failed, q, failures);
    ToldOn(w, server, history, repos, p, fates, dropped, book, log, rounds, failed);
  }

  lemma StandsAfter(w: Walk, history: History, server: Server, repos: seq<Repo>, p: Progress, fates: seq<Fate<DeployPage>>,
                    dropped: map<Repo, bool>, book: Book, log: seq<seq<Repo>>,
                    queries: nat, size: int, sent: nat, failed: seq<Result>, q: Progress, failures: seq<Result>)
    requires Honest(history, server) && p.next != [] && |p.next| == |fates|
    requires Stands(w, server, history, repos, p, dropped, book, log, queries, failed)
    requires forall i :: 0 <= i < |fates| ==> Justified(server, BuildAsks(w, Begin(p)), [], p.next, fates, i)
    requires sent <= queries + 2 * |p.next| - Chunks(|p.next|, Size(size))
    requires q == EmitAll(w, Begin(p), EmittedOf(p.next, fates))
    requires failures == if SomeLost(fates) then failed + [ResultOf(fates)] else failed
    ensures Stands(w, server, history, repos, q, dropped + Silent(p.next, fates), NextBook(book, p.next, fates), log + [p.next],
                   sent, failures)
  {
    KeptByARound(w, history, server, repos, p, fates, dropped, book, log);
    SpentOn(queries, log, p.next, size, sent);
  }

  /** How many repositories a query names. */
  function Size(size: int): nat {
    if size <= 0 then DEFAULT_ALIAS_BATCH else size
  }

  /** Every deployment of every repository back to the bound of the walk. Left
      are the repositories the page limit stopped; dropped the ones that gave no
      page when asked, with whether it was for good; the book has the pages
      each was given, and the log the repositories of each round. It sends fewer
      than two queries for each of those, whatever is refused. */
  method Collect(server: Server, repos: seq<Repo>, w: Walk, size: int, ghost history: History)
    returns (points: seq<Point>, failed: seq<Result>, ghost left: seq<Repo>, ghost dropped: map<Repo, bool>, ghost book: Book,
             ghost sent: nat, ghost log: seq<seq<Repo>>, ghost rounds: seq<seq<Fate<DeployPage>>>)
    requires Honest(history, server) && NoDuplicates(repos)
    ensures Leaves(w, server, history, repos, points, left, dropped, book)
    ensures |log| <= w.Limit(1) && RoundsAre(log, repos, book, dropped) && Spent(sent, log)
    ensures w.Allows(1, |log|, left != [])
    ensures (failed == [] <==> NoneLost(dropped)) && Told(server, log, rounds, dropped, failed)
  {
    failed, dropped, book, log, rounds := [], map[], map[], [], [];
    var p := Progress([], map[], repos);
    var page, queries := 1, 0;
    while page <= w.Limit(1) && |p.next| > 0
      invariant page == |log| + 1 <= w.Limit(1) + 1
      invariant Stands(w, server, history, repos, p, dropped, book, log, queries, failed)
      invariant Told(server, log, rounds, dropped, failed)
      decreases w.Limit(1) - page
    {
      ghost var todo, fates := p.next, [];
      p, queries, failed, dropped, book, fates :=
        NextPage(server, p, w, size, queries, failed, history, repos, dropped, book, log, rounds);
      page, log, rounds := page + 1, log + [todo], rounds + [fates];
    }
    Finish(w, server, history, repos, p, dropped, book, |log|);
    points, left, sent := p.points, p.next, queries;
  }

  /** How a repository is left when the walk is over: what was emitted of it is its
      pages, whole, and no more of them than the limit. */
  ghost predicate LeftAs(w: Walk, server: Server, h: seq<Deployment>, r: Repo, got: seq<Deployment>, waiting: bool,
                         dropped: map<Repo, bool>, pages: seq<DeployPage>) {
    && Served(w, server, r, pages) && got == NodesIn(pages) && |pages| <= w.Limit(1)
    && (!waiting && r !in dropped ==> Ended(w, h, got) && !LeadOn(w, pages))
    && (waiting ==> r !in dropped && Partway(w, h, got) && LeadOn(w, pages) && |pages| == w.Limit(1))
    && (r in dropped ==> Partway(w, h, got) && LeadOn(w, pages) && |pages| < w.Limit(1) && NoPage(server, r, |got|, dropped[r]))
  }

  /** What a repository emitted, once no page is left of it, is every deployment made at
      the bound or after it. */
  lemma ReadsTheBound(w: Walk, h: seq<Deployment>, got: seq<Deployment>)
    requires NewestFirst(Created(), h) && Ended(w, h, got)
    ensures forall d :: d in h && d.createdAt >= w.since ==> d in got
  {
    ReadOutReaches(w, Created(), h, |got|);
    forall d | d in h && d.createdAt >= w.since
      ensures d in got
    {
      var i :| 0 <= i < |h| && h[i] == d;
      assert !w.Past(Created()(h[i])) && got[i] == h[i];
    }
  }

  /** How a walk leaves its repositories. */
  ghost predicate Leaves(w: Walk, server: Server, history: History, repos: seq<Repo>, points: seq<Point>, left: seq<Repo>,
                         dropped: map<Repo, bool>, book: Book) {
    && (forall r :: r in left || r in dropped ==> r in repos)
    && (forall r :: r in repos ==> LeftAs(w, server, history(r), r, PointsOf(points, r), r in left, dropped, In(book, r)))
    && (forall r :: r !in repos ==> PointsOf(points, r) == [])
  }

  lemma Finish(w: Walk, server: Server, history: History, repos: seq<Repo>, p: Progress,
               dropped: map<Repo, bool>, book: Book, rounds: nat)
    requires Kept(w, server, history, repos, p, dropped, book, rounds)
    requires rounds <= w.Limit(1) && (p.next == [] || rounds == w.Limit(1))
    ensures Leaves(w, server, history, repos, p.points, p.next, dropped, book)
  {
    forall r | r in repos
      ensures LeftAs(w, server, history(r), r, PointsOf(p.points, r), r in p.next, dropped, In(book, r))
    {
      assert Standing(w, server, history, r, p, dropped, rounds) && BookedFor(w, server, r, p, dropped, book, rounds);
    }
  }

  ghost predicate NoneLost(dropped: map<Repo, bool>) {
    forall r :: r in dropped ==> !dropped[r]
  }

  lemma LostInRound(todo: seq<Repo>, fates: seq<Fate<DeployPage>>, dropped: map<Repo, bool>)
    requires |todo| == |fates| && NoDuplicates(todo) && forall r :: r in todo ==> r !in dropped
    ensures NoneLost(dropped + Silent(todo, fates)) <==> NoneLost(dropped) && !SomeLost(fates)
  {
    var silent := Silent(todo, fates);
    var all := dropped + silent;
    if SomeLost(fates) {
      var i :| 0 <= i < |fates| && fates[i].verdict.Lost?;
      SilentAt(todo, fates, i);
      assert all[todo[i]];
    } else {
      assert NoneLost(silent);
    }
    forall r | r in dropped
      ensures r in all && all[r] == dropped[r]
    {
      assert r !in silent;
    }
  }

  /** One round: a page of each repository that has one to come. */
  method Round(server: Server, todo: seq<Repo>, w: Walk, size: int, points: seq<Point>, after: map<Repo, nat>, queries: nat)
    returns (q: Progress, sent: nat, result: Result, ghost fates: seq<Fate<DeployPage>>)
    ensures |fates| == |todo| && q == EmitAll(w, Progress(points, after, []), EmittedOf(todo, fates))
    ensures forall i :: 0 <= i < |todo| ==> Justified(server, BuildAsks(w, Progress(points, after, [])), [], todo, fates, i)
    ensures result == ResultOf(fates) && AliasBatches.InStretches(fates, 0)
    ensures Within(fates, queries, sent) && queries <= sent <= queries + 2 * |todo| - Chunks(|todo|, Size(size))
  {
    var p := Progress(points, after, []);
    var run := new AliasBatches.Reading<DeployPage>(queries, [], todo);
    result := AliasBatch(server, BuildAsks(w, p), todo, size, run);
    sent, fates := run.queries, run.fates;
    AliasBatches.EmittedByAll([], todo, fates);
    assert run.emitted == EmittedOf(todo, fates);
    q := EmitEach(w, p, run.emitted);
  }

  /** What the callback does with each page that was emitted, in turn. */
  method EmitEach(w: Walk, p: Progress, emitted: seq<Emission<DeployPage>>) returns (q: Progress)
    ensures q == EmitAll(w, p, emitted)
  {
    q := p;
    var i := 0;
    while i < |emitted|
      invariant 0 <= i <= |emitted|
      invariant q == EmitAll(w, p, emitted[..i])
    {
      q := Emit(w, q, emitted[i]);
      assert emitted[..i + 1][..i] == emitted[..i];
      i := i + 1;
    }
    assert emitted[..i] == emitted;
  }
}

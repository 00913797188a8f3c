/**
 * A memory of refused endpoints, each held for a window during which no request
 * is spent on it: Refusals of internal/collect/refusals.go. The
 * mutex makes each method one step, so a run is any sequence of such steps,
 * whichever callers took them; the clock is read once in each.
 */
module RefusalMemory {
  import opened Lists

  const DAY: int := 86400

  /** A path; only its identity and its order count. */
  type Path = nat

  datatype Unavailable = Unavailable(path: Path, status: int, reason: nat)

  /** An answer held for a path, and the moment its window closes. */
  datatype Refusal = Refusal(until: int, err: Unavailable)

  /** The same as one flat record, path included. */
  datatype Refused = Refused(path: Path, status: int, reason: nat, until: int)

  datatype Reply = Answer | Gone(err: Unavailable) | OtherError

  type Memory = map<Path, Refusal>

  /** The refusal a memory holds for a path at a moment. */
  function StandingFor(memory: Memory, path: Path, now: int): Option<Unavailable> {
    if path in memory && now < memory[path].until then Some(memory[path].err) else None
  }

  /** Two memories that no lookup from a moment on can tell apart. */
  ghost predicate SameFrom(a: Memory, b: Memory, now: int) {
    forall p, t :: now <= t ==> StandingFor(a, p, t) == StandingFor(b, p, t)
  }

  /** A lookup forgets a window it finds closed. */
  function LookedUp(memory: Memory, path: Path, now: int): Memory {
    if path in memory && now >= memory[path].until then memory - {path} else memory
  }

  function AsRefused(p: Path, r: Refusal): Refused {
    Refused(p, r.err.status, r.err.reason, r.until)
  }

  function AsRefusal(r: Refused): Refusal {
    Refusal(r.until, Unavailable(r.path, r.status, r.reason))
  }

  function Take(memory: Memory, r: Refused, now: int): Memory {
    if now < r.until && r.path !in memory then memory[r.path := AsRefusal(r)] else memory
  }

  function TakeAll(memory: Memory, list: seq<Refused>, now: int): Memory {
    if list == [] then memory else Take(TakeAll(memory, list[..|list| - 1], now), list[|list| - 1], now)
  }

  /** A list in the order of its paths, each once. */
  ghost predicate InOrder(list: seq<Refused>) {
    forall i, j :: 0 <= i < j < |list| ==> list[i].path < list[j].path
  }

  /** A list of what stands at a moment, and of nothing else. */
  ghost predicate IsListOf(list: seq<Refused>, memory: Memory, now: int) {
    && InOrder(list)
    && (forall r :: r in list ==> StandingFor(memory, r.path, now).Some? && r == AsRefused(r.path, memory[r.path]))
    && (forall p :: StandingFor(memory, p, now).Some? ==> AsRefused(p, memory[p]) in list)
  }

  /** A list with an entry put where its path belongs. */
  method Insert(list: seq<Refused>, r: Refused) returns (longer: seq<Refused>)
    requires InOrder(list) && forall x :: x in list ==> x.path != r.path
    ensures InOrder(longer)
    ensures forall x :: x in longer <==> x == r || x in list
  {
    var i := 0;
    while i < |list| && list[i].path < r.path
      invariant 0 <= i <= |list|
      invariant forall j :: 0 <= j < i ==> list[j].path < r.path
    {
      i := i + 1;
    }
    assert forall j :: i <= j < |list| ==> list[j] in list && list[i].path <= list[j].path;
    InsertAt(list, r, i);
    longer := list[..i] + [r] + list[i..];
  }

  lemma InsertAt(list: seq<Refused>, r: Refused, i: nat)
    requires InOrder(list) && i <= |list|
    requires forall j :: 0 <= j < i ==> list[j].path < r.path
    requires forall j :: i <= j < |list| ==> r.path < list[j].path
    ensures InOrder(list[..i] + [r] + list[i..])
    ensures forall x :: x in list[..i] + [r] + list[i..] <==> x == r || x in list
  {
    var longer := list[..i] + [r] + list[i..];
    assert |longer| == |list| + 1;
    assert forall j :: 0 <= j < |longer| ==> longer[j] == if j < i then list[j] else if j == i then r else list[j - 1];
    forall x
      ensures x in longer <==> x == r || x in list
    {
      assert list == list[..i] + list[i..];
    }
  }

  // What each method does, in what the memory holds.

  /** A lookup answers what is held while its window is open, and lets go of it once it
      is closed. */
  ghost predicate Answers(was: Memory, path: Path, now: int, standing: Option<Unavailable>, memory: Memory) {
    if path in was && now < was[path].until then standing == Some(was[path].err) && memory == was
    else standing == None && memory == was - {path}
  }

  /** A call is answered from the memory while the window of what it holds is open, and
      otherwise by the server; and a refusal is held from when it came, for a day
      unless another length is set. */
  ghost predicate Asks(was: Memory, server: Path -> Reply, lasts: int, path: Path, now: int, later: int, reply: Reply, asked: bool,
                       memory: Memory) {
    if path in was && now < was[path].until then !asked && reply == Gone(was[path].err) && memory == was
    else
      && asked && reply == server(path)
      && memory == if reply.Gone? then was[path := Refusal(later + (if lasts <= 0 then 24 * 60 * 60 else lasts), reply.err)]
                   else was - {path}
  }

  /** A list of what is held and open, with the status, the reason and the window of
      each. */
  ghost predicate ListsOpen(list: seq<Refused>, memory: Memory, now: int) {
    && (forall r :: r in list ==>
          && r.path in memory && now < memory[r.path].until && r.until == memory[r.path].until
          && r.status == memory[r.path].err.status && r.reason == memory[r.path].err.reason)
    && forall p :: p in memory && now < memory[p].until ==> exists r :: r in list && r.path == p
  }

  /** Recall leaves what is held; any other path is held by the first entry for it that
      is still open, if there is one. */
  ghost predicate Recalls(was: Memory, list: seq<Refused>, now: int, memory: Memory) {
    && (forall p :: p in was ==> p in memory && memory[p] == was[p])
    && (forall p :: p in memory && p !in was ==>
          (exists k :: FirstOpen(list, now, p, k) && memory[p] == Refusal(list[k].until, Unavailable(p, list[k].status, list[k].reason))))
    && forall k :: 0 <= k < |list| && now < list[k].until ==> list[k].path in memory
  }

  lemma RecallsAll(was: Memory, list: seq<Refused>, now: int)
    ensures Recalls(was, list, now, TakeAll(was, list, now))
  {
    forall p | p in was
      ensures p in TakeAll(was, list, now) && TakeAll(was, list, now)[p] == was[p]
    {
      RecallKeepsWhatIsHeld(was, list, now, p);
    }
    forall p | p !in was
      ensures p in TakeAll(was, list, now) ==>
        (exists k :: FirstOpen(list, now, p, k) && TakeAll(was, list, now)[p] == Refusal(list[k].until, Unavailable(p, list[k].status, list[k].reason)))
      ensures p !in TakeAll(was, list, now) ==> forall k :: 0 <= k < |list| && list[k].path == p ==> list[k].until <= now
    {
      RecallTakesTheFirstOpen(was, list, now, p);
    }
  }

  class Refusals {
    const lasts: int
    var memory: Memory

    constructor (lasts: int)
      ensures this.lasts == lasts && memory == map[]
    {
      this.lasts, memory := lasts, map[];
    }

    /** The length of a window: a day, unless it is set. */
    function Window(): (window: int)
      ensures window > 0
    {
      if lasts <= 0 then DAY else lasts
    }

    /** What stands for a path; a closed window is dropped on the way. */
    method Lookup(path: Path, now: int) returns (standing: Option<Unavailable>)
      modifies this`memory
      ensures standing == StandingFor(old(memory), path, now)
      ensures memory == LookedUp(old(memory), path, now)
      ensures Answers(old(memory), path, now, standing, memory)
    {
      if path !in memory {
        return None;
      }
      if now >= memory[path].until {
        memory := memory - {path};
        return None;
      }
      return Some(memory[path].err);
    }

    method Remember(path: Path, err: Unavailable, now: int)
      modifies this`memory
      ensures memory == old(memory)[path := Refusal(now + Window(), err)]
      ensures memory == old(memory)[path := Refusal(now + (if lasts <= 0 then 24 * 60 * 60 else lasts), err)]
    {
      memory := memory[path := Refusal(now + Window(), err)];
    }

    /** Asks for a path, or answers the refusal that stands for it. later is when
        the answer came. */
    method GetJSON(server: Path -> Reply, path: Path, now: int, later: int) returns (reply: Reply, asked: bool)
      modifies this`memory
      ensures asked == StandingFor(old(memory), path, now).None?
      ensures !asked ==> reply == Gone(StandingFor(old(memory), path, now).value)
      ensures asked ==> reply == server(path)
      ensures memory == After(old(memory), CallSteps(path, now, later, reply, asked), Window())
      ensures Asks(old(memory), server, lasts, path, now, later, reply, asked, memory)
    {
      var standing := Lookup(path, now);
      if standing.Some? {
        OneStep(old(memory), LookUp(path, now), Window());
        return Gone(standing.value), false;
      }
      reply, asked := server(path), true;
      if reply.Gone? {
        TwoSteps(old(memory), LookUp(path, now), Hear(path, reply.err, later), Window());
        Remember(path, reply.err, later);
      } else {
        OneStep(old(memory), LookUp(path, now), Window());
      }
    }

    /** The refusals whose window is open, sorted by path. */
    method Standing(now: int) returns (list: seq<Refused>)
      ensures IsListOf(list, memory, now) && ListsOpen(list, memory, now)
    {
      list := [];
      var left := memory.Keys;
      while left != {}
        invariant left <= memory.Keys && InOrder(list)
        invariant forall r :: r in list ==> r.path !in left && StandingFor(memory, r.path, now).Some? && r == AsRefused(r.path, memory[r.path])
        invariant forall p :: p !in left && StandingFor(memory, p, now).Some? ==> AsRefused(p, memory[p]) in list
        decreases left
      {
        var p :| p in left;
        if now < memory[p].until {
          list := Insert(list, AsRefused(p, memory[p]));
        }
        left := left - {p};
      }
    }

    /** Adds the entries of a list that are still open, one after the other, for
        paths that are not held. */
    method Recall(refused: seq<Refused>, now: int)
      modifies this`memory
      ensures memory == TakeAll(old(memory), refused, now)
      ensures Recalls(old(memory), refused, now, memory)
    {
      RecallsAll(memory, refused, now);
      var i := 0;
      while i < |refused|
        invariant 0 <= i <= |refused| && memory == TakeAll(old(memory), refused[..i], now)
      {
        var r := refused[i];
        assert refused[..i + 1][..i] == refused[..i];
        if now < r.until && r.path !in memory {
          memory := memory[r.path := AsRefusal(r)];
        }
        i := i + 1;
      }
      assert refused[..i] == refused;
    }
  }

  // Over a run of steps.

  /** What one method does under the lock: a lookup, or a refusal heard. */
  datatype Step = LookUp(path: Path, now: int) | Hear(path: Path, err: Unavailable, now: int)

  function Apply(memory: Memory, s: Step, window: int): Memory {
    match s
    case LookUp(p, now) => LookedUp(memory, p, now)
    case Hear(p, err, now) => memory[p := Refusal(now + window, err)]
  }

  function After(memory: Memory, steps: seq<Step>, window: int): Memory {
    if steps == [] then memory else Apply(After(memory, steps[..|steps| - 1], window), steps[|steps| - 1], window)
  }

  /** The steps a call takes: its lookup and, when it was told so, what it heard. */
  function CallSteps(path: Path, now: int, later: int, reply: Reply, asked: bool): seq<Step> {
    if asked && reply.Gone? then [LookUp(path, now), Hear(path, reply.err, later)] else [LookUp(path, now)]
  }

  lemma OneStep(memory: Memory, s: Step, window: int)
    ensures After(memory, [s], window) == Apply(memory, s, window)
  {
    assert [s][..0] == [];
  }

  lemma TwoSteps(memory: Memory, s: Step, u: Step, window: int)
    ensures After(memory, [s, u], window) == Apply(Apply(memory, s, window), u, window)
  {
    assert [s, u][..1] == [s];
    OneStep(memory, s, window);
  }

  /** The clock never goes back. */
  ghost predicate Monotone(steps: seq<Step>) {
    forall i, j :: 0 <= i <= j < |steps| ==> steps[i].now <= steps[j].now
  }

  /** The last step of a run that heard a refusal for a path. */
  function LastHeard(steps: seq<Step>, p: Path): (last: Option<Step>)
    ensures last.None? <==> forall s :: s in steps ==> !(s.Hear? && s.path == p)
    ensures last.Some? ==> last.value in steps && last.value.Hear? && last.value.path == p
  {
    if steps == [] then None
    else
      var s := steps[|steps| - 1];
      assert steps == steps[..|steps| - 1] + [s];
      if s.Hear? && s.path == p then Some(s) else LastHeard(steps[..|steps| - 1], p)
  }

  lemma OneMoreStep(memory: Memory, s: Step, window: int, p: Path, t: int)
    requires s.now <= t
    ensures StandingFor(Apply(memory, s, window), p, t) ==
            if s.Hear? && s.path == p then (if t < s.now + window then Some(s.err) else None)
            else StandingFor(memory, p, t)
  {
  }

  /** However calls interleave, if the clock never goes back what stands for a
      path is what was last heard about it while its window is open, or else
      what stood before the run; forgetting never shows. */
  lemma {:induction false} StandsExactly(start: Memory, steps: seq<Step>, window: int, p: Path, t: int)
    requires Monotone(steps) && forall s :: s in steps ==> s.now <= t
    ensures StandingFor(After(start, steps, window), p, t) ==
            match LastHeard(steps, p)
            case Some(h) => if t < h.now + window then Some(h.err) else None
            case None => StandingFor(start, p, t)
  {
    if steps != [] {
      var rest, s := steps[..|steps| - 1], steps[|steps| - 1];
      assert s in steps;
      assert forall i :: 0 <= i < |rest| ==> rest[i] == steps[i];
      StandsExactly(start, rest, window, p, t);
      OneMoreStep(After(start, rest, window), s, window, p, t);
    }
  }

  /** The last refusal heard is the last to stand. */
  lemma {:induction false} LastHeardIsLatest(steps: seq<Step>, p: Path, s: Step)
    requires Monotone(steps) && s in steps && s.Hear? && s.path == p
    ensures LastHeard(steps, p).Some? && s.now <= LastHeard(steps, p).value.now
  {
    var rest, last := steps[..|steps| - 1], steps[|steps| - 1];
    assert forall i :: 0 <= i < |rest| ==> rest[i] == steps[i];
    assert steps == rest + [last];
    if !(last.Hear? && last.path == p) {
      LastHeardIsLatest(rest, p, s);
    }
  }

  /** A path is answered without a request exactly while some refusal heard for
      it is inside its window. */
  lemma UnaskedExactlyWhileItStands(steps: seq<Step>, window: int, p: Path, now: int)
    requires Monotone(steps) && forall s :: s in steps ==> s.now <= now
    ensures StandingFor(After(map[], steps, window), p, now).Some? <==>
            exists s :: s in steps && s.Hear? && s.path == p && now < s.now + window
  {
    StandsExactly(map[], steps, window, p, now);
    forall s | s in steps && s.Hear? && s.path == p
      ensures LastHeard(steps, p).Some? && s.now <= LastHeard(steps, p).value.now
    {
      LastHeardIsLatest(steps, p, s);
    }
  }

  // On a clock that may go back.

  /** Step j is the last of a run to hear a refusal for a path. */
  ghost predicate HeardLastAt(steps: seq<Step>, p: Path, j: int) {
    && 0 <= j < |steps| && steps[j].Hear? && steps[j].path == p
    && forall k :: j < k < |steps| && steps[k].Hear? ==> steps[k].path != p
  }

  /** No lookup after step j came at a moment past the window it opened. */
  ghost predicate NeverFoundClosed(steps: seq<Step>, p: Path, window: int, j: int)
    requires 0 <= j < |steps|
  {
    forall k :: j < k < |steps| && steps[k].LookUp? && steps[k].path == p ==> steps[k].now < steps[j].now + window
  }

  ghost predicate HeldFrom(steps: seq<Step>, p: Path, window: int, j: int) {
    HeardLastAt(steps, p, j) && NeverFoundClosed(steps, p, window, j)
  }

  /** Whatever the clock does, a path is held after a run if and only if a refusal
      was heard for it and no lookup since the last one found its window closed,
      and what is held is that last one. */
  lemma {:induction false} HeldIff(steps: seq<Step>, window: int, p: Path)
    ensures p in After(map[], steps, window) <==> exists j :: HeldFrom(steps, p, window, j)
    ensures forall j :: HeldFrom(steps, p, window, j) ==>
      p in After(map[], steps, window) && After(map[], steps, window)[p] == Refusal(steps[j].now + window, steps[j].err)
  {
    if steps != [] {
      var k := |steps| - 1;
      var rest, s := steps[..k], steps[k];
      HeldIff(rest, window, p);
      forall j | HeldFrom(steps, p, window, j)
        ensures p in After(map[], steps, window)
        ensures After(map[], steps, window)[p] == Refusal(steps[j].now + window, steps[j].err)
      {
        if j < k {
          HeldBefore(steps, p, window, j);
        }
      }
      if p in After(map[], steps, window) {
        if s.Hear? && s.path == p {
          assert HeldFrom(steps, p, window, k);
        } else {
          var j :| HeldFrom(rest, p, window, j);
          assert HeldFrom(steps, p, window, j);
        }
      }
    }
  }

  lemma HeldBefore(steps: seq<Step>, p: Path, window: int, j: int)
    requires HeldFrom(steps, p, window, j) && j < |steps| - 1
    ensures HeldFrom(steps[..|steps| - 1], p, window, j)
    ensures var s := steps[|steps| - 1]; s.path == p ==> s.LookUp? && s.now < steps[j].now + window
  {
  }

  /** So a path is answered without a request at a moment if and only if the last
      refusal heard for it is inside its window and no lookup since found that
      window closed; */
  lemma UnaskedOnAnyClockIff(steps: seq<Step>, window: int, p: Path, t: int)
    ensures StandingFor(After(map[], steps, window), p, t).Some? <==>
            exists j :: HeldFrom(steps, p, window, j) && t < steps[j].now + window
  {
    HeldIff(steps, window, p);
  }

  /** and the rule of a clock that never goes back, that some refusal heard for it
      is inside its window, tells the same at every moment if and only if each
      refusal heard for it is no later than one that is held. */
  lemma ExactOnAnyClockIff(steps: seq<Step>, window: int, p: Path)
    ensures (forall t :: StandingFor(After(map[], steps, window), p, t).Some? <==>
                           exists s :: s in steps && s.Hear? && s.path == p && t < s.now + window)
       <==> (forall s :: s in steps && s.Hear? && s.path == p ==>
               exists j :: HeldFrom(steps, p, window, j) && s.now <= steps[j].now)
  {
    var memory := After(map[], steps, window);
    forall t
      ensures StandingFor(memory, p, t).Some? <==> exists j :: HeldFrom(steps, p, window, j) && t < steps[j].now + window
    {
      UnaskedOnAnyClockIff(steps, window, p, t);
    }
    if forall t :: StandingFor(memory, p, t).Some? <==> exists s :: s in steps && s.Hear? && s.path == p && t < s.now + window {
      forall s | s in steps && s.Hear? && s.path == p
        ensures exists j :: HeldFrom(steps, p, window, j) && s.now <= steps[j].now
      {
        assert StandingFor(memory, p, s.now + window - 1).Some?;
      }
    }
    forall j | HeldFrom(steps, p, window, j)
      ensures steps[j] in steps
    {
    }
  }

  /** With a clock set back it is not so: a lookup past the window forgets a
      refusal that the earlier time would still be inside. */
  lemma ClockSetBackAsksAgain(err: Unavailable)
    ensures var steps := [Hear(1, err, 0), LookUp(1, DAY)];
            && StandingFor(After(map[], steps, DAY), 1, 0).None?
            && steps[0].Hear? && steps[0].path == 1 && 0 < steps[0].now + DAY
  {
    TwoSteps(map[], Hear(1, err, 0), LookUp(1, DAY), DAY);
  }

  // Over a restart.

  /** The first entry of a list for a path whose window is still open. */
  ghost predicate FirstOpen(list: seq<Refused>, now: int, p: Path, k: int) {
    && 0 <= k < |list| && list[k].path == p && now < list[k].until
    && forall j :: 0 <= j < k && list[j].path == p ==> list[j].until <= now
  }

  /** Taking a list back leaves every path already held as it is, closed window
      or not. */
  lemma {:induction false} RecallKeepsWhatIsHeld(memory: Memory, list: seq<Refused>, now: int, p: Path)
    requires p in memory
    ensures p in TakeAll(memory, list, now) && TakeAll(memory, list, now)[p] == memory[p]
  {
    if list != [] {
      RecallKeepsWhatIsHeld(memory, list[..|list| - 1], now, p);
    }
  }

  /** Any other path is held from then on exactly when the list has an entry for
      it still open, by the first of them. */
  lemma {:induction false} RecallTakesTheFirstOpen(memory: Memory, list: seq<Refused>, now: int, p: Path)
    requires p !in memory
    ensures p in TakeAll(memory, list, now) ==>
      exists k :: FirstOpen(list, now, p, k) && TakeAll(memory, list, now)[p] == AsRefusal(list[k])
    ensures p !in TakeAll(memory, list, now) ==> forall k :: 0 <= k < |list| && list[k].path == p ==> list[k].until <= now
  {
    if list != [] {
      var rest := list[..|list| - 1];
      RecallTakesTheFirstOpen(memory, rest, now, p);
      if p in TakeAll(memory, rest, now) {
        var k :| FirstOpen(rest, now, p, k) && TakeAll(memory, rest, now)[p] == AsRefusal(rest[k]);
        assert FirstOpen(list, now, p, k);
      } else {
        assert forall j :: 0 <= j < |rest| ==> list[j] == rest[j];
        if p in TakeAll(memory, list, now) {
          assert FirstOpen(list, now, p, |list| - 1);
        }
      }
    }
  }

  /** Where the list has an entry still open for a path, a refusal stands for it
      after recall if and only if the memory did not hold the path, or holds it
      inside its window. */
  lemma RecallStandsIff(memory: Memory, list: seq<Refused>, now: int, p: Path, k: int)
    requires FirstOpen(list, now, p, k)
    ensures StandingFor(TakeAll(memory, list, now), p, now).Some? <==> p !in memory || now < memory[p].until
  {
    if p in memory {
      RecallKeepsWhatIsHeld(memory, list, now, p);
    } else {
      RecallTakesTheFirstOpen(memory, list, now, p);
    }
  }

  /** So a window that closed unnoticed keeps a refusal that still stands from
      being recalled. */
  lemma AClosedWindowBlocksRecall(err: Unavailable, now: int)
    ensures var held := map[1 := Refusal(now, err)];
            var list := [Refused(1, 404, 0, now + DAY)];
            StandingFor(TakeAll(held, list, now), 1, now).None? && StandingFor(TakeAll(map[], list, now), 1, now).Some?
  {
    var list := [Refused(1, 404, 0, now + DAY)];
    assert list[..0] == [];
  }

  /** What a fresh memory answers once it took back what another listed: the
      same status and reason, for as long, under the path it is held by. */
  lemma RecalledStands(memory: Memory, list: seq<Refused>, saved: int, now: int, p: Path, t: int)
    requires IsListOf(list, memory, saved) && saved <= now <= t
    ensures StandingFor(TakeAll(map[], list, now), p, t) ==
            match StandingFor(memory, p, t)
            case Some(e) => Some(Unavailable(p, e.status, e.reason))
            case None => None
  {
    assert StandingFor(memory, p, t).Some? ==> StandingFor(memory, p, saved).Some? && AsRefused(p, memory[p]) in list;
    RecallTakesTheFirstOpen(map[], list, now, p);
    var anew := TakeAll(map[], list, now);
    if p in anew {
      var k :| FirstOpen(list, now, p, k) && anew[p] == AsRefusal(list[k]);
      assert list[k] in list;
    }
  }

  /** A restart does not show, from the moment of recall on, if and only if each
      refusal then standing names the path it is held by. */
  lemma RestartIsTransparentIff(memory: Memory, list: seq<Refused>, saved: int, now: int)
    requires IsListOf(list, memory, saved) && saved <= now
    ensures SameFrom(TakeAll(map[], list, now), memory, now) <==>
            forall p :: p in memory && now < memory[p].until ==> memory[p].err.path == p
  {
    var anew := TakeAll(map[], list, now);
    forall p, t | now <= t
      ensures StandingFor(anew, p, t) ==
              match StandingFor(memory, p, t)
              case Some(e) => Some(Unavailable(p, e.status, e.reason))
              case None => None
    {
      RecalledStands(memory, list, saved, now, p, t);
    }
    if SameFrom(anew, memory, now) {
      forall p | p in memory && now < memory[p].until
        ensures memory[p].err.path == p
      {
        assert StandingFor(memory, p, now) == Some(memory[p].err) == StandingFor(anew, p, now);
      }
    }
  }

  /** The client names the path it asked for in each refusal, so after any run
      from an empty memory a restart does not show. */
  lemma {:induction false} NamesItsPath(steps: seq<Step>, window: int, p: Path)
    requires forall s :: s in steps && s.Hear? ==> s.err.path == s.path
    requires p in After(map[], steps, window)
    ensures After(map[], steps, window)[p].err.path == p
  {
    if steps != [] {
      var rest, s := steps[..|steps| - 1], steps[|steps| - 1];
      assert steps == rest + [s];
      if p in After(map[], rest, window) {
        NamesItsPath(rest, window, p);
      }
    }
  }

  /** A run cut in two by a restart answers every later lookup as the run without
      it would, however long the process was down. */
  lemma RestartLosesNothing(steps: seq<Step>, window: int, list: seq<Refused>, saved: int, now: int, more: seq<Step>, p: Path, t: int)
    requires Monotone(steps + more)
    requires forall s :: s in steps && s.Hear? ==> s.err.path == s.path
    requires forall s :: s in steps ==> s.now <= saved
    requires saved <= now <= t && forall s :: s in more ==> now <= s.now <= t
    requires IsListOf(list, After(map[], steps, window), saved)
    ensures StandingFor(After(TakeAll(map[], list, now), more, window), p, t)
            == StandingFor(After(map[], steps + more, window), p, t)
  {
    var memory := After(map[], steps, window);
    forall q | q in memory ensures memory[q].err.path == q {
      NamesItsPath(steps, window, q);
    }
    RestartIsTransparentIff(memory, list, saved, now);
    assert forall i :: 0 <= i < |more| ==> more[i] == (steps + more)[|steps| + i];
    StandsExactly(TakeAll(map[], list, now), more, window, p, t);
    StandsExactly(memory, more, window, p, t);
    AfterBoth(map[], steps, more, window);
  }

  lemma {:induction false} AfterBoth(start: Memory, steps: seq<Step>, more: seq<Step>, window: int)
    ensures After(start, steps + more, window) == After(After(start, steps, window), more, window)
  {
    if more == [] {
      assert steps + more == steps;
    } else {
      assert (steps + more)[..|steps + more| - 1] == steps + more[..|more| - 1];
      AfterBoth(start, steps, more[..|more| - 1], window);
    }
  }
}

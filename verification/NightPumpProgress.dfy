/**
 Where the night-pump ends up when batches may fail: it stops handing out in time, and what is left undone then is
 exactly what cannot be done.
 */
module NightPumpProgress {
  import opened Text
  import opened NightPump
  import opened NightPumpRuns
  import opened NightPumpOrder
  import opened NightPumpBounds
  import opened NightPumpHonest

  function Outcome(b: Batch, ok: bool): Step {
    Report(b.id, if ok then "completed" else "failed", None, 0)
  }

  /** A worker takes the best batch, if there is one, and reports how it went. */
  function Try(c: Config, m: Batches, ok: bool): Batches {
    match NextPick(c.queue, c.cap, m, false)
    case None => m
    case Some(b) => Apply(c, Apply(c, Start(m), NEXT), Outcome(b, ok)).mem
  }

  function TryAll(c: Config, m: Batches, outcomes: seq<bool>): Batches
    decreases |outcomes|
  {
    if outcomes == [] then m else TryAll(c, Try(c, m, outcomes[0]), outcomes[1..])
  }

  ghost predicate NoneFlying(m: Batches) {
    forall id :: id in m ==> !Flying(m[id])
  }

  /** One try keeps the order, leaves nothing in flight, and uses up potential if anything is handed out. */
  lemma TrySpends(c: Config, m: Batches, ok: bool)
    requires UniqueIds(c.queue) && NoneFlying(m) && DepsDone(c.queue, m)
    ensures var m' := Try(c, m, ok);
            && NoneFlying(m') && DepsDone(c.queue, m')
            && (NextPick(c.queue, c.cap, m, false).Some? ==> TotalPotential(c.queue, m') < TotalPotential(c.queue, m))
  {
    var p := NextPick(c.queue, c.cap, m, false);
    if p.Some? {
      var s1 := Apply(c, Start(m), NEXT);
      var report := Outcome(p.value, ok);
      PickedIsReady(c, m);
      StepExactly(c, Start(m), NEXT);
      StepExactly(c, s1, report);
      hide DepsDone, NextPick, TotalPotential, HandsIn;
      TotalSpent(c, Start(m), NEXT, c.queue);
      AnyIsCounted(c, m, NEXT);
      TotalSpent(c, s1, report, c.queue);
    }
  }

  lemma PickedIsReady(c: Config, m: Batches)
    requires UniqueIds(c.queue) && NextPick(c.queue, c.cap, m, false).Some?
    ensures var p := NextPick(c.queue, c.cap, m, false).value;
            var m1 := Apply(c, Start(m), NEXT).mem;
            && m1 == m[p.id := Dispatch(Entry(m, p.id), "w", 0)]
            && forall status :: ValidStatus(status) ==> ReportOk(c.queue, m1, p.id, status)
  {
    PickIsBest(c.queue, m);
    hide Pick, InFlight;
    var p := NextPick(c.queue, c.cap, m, false).value;
    assert IsDispatchable(p, m) && p in c.queue;
    assert forall d :: d in p.dependency ==> Done(m, d);
    assert !Done(m, p.id);
  }

  /** Once nothing is handed out, nothing changes any more. */
  lemma {:induction false} Stopped(c: Config, m: Batches, outcomes: seq<bool>)
    requires NextPick(c.queue, c.cap, m, false).None?
    ensures TryAll(c, m, outcomes) == m
  {
    hide NextPick, Apply;
    if outcomes != [] { Stopped(c, m, outcomes[1..]); }
  }

  /** Whatever the outcomes, nothing is handed out any more after as many tries as the queue had potential. */
  lemma {:induction false} StopsInTime(c: Config, m: Batches, outcomes: seq<bool>)
    requires UniqueIds(c.queue) && NoneFlying(m) && DepsDone(c.queue, m) && TotalPotential(c.queue, m) <= |outcomes|
    ensures var m' := TryAll(c, m, outcomes);
            NextPick(c.queue, c.cap, m', false).None? && NoneFlying(m') && DepsDone(c.queue, m')
    decreases |outcomes|
  {
    hide NextPick, TotalPotential, DepsDone, NoneFlying, Try;
    if NextPick(c.queue, c.cap, m, false).None? {
      Stopped(c, m, outcomes);
    } else {
      TrySpends(c, m, true);
      TrySpends(c, m, outcomes[0]);
      StopsInTime(c, Try(c, m, outcomes[0]), outcomes[1..]);
    }
  }

  predicate Exhausted(b: Batch, m: Batches) {
    b.id in m && m[b.id].status == Failed && m[b.id].retryCount >= b.retryMax
  }

  /** The batch is out of retries, or depends, directly or not, on one that is. */
  ghost predicate Blocked(queue: seq<Batch>, m: Batches, id: string) {
    exists chain: seq<string>, b: Batch ::
      && chain != [] && IsChain(queue, chain) && chain[0] == id
      && b in queue && b.id == chain[|chain| - 1] && Exhausted(b, m)
  }

  /** In a chain of dependencies that starts at a completed batch everything is completed. */
  lemma {:induction false} ChainCompleted(queue: seq<Batch>, m: Batches, chain: seq<string>)
    requires DepsDone(queue, m) && chain != [] && IsChain(queue, chain) && Done(m, chain[0])
    ensures Done(m, chain[|chain| - 1])
    decreases |chain|
  {
    if |chain| > 1 {
      assert DependsOn(queue, chain[0], chain[1]);
      var x :| x in queue && x.id == chain[0] && chain[1] in x.dependency;
      assert DepsSatisfied(x, m);
      var rest := chain[1..];
      forall i | 0 <= i < |rest| - 1 ensures DependsOn(queue, rest[i], rest[i + 1]) {
        assert DependsOn(queue, chain[i + 1], chain[i + 1 + 1]);
      }
      ChainCompleted(queue, m, rest);
    }
  }

  /** When nothing is in flight and nothing can be handed out, the undone batches are exactly the blocked ones. */
  lemma UndoneIsBlocked(c: Config, m: Batches, b: Batch)
    requires Acyclic(c.queue) && Closed(c.queue) && c.cap > 0 && DepsDone(c.queue, m) && b in c.queue
    requires NoneFlying(m) && NextPick(c.queue, c.cap, m, false).None?
    ensures !Done(m, b.id) <==> Blocked(c.queue, m, b.id)
  {
    NoneInFlight(m);
    PickIsBest(c.queue, m);
    hide Acyclic, Closed, Pick, InFlight, IsChain;
    if !Done(m, b.id) {
      assert InQueue(c.queue, b.id);
      assert IsChain(c.queue, [b.id]) by { OneLink(c.queue, b.id); }
      var chain, leaf := FindLeaf(c.queue, m, [b.id]);
      assert !IsDispatchable(leaf, m);
      assert Exhausted(leaf, m) && chain[0] == b.id;
    }
    if Blocked(c.queue, m, b.id) {
      var chain: seq<string>, x: Batch :|
        && chain != [] && IsChain(c.queue, chain) && chain[0] == b.id
        && x in c.queue && x.id == chain[|chain| - 1] && Exhausted(x, m);
      if Done(m, b.id) { ChainCompleted(c.queue, m, chain); }
    }
  }

  lemma OneLink(queue: seq<Batch>, id: string)
    ensures IsChain(queue, [id])
  {
  }

  /**
   With acyclic, closed dependencies and any outcomes at all, the pump stops within as many tries as its queue had
   potential, and then a batch is undone exactly when it, or something it depends on, is out of retries.
   */
  lemma PumpEnds(c: Config, m: Batches, outcomes: seq<bool>)
    requires UniqueIds(c.queue) && Acyclic(c.queue) && Closed(c.queue) && c.cap > 0
    requires NoneFlying(m) && DepsDone(c.queue, m) && TotalPotential(c.queue, m) <= |outcomes|
    ensures var m' := TryAll(c, m, outcomes);
            && NextPick(c.queue, c.cap, m', false).None?
            && forall b :: b in c.queue ==> (!Done(m', b.id) <==> Blocked(c.queue, m', b.id))
  {
    hide Acyclic, Closed, NoneFlying, DepsDone, NextPick, TotalPotential, TryAll, Blocked, Done;
    StopsInTime(c, m, outcomes);
    var m' := TryAll(c, m, outcomes);
    forall b | b in c.queue ensures !Done(m', b.id) <==> Blocked(c.queue, m', b.id) { UndoneIsBlocked(c, m', b); }
  }
}

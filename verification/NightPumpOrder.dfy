/**
 Dependencies over whole runs of the night-pump: what is started has its dependencies completed,
 completions happen in dependency order, and an idle pump always has something to hand out.
 */
module NightPumpOrder {
  import opened Text
  import opened NightPump
  import opened NightPumpRuns

  predicate Done(m: Batches, id: string) {
    id in m && m[id].status == Completed
  }

  predicate Started(m: Batches, id: string) {
    id in m && m[id].status != Queued
  }

  ghost predicate DepsDone(queue: seq<Batch>, m: Batches) {
    forall b :: b in queue && Started(m, b.id) ==> DepsSatisfied(b, m)
  }

  /** `order` lists the completed ids, every batch after all of its dependencies. */
  ghost predicate IsOrder(queue: seq<Batch>, m: Batches, order: seq<string>) {
    && (forall id :: id in order <==> Done(m, id))
    && forall i, b :: 0 <= i < |order| && b in queue && b.id == order[i] ==> DepsIn(b, order[..i])
  }

  ghost predicate DepsIn(b: Batch, ids: seq<string>) {
    forall d :: d in b.dependency ==> d in ids
  }

  ghost predicate Ordered(queue: seq<Batch>, m: Batches) {
    exists order :: IsOrder(queue, m, order)
  }

  ghost predicate Sound(queue: seq<Batch>, m: Batches) {
    DepsDone(queue, m) && Ordered(queue, m)
  }

  // ----- One step -----

  /** What a completion adds to the order. */
  function Extend(order: seq<string>, step: Step): seq<string> {
    if step.Report? && step.status == "completed" then order + [step.id] else order
  }

  lemma UpdateKeepsDeps(queue: seq<Batch>, m: Batches, id: string, s: BatchState)
    requires DepsDone(queue, m) && (Done(m, id) ==> s.status == Completed)
    requires s.status == Queued || forall b :: b in queue && b.id == id ==> DepsSatisfied(b, m)
    ensures DepsDone(queue, m[id := s])
  {
  }

  lemma UpdateKeepsOrder(queue: seq<Batch>, m: Batches, order: seq<string>, id: string, s: BatchState)
    requires IsOrder(queue, m, order) && !Done(m, id) && s.status != Completed
    ensures IsOrder(queue, m[id := s], order)
  {
  }

  lemma CompletionExtendsOrder(queue: seq<Batch>, m: Batches, order: seq<string>, id: string, s: BatchState)
    requires IsOrder(queue, m, order) && s.status == Completed
    requires forall b :: b in queue && b.id == id ==> DepsSatisfied(b, m)
    ensures IsOrder(queue, m[id := s], order + [id])
  {
    var order' := order + [id];
    forall i, b | 0 <= i < |order'| && b in queue && b.id == order'[i] ensures DepsIn(b, order'[..i]) {
      if i < |order| {
        assert order'[..i] == order[..i];
      } else {
        assert order'[..i] == order;
        forall d | d in b.dependency ensures d in order {
          var j :| 0 <= j < |b.dependency| && b.dependency[j] == d;
        }
      }
    }
  }

  lemma MemoryStep(c: Config, s: Sys, step: Step, order: seq<string>)
    requires UniqueIds(c.queue) && BehavedStep(s.mem, step) && !step.Crash?
    requires DepsDone(c.queue, s.mem) && IsOrder(c.queue, s.mem, order)
    ensures var m := Apply(c, s, step).mem; DepsDone(c.queue, m) && IsOrder(c.queue, m, Extend(order, step))
  {
    hide IsOrder, DepsDone;
    match step
    case Next(worker, now, sawPaused) => NextStep(c, s, step, order);
    case Report(id, status, error, now) => ReportStep(c, s, step, order);
    case _ =>
  }

  lemma NextStep(c: Config, s: Sys, step: Step, order: seq<string>)
    requires UniqueIds(c.queue) && step.Next?
    requires DepsDone(c.queue, s.mem) && IsOrder(c.queue, s.mem, order)
    ensures var m := Apply(c, s, step).mem; DepsDone(c.queue, m) && IsOrder(c.queue, m, order)
  {
    hide IsOrder, DepsDone;
    PickIsBest(c.queue, s.mem);
    var p := NextPick(c.queue, c.cap, s.mem, step.sawPaused);
    hide Pick, NextPick, InFlight;
    if p.Some? {
      var e := Dispatch(Entry(s.mem, p.value.id), step.worker, step.now);
      UpdateKeepsDeps(c.queue, s.mem, p.value.id, e);
      UpdateKeepsOrder(c.queue, s.mem, order, p.value.id, e);
    }
  }

  lemma ReportStep(c: Config, s: Sys, step: Step, order: seq<string>)
    requires step.Report? && BehavedStep(s.mem, step)
    requires DepsDone(c.queue, s.mem) && IsOrder(c.queue, s.mem, order)
    ensures var m := Apply(c, s, step).mem; DepsDone(c.queue, m) && IsOrder(c.queue, m, Extend(order, step))
  {
    var id := step.id;
    var e := Reported(Entry(s.mem, id), step.status, step.error, step.now);
    if ValidStatus(step.status) {
      assert forall b :: b in c.queue && b.id == id ==> DepsSatisfied(b, s.mem);
      hide IsOrder, DepsDone, DepsSatisfied;
      UpdateKeepsDeps(c.queue, s.mem, id, e);
      if step.status == "completed" {
        CompletionExtendsOrder(c.queue, s.mem, order, id, e);
      } else {
        UpdateKeepsOrder(c.queue, s.mem, order, id, e);
      }
    } else {
      UnchangedEntry(c.queue, s.mem, id, order);
    }
  }

  /** Recording an entry as it already counts changes nothing. */
  lemma UnchangedEntry(queue: seq<Batch>, m: Batches, id: string, order: seq<string>)
    requires DepsDone(queue, m) && IsOrder(queue, m, order)
    ensures var m' := m[id := Entry(m, id)]; DepsDone(queue, m') && IsOrder(queue, m', order)
  {
  }

  // ----- Whole runs -----

  lemma NothingStarted(queue: seq<Batch>)
    ensures DepsDone(queue, map[]) && IsOrder(queue, map[], [])
  {
  }

  /**
   From an empty state file and with well-behaved workers, at every point of every run: what is started has
   its dependencies completed and the completed batches can be listed dependencies first. This holds of the
   disk as well, so it survives restarts.
   */
  lemma {:induction false} DependenciesFirst(c: Config, steps: seq<Step>)
    requires UniqueIds(c.queue) && Behaved(c, map[], steps)
    ensures var s := Run(c, map[], steps);
            && Sound(c.queue, s.mem) && Sound(c.queue, s.disk)
            && forall k :: 0 <= k < |s.pending| ==> Sound(c.queue, s.pending[k])
    decreases |steps|
  {
    if steps == [] {
      NothingStarted(c.queue);
    } else {
      DependenciesFirst(c, Init(steps));
      var s := Run(c, map[], Init(steps));
      if !Last(steps).Crash? {
        var order :| IsOrder(c.queue, s.mem, order);
        MemoryStep(c, s, Last(steps), order);
      }
      hide Sound;
      assert Sound(c.queue, Apply(c, s, Last(steps)).mem);
    }
  }

  function Completions(steps: seq<Step>): seq<string>
    decreases |steps|
  {
    if steps == [] then [] else Extend(Completions(Init(steps)), Last(steps))
  }

  /** Between restarts the order in which completions are reported is itself a dependency order. */
  lemma {:induction false} CompletionsInOrder(c: Config, steps: seq<Step>)
    requires UniqueIds(c.queue) && Behaved(c, map[], steps) && Crash !in steps
    ensures IsOrder(c.queue, Run(c, map[], steps).mem, Completions(steps))
    ensures DepsDone(c.queue, Run(c, map[], steps).mem)
    decreases |steps|
  {
    if steps == [] {
      NothingStarted(c.queue);
    } else {
      assert steps == Init(steps) + [Last(steps)];
      CompletionsInOrder(c, Init(steps));
      MemoryStep(c, Run(c, map[], Init(steps)), Last(steps), Completions(Init(steps)));
    }
  }

  /** The assumption on workers is needed: the handler takes a completion of a batch that was never handed out. */
  lemma StrayReportBreaksOrder(c: Config, b: Batch)
    requires b in c.queue && b.dependency != [] && b.dependency[0] != b.id
    ensures !DepsDone(c.queue, Run(c, map[], [Report(b.id, "completed", None, 0)]).mem)
  {
  }

  // ----- Cycles -----

  /** A chain of ids, each depending on the next. */
  ghost predicate IsChain(queue: seq<Batch>, ids: seq<string>) {
    forall i :: 0 <= i < |ids| - 1 ==> DependsOn(queue, ids[i], ids[i + 1])
  }

  ghost predicate DependsOn(queue: seq<Batch>, a: string, b: string) {
    exists x :: x in queue && x.id == a && b in x.dependency
  }

  ghost predicate IsCycle(queue: seq<Batch>, ids: seq<string>) {
    |ids| >= 2 && IsChain(queue, ids) && ids[0] == ids[|ids| - 1]
  }

  /** A started batch's dependency is completed, and was so before it, if it is completed itself. */
  lemma DependencyDone(queue: seq<Batch>, m: Batches, order: seq<string>, a: string, b: string)
    requires DepsDone(queue, m) && IsOrder(queue, m, order) && DependsOn(queue, a, b) && Started(m, a)
    ensures b in order && (a in order ==> FirstIn(order, b) < FirstIn(order, a))
  {
  }

  /** Position of the first `x`. */
  ghost function FirstIn(order: seq<string>, x: string): (i: nat)
    requires x in order
    ensures i < |order| && order[i] == x && x !in order[..i]
  {
    if order[0] == x then 0
    else
      var i := FirstIn(order[1..], x);
      assert order[..i + 1] == [order[0]] + order[1..][..i];
      i + 1
  }

  lemma {:induction false} ChainDone(queue: seq<Batch>, m: Batches, order: seq<string>, ids: seq<string>, n: nat)
    requires DepsDone(queue, m) && IsOrder(queue, m, order)
    requires IsChain(queue, ids) && 1 <= n < |ids| && Started(m, ids[0])
    ensures ids[n] in order && (ids[0] in order ==> FirstIn(order, ids[n]) < FirstIn(order, ids[0]))
  {
    hide DepsDone, IsOrder, DependsOn;
    if n == 1 {
      DependencyDone(queue, m, order, ids[0], ids[1]);
    } else {
      ChainDone(queue, m, order, ids, n - 1);
      DoneIsStarted(queue, m, order, ids[n - 1]);
      DependencyDone(queue, m, order, ids[n - 1], ids[n]);
    }
  }

  lemma DoneIsStarted(queue: seq<Batch>, m: Batches, order: seq<string>, id: string)
    requires IsOrder(queue, m, order) && id in order
    ensures Started(m, id)
  {
  }

  /** A batch that depends on itself, directly or not, is never dispatched. */
  lemma CycleNeverStarted(c: Config, steps: seq<Step>, ids: seq<string>)
    requires UniqueIds(c.queue) && Behaved(c, map[], steps) && IsCycle(c.queue, ids)
    ensures !Started(Run(c, map[], steps).mem, ids[0])
  {
    var m := Run(c, map[], steps).mem;
    DependenciesFirst(c, steps);
    if Started(m, ids[0]) {
      var order :| IsOrder(c.queue, m, order);
      hide IsOrder, DepsDone, IsChain;
      ChainDone(c.queue, m, order, ids, |ids| - 1);
      assert false;
    }
  }

  // ----- No deadlock -----

  ghost predicate Acyclic(queue: seq<Batch>) {
    forall ids: seq<string> :: !IsCycle(queue, ids)
  }

  ghost predicate Closed(queue: seq<Batch>) {
    forall a, b :: DependsOn(queue, a, b) ==> InQueue(queue, b)
  }

  ghost predicate InQueue(queue: seq<Batch>, id: string) {
    exists b :: b in queue && b.id == id
  }

  /** Nothing is being worked on and no failed batch is out of retries. */
  ghost predicate Idle(queue: seq<Batch>, m: Batches) {
    && (forall id :: id in m ==> !Flying(m[id]))
    && (forall b :: b in queue && b.id in m && m[b.id].status == Failed ==> m[b.id].retryCount < b.retryMax)
  }

  lemma ReadyOrBlocked(queue: seq<Batch>, m: Batches, b: Batch)
    requires b in queue
    ensures DepsSatisfied(b, m) || exists d :: DependsOn(queue, b.id, d) && !Done(m, d)
  {
    if !DepsSatisfied(b, m) {
      var i :| 0 <= i < |b.dependency| && !(b.dependency[i] in m && m[b.dependency[i]].status == Completed);
      assert DependsOn(queue, b.id, b.dependency[i]) && !Done(m, b.dependency[i]);
    }
  }

  function Ids(queue: seq<Batch>): set<string> {
    set i | 0 <= i < |queue| :: queue[i].id
  }

  ghost predicate Distinct(ids: seq<string>) {
    forall i, j :: 0 <= i < j < |ids| ==> ids[i] != ids[j]
  }

  lemma {:induction false} DistinctFits(ids: seq<string>, s: set<string>)
    requires Distinct(ids) && forall x :: x in ids ==> x in s
    ensures |ids| <= |s|
    decreases |ids|
  {
    if ids != [] {
      var init := ids[..|ids| - 1];
      assert forall x :: x in init ==> x in s - {ids[|ids| - 1]};
      DistinctFits(init, s - {ids[|ids| - 1]});
    }
  }

  /** Following unfinished dependencies from an unfinished batch ends at one whose dependencies are all completed. */
  lemma {:induction false} FindLeaf(queue: seq<Batch>, m: Batches, ids: seq<string>)
    returns (chain: seq<string>, b: Batch)
    requires Acyclic(queue) && Closed(queue) && ids != [] && IsChain(queue, ids) && Distinct(ids)
    requires forall x :: x in ids ==> InQueue(queue, x) && !Done(m, x)
    ensures ids <= chain && IsChain(queue, chain)
    ensures b in queue && b.id == chain[|chain| - 1] && !Done(m, b.id) && DepsSatisfied(b, m)
    decreases |Ids(queue)| - |ids|
  {
    var last := ids[|ids| - 1];
    assert last in ids && InQueue(queue, last);
    chain := ids;
    b :| b in queue && b.id == last;
    ReadyOrBlocked(queue, m, b);
    if !DepsSatisfied(b, m) {
      var d :| DependsOn(queue, last, d) && !Done(m, d);
      var longer := ids + [d];
      if d in ids {
        var j :| 0 <= j < |ids| && ids[j] == d;
        CycleIn(queue, ids, j, d);
      } else {
        forall x | x in longer ensures x in Ids(queue) {
          assert InQueue(queue, x);
          var y :| y in queue && y.id == x;
          var i :| 0 <= i < |queue| && queue[i] == y;
        }
        DistinctFits(longer, Ids(queue));
        chain, b := FindLeaf(queue, m, longer);
      }
    }
  }

  lemma CycleIn(queue: seq<Batch>, ids: seq<string>, j: nat, d: string)
    requires j < |ids| && ids[j] == d && IsChain(queue, ids) && DependsOn(queue, ids[|ids| - 1], d)
    ensures IsCycle(queue, ids[j..] + [d])
  {
  }

  /**
   With acyclic dependencies that are all in the queue, an idle pump with a free slot that is not paused hands
   out a batch unless all are completed; it is a dispatchable one that no other dispatchable one precedes.
   */
  lemma NoDeadlock(c: Config, m: Batches)
    requires Acyclic(c.queue) && Closed(c.queue) && Idle(c.queue, m) && c.cap > 0
    ensures var p := NextPick(c.queue, c.cap, m, false);
            && (p.None? <==> forall b :: b in c.queue ==> Done(m, b.id))
            && (p.Some? ==> p.value in c.queue && IsDispatchable(p.value, m)
                            && forall b :: b in c.queue && IsDispatchable(b, m) ==> Precedes(p.value, b))
  {
    NoneInFlight(m);
    PickIsBest(c.queue, m);
    hide Pick, Precedes;
    if b :| b in c.queue && !Done(m, b.id) {
      assert InQueue(c.queue, b.id);
      var chain, ready := FindLeaf(c.queue, m, [b.id]);
    }
  }

  // ----- Everything gets done -----

  /** One batch is handed out and reported as completed. */
  function Cycle(c: Config, m: Batches): Batches {
    match NextPick(c.queue, c.cap, m, false)
    case None => m
    case Some(b) => AfterReport(AfterNext(c.queue, c.cap, m, false, "", 0), b.id, "completed", None, 0)
  }

  function Cycles(c: Config, m: Batches, n: nat): Batches
    decreases n
  {
    if n == 0 then m else Cycles(c, Cycle(c, m), n - 1)
  }

  function Undone(queue: seq<Batch>, m: Batches): nat {
    if queue == [] then 0 else (if Done(m, queue[0].id) then 0 else 1) + Undone(queue[1..], m)
  }

  lemma {:induction false} UndoneShrinks(queue: seq<Batch>, m: Batches, m': Batches)
    requires forall b :: b in queue && Done(m, b.id) ==> Done(m', b.id)
    ensures Undone(queue, m') <= Undone(queue, m)
    ensures (exists b :: b in queue && !Done(m, b.id) && Done(m', b.id)) ==> Undone(queue, m') < Undone(queue, m)
    ensures Undone(queue, m) == 0 <==> forall b :: b in queue ==> Done(m, b.id)
    decreases |queue|
  {
    hide Done;
    if queue != [] {
      assert queue == [queue[0]] + queue[1..];
      UndoneShrinks(queue[1..], m, m');
    }
  }

  lemma CycleWorks(c: Config, m: Batches)
    requires Acyclic(c.queue) && Closed(c.queue) && Idle(c.queue, m) && c.cap > 0
    ensures Idle(c.queue, Cycle(c, m)) && Undone(c.queue, Cycle(c, m)) <= Undone(c.queue, m)
    ensures Undone(c.queue, m) > 0 ==> Undone(c.queue, Cycle(c, m)) < Undone(c.queue, m)
  {
    NoDeadlock(c, m);
    var p := NextPick(c.queue, c.cap, m, false);
    var m' := Cycle(c, m);
    hide NextPick, Acyclic, Closed, Precedes, Undone;
    if p.Some? {
      assert m' == m[p.value.id := m'[p.value.id]] && Done(m', p.value.id) && !Done(m, p.value.id);
    }
    UndoneShrinks(c.queue, m, m');
  }

  /** With workers that complete what they get, an idle pump finishes its whole queue, one batch per cycle. */
  lemma {:induction false} EverythingGetsDone(c: Config, m: Batches, n: nat)
    requires Acyclic(c.queue) && Closed(c.queue) && Idle(c.queue, m) && c.cap > 0 && Undone(c.queue, m) <= n
    ensures forall b :: b in c.queue ==> Done(Cycles(c, m, n), b.id)
    decreases n
  {
    hide Cycle, Idle, Acyclic, Closed, Undone;
    CycleWorks(c, m);
    UndoneShrinks(c.queue, m, m);
    if n > 0 { EverythingGetsDone(c, Cycle(c, m), n - 1); }
  }
}

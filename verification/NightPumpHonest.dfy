/**
 When the dependency order of the night-pump survives what workers report: exactly for each report, exactly for
 whole runs, and exactly for the queues that honest workers cannot break.
 */
module NightPumpHonest {
  import opened Text
  import opened NightPump
  import opened NightPumpRuns
  import opened NightPumpOrder
  import opened NightPumpWorkers

  // ----- One report -----

  /** The dependencies of a batch are completed once it is itself reported with this status. */
  ghost predicate ReadyAfter(b: Batch, m: Batches, status: string) {
    forall d :: d in b.dependency ==> if d == b.id then status == "completed" else Done(m, d)
  }

  /** No other started batch depends on this one. */
  ghost predicate NoneBuiltOn(queue: seq<Batch>, m: Batches, id: string) {
    forall b :: b in queue && b.id != id && Started(m, b.id) ==> id !in b.dependency
  }

  ghost predicate ReportOk(queue: seq<Batch>, m: Batches, id: string, status: string) {
    && (forall b :: b in queue && b.id == id ==> ReadyAfter(b, m, status))
    && (status == "failed" && Done(m, id) ==> NoneBuiltOn(queue, m, id))
  }

  /**
   A report keeps the order exactly when the reported batch has its dependencies completed and no batch that was
   started on its completion loses it. Whether the reporter was ever handed the batch does not matter.
   */
  lemma ReportExactly(queue: seq<Batch>, m: Batches, id: string, status: string, error: Option<string>, now: int)
    requires DepsDone(queue, m) && ValidStatus(status)
    ensures DepsDone(queue, AfterReport(m, id, status, error, now)) <==> ReportOk(queue, m, id, status)
  {
    var m' := AfterReport(m, id, status, error, now);
    if DepsDone(queue, m') {
      OkIfKept(queue, m, id, status, error, now);
    }
    if ReportOk(queue, m, id, status) {
      forall b | b in queue && Started(m', b.id) ensures DepsSatisfied(b, m') {
        DepsAfter(queue, m, b, id, status, error, now);
      }
    }
  }

  lemma DepsAfter(queue: seq<Batch>, m: Batches, b: Batch, id: string, status: string, error: Option<string>, now: int)
    requires DepsDone(queue, m) && ValidStatus(status) && ReportOk(queue, m, id, status)
    requires b in queue && (b.id == id || Started(m, b.id))
    ensures DepsSatisfied(b, AfterReport(m, id, status, error, now))
  {
    var m' := AfterReport(m, id, status, error, now);
    forall i | 0 <= i < |b.dependency| ensures Done(m', b.dependency[i]) {
      var d := b.dependency[i];
      assert d in b.dependency;
      if b.id == id { assert ReadyAfter(b, m, status); } else { assert DepsSatisfied(b, m) && Done(m, d); }
    }
  }

  lemma OkIfKept(queue: seq<Batch>, m: Batches, id: string, status: string, error: Option<string>, now: int)
    requires DepsDone(queue, AfterReport(m, id, status, error, now)) && ValidStatus(status)
    ensures ReportOk(queue, m, id, status)
  {
    var m' := AfterReport(m, id, status, error, now);
    forall b, d | b in queue && d in b.dependency && (b.id == id || Started(m, b.id)) ensures Done(m', d) {
      assert DepsSatisfied(b, m');
      var i :| 0 <= i < |b.dependency| && b.dependency[i] == d;
    }
  }

  // ----- Whole runs -----

  ghost predicate OrderedThroughout(c: Config, steps: seq<Step>) {
    forall i :: 0 <= i <= |steps| ==> DepsDone(c.queue, Run(c, map[], steps[..i]).mem)
  }

  ghost predicate ReportsOk(c: Config, steps: seq<Step>) {
    forall i :: 0 <= i < |steps| ==> StepOk(c.queue, Run(c, map[], steps[..i]).mem, steps[i])
  }

  ghost predicate StepOk(queue: seq<Batch>, m: Batches, step: Step) {
    step.Report? && ValidStatus(step.status) ==> ReportOk(queue, m, step.id, step.status)
  }

  lemma StepExactly(c: Config, s: Sys, step: Step)
    requires UniqueIds(c.queue) && DepsDone(c.queue, s.mem) && (step.Crash? ==> DepsDone(c.queue, s.disk))
    ensures DepsDone(c.queue, Apply(c, s, step).mem) <==> StepOk(c.queue, s.mem, step)
  {
    match step
    case Next(worker, now, sawPaused) =>
      PickIsBest(c.queue, s.mem);
      hide Pick, InFlight;
      var p := NextPick(c.queue, c.cap, s.mem, sawPaused);
      if p.Some? { UpdateKeepsDeps(c.queue, s.mem, p.value.id, Dispatch(Entry(s.mem, p.value.id), worker, now)); }
    case Report(id, status, error, now) =>
      if ValidStatus(status) {
        ReportExactly(c.queue, s.mem, id, status, error, now);
      } else {
        UnchangedDeps(c.queue, s.mem, id);
      }
    case _ =>
  }

  lemma UnchangedDeps(queue: seq<Batch>, m: Batches, id: string)
    requires DepsDone(queue, m)
    ensures DepsDone(queue, m[id := Entry(m, id)])
  {
  }

  /** The state file never holds anything that memory did not hold, so it is in order if memory always was. */
  lemma DiskInOrder(c: Config, steps: seq<Step>)
    requires OrderedThroughout(c, steps)
    ensures DepsDone(c.queue, Run(c, map[], steps).disk)
  {
    DiskIsPastMemory(c, map[], steps);
    hide DepsDone, Run;
    var i :| 0 <= i <= |steps| && Run(c, map[], steps).disk == Run(c, map[], steps[..i]).mem;
  }

  /**
   For every run at all, with any reports, landings and restarts: started batches have their dependencies completed
   throughout exactly when every report met the condition of `ReportExactly` at its time.
   */
  lemma {:induction false} OrderExactly(c: Config, steps: seq<Step>)
    requires UniqueIds(c.queue)
    ensures OrderedThroughout(c, steps) <==> ReportsOk(c, steps)
    decreases |steps|
  {
    if steps == [] {
      NothingStarted(c.queue);
      assert OrderedThroughout(c, steps) by { assert forall i :: 0 <= i <= 0 ==> steps[..i] == []; }
    } else {
      OrderExactly(c, Init(steps));
      SplitLast(c, steps);
      hide OrderedThroughout, ReportsOk, DepsDone, StepOk, Apply;
      if OrderedThroughout(c, Init(steps)) {
        DiskInOrder(c, Init(steps));
        NowInOrder(c, Init(steps));
        StepExactly(c, Run(c, map[], Init(steps)), Last(steps));
      }
    }
  }

  lemma NowInOrder(c: Config, steps: seq<Step>)
    requires OrderedThroughout(c, steps)
    ensures DepsDone(c.queue, Run(c, map[], steps).mem)
  {
    assert steps[..|steps|] == steps;
  }

  lemma SplitLast(c: Config, steps: seq<Step>)
    requires steps != []
    ensures OrderedThroughout(c, steps) <==>
              && OrderedThroughout(c, Init(steps))
              && DepsDone(c.queue, Apply(c, Run(c, map[], Init(steps)), Last(steps)).mem)
    ensures ReportsOk(c, steps) <==>
              ReportsOk(c, Init(steps)) && StepOk(c.queue, Run(c, map[], Init(steps)).mem, Last(steps))
  {
    hide DepsDone, StepOk, Apply;
    var init := Init(steps);
    assert forall i :: 0 <= i <= |init| ==> init[..i] == steps[..i];
    assert steps[..|steps|] == steps && steps[..|init|] == init;
  }

  // ----- Honest workers -----

  /** If every restart remembers what workers hold, honest workers keep the order. */
  lemma HonestOrder(c: Config, steps: seq<Step>)
    requires UniqueIds(c.queue) && Honest(c, map[], steps) && RestartsRemember(c, map[], steps)
    ensures Sound(c.queue, Run(c, map[], steps).mem)
  {
    hide Sound, Honest, RestartsRemember;
    HonestIsBehaved(c, map[], steps);
    DependenciesFirst(c, steps);
  }

  /** In particular they keep it if snapshots land in the order in which they were taken. */
  lemma InOrderKeepsOrder(c: Config, steps: seq<Step>)
    requires UniqueIds(c.queue) && Honest(c, map[], steps) && InOrder(steps)
    ensures Sound(c.queue, Run(c, map[], steps).mem)
  {
    hide Sound, Honest, InOrder;
    InOrderRemembers(c, map[], steps);
    DependenciesFirst(c, steps);
  }

  const NEXT := Next("w", 0, false)

  function Finished(b: Batch): Step {
    Report(b.id, "completed", None, 0)
  }

  /** Some batches are completed and nothing else was started; the snapshot of the empty state is still to land. */
  ghost predicate Calm(w: World) {
    && w.sys.pending == [map[]] && w.waiting == [None] && w.held == multiset{}
    && forall id :: id in w.sys.mem ==> w.sys.mem[id].status == Completed
  }

  /** The world when the best batch is handed out and its snapshot has landed. */
  lemma HandedAndLanded(c: Config, w: World, p: Batch)
    requires Calm(w) && NextPick(c.queue, c.cap, w.sys.mem, false) == Some(p)
    ensures var m := w.sys.mem[p.id := Dispatch(Entry(w.sys.mem, p.id), "w", 0)];
            && Live(c, Live(c, w, NEXT), Land(1)) == World(Sys(m, m, [map[]]), [None], multiset{p.id})
  {
    hide NextPick;
    var w1 := Live(c, w, NEXT);
    assert w1.waiting == [None, Some(p.id)] && w1.sys.pending[1] == w1.sys.mem;
    assert Without(w1.waiting, 1) == [None] && w1.sys.pending[..1] + w1.sys.pending[2..] == [map[]];
  }

  /** A worker takes the best batch, and it completes. */
  lemma OneRound(c: Config, steps: seq<Step>, p: Batch) returns (steps': seq<Step>)
    requires var w := After(c, Fresh(map[]), steps);
             Honest(c, map[], steps) && Calm(w) && NextPick(c.queue, c.cap, w.sys.mem, false) == Some(p)
    ensures var w, w' := After(c, Fresh(map[]), steps), After(c, Fresh(map[]), steps');
            && Honest(c, map[], steps') && Calm(w')
            && w'.sys.mem.Keys == w.sys.mem.Keys + {p.id}
  {
    hide After, HonestFrom, NextPick;
    var w := After(c, Fresh(map[]), steps);
    var s1 := steps + [NEXT];
    var s2 := s1 + [Land(1)];
    var s3 := s2 + [Finished(p)];
    steps' := s3 + [Land(1)];
    Snoc(c, Fresh(map[]), steps, NEXT);
    Snoc(c, Fresh(map[]), s1, Land(1));
    Snoc(c, Fresh(map[]), s2, Finished(p));
    Snoc(c, Fresh(map[]), s3, Land(1));
    HandedAndLanded(c, w, p);
    ReportedAndLanded(c, After(c, Fresh(map[]), s2), p);
  }

  lemma ReportedAndLanded(c: Config, w: World, p: Batch)
    requires w.sys.pending == [map[]] && w.waiting == [None] && w.held == multiset{p.id}
    requires forall id :: id in w.sys.mem && id != p.id ==> w.sys.mem[id].status == Completed
    ensures var w' := Live(c, Live(c, w, Finished(p)), Land(1));
            Calm(w') && w'.sys.mem.Keys == w.sys.mem.Keys + {p.id}
  {
    var w1 := Live(c, w, Finished(p));
    assert w1.waiting == [None, None] && w1.sys.pending == [map[], w1.sys.mem];
    assert Without(w1.waiting, 1) == [None] && w1.sys.pending[..1] + w1.sys.pending[2..] == [map[]];
  }

  /** A batch with dependencies is taken, the empty state lands, the pump restarts, and the batch is reported. */
  lemma Break(c: Config, steps: seq<Step>, p: Batch) returns (steps': seq<Step>)
    requires var w := After(c, Fresh(map[]), steps);
             Honest(c, map[], steps) && Calm(w) && NextPick(c.queue, c.cap, w.sys.mem, false) == Some(p)
    ensures Honest(c, map[], steps') && After(c, Fresh(map[]), steps').sys.mem.Keys == {p.id}
    ensures Done(After(c, Fresh(map[]), steps').sys.mem, p.id)
  {
    hide After, HonestFrom, NextPick;
    var s1 := steps + [NEXT];
    var s2 := s1 + [Land(1)];
    var s3 := s2 + [Land(0)];
    var s4 := s3 + [Crash];
    steps' := s4 + [Finished(p)];
    Snoc(c, Fresh(map[]), steps, NEXT);
    Snoc(c, Fresh(map[]), s1, Land(1));
    Snoc(c, Fresh(map[]), s2, Land(0));
    Snoc(c, Fresh(map[]), s3, Crash);
    Snoc(c, Fresh(map[]), s4, Finished(p));
    HandedAndLanded(c, After(c, Fresh(map[]), steps), p);
    Forgotten(c, After(c, Fresh(map[]), s2).sys.mem, p.id);
  }

  /** The empty state lands late, and the pump restarts from it. */
  lemma Forgotten(c: Config, m: Batches, id: string)
    ensures var w := World(Sys(m, m, [map[]]), [None], multiset{id});
            && Live(c, w, Land(0)) == World(Sys(m, map[], []), [], multiset{id})
            && Live(c, Live(c, w, Land(0)), Crash) == Fresh(map[]).(held := multiset{id})
  {
    var w := World(Sys(m, m, [map[]]), [None], multiset{id});
    assert Without(w.waiting, 0) == [] && w.sys.pending[..0] + w.sys.pending[1..] == [];
  }

  /** Batches are completed until the next one has a dependency. */
  lemma {:induction false} BreakAfter(c: Config, steps: seq<Step>, b: Batch) returns (steps': seq<Step>)
    requires UniqueIds(c.queue) && Acyclic(c.queue) && Closed(c.queue) && c.cap > 0
    requires b in c.queue && b.dependency != [] && Honest(c, map[], steps)
    requires var w := After(c, Fresh(map[]), steps); Calm(w) && b.id !in w.sys.mem
    ensures Honest(c, map[], steps') && !DepsDone(c.queue, After(c, Fresh(map[]), steps').sys.mem)
    decreases Undone(c.queue, After(c, Fresh(map[]), steps).sys.mem)
  {
    var m := After(c, Fresh(map[]), steps).sys.mem;
    NoDeadlock(c, m);
    hide NextPick, Acyclic, Closed, Undone, After, Honest;
    var p := NextPick(c.queue, c.cap, m, false).value;
    if p.dependency != [] {
      steps' := Break(c, steps, p);
      NotOnItself(c.queue, p);
      assert p.dependency[0] !in After(c, Fresh(map[]), steps').sys.mem;
      assert !DepsSatisfied(p, After(c, Fresh(map[]), steps').sys.mem);
    } else {
      var next := OneRound(c, steps, p);
      var m' := After(c, Fresh(map[]), next).sys.mem;
      assert !Done(m, p.id) && Done(m', p.id);
      UndoneShrinks(c.queue, m, m');
      steps' := BreakAfter(c, next, b);
    }
  }

  lemma NotOnItself(queue: seq<Batch>, p: Batch)
    requires Acyclic(queue) && p in queue && p.dependency != []
    ensures p.dependency[0] != p.id
  {
    if p.dependency[0] == p.id {
      assert DependsOn(queue, p.id, p.id);
      assert IsCycle(queue, [p.id, p.id]);
    }
  }

  lemma FirstSnapshot(c: Config)
    ensures Honest(c, map[], [Heartbeat]) && Calm(After(c, Fresh(map[]), [Heartbeat]))
    ensures After(c, Fresh(map[]), [Heartbeat]).sys.mem == map[]
  {
    OneStep(c, Fresh(map[]), Heartbeat);
  }

  /**
   Without that order of landing, honest workers keep the order in every run exactly when there is none to keep: if
   any batch of a workable queue depends on another, an old snapshot that lands late and a restart break it, although
   every hand-out had landed before it was answered.
   */
  lemma HonestOrderExactly(c: Config)
    requires UniqueIds(c.queue) && Acyclic(c.queue) && Closed(c.queue) && c.cap > 0
    ensures (forall steps :: Honest(c, map[], steps) ==> DepsDone(c.queue, Run(c, map[], steps).mem))
       <==> forall b :: b in c.queue ==> b.dependency == []
  {
    hide Acyclic, Closed, Honest, Run;
    if b :| b in c.queue && b.dependency != [] {
      FirstSnapshot(c);
      var steps := BreakAfter(c, [Heartbeat], b);
      SameRun(c, map[], steps);
      assert !DepsDone(c.queue, Run(c, map[], steps).mem);
    } else {
      forall steps ensures DepsDone(c.queue, Run(c, map[], steps).mem) {
      }
    }
  }

  // ----- An orphan -----

  /** A hand-out that is recorded through a later snapshot but was not answered before a restart leaves an orphan. */
  lemma OrphanRun(c: Config, b: Batch)
    requires NextPick(c.queue, c.cap, map[], false) == Some(b)
    ensures var steps := [NEXT] + [Heartbeat] + [Land(1)] + [Crash];
            Honest(c, map[], steps) && Orphan(After(c, Fresh(map[]), steps), b.id)
  {
    hide NextPick;
    OneStep(c, Fresh(map[]), NEXT);
    hide After, HonestFrom;
    Snoc(c, Fresh(map[]), [NEXT], Heartbeat);
    Snoc(c, Fresh(map[]), [NEXT] + [Heartbeat], Land(1));
    Snoc(c, Fresh(map[]), [NEXT] + [Heartbeat] + [Land(1)], Crash);
    var w2 := After(c, Fresh(map[]), [NEXT] + [Heartbeat]);
    assert w2.waiting == [Some(b.id), None] && w2.sys.pending[1] == w2.sys.mem;
  }
}

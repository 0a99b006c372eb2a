/**
 Workers of the night-pump. A request for a batch is answered only after its snapshot was renamed into place, so a
 worker holds a batch only after that hand-out has landed; whether the state file still says so later is another
 matter, because an older snapshot may land after it.
 */
module NightPumpWorkers {
  import opened Text
  import opened NightPump
  import opened NightPumpRuns

  predicate Dispatching(m: Batches, id: string) {
    id in m && m[id].status == Dispatched
  }

  /**
   The pump, for each pending snapshot the batch that is answered when it lands, and what workers hold: batches they
   got as an answer and have not reported.
   */
  datatype World = World(sys: Sys, waiting: seq<Option<string>>, held: multiset<string>)

  function Fresh(m0: Batches): World {
    World(Start(m0), [], multiset{})
  }

  function Without<T>(s: seq<T>, k: nat): seq<T>
    requires k < |s|
  {
    s[..k] + s[k + 1..]
  }

  /** One step. A restart drops the requests that were not answered, and changes nothing in what workers hold. */
  function Live(c: Config, w: World, step: Step): World {
    var sys := Apply(c, w.sys, step);
    match step
    case Next(_, _, sawPaused) =>
      (match NextPick(c.queue, c.cap, w.sys.mem, sawPaused)
       case None => w
       case Some(b) => World(sys, w.waiting + [Some(b.id)], w.held))
    case Report(id, status, _, _) =>
      if ValidStatus(status) then World(sys, w.waiting + [None], w.held - multiset{id}) else w.(sys := sys)
    case Heartbeat => w.(sys := sys, waiting := w.waiting + [None])
    case Land(k) =>
      if k >= |w.waiting| then w.(sys := sys)
      else
        var got := if w.waiting[k].Some? then multiset{w.waiting[k].value} else multiset{};
        World(sys, Without(w.waiting, k), w.held + got)
    case Crash => World(sys, [], w.held)
  }

  function After(c: Config, w: World, steps: seq<Step>): World
    decreases |steps|
  {
    if steps == [] then w else Live(c, After(c, w, Init(steps)), Last(steps))
  }

  predicate ReportOf(step: Step, id: string) {
    step.Report? && ValidStatus(step.status) && step.id == id
  }

  predicate HonestStep(w: World, step: Step) {
    step.Report? && ValidStatus(step.status) ==> step.id in w.held
  }

  /** Every report is of a batch that some worker holds. */
  ghost predicate HonestFrom(c: Config, w: World, steps: seq<Step>)
    decreases |steps|
  {
    steps == [] || (HonestFrom(c, w, Init(steps)) && HonestStep(After(c, w, Init(steps)), Last(steps)))
  }

  ghost predicate Honest(c: Config, m0: Batches, steps: seq<Step>) {
    HonestFrom(c, Fresh(m0), steps)
  }

  lemma {:induction false} SameRun(c: Config, m0: Batches, steps: seq<Step>)
    ensures After(c, Fresh(m0), steps).sys == Run(c, m0, steps)
    decreases |steps|
  {
    hide Apply, AfterNext, AfterReport;
    if steps != [] {
      SameRun(c, m0, Init(steps));
      LiveApplies(c, After(c, Fresh(m0), Init(steps)), Last(steps));
    }
  }

  lemma LiveApplies(c: Config, w: World, step: Step)
    ensures Live(c, w, step).sys == Apply(c, w.sys, step)
  {
  }

  lemma Snoc(c: Config, w: World, steps: seq<Step>, x: Step)
    ensures After(c, w, steps + [x]) == Live(c, After(c, w, steps), x)
    ensures HonestFrom(c, w, steps + [x]) <==> HonestFrom(c, w, steps) && HonestStep(After(c, w, steps), x)
  {
    assert Init(steps + [x]) == steps;
  }

  lemma OneStep(c: Config, w: World, x: Step)
    ensures After(c, w, []) == w && HonestFrom(c, w, [])
    ensures After(c, w, [x]) == Live(c, w, x) && (HonestFrom(c, w, [x]) <==> HonestStep(w, x))
  {
    assert [] + [x] == [x];
    Snoc(c, w, [], x);
  }

  lemma TwoSteps(c: Config, w: World, x: Step, y: Step)
    ensures After(c, w, [x, y]) == Live(c, Live(c, w, x), y)
    ensures HonestFrom(c, w, [x, y]) <==> HonestStep(w, x) && HonestStep(Live(c, w, x), y)
  {
    hide Live, HonestStep;
    assert [x] + [y] == [x, y];
    OneStep(c, w, x);
    Snoc(c, w, [x], y);
  }

  // ----- Hand-outs that no restart can forget -----

  /** Memory, the state file and every snapshot on its way to it record the batch as dispatched. */
  ghost predicate Firm(s: Sys, id: string) {
    && Dispatching(s.mem, id) && Dispatching(s.disk, id)
    && forall k :: 0 <= k < |s.pending| ==> Dispatching(s.pending[k], id)
  }

  lemma FirmStep(c: Config, s: Sys, step: Step, id: string)
    requires Firm(s, id) && !ReportOf(step, id)
    ensures Firm(Apply(c, s, step), id)
  {
    PickIsBest(c.queue, s.mem);
    hide Pick, InFlight, DepsSatisfied;
  }

  ghost predicate NoReport(steps: seq<Step>, id: string) {
    forall i :: 0 <= i < |steps| ==> !ReportOf(steps[i], id)
  }

  lemma {:induction false} FirmStays(c: Config, w: World, steps: seq<Step>, id: string)
    requires Firm(w.sys, id) && NoReport(steps, id)
    ensures Firm(After(c, w, steps).sys, id)
    decreases |steps|
  {
    hide Firm, Apply;
    if steps != [] {
      FirmStays(c, w, Init(steps), id);
      FirmStep(c, After(c, w, Init(steps)).sys, Last(steps), id);
      LiveApplies(c, After(c, w, Init(steps)), Last(steps));
    }
  }

  /** Where a batch is not firm, a restart that forgets it is at most one landing away. */
  lemma NotFirm(c: Config, w: World, id: string) returns (steps: seq<Step>)
    requires !Firm(w.sys, id)
    ensures NoReport(steps, id) && HonestFrom(c, w, steps) && !Dispatching(After(c, w, steps).sys.mem, id)
  {
    if !Dispatching(w.sys.mem, id) {
      steps := [];
    } else if !Dispatching(w.sys.disk, id) {
      steps := [Crash];
      OneStep(c, w, Crash);
    } else {
      var k :| 0 <= k < |w.sys.pending| && !Dispatching(w.sys.pending[k], id);
      steps := [Land(k), Crash];
      TwoSteps(c, w, Land(k), Crash);
    }
  }

  /**
   A hand-out stays recorded in every continuation without a report of it, whatever lands and however often the
   pump restarts, exactly when memory, state file and all pending snapshots record it.
   */
  lemma FirmExactly(c: Config, w: World, id: string)
    ensures (forall steps :: NoReport(steps, id) ==> Dispatching(After(c, w, steps).sys.mem, id)) <==> Firm(w.sys, id)
  {
    hide NoReport, After;
    if Firm(w.sys, id) {
      forall steps | NoReport(steps, id) ensures Dispatching(After(c, w, steps).sys.mem, id) {
        FirmStays(c, w, steps, id);
      }
    } else {
      var steps := NotFirm(c, w, id);
    }
  }

  // ----- Orphans -----

  /** A batch that is firmly recorded as dispatched, that no worker holds and no answer is about to hand out. */
  ghost predicate Orphan(w: World, id: string) {
    Firm(w.sys, id) && id !in w.held && Some(id) !in w.waiting
  }

  lemma OrphanStep(c: Config, w: World, step: Step, id: string)
    requires Orphan(w, id) && HonestStep(w, step)
    ensures Orphan(Live(c, w, step), id)
  {
    PickIsBest(c.queue, w.sys.mem);
    FirmStep(c, w.sys, step, id);
    LiveApplies(c, w, step);
    hide Pick, InFlight, DepsSatisfied, Firm, Apply;
    assert Dispatching(w.sys.mem, id) by { FirmNow(w.sys, id); }
  }

  lemma FirmNow(s: Sys, id: string)
    requires Firm(s, id)
    ensures Dispatching(s.mem, id)
  {
  }

  lemma {:induction false} OrphanStays(c: Config, w: World, steps: seq<Step>, id: string)
    requires Orphan(w, id) && HonestFrom(c, w, steps)
    ensures Orphan(After(c, w, steps), id)
    decreases |steps|
  {
    hide Orphan, Live;
    if steps != [] {
      OrphanStays(c, w, Init(steps), id);
      OrphanStep(c, After(c, w, Init(steps)), Last(steps), id);
    }
  }

  /**
   A batch stays dispatched for ever, so that it is never handed out again and never done, in every continuation with
   honest workers exactly when it is an orphan.
   */
  lemma OrphanExactly(c: Config, w: World, id: string)
    ensures (forall steps :: HonestFrom(c, w, steps) ==> Dispatching(After(c, w, steps).sys.mem, id)) <==> Orphan(w, id)
  {
    hide HonestFrom, After, Firm;
    if Orphan(w, id) {
      forall steps | HonestFrom(c, w, steps) ensures Dispatching(After(c, w, steps).sys.mem, id) {
        OrphanStays(c, w, steps, id);
        FirmNow(After(c, w, steps).sys, id);
      }
    } else if !Firm(w.sys, id) {
      var steps := NotFirm(c, w, id);
    } else {
      var steps := Reportable(c, w, id);
    }
  }

  lemma Reportable(c: Config, w: World, id: string) returns (steps: seq<Step>)
    requires id in w.held || Some(id) in w.waiting
    ensures HonestFrom(c, w, steps) && !Dispatching(After(c, w, steps).sys.mem, id)
  {
    var report := Report(id, "completed", None, 0);
    if id in w.held {
      steps := [report];
      OneStep(c, w, report);
    } else {
      var k :| 0 <= k < |w.waiting| && w.waiting[k] == Some(id);
      steps := [Land(k), report];
      TwoSteps(c, w, Land(k), report);
    }
  }

  // ----- When honest workers are well-behaved -----

  /** How many workers hold the batch or are about to get it. */
  function Takers(w: World, id: string): nat {
    w.held[id] + multiset(w.waiting)[Some(id)]
  }

  /** Nothing is out twice, and everything that is out is recorded as dispatched. */
  ghost predicate Known(w: World) {
    forall id :: Takers(w, id) <= 1 && (Takers(w, id) == 1 ==> Dispatching(w.sys.mem, id))
  }

  ghost predicate AllDispatching(held: multiset<string>, m: Batches) {
    forall id :: id in held ==> Dispatching(m, id)
  }

  lemma WithoutCounts<T>(s: seq<T>, k: nat)
    requires k < |s|
    ensures multiset(s) == multiset(Without(s, k)) + multiset{s[k]}
  {
    assert s == s[..k] + [s[k]] + s[k + 1..];
  }

  /** Who takes what after a step. */
  lemma TakersAfter(c: Config, w: World, step: Step, id: string)
    ensures var n := Takers(Live(c, w, step), id);
            if step.Next? then
              var p := NextPick(c.queue, c.cap, w.sys.mem, step.sawPaused);
              n == Takers(w, id) + if p.Some? && p.value.id == id then 1 else 0
            else if step.Report? then n == Takers(w, id) - if ReportOf(step, id) && id in w.held then 1 else 0
            else if step.Crash? then n == w.held[id]
            else n == Takers(w, id)
  {
    hide Apply, NextPick;
    if step.Next? {
      TakersNext(c, w, step, id);
    } else if step.Land? {
      TakersLand(c, w, step.k, id);
    } else {
      Appended(w.waiting, None);
    }
  }

  lemma TakersNext(c: Config, w: World, step: Step, id: string)
    requires step.Next?
    ensures var p := NextPick(c.queue, c.cap, w.sys.mem, step.sawPaused);
            Takers(Live(c, w, step), id) == Takers(w, id) + if p.Some? && p.value.id == id then 1 else 0
  {
    hide Apply, NextPick;
    var p := NextPick(c.queue, c.cap, w.sys.mem, step.sawPaused);
    if p.Some? { Appended(w.waiting, Some(p.value.id)); }
  }

  lemma Appended<T>(s: seq<T>, x: T)
    ensures multiset(s + [x]) == multiset(s) + multiset{x}
  {
  }

  lemma TakersLand(c: Config, w: World, k: nat, id: string)
    ensures Takers(Live(c, w, Land(k)), id) == Takers(w, id)
  {
    hide Apply;
    if k < |w.waiting| {
      WithoutCounts(w.waiting, k);
      hide Without;
    }
  }

  lemma KnownStep(c: Config, w: World, step: Step)
    requires Known(w) && HonestStep(w, step) && (step.Crash? ==> AllDispatching(w.held, w.sys.disk))
    ensures BehavedStep(w.sys.mem, step) && Known(Live(c, w, step))
  {
    PickIsBest(c.queue, w.sys.mem);
    LiveApplies(c, w, step);
    var w' := Live(c, w, step);
    hide Pick, InFlight, DepsSatisfied, Live;
    assert BehavedStep(w.sys.mem, step) by {
      if step.Report? { assert Takers(w, step.id) == 1 ==> Dispatching(w.sys.mem, step.id); }
    }
    forall id ensures Takers(w', id) <= 1 && (Takers(w', id) == 1 ==> Dispatching(w'.sys.mem, id)) {
      TakersAfter(c, w, step, id);
      assert Takers(w, id) <= 1 && (Takers(w, id) == 1 ==> Dispatching(w.sys.mem, id));
    }
  }

  /** At every restart the state file records what workers hold as dispatched. */
  ghost predicate RestartsRemember(c: Config, m0: Batches, steps: seq<Step>)
    decreases |steps|
  {
    steps == [] ||
    (var w := After(c, Fresh(m0), Init(steps));
     RestartsRemember(c, m0, Init(steps)) && (Last(steps).Crash? ==> AllDispatching(w.held, w.sys.disk)))
  }

  /** If every restart remembers what workers hold, honest workers report only what is recorded as dispatched. */
  lemma {:induction false} HonestIsBehaved(c: Config, m0: Batches, steps: seq<Step>)
    requires Honest(c, m0, steps) && RestartsRemember(c, m0, steps)
    ensures Behaved(c, m0, steps) && Known(After(c, Fresh(m0), steps))
    decreases |steps|
  {
    hide Known, Live, Apply, HonestStep, BehavedStep, AllDispatching;
    if steps == [] {
      NobodyYet(m0);
    } else {
      HonestIsBehaved(c, m0, Init(steps));
      SameRun(c, m0, Init(steps));
      KnownStep(c, After(c, Fresh(m0), Init(steps)), Last(steps));
    }
  }

  lemma NobodyYet(m0: Batches)
    ensures Known(Fresh(m0))
  {
  }

  // ----- Snapshots that land in order -----

  /** Every landing is of the oldest pending snapshot. */
  ghost predicate InOrder(steps: seq<Step>) {
    forall i :: 0 <= i < |steps| && steps[i].Land? ==> steps[i].k == 0
  }

  /** Snapshots from a hand-out on record it, and what is held is firm. */
  ghost predicate Tracked(w: World) {
    && |w.waiting| == |w.sys.pending|
    && (forall id :: id in w.held ==> Firm(w.sys, id))
    && (forall k, j, id :: 0 <= k <= j < |w.waiting| && w.waiting[k] == Some(id) ==> Dispatching(w.sys.pending[j], id))
  }

  lemma TrackedStep(c: Config, w: World, step: Step)
    requires Tracked(w) && Known(w) && HonestStep(w, step) && (step.Land? ==> step.k == 0)
    ensures Tracked(Live(c, w, step))
  {
    match step
    case Next(_, _, _) => TrackedNext(c, w, step);
    case Report(_, _, _, _) => TrackedReport(c, w, step);
    case Land(_) => TrackedLand(c, w);
    case _ => hide Known;
  }

  lemma TrackedNext(c: Config, w: World, step: Step)
    requires Tracked(w) && Known(w) && step.Next?
    ensures Tracked(Live(c, w, step))
  {
    PickIsBest(c.queue, w.sys.mem);
    var w' := Live(c, w, step);
    forall id | id in w'.held ensures Firm(w'.sys, id) { FirmStep(c, w.sys, step, id); }
    hide Pick, InFlight, DepsSatisfied, Firm;
    forall k, j, id | 0 <= k <= j < |w'.waiting| && w'.waiting[k] == Some(id)
      ensures Dispatching(w'.sys.pending[j], id)
    {
      if k < |w.waiting| { WaitingKnown(w, k, id); }
    }
  }

  lemma WaitingKnown(w: World, k: nat, id: string)
    requires Known(w) && k < |w.waiting| && w.waiting[k] == Some(id)
    ensures Dispatching(w.sys.mem, id) && id !in w.held
  {
    assert Some(id) in multiset(w.waiting);
    assert Takers(w, id) >= 1;
  }

  lemma TrackedReport(c: Config, w: World, step: Step)
    requires Tracked(w) && Known(w) && step.Report? && HonestStep(w, step)
    ensures Tracked(Live(c, w, step))
  {
    var w' := Live(c, w, step);
    forall id | id in w'.held ensures Firm(w'.sys, id) {
      assert Takers(w, id) <= 1;
      assert !ReportOf(step, id);
      FirmStep(c, w.sys, step, id);
    }
    forall k, j, id | 0 <= k <= j < |w'.waiting| && w'.waiting[k] == Some(id)
      ensures Dispatching(w'.sys.pending[j], id)
    {
      if k < |w.waiting| { WaitingKnown(w, k, id); }
    }
  }

  lemma TrackedLand(c: Config, w: World)
    requires Tracked(w) && Known(w)
    ensures Tracked(Live(c, w, Land(0)))
  {
    var w' := Live(c, w, Land(0));
    if w.waiting != [] {
      assert w'.waiting == w.waiting[1..] && w'.sys.pending == w.sys.pending[1..];
      forall id | id in w'.held ensures Firm(w'.sys, id) {
        if id in w.held { FirmStep(c, w.sys, Land(0), id); } else { WaitingKnown(w, 0, id); }
      }
    }
  }

  /** If snapshots land in order, every restart remembers what workers hold: an honest worker is always well-behaved. */
  lemma {:induction false} InOrderRemembers(c: Config, m0: Batches, steps: seq<Step>)
    requires Honest(c, m0, steps) && InOrder(steps)
    ensures RestartsRemember(c, m0, steps) && Behaved(c, m0, steps) && Tracked(After(c, Fresh(m0), steps))
    decreases |steps|
  {
    hide Known, Live, HonestStep, Tracked;
    if steps == [] {
      assert Tracked(Fresh(m0)) by { NothingTracked(m0); }
    } else {
      InOrderRemembers(c, m0, Init(steps));
      HonestIsBehaved(c, m0, Init(steps));
      var w := After(c, Fresh(m0), Init(steps));
      TrackedStep(c, w, Last(steps));
      HeldOnDisk(w);
      HonestIsBehaved(c, m0, steps);
    }
  }

  lemma NothingTracked(m0: Batches)
    ensures Tracked(Fresh(m0))
  {
  }

  lemma HeldOnDisk(w: World)
    requires Tracked(w)
    ensures AllDispatching(w.held, w.sys.disk)
  {
  }
}

/**
 Whole runs of the night-pump: requests in any order, snapshots that reach the disk late and out of
 order or never, and restarts from whatever the disk holds.
 */
module NightPumpRuns {
  import opened Text
  import opened NightPump

  /** The recorded state in memory, the state file, and the snapshots on their way to it. */
  datatype Sys = Sys(mem: Batches, disk: Batches, pending: seq<Batches>)

  datatype Step =
    | Next(worker: string, now: int, sawPaused: bool)
    | Report(id: string, status: string, error: Option<string>, now: int)
    | Heartbeat
    | Land(k: nat)
    | Crash

  /** The pump's fixed parameters. */
  datatype Config = Config(queue: seq<Batch>, cap: nat)

  function Apply(c: Config, s: Sys, step: Step): Sys {
    match step
    case Next(worker, now, sawPaused) =>
      var m := AfterNext(c.queue, c.cap, s.mem, sawPaused, worker, now);
      if NextPick(c.queue, c.cap, s.mem, sawPaused).None? then s
      else s.(mem := m, pending := s.pending + [m])
    case Report(id, status, error, now) =>
      var m := AfterReport(s.mem, id, status, error, now);
      s.(mem := m, pending := if ValidStatus(status) then s.pending + [m] else s.pending)
    case Heartbeat => s.(pending := s.pending + [s.mem])
    case Land(k) =>
      if k < |s.pending| then s.(disk := s.pending[k], pending := s.pending[..k] + s.pending[k + 1..]) else s
    case Crash => Sys(s.disk, s.disk, [])
  }

  /** A pump that has just loaded its state file. */
  function Start(m: Batches): Sys {
    Sys(m, m, [])
  }

  function Run(c: Config, m0: Batches, steps: seq<Step>): Sys
    decreases |steps|
  {
    if steps == [] then Start(m0)
    else Apply(c, Run(c, m0, steps[..|steps| - 1]), steps[|steps| - 1])
  }

  function Init<T>(s: seq<T>): seq<T>
    requires s != []
  {
    s[..|s| - 1]
  }

  function Last<T>(s: seq<T>): T
    requires s != []
  {
    s[|s| - 1]
  }

  /** Workers report only batches that are recorded as dispatched. */
  ghost predicate Behaved(c: Config, m0: Batches, steps: seq<Step>)
    decreases |steps|
  {
    steps == [] || (Behaved(c, m0, Init(steps)) && BehavedStep(Run(c, m0, Init(steps)).mem, Last(steps)))
  }

  predicate BehavedStep(m: Batches, step: Step) {
    step.Report? && ValidStatus(step.status) ==> step.id in m && m[step.id].status == Dispatched
  }

  ghost predicate UniqueIds(queue: seq<Batch>) {
    forall a, b :: a in queue && b in queue && a.id == b.id ==> a == b
  }

  // ----- Invariants of the memory carry over to disk and pending snapshots -----

  ghost predicate Everywhere(inv: Batches -> bool, s: Sys) {
    inv(s.mem) && inv(s.disk) && forall k :: 0 <= k < |s.pending| ==> inv(s.pending[k])
  }

  // ----- The disk holds a state that memory once held -----

  ghost predicate WasMemory(c: Config, m0: Batches, steps: seq<Step>, m: Batches) {
    exists i :: 0 <= i <= |steps| && m == Run(c, m0, steps[..i]).mem
  }

  lemma WasMemoryLater(c: Config, m0: Batches, steps: seq<Step>, m: Batches)
    requires steps != [] && WasMemory(c, m0, Init(steps), m)
    ensures WasMemory(c, m0, steps, m)
  {
    var i :| 0 <= i <= |Init(steps)| && m == Run(c, m0, Init(steps)[..i]).mem;
    assert Init(steps)[..i] == steps[..i];
  }

  lemma NowMemory(c: Config, m0: Batches, steps: seq<Step>)
    ensures WasMemory(c, m0, steps, Run(c, m0, steps).mem)
  {
    assert steps[..|steps|] == steps;
  }

  lemma {:induction false} DiskIsPastMemory(c: Config, m0: Batches, steps: seq<Step>)
    ensures var s := Run(c, m0, steps);
            && WasMemory(c, m0, steps, s.mem) && WasMemory(c, m0, steps, s.disk)
            && forall k :: 0 <= k < |s.pending| ==> WasMemory(c, m0, steps, s.pending[k])
    decreases |steps|
  {
    hide WasMemory, AfterNext, AfterReport, NextPick;
    NowMemory(c, m0, steps);
    if steps != [] {
      DiskIsPastMemory(c, m0, Init(steps));
      var before := Run(c, m0, Init(steps));
      WasMemoryLater(c, m0, steps, before.mem);
      WasMemoryLater(c, m0, steps, before.disk);
      forall k | 0 <= k < |before.pending| ensures WasMemory(c, m0, steps, before.pending[k]) {
        WasMemoryLater(c, m0, steps, before.pending[k]);
      }
    }
  }

  // ----- The parallel cap -----

  lemma FlyingAfterUpdate(m: Batches, id: string, s: BatchState)
    ensures InFlight(m[id := s]) <= InFlight(m) + 1
    ensures !Flying(s) || (id in m && Flying(m[id])) ==> InFlight(m[id := s]) <= InFlight(m)
  {
    var before := set k | k in m && Flying(m[k]);
    var m' := m[id := s];
    var after := set k | k in m' && Flying(m'[k]);
    assert after <= before + {id};
    assert |before + {id}| <= |before| + 1;
    Smaller(after, before + {id});
    if !Flying(s) || (id in m && Flying(m[id])) {
      assert after <= before;
      Smaller(after, before);
    }
  }

  lemma Smaller(a: set<string>, b: set<string>)
    requires a <= b
    ensures |a| <= |b|
  {
    assert b == a + (b - a);
  }

  lemma NoneInFlight(m: Batches)
    requires forall id :: id in m ==> !Flying(m[id])
    ensures InFlight(m) == 0
  {
  }

  lemma CapKeptByStep(c: Config, s: Sys, step: Step)
    requires Everywhere(m => InFlight(m) <= c.cap, s)
    ensures Everywhere(m => InFlight(m) <= c.cap, Apply(c, s, step))
  {
    hide InFlight;
    match step
    case Next(worker, now, sawPaused) =>
      var p := NextPick(c.queue, c.cap, s.mem, sawPaused);
      if p.Some? { FlyingAfterUpdate(s.mem, p.value.id, Dispatch(Entry(s.mem, p.value.id), worker, now)); }
    case Report(id, status, error, now) =>
      FlyingAfterUpdate(s.mem, id, Reported(Entry(s.mem, id), status, error, now));
    case _ =>
  }

  /** Whatever is reported, and whichever snapshots survive a crash, no more than `cap` batches are in flight. */
  lemma CapKept(c: Config, m0: Batches, steps: seq<Step>)
    requires InFlight(m0) <= c.cap
    ensures var s := Run(c, m0, steps); InFlight(s.mem) <= c.cap && InFlight(s.disk) <= c.cap
  {
    CapEverywhere(c, m0, steps);
  }

  lemma {:induction false} CapEverywhere(c: Config, m0: Batches, steps: seq<Step>)
    requires InFlight(m0) <= c.cap
    ensures Everywhere(m => InFlight(m) <= c.cap, Run(c, m0, steps))
    decreases |steps|
  {
    if steps != [] {
      CapEverywhere(c, m0, Init(steps));
      CapKeptByStep(c, Run(c, m0, Init(steps)), Last(steps));
    }
  }

  // ----- A report with an invalid status is not seen -----

  /** The heartbeat's view of one batch: an unknown id counts as queued. */
  function Seen(m: Batches, id: string): Status {
    Entry(m, id).status
  }

  lemma InvalidReportUnseen(m: Batches, id: string, status: string, error: Option<string>, now: int)
    requires !ValidStatus(status)
    ensures var m' := AfterReport(m, id, status, error, now);
            && InFlight(m') == InFlight(m)
            && (forall k: string :: Seen(m', k) == Seen(m, k))
            && (forall b: Batch :: DepsSatisfied(b, m') <==> DepsSatisfied(b, m))
            && (forall b: Batch :: IsDispatchable(b, m') <==> IsDispatchable(b, m))
  {
    var m' := AfterReport(m, id, status, error, now);
    assert (set k | k in m' && Flying(m'[k])) == (set k | k in m && Flying(m[k]));
    forall b: Batch ensures DepsSatisfied(b, m') <==> DepsSatisfied(b, m) {
      assert forall d: string :: (d in m' && m'[d].status == Completed) <==> (d in m && m[d].status == Completed);
    }
  }
}

/**
 How often the night-pump hands out a batch: a measure that every dispatch uses up and no report gives back.
 */
module NightPumpBounds {
  import opened Text
  import opened NightPump
  import opened NightPumpRuns
  import opened NightPumpWorkers

  /** The most dispatches one incarnation of the pump can spend on a batch. */
  function Allowance(b: Batch): nat {
    if b.retryMax > 1 then b.retryMax else 1
  }

  /** The dispatches a batch may still get. */
  function Potential(b: Batch, m: Batches): nat {
    var e := Entry(m, b.id);
    match e.status
    case Queued => Allowance(b)
    case Failed => if e.retryCount < b.retryMax then b.retryMax - e.retryCount else 0
    case Completed => 0
    case _ => if e.retryCount + 1 < b.retryMax then b.retryMax - e.retryCount - 1 else 0
  }

  /** 1 if the step hands out the batch with this id. */
  function Hands(c: Config, m: Batches, step: Step, id: string): nat {
    if step.Next? && NextPick(c.queue, c.cap, m, step.sawPaused).Some?
       && NextPick(c.queue, c.cap, m, step.sawPaused).value.id == id then 1 else 0
  }

  function Dispatches(c: Config, m0: Batches, steps: seq<Step>, id: string): nat
    decreases |steps|
  {
    if steps == [] then 0
    else Dispatches(c, m0, Init(steps), id) + Hands(c, Run(c, m0, Init(steps)).mem, Last(steps), id)
  }

  function Restarts(steps: seq<Step>): nat
    decreases |steps|
  {
    if steps == [] then 0 else Restarts(Init(steps)) + if Last(steps).Crash? then 1 else 0
  }

  /** Every dispatch of a batch uses up potential, and no well-behaved step gives any back. */
  lemma PotentialSpent(c: Config, s: Sys, step: Step, b: Batch)
    requires UniqueIds(c.queue) && b in c.queue && BehavedStep(s.mem, step) && !step.Crash?
    ensures Potential(b, Apply(c, s, step).mem) + Hands(c, s.mem, step, b.id) <= Potential(b, s.mem)
  {
    PickIsBest(c.queue, s.mem);
    hide Pick, InFlight, DepsSatisfied;
  }

  predicate CrashFree(steps: seq<Step>) {
    forall i :: 0 <= i < |steps| ==> !steps[i].Crash?
  }

  /**
   One incarnation of the pump, which starts at the beginning of the run or after a restart: a batch is handed out
   at most as often as its potential at the start of the incarnation says, and so at most `max(1, retry_max)` times.
   */
  lemma {:induction false} IncarnationBounded(c: Config, m0: Batches, before: seq<Step>, steps: seq<Step>, b: Batch)
    requires UniqueIds(c.queue) && b in c.queue && Behaved(c, m0, before + steps) && CrashFree(steps)
    ensures var start := Run(c, m0, before).mem;
            var handed := Dispatches(c, m0, before + steps, b.id) - Dispatches(c, m0, before, b.id);
            handed + Potential(b, Run(c, m0, before + steps).mem) <= Potential(b, start) <= Allowance(b)
    decreases |steps|
  {
    hide Potential, Hands, Allowance, Apply;
    PotentialCapped(b, Run(c, m0, before).mem);
    if steps == [] {
      assert before + steps == before;
    } else {
      assert Init(before + steps) == before + Init(steps) && Last(before + steps) == Last(steps);
      IncarnationBounded(c, m0, before, Init(steps), b);
      PotentialSpent(c, Run(c, m0, before + Init(steps)), Last(steps), b);
    }
  }

  /** Every restart of the run loads a state in which the batch may get no more dispatches than it might have got. */
  ghost predicate RestartsGiveNothing(c: Config, m0: Batches, steps: seq<Step>, b: Batch) {
    forall i :: 0 <= i < |steps| && steps[i].Crash? ==>
      Potential(b, Run(c, m0, steps[..i]).disk) <= Potential(b, Run(c, m0, steps[..i]).mem)
  }

  /** Then the whole run, restarts included, keeps within the potential it started with. */
  lemma {:induction false} BoundedAcrossRestarts(c: Config, m0: Batches, steps: seq<Step>, b: Batch)
    requires UniqueIds(c.queue) && b in c.queue && Behaved(c, m0, steps) && RestartsGiveNothing(c, m0, steps, b)
    ensures Dispatches(c, m0, steps, b.id) + Potential(b, Run(c, m0, steps).mem) <= Potential(b, m0) <= Allowance(b)
    decreases |steps|
  {
    hide Potential, Hands, Allowance;
    PotentialCapped(b, m0);
    if steps != [] {
      var init, s := Init(steps), Run(c, m0, Init(steps));
      forall i | 0 <= i < |init| && init[i].Crash?
        ensures Potential(b, Run(c, m0, init[..i]).disk) <= Potential(b, Run(c, m0, init[..i]).mem)
      {
        assert init[..i] == steps[..i] && init[i] == steps[i];
      }
      BoundedAcrossRestarts(c, m0, init, b);
      if Last(steps).Crash? {
        assert steps[..|steps| - 1] == init;
        CrashHandsNothing(c, s.mem, Last(steps), b.id);
      } else {
        PotentialSpent(c, s, Last(steps), b);
      }
    }
  }

  /** All incarnations together: each batch is handed out at most `max(1, retry_max)` times for each of them. */
  lemma {:induction false} DispatchesBounded(c: Config, steps: seq<Step>, b: Batch)
    requires UniqueIds(c.queue) && b in c.queue && Behaved(c, map[], steps)
    ensures Dispatches(c, map[], steps, b.id) + Potential(b, Run(c, map[], steps).mem)
         <= (Restarts(steps) + 1) * Allowance(b)
    decreases |steps|
  {
    hide Potential, Hands, Allowance, Apply;
    PotentialCapped(b, Run(c, map[], steps).mem);
    if steps == [] {
      OnceMore(0, Allowance(b));
    } else {
      DispatchesBounded(c, Init(steps), b);
      OnceMore(Restarts(Init(steps)) + 1, Allowance(b));
      if Last(steps).Crash? {
        CrashHandsNothing(c, Run(c, map[], Init(steps)).mem, Last(steps), b.id);
      } else {
        PotentialSpent(c, Run(c, map[], Init(steps)), Last(steps), b);
      }
    }
  }

  lemma CrashHandsNothing(c: Config, m: Batches, step: Step, id: string)
    requires step.Crash?
    ensures Hands(c, m, step, id) == 0
  {
  }

  lemma PotentialCapped(b: Batch, m: Batches)
    ensures Potential(b, m) <= Allowance(b)
  {
  }

  lemma OnceMore(n: nat, a: nat)
    ensures (n + 1) * a == n * a + a
  {
  }

  // ----- The bound is reached -----

  /** `n` times: a worker takes the batch and reports that it failed, and both snapshots land at once. */
  function Tries(next: Step, failed: Step, n: nat): seq<Step> {
    if n == 0 then [] else Tries(next, failed, n - 1) + [next] + [Land(1)] + [failed] + [Land(1)]
  }

  /** A snapshot is taken before anything is handed out, and is still to land when `n` tries are over. */
  function Life(next: Step, failed: Step, n: nat): seq<Step> {
    [Heartbeat] + Tries(next, failed, n)
  }

  /** `k` restarts, each right after that old snapshot has landed. */
  function Lives(next: Step, failed: Step, n: nat, k: nat): seq<Step> {
    if k == 0 then Life(next, failed, n)
    else Lives(next, failed, n, k - 1) + [Land(0)] + [Crash] + [Heartbeat] + Tries(next, failed, n)
  }

  /** A pump with a free slot and one batch, which depends on nothing, and a worker's two requests. */
  predicate OneBatch(c: Config, b: Batch, next: Step, failed: Step) {
    && c.queue == [b] && c.cap > 0 && b.dependency == []
    && next.Next? && !next.sawPaused && failed.Report? && failed.id == b.id && failed.status == "failed"
  }

  /** The batch was tried `n` times since the old snapshot was taken. */
  predicate TriedTimes(w: World, b: Batch, n: nat) {
    && w.sys.pending == [map[]] && w.waiting == [None] && w.held == multiset{}
    && (n == 0 ==> w.sys.mem == map[])
    && (n > 0 ==> w.sys.mem.Keys == {b.id} && w.sys.mem[b.id].status == Failed && w.sys.mem[b.id].retryCount == n)
  }

  /** The two steps after which a worker holds the batch. */
  lemma Taken(c: Config, w: World, b: Batch, next: Step, failed: Step, n: nat)
    requires OneBatch(c, b, next, failed) && TriedTimes(w, b, n) && n < Allowance(b)
    ensures Hands(c, w.sys.mem, next, b.id) == 1
    ensures var w' := Live(c, Live(c, w, next), Land(1));
            && w'.sys.pending == [map[]] && w'.waiting == [None] && w'.held == multiset{b.id}
            && w'.sys.mem.Keys == {b.id} && Dispatching(w'.sys.mem, b.id) && w'.sys.mem[b.id].retryCount == n
  {
    NoneInFlight(w.sys.mem);
    assert Pick([b], w.sys.mem) == Some(b) by { assert [b][..0] == []; }
    hide InFlight, Pick;
    var w1 := Live(c, w, next);
    assert w1.waiting == [None, Some(b.id)] && w1.sys.pending == [map[], w1.sys.mem];
    assert Without(w1.waiting, 1) == [None] && w1.sys.pending[..1] + w1.sys.pending[2..] == [map[]];
  }

  lemma GivenBack(c: Config, w: World, b: Batch, failed: Step, n: nat)
    requires failed.Report? && failed.id == b.id && failed.status == "failed" && n < Allowance(b)
    requires w.sys.pending == [map[]] && w.waiting == [None] && w.held == multiset{b.id}
    requires w.sys.mem.Keys == {b.id} && Dispatching(w.sys.mem, b.id) && w.sys.mem[b.id].retryCount == n
    ensures HonestStep(w, failed) && BehavedStep(w.sys.mem, failed)
    ensures TriedTimes(Live(c, Live(c, w, failed), Land(1)), b, n + 1)
  {
    var w1 := Live(c, w, failed);
    assert w1.waiting == [None, None] && w1.sys.pending == [map[], w1.sys.mem];
    assert Without(w1.waiting, 1) == [None] && w1.sys.pending[..1] + w1.sys.pending[2..] == [map[]];
  }

  /** A run of honest and well-behaved workers that is at `w`. */
  ghost predicate At(c: Config, steps: seq<Step>, w: World) {
    After(c, Fresh(map[]), steps) == w && Honest(c, map[], steps) && Behaved(c, map[], steps)
  }

  /** One more step of such a run. */
  lemma Onward(c: Config, steps: seq<Step>, w: World, x: Step, id: string)
    requires At(c, steps, w) && HonestStep(w, x) && BehavedStep(w.sys.mem, x)
    ensures At(c, steps + [x], Live(c, w, x))
    ensures Dispatches(c, map[], steps + [x], id) == Dispatches(c, map[], steps, id) + Hands(c, w.sys.mem, x, id)
    ensures Restarts(steps + [x]) == Restarts(steps) + if x.Crash? then 1 else 0
  {
    hide Live, BehavedStep, HonestStep, Hands, Apply;
    NightPumpWorkers.Snoc(c, Fresh(map[]), steps, x);
    SameRun(c, map[], steps);
    assert Init(steps + [x]) == steps;
  }

  lemma OneTry(c: Config, b: Batch, next: Step, failed: Step, steps: seq<Step>, w: World, n: nat) returns (w': World)
    requires OneBatch(c, b, next, failed) && At(c, steps, w) && TriedTimes(w, b, n) && n < Allowance(b)
    ensures var steps' := steps + [next] + [Land(1)] + [failed] + [Land(1)];
            && At(c, steps', w') && TriedTimes(w', b, n + 1)
            && Dispatches(c, map[], steps', b.id) == Dispatches(c, map[], steps, b.id) + 1
            && Restarts(steps') == Restarts(steps)
  {
    Taken(c, w, b, next, failed, n);
    var w1 := Live(c, w, next);
    var w2 := Live(c, w1, Land(1));
    GivenBack(c, w2, b, failed, n);
    var w3 := Live(c, w2, failed);
    w' := Live(c, w3, Land(1));
    hide At, Dispatches, Restarts, Live, TriedTimes, NextPick;
    Onward(c, steps, w, next, b.id);
    Onward(c, steps + [next], w1, Land(1), b.id);
    Onward(c, steps + [next] + [Land(1)], w2, failed, b.id);
    Onward(c, steps + [next] + [Land(1)] + [failed], w3, Land(1), b.id);
  }

  lemma {:induction false} TriesRun(
    c: Config, b: Batch, next: Step, failed: Step, before: seq<Step>, w: World, n: nat) returns (w': World)
    requires OneBatch(c, b, next, failed) && n <= Allowance(b) && At(c, before, w) && TriedTimes(w, b, 0)
    ensures var steps := before + Tries(next, failed, n);
            && At(c, steps, w') && TriedTimes(w', b, n)
            && Dispatches(c, map[], steps, b.id) == Dispatches(c, map[], before, b.id) + n
            && Restarts(steps) == Restarts(before)
    decreases n
  {
    hide At, Dispatches, Restarts, TriedTimes, Allowance, OneBatch;
    if n == 0 {
      assert before + Tries(next, failed, n) == before;
      w' := w;
    } else {
      w' := TriesRun(c, b, next, failed, before, w, n - 1);
      var init := before + Tries(next, failed, n - 1);
      assert before + Tries(next, failed, n) == init + [next] + [Land(1)] + [failed] + [Land(1)];
      w' := OneTry(c, b, next, failed, init, w', n - 1);
    }
  }

  /** The old snapshot is taken. */
  lemma Begin(c: Config, b: Batch, steps: seq<Step>) returns (w: World)
    requires At(c, steps, Fresh(map[]))
    ensures At(c, steps + [Heartbeat], w) && TriedTimes(w, b, 0)
    ensures Dispatches(c, map[], steps + [Heartbeat], b.id) == Dispatches(c, map[], steps, b.id)
    ensures Restarts(steps + [Heartbeat]) == Restarts(steps)
  {
    w := Live(c, Fresh(map[]), Heartbeat);
    hide At, Dispatches, Restarts;
    Onward(c, steps, Fresh(map[]), Heartbeat, b.id);
  }

  /** The old snapshot lands last, so the restart begins from nothing. */
  lemma Forget(c: Config, b: Batch, steps: seq<Step>, w: World, n: nat)
    requires At(c, steps, w) && TriedTimes(w, b, n)
    ensures var steps' := steps + [Land(0)] + [Crash];
            && At(c, steps', Fresh(map[])) && Restarts(steps') == Restarts(steps) + 1
            && Dispatches(c, map[], steps', b.id) == Dispatches(c, map[], steps, b.id)
  {
    var w1 := Live(c, w, Land(0));
    assert w1.sys.disk == map[] && w1.waiting == [] && w1.held == multiset{};
    assert Live(c, w1, Crash) == Fresh(map[]);
    hide At, Dispatches, Restarts;
    Onward(c, steps, w, Land(0), b.id);
    Onward(c, steps + [Land(0)], w1, Crash, b.id);
  }

  /**
   No smaller bound holds, whatever `retry_max` is: for every number of restarts there is a run of an honest and
   well-behaved worker that is handed the batch `max(1, retry_max)` times in each incarnation. Every hand-out and
   every report lands, but a snapshot from before the first of them lands after the last.
   */
  lemma {:induction false} BoundReached(c: Config, b: Batch, next: Step, failed: Step, k: nat) returns (w: World)
    requires OneBatch(c, b, next, failed)
    ensures var steps := Lives(next, failed, Allowance(b), k);
            && At(c, steps, w) && TriedTimes(w, b, Allowance(b)) && Restarts(steps) == k
            && Dispatches(c, map[], steps, b.id) == (k + 1) * Allowance(b)
    decreases k
  {
    hide At, Dispatches, Restarts, TriedTimes, Allowance, Tries, OneBatch;
    var n := Allowance(b);
    OnceMore(k, n);
    if k == 0 {
      NothingYet(c, b);
      w := Begin(c, b, []);
      assert [] + [Heartbeat] == [Heartbeat];
      w := TriesRun(c, b, next, failed, [Heartbeat], w, n);
    } else {
      var init := Lives(next, failed, n, k - 1);
      w := BoundReached(c, b, next, failed, k - 1);
      Forget(c, b, init, w, n);
      w := Begin(c, b, init + [Land(0)] + [Crash]);
      w := TriesRun(c, b, next, failed, init + [Land(0)] + [Crash] + [Heartbeat], w, n);
    }
  }

  lemma NothingYet(c: Config, b: Batch)
    ensures At(c, [], Fresh(map[])) && Dispatches(c, map[], [], b.id) == 0 && Restarts([]) == 0
  {
  }

  // ----- All batches together -----

  function TotalPotential(queue: seq<Batch>, m: Batches): nat {
    if queue == [] then 0 else Potential(queue[0], m) + TotalPotential(queue[1..], m)
  }

  function TotalAllowance(queue: seq<Batch>): nat {
    if queue == [] then 0 else Allowance(queue[0]) + TotalAllowance(queue[1..])
  }

  /** 1 if the step hands out anything. */
  function HandsAny(c: Config, m: Batches, step: Step): nat {
    if step.Next? && NextPick(c.queue, c.cap, m, step.sawPaused).Some? then 1 else 0
  }

  function AllDispatches(c: Config, m0: Batches, steps: seq<Step>): nat
    decreases |steps|
  {
    if steps == [] then 0
    else AllDispatches(c, m0, Init(steps)) + HandsAny(c, Run(c, m0, Init(steps)).mem, Last(steps))
  }

  function HandsIn(c: Config, m: Batches, step: Step, part: seq<Batch>): nat {
    if part == [] then 0 else Hands(c, m, step, part[0].id) + HandsIn(c, m, step, part[1..])
  }

  lemma {:induction false} TotalSpent(c: Config, s: Sys, step: Step, part: seq<Batch>)
    requires UniqueIds(c.queue) && BehavedStep(s.mem, step) && !step.Crash?
    requires forall b :: b in part ==> b in c.queue
    ensures TotalPotential(part, Apply(c, s, step).mem) + HandsIn(c, s.mem, step, part) <= TotalPotential(part, s.mem)
    decreases |part|
  {
    hide Apply, Potential, Hands;
    if part != [] {
      PotentialSpent(c, s, step, part[0]);
      TotalSpent(c, s, step, part[1..]);
    }
  }

  lemma {:induction false} HandedOutIsCounted(c: Config, m: Batches, step: Step, part: seq<Batch>, b: Batch)
    requires b in part && Hands(c, m, step, b.id) == 1
    ensures HandsIn(c, m, step, part) >= 1
    decreases |part|
  {
    hide Hands;
    if part[0] != b { HandedOutIsCounted(c, m, step, part[1..], b); }
  }

  lemma AnyIsCounted(c: Config, m: Batches, step: Step)
    ensures HandsAny(c, m, step) <= HandsIn(c, m, step, c.queue)
  {
    if HandsAny(c, m, step) == 1 {
      PickIsBest(c.queue, m);
      HandedOutIsCounted(c, m, step, c.queue, NextPick(c.queue, c.cap, m, step.sawPaused).value);
    }
  }

  lemma {:induction false} PotentialAllowed(queue: seq<Batch>, m: Batches)
    ensures TotalPotential(queue, m) <= TotalAllowance(queue)
    decreases |queue|
  {
    if queue != [] { PotentialAllowed(queue[1..], m); }
  }

  /** The same for one incarnation: all its dispatches together use up what the whole queue may get. */
  lemma {:induction false} IncarnationTotal(c: Config, m0: Batches, before: seq<Step>, steps: seq<Step>)
    requires UniqueIds(c.queue) && Behaved(c, m0, before + steps) && CrashFree(steps)
    ensures var start := Run(c, m0, before).mem;
            var handed := AllDispatches(c, m0, before + steps) - AllDispatches(c, m0, before);
            handed + TotalPotential(c.queue, Run(c, m0, before + steps).mem) <= TotalPotential(c.queue, start)
              <= TotalAllowance(c.queue)
    decreases |steps|
  {
    hide Potential, Apply, TotalPotential, TotalAllowance;
    PotentialAllowed(c.queue, Run(c, m0, before).mem);
    if steps == [] {
      assert before + steps == before;
    } else {
      assert Init(before + steps) == before + Init(steps) && Last(before + steps) == Last(steps);
      IncarnationTotal(c, m0, before, Init(steps));
      var s := Run(c, m0, before + Init(steps));
      TotalSpent(c, s, Last(steps), c.queue);
      AnyIsCounted(c, s.mem, Last(steps));
    }
  }

  /** All dispatches of a run together are bounded by the queue's allowances, counted anew after each restart. */
  lemma {:induction false} AllDispatchesBounded(c: Config, steps: seq<Step>)
    requires UniqueIds(c.queue) && Behaved(c, map[], steps)
    ensures AllDispatches(c, map[], steps) + TotalPotential(c.queue, Run(c, map[], steps).mem)
         <= (Restarts(steps) + 1) * TotalAllowance(c.queue)
    decreases |steps|
  {
    hide Potential, Apply, TotalPotential, TotalAllowance;
    var s := Run(c, map[], steps);
    PotentialAllowed(c.queue, s.mem);
    if steps != [] {
      AllDispatchesBounded(c, Init(steps));
      var before := Run(c, map[], Init(steps));
      OnceMore(Restarts(Init(steps)) + 1, TotalAllowance(c.queue));
      if !Last(steps).Crash? {
        TotalSpent(c, before, Last(steps), c.queue);
        AnyIsCounted(c, before.mem, Last(steps));
      }
    }
  }
}

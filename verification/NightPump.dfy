/**
 The night-pump scheduler: it hands out queued batches to workers and records their reports.

 Times are abstract numbers. The parts of a batch and of a request that no decision reads (scope,
 upstream, commit, line counts) are left out.
 */
module NightPump {
  import opened Machine
  import opened Text

  datatype Batch = Batch(id: string, dependency: seq<string>, priority: U32, retryMax: U32)

  datatype Status = Queued | Dispatched | InProgress | Completed | Failed

  datatype BatchState = BatchState(
    status: Status,
    dispatchedAt: Option<int>,
    completedAt: Option<int>,
    retryCount: U32,
    workerId: Option<string>,
    lastError: Option<string>)

  const DEFAULT := BatchState(Queued, None, None, 0, None, None)

  type Batches = map<string, BatchState>

  function Entry(m: Batches, id: string): BatchState {
    if id in m then m[id] else DEFAULT
  }

  predicate DepsSatisfied(b: Batch, m: Batches) {
    forall i :: 0 <= i < |b.dependency| ==> b.dependency[i] in m && m[b.dependency[i]].status == Completed
  }

  predicate Flying(s: BatchState) {
    s.status == Dispatched || s.status == InProgress
  }

  function InFlight(m: Batches): nat {
    |set id | id in m && Flying(m[id])|
  }

  predicate IsDispatchable(b: Batch, m: Batches) {
    && (b.id in m ==>
          match m[b.id].status
          case Queued => true
          case Failed => m[b.id].retryCount < b.retryMax
          case _ => false)
    && DepsSatisfied(b, m)
  }

  // ----- The order in which candidates are sorted -----

  predicate LexLe(a: string, b: string) {
    a == "" || (b != "" && (a[0] < b[0] || (a[0] == b[0] && LexLe(a[1..], b[1..]))))
  }

  /** Higher priority first, then smaller id. */
  predicate Precedes(a: Batch, b: Batch) {
    a.priority > b.priority || (a.priority == b.priority && LexLe(a.id, b.id))
  }

  lemma {:induction false} LexOrder(a: string, b: string, c: string)
    ensures LexLe(a, b) || LexLe(b, a)
    ensures LexLe(a, b) && LexLe(b, c) ==> LexLe(a, c)
    ensures LexLe(a, b) && LexLe(b, a) ==> a == b
    decreases |a|
  {
    if a != "" && b != "" {
      LexOrder(a[1..], b[1..], if c == "" then "" else c[1..]);
      assert a == [a[0]] + a[1..] && b == [b[0]] + b[1..];
    }
  }

  lemma PrecedesOrder(a: Batch, b: Batch, c: Batch)
    ensures Precedes(a, a)
    ensures Precedes(a, b) || Precedes(b, a)
    ensures Precedes(a, b) && Precedes(b, c) ==> Precedes(a, c)
  {
    LexOrder(a.id, a.id, a.id);
    LexOrder(a.id, b.id, c.id);
  }

  /** The first dispatchable batch of the queue after a stable sort by `Precedes`. */
  function Pick(queue: seq<Batch>, m: Batches): Option<Batch>
    decreases |queue|
  {
    if queue == [] then None
    else
      var last := queue[|queue| - 1];
      var best := Pick(queue[..|queue| - 1], m);
      if IsDispatchable(last, m) && (best.None? || !Precedes(best.value, last)) then Some(last) else best
  }

  lemma {:induction false} PickIsBest(queue: seq<Batch>, m: Batches)
    ensures Pick(queue, m).None? <==> forall b :: b in queue ==> !IsDispatchable(b, m)
    ensures Pick(queue, m).Some? ==>
              var p := Pick(queue, m).value;
              p in queue && IsDispatchable(p, m) && forall b :: b in queue && IsDispatchable(b, m) ==> Precedes(p, b)
    decreases |queue|
  {
    if queue != [] {
      var init, last := queue[..|queue| - 1], queue[|queue| - 1];
      assert queue == init + [last];
      PickIsBest(init, m);
      var best := Pick(init, m);
      hide IsDispatchable, Precedes;
      forall b | b in queue && Pick(queue, m).Some? && IsDispatchable(b, m)
        ensures Precedes(Pick(queue, m).value, b)
      {
        var p := Pick(queue, m).value;
        PrecedesOrder(p, p, p);
        if best.Some? {
          PrecedesOrder(last, best.value, b);
          PrecedesOrder(best.value, last, b);
        }
      }
    }
  }

  // ----- What the handlers do to the recorded state -----

  function Dispatch(s: BatchState, worker: string, now: int): BatchState {
    s.(status := Dispatched, dispatchedAt := Some(now), workerId := Some(worker), lastError := None)
  }

  /** The batch handed out, given the value of the pause flag that the request saw. */
  function NextPick(queue: seq<Batch>, cap: nat, m: Batches, paused: bool): Option<Batch> {
    if paused || InFlight(m) >= cap then None else Pick(queue, m)
  }

  function AfterNext(queue: seq<Batch>, cap: nat, m: Batches, paused: bool, worker: string, now: int): Batches {
    match NextPick(queue, cap, m, paused)
    case None => m
    case Some(b) => m[b.id := Dispatch(Entry(m, b.id), worker, now)]
  }

  /** A batch is handed out exactly when dispatch is not paused, a slot is free and something is dispatchable. */
  lemma NextExactly(queue: seq<Batch>, cap: nat, m: Batches, paused: bool, worker: string, now: int)
    ensures var p := NextPick(queue, cap, m, paused);
            && var flying := set id | id in m && (m[id].status == Dispatched || m[id].status == InProgress);
            && (p.Some? <==> !paused && |flying| < cap && exists b :: b in queue && IsDispatchable(b, m))
            && var m' := AfterNext(queue, cap, m, paused, worker, now);
            && (p.None? ==> m' == m)
            && (p.Some? ==> m'.Keys == m.Keys + {p.value.id}
                            && m'[p.value.id] == BatchState(Dispatched, Some(now), Entry(m, p.value.id).completedAt,
                                                            Entry(m, p.value.id).retryCount, Some(worker), None)
                            && forall id :: id in m && id != p.value.id ==> m'[id] == m[id])
  {
    PickIsBest(queue, m);
    hide Pick, IsDispatchable;
    var flying := set id | id in m && (m[id].status == Dispatched || m[id].status == InProgress);
    assert flying == set id | id in m && Flying(m[id]);
  }

  /** `a` comes first in the dictionary: it is the other id, or where they first differ it ends or is smaller. */
  ghost predicate ComesFirst(a: string, b: string) {
    || a == b
    || (|a| < |b| && b[..|a|] == a)
    || exists k :: 0 <= k < |a| && k < |b| && a[..k] == b[..k] && a[k] < b[k]
  }

  lemma {:induction false} FirstInDictionary(a: string, b: string)
    requires LexLe(a, b)
    ensures ComesFirst(a, b)
  {
    if a != "" && a[0] < b[0] {
      assert a[..0] == b[..0];
    } else if a != "" {
      FirstInDictionary(a[1..], b[1..]);
      assert a == [a[0]] + a[1..] && b == [b[0]] + b[1..];
      if k :| 0 <= k < |a[1..]| && k < |b[1..]| && a[1..][..k] == b[1..][..k] && a[1..][k] < b[1..][k] {
        assert a[..k + 1] == [a[0]] + a[1..][..k] && b[..k + 1] == [b[0]] + b[1..][..k];
        assert a[k + 1] < b[k + 1];
      } else if a[1..] != b[1..] {
        assert b[..|a|] == [b[0]] + b[1..][..|a[1..]|];
      }
    }
  }

  /** What is handed out has the highest priority of all that could be, and among those the first id. */
  lemma NextIsHighest(queue: seq<Batch>, cap: nat, m: Batches, paused: bool, b: Batch)
    requires NextPick(queue, cap, m, paused).Some? && b in queue && IsDispatchable(b, m)
    ensures var p := NextPick(queue, cap, m, paused).value;
            && p in queue && IsDispatchable(p, m)
            && b.priority <= p.priority && (b.priority == p.priority ==> ComesFirst(p.id, b.id))
  {
    PickIsBest(queue, m);
    hide Pick, IsDispatchable, InFlight, ComesFirst;
    var p := NextPick(queue, cap, m, paused).value;
    if LexLe(p.id, b.id) { FirstInDictionary(p.id, b.id); }
  }

  predicate ValidStatus(status: string) {
    status == "completed" || status == "failed"
  }

  function Reported(s: BatchState, status: string, error: Option<string>, now: int): BatchState {
    if status == "completed" then s.(status := Completed, completedAt := Some(now), lastError := None)
    else if status == "failed" then
      s.(status := Failed, completedAt := Some(now), lastError := error,
         retryCount := if s.retryCount == U32_MAX then U32_MAX else s.retryCount + 1)
    else s
  }

  /** A report creates the entry of an unknown id, also when its status turns out to be invalid. */
  function AfterReport(m: Batches, id: string, status: string, error: Option<string>, now: int): Batches {
    m[id := Reported(Entry(m, id), status, error, now)]
  }

  // ----- The handlers -----

  class AppState {
    const queue: seq<Batch>
    const maxParallel: nat
    var batches: Batches
    var dispatchPaused: bool

    constructor (queue: seq<Batch>, batches: Batches, maxParallel: nat)
      ensures this.queue == queue && this.batches == batches && this.maxParallel == maxParallel && !dispatchPaused
    {
      this.queue := queue;
      this.batches := batches;
      this.maxParallel := maxParallel;
      dispatchPaused := false;
    }

    /** `snapshot` is what is handed to the file writer after the lock is released. */
    method NextBatch(worker: string, now: int) returns (picked: Option<Batch>, snapshot: Option<Batches>)
      modifies this`batches
      ensures picked == NextPick(queue, maxParallel, old(batches), dispatchPaused)
      ensures batches == AfterNext(queue, maxParallel, old(batches), dispatchPaused, worker, now)
      ensures snapshot == if picked.None? then None else Some(batches)
    {
      picked, snapshot := None, None;
      if dispatchPaused {
        return;
      }
      if InFlight(batches) >= maxParallel {
        return;
      }
      for i := 0 to |queue|
        invariant picked == Pick(queue[..i], batches)
      {
        assert queue[..i + 1][..i] == queue[..i];
        if IsDispatchable(queue[i], batches) && (picked.None? || !Precedes(picked.value, queue[i])) {
          picked := Some(queue[i]);
        }
      }
      assert queue[..|queue|] == queue;
      if picked.Some? {
        var id := picked.value.id;
        batches := batches[id := Dispatch(Entry(batches, id), worker, now)];
        snapshot := Some(batches);
      }
    }

    method BatchComplete(id: string, status: string, error: Option<string>, now: int)
      returns (ok: bool, snapshot: Option<Batches>)
      modifies this`batches
      ensures ok == ValidStatus(status)
      ensures batches == AfterReport(old(batches), id, status, error, now)
      ensures snapshot == if ok then Some(batches) else None
    {
      batches := batches[id := Entry(batches, id)];
      var entry := batches[id];
      if status == "completed" {
        entry := entry.(status := Completed, completedAt := Some(now), lastError := None);
      } else if status == "failed" {
        var retries := if entry.retryCount == U32_MAX then U32_MAX else entry.retryCount + 1;
        entry := entry.(status := Failed, completedAt := Some(now), retryCount := retries, lastError := error);
      } else {
        return false, None;
      }
      batches := batches[id := entry];
      return true, Some(batches);
    }
  }
}

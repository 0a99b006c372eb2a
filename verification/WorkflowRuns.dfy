/**
 Whole runs of a workflow: operations in any order, checkpoints taken at any time, and restarts from
 checkpoints the workflow took itself.
 */
module WorkflowRuns {
  import opened Text
  import opened Workflow

  /** The number of steps done: the index of the first step that is not, or the number of steps. */
  function Cursor(d: Data): (k: nat)
    ensures k <= |d.steps|
  {
    match NextPending(d) case None => |d.steps| case Some(i) => i
  }

  predicate IsFresh(s: Step) {
    s.status == Pending && s.output == None && s.attempts == 0
  }

  /** What the status of the current step says about its attempts. */
  predicate CurrentOk(s: Step, maxRetries: nat) {
    match s.status
    case Pending => s.attempts <= maxRetries
    case Running => s.attempts >= 1
    case Stuck(_) => s.attempts > maxRetries
    case _ => false
  }

  /** Done steps, then at most one step that was tried, then untouched steps. */
  ghost predicate Good(d: Data) {
    var k := Cursor(d);
    && (k < |d.steps| ==> CurrentOk(d.steps[k], d.maxRetries))
    && forall i :: k < i < |d.steps| ==> IsFresh(d.steps[i])
  }

  lemma CursorIs(d: Data, k: nat)
    requires k <= |d.steps| && (forall i :: 0 <= i < k ==> d.steps[i].status == Done)
    requires k < |d.steps| ==> d.steps[k].status != Done
    ensures Cursor(d) == k
  {
  }

  lemma PrefixDone(d: Data)
    ensures forall i :: 0 <= i < Cursor(d) ==> d.steps[i].status == Done
    ensures Cursor(d) < |d.steps| ==> d.steps[Cursor(d)].status != Done
  {
  }

  /** Replacing the current step of a good workflow. */
  lemma CurrentReplaced(d: Data, s: Step, d': Data)
    requires Good(d) && Cursor(d) < |d.steps| && (s.status == Done || CurrentOk(s, d.maxRetries))
    requires d'.steps == d.steps[Cursor(d) := s] && d'.maxRetries == d.maxRetries
    ensures Good(d') && Cursor(d') == if s.status == Done then Cursor(d) + 1 else Cursor(d)
    ensures d'.steps[..Cursor(d)] == d.steps[..Cursor(d)]
  {
    var k := Cursor(d);
    PrefixDone(d);
    hide NextPending;
    assert forall i :: 0 <= i < |d.steps| && i != k ==> d'.steps[i] == d.steps[i];
    CursorIs(d', if s.status == Done then k + 1 else k);
  }

  /** Only the current step of a good workflow can be running or stuck. */
  lemma OnlyCurrent(d: Data)
    requires Good(d)
    ensures RunningStep(d).Some? ==> RunningStep(d).value == Cursor(d)
    ensures StuckStep(d).Some? ==> StuckStep(d).value == Cursor(d)
    ensures Cursor(d) < |d.steps| && d.steps[Cursor(d)].status == Running ==> RunningStep(d).Some?
  {
    PrefixDone(d);
    hide NextPending;
  }

  // ----- Runs -----

  datatype Event =
    | StartEvent
    | FinishEvent(output: Option<string>)
    | FailEvent(reason: string)
    | UnstickEvent
    | SaveEvent
    | ResumeEvent(k: nat)

  /** The live workflow and the checkpoints it may be resumed from. */
  datatype Sys = Sys(wf: Data, saved: seq<Checkpoint>)

  function Outcome(d: Data, e: Event): Result<Data, Error>
    requires !e.SaveEvent? && !e.ResumeEvent?
  {
    match e
    case StartEvent => Start(d)
    case FinishEvent(output) => Finish(d, output)
    case FailEvent(reason) => Fail(d, reason)
    case UnstickEvent => Unstick(d)
  }

  function Apply(s: Sys, e: Event): Sys {
    match e
    case SaveEvent => s.(saved := s.saved + [Capture(s.wf)])
    case ResumeEvent(k) => if k < |s.saved| then s.(wf := After(s.wf, Restore(s.wf, s.saved[k]))) else s
    case _ => s.(wf := After(s.wf, Outcome(s.wf, e)))
  }

  function Run(s: Sys, events: seq<Event>): Sys
    decreases |events|
  {
    if events == [] then s else Apply(Run(s, events[..|events| - 1]), events[|events| - 1])
  }

  /** `d` is a good state of the workflow that continues `base`: what was done there is done and unchanged. */
  ghost predicate Continues(base: Data, d: Data) {
    && Good(d) && d.id == base.id && d.maxRetries == base.maxRetries && |d.steps| == |base.steps|
    && Cursor(base) <= Cursor(d) && d.steps[..Cursor(base)] == base.steps[..Cursor(base)]
  }

  ghost predicate AllContinue(base: Data, s: Sys) {
    && Continues(base, s.wf)
    && forall k :: 0 <= k < |s.saved| ==> s.saved[k].workflowId == base.id && Continues(base, s.saved[k].data)
  }

  lemma OutcomeContinues(base: Data, d: Data, e: Event)
    requires Continues(base, d) && !e.SaveEvent? && !e.ResumeEvent?
    ensures Continues(base, After(d, Outcome(d, e)))
    ensures e.StartEvent? && Start(d).Ok? ==> NextPending(d).value >= Cursor(base)
  {
    var r := Outcome(d, e);
    if r.Ok? {
      var k := Cursor(d);
      OnlyCurrent(d);
      PrefixDone(d);
      hide NextPending, RunningStep, StuckStep;
      CurrentReplaced(d, r.value.steps[k], r.value);
      var n := Cursor(base);
      assert r.value.steps[..n] == r.value.steps[..k][..n] == d.steps[..k][..n] == d.steps[..n];
    }
  }

  /**
   A run that is resumed only from `base` or from checkpoints taken after it keeps every state good, and never
   undoes or restarts a step that is done in `base`.
   */
  lemma {:induction false} RunContinues(base: Data, saved: seq<Checkpoint>, events: seq<Event>)
    requires AllContinue(base, Sys(base, saved))
    ensures AllContinue(base, Run(Sys(base, saved), events))
    decreases |events|
  {
    if events != [] {
      var init, last := events[..|events| - 1], events[|events| - 1];
      RunContinues(base, saved, init);
      var s := Run(Sys(base, saved), init);
      hide Continues;
      if !last.SaveEvent? && !last.ResumeEvent? {
        OutcomeContinues(base, s.wf, last);
      } else {
        SameId(base, s.wf);
      }
    }
  }

  lemma SameId(base: Data, d: Data)
    requires Continues(base, d)
    ensures d.id == base.id
  {
  }

  lemma FreshIsGood(id: string, names: seq<string>, maxRetries: nat)
    ensures var d := FreshWorkflow(id, names, maxRetries);
            Good(d) && Continues(d, d) && (names != [] ==> Cursor(d) == 0)
  {
    var d := FreshWorkflow(id, names, maxRetries);
    CursorIs(d, 0);
  }

  function FreshWorkflow(id: string, names: seq<string>, maxRetries: nat): Data {
    Data(id, seq(|names|, i requires 0 <= i < |names| => FreshStep(names[i])), 0, maxRetries)
  }

  /** Every state of every run from a fresh workflow is good, and so is every checkpoint it took. */
  lemma EveryRunIsGood(id: string, names: seq<string>, maxRetries: nat, events: seq<Event>)
    ensures var s := Run(Sys(FreshWorkflow(id, names, maxRetries), []), events);
            && Good(s.wf) && s.wf.maxRetries == maxRetries
            && forall k :: 0 <= k < |s.saved| ==>
                 Good(s.saved[k].data) && Restore(s.wf, s.saved[k]) == Ok(s.saved[k].data)
  {
    hide Run, FreshWorkflow, Good, Cursor;
    FreshIsGood(id, names, maxRetries);
    RunContinues(FreshWorkflow(id, names, maxRetries), [], events);
    FreshRetries(id, names, maxRetries);
  }

  lemma FreshRetries(id: string, names: seq<string>, maxRetries: nat)
    ensures FreshWorkflow(id, names, maxRetries).maxRetries == maxRetries
  {
  }

  /** After resuming from a checkpoint, every step started is one that was not done in that checkpoint. */
  lemma NoDoneStepRestarted(ck: Checkpoint, events: seq<Event>)
    requires Good(ck.data) && ck.workflowId == ck.data.id
    ensures var d := Run(Sys(ck.data, [ck]), events).wf;
            && (Start(d).Ok? ==> NextPending(d).value >= Cursor(ck.data))
            && forall i :: 0 <= i < Cursor(ck.data) ==> i < |d.steps| && d.steps[i] == ck.data.steps[i]
  {
    hide Run;
    RunContinues(ck.data, [ck], events);
    var d := Run(Sys(ck.data, [ck]), events).wf;
    OutcomeContinues(ck.data, d, StartEvent);
    var n := Cursor(ck.data);
    forall i | 0 <= i < n ensures d.steps[i] == ck.data.steps[i] { assert d.steps[..n][i] == ck.data.steps[..n][i]; }
  }

  // ----- Revisions -----

  function Commits(s: Sys, events: seq<Event>): nat
    decreases |events|
  {
    if events == [] then 0
    else
      var init, last := events[..|events| - 1], events[|events| - 1];
      Commits(s, init)
      + if !last.SaveEvent? && !last.ResumeEvent? && !last.StartEvent? && Outcome(Run(s, init).wf, last).Ok?
        then 1 else 0
  }

  /** Between restarts the revision counts the successful finish, fail and unstick calls. */
  lemma {:induction false} RevisionCounts(s: Sys, events: seq<Event>)
    requires forall i :: 0 <= i < |events| ==> !events[i].ResumeEvent?
    ensures Run(s, events).wf.revision == s.wf.revision + Commits(s, events)
    decreases |events|
  {
    if events != [] { RevisionCounts(s, events[..|events| - 1]); }
  }

  /** A workflow that was never resumed has as its revision the number of its commits. */
  lemma FreshRevision(id: string, names: seq<string>, maxRetries: nat, events: seq<Event>)
    requires forall i :: 0 <= i < |events| ==> !events[i].ResumeEvent?
    ensures var s := Sys(FreshWorkflow(id, names, maxRetries), []); Run(s, events).wf.revision == Commits(s, events)
  {
    RevisionCounts(Sys(FreshWorkflow(id, names, maxRetries), []), events);
  }

  // ----- What an event does -----

  /** What an event makes of the current step, if it is not refused. */
  function NewStep(s: Step, e: Event, maxRetries: nat): Step {
    match e
    case StartEvent => Step(s.name, Running, s.output, s.attempts + 1)
    case FinishEvent(output) =>
      if s.status != Running then s
      else Step(s.name, Done, if output.Some? then Some(Produced(output.value)) else None, s.attempts)
    case FailEvent(reason) =>
      if s.status != Running then s
      else if s.attempts <= maxRetries then Step(s.name, Pending, Some(AttemptFailed(s.attempts, reason)), s.attempts)
      else Step(s.name, Stuck(reason), s.output, s.attempts)
    case UnstickEvent => if s.status.Stuck? then Step(s.name, Pending, s.output, 0) else s
    case _ => s
  }

  /** In a good workflow every event acts on the current step alone, whichever step the operation looks for. */
  lemma EventExactly(d: Data, e: Event)
    requires Good(d) && !e.SaveEvent? && !e.ResumeEvent?
    ensures var d', k := After(d, Outcome(d, e)), Cursor(d);
            if k == |d.steps| then d' == d
            else d'.steps == d.steps[k := NewStep(d.steps[k], e, d.maxRetries)] && d'.id == d.id
  {
    OnlyCurrent(d);
    PrefixDone(d);
    var k := Cursor(d);
    if k < |d.steps| {
      assert NextPending(d) == Some(k);
      assert d.steps[k].status.Stuck? ==> StuckStep(d).Some?;
      assert d.steps == d.steps[k := d.steps[k]];
    }
    hide NextPending, RunningStep, StuckStep;
  }

  lemma {:induction false} SavedStays(s: Sys, events: seq<Event>)
    ensures s.saved <= Run(s, events).saved
    decreases |events|
  {
    if events != [] { SavedStays(s, events[..|events| - 1]); }
  }

  lemma {:induction false} RunAppend(s: Sys, a: seq<Event>, b: seq<Event>)
    ensures Run(s, a + b) == Run(Run(s, a), b)
    decreases |b|
  {
    hide Apply;
    if b == [] {
      assert a + b == a;
    } else {
      assert (a + b)[..|a + b| - 1] == a + b[..|b| - 1];
      RunAppend(s, a, b[..|b| - 1]);
    }
  }

  /** Whatever happens after a checkpoint was taken, resuming from it brings back the workflow as it was then. */
  lemma ResumeRestores(id: string, names: seq<string>, maxRetries: nat, events: seq<Event>, more: seq<Event>)
    ensures var s := Run(Sys(FreshWorkflow(id, names, maxRetries), []), events);
            var later := Run(Apply(s, SaveEvent), more);
            Apply(later, ResumeEvent(|s.saved|)).wf == s.wf
  {
    var s0 := Sys(FreshWorkflow(id, names, maxRetries), []);
    var s := Run(s0, events);
    var saving := Apply(s, SaveEvent);
    SavedStays(saving, more);
    hide FreshWorkflow;
    IdKept(id, names, maxRetries, events);
    RunSnoc(s0, events, SaveEvent);
    RunAppend(s0, events + [SaveEvent], more);
    IdKept(id, names, maxRetries, events + [SaveEvent] + more);
    hide Run;
    assert Run(saving, more).saved[|s.saved|] == saving.saved[|s.saved|] == Capture(s.wf);
  }

  lemma RunSnoc(s: Sys, events: seq<Event>, e: Event)
    ensures Run(s, events + [e]) == Apply(Run(s, events), e)
  {
    assert (events + [e])[..|events|] == events;
  }

  lemma IdKept(id: string, names: seq<string>, maxRetries: nat, events: seq<Event>)
    ensures Run(Sys(FreshWorkflow(id, names, maxRetries), []), events).wf.id == id
  {
    FreshIsGood(id, names, maxRetries);
    RunContinues(FreshWorkflow(id, names, maxRetries), [], events);
    hide Run, Good, Cursor;
  }

  // ----- A driver that retries until it is done or stuck -----

  /** Nothing is running: the workflow is between two attempts. */
  ghost predicate Quiet(d: Data) {
    Good(d) && (Cursor(d) < |d.steps| ==> d.steps[Cursor(d)].status != Running)
  }

  predicate AtStuck(d: Data) {
    Cursor(d) < |d.steps| && d.steps[Cursor(d)].status.Stuck?
  }

  predicate Finished(d: Data) {
    IsComplete(d) || AtStuck(d)
  }

  /** One attempt: start the current step, then finish or fail it. */
  function Attempt(d: Data, success: bool): Data {
    var started := After(d, Start(d));
    After(started, if success then Finish(started, None) else Fail(started, ""))
  }

  /** The driver's state after the given outcomes, and the number of starts it needed. */
  function Drive(d: Data, outcomes: seq<bool>): Data
    decreases |outcomes|
  {
    if outcomes == [] || Finished(d) then d else Drive(Attempt(d, outcomes[0]), outcomes[1..])
  }

  function Starts(d: Data, outcomes: seq<bool>): nat
    decreases |outcomes|
  {
    if outcomes == [] || Finished(d) then 0 else 1 + Starts(Attempt(d, outcomes[0]), outcomes[1..])
  }

  /** The starts a quiet workflow may still need. */
  function Remaining(d: Data): nat {
    var k := Cursor(d);
    if k == |d.steps| then 0
    else
      (if d.steps[k].status == Pending && d.steps[k].attempts <= d.maxRetries
       then d.maxRetries + 1 - d.steps[k].attempts else 0)
      + Budget(|d.steps| - k - 1, d.maxRetries + 1)
  }

  /** `n` steps with `r` starts each. */
  function Budget(n: nat, r: nat): nat {
    if n == 0 then 0 else r + Budget(n - 1, r)
  }

  lemma {:induction false} BudgetIsProduct(n: nat, r: nat)
    ensures Budget(n, r) == n * r
  {
    if n > 0 {
      BudgetIsProduct(n - 1, r);
      assert n * r == r + (n - 1) * r;
    }
  }

  lemma CurrentPending(d: Data)
    requires Quiet(d) && !Finished(d)
    ensures Cursor(d) < |d.steps| && d.steps[Cursor(d)].status == Pending && d.steps[Cursor(d)].attempts <= d.maxRetries
    ensures NextPending(d) == Some(Cursor(d))
  {
  }

  lemma AttemptSpends(d: Data, success: bool)
    requires Quiet(d) && !Finished(d)
    ensures var d' := Attempt(d, success);
            Quiet(d') && |d'.steps| == |d.steps| && d'.maxRetries == d.maxRetries && Remaining(d') < Remaining(d)
  {
    CurrentPending(d);
    var k := Cursor(d);
    var s := d.steps[k];
    var started := Start(d).value;
    hide NextPending;
    CurrentReplaced(d, started.steps[k], started);
    OnlyCurrent(started);
    hide RunningStep;
    var d' := Attempt(d, success);
    CurrentReplaced(started, d'.steps[k], d');
    assert started.steps[k] == s.(status := Running, attempts := s.attempts + 1);
    if success && k + 1 < |d.steps| { assert d'.steps[k + 1] == d.steps[k + 1]; }
  }

  /** Starts are bounded by what remains; with that many outcomes the driver ends complete or stuck. */
  lemma {:induction false} DriverEnds(d: Data, outcomes: seq<bool>)
    requires Quiet(d)
    ensures Starts(d, outcomes) <= Remaining(d)
    ensures |outcomes| >= Remaining(d) ==> Finished(Drive(d, outcomes))
    decreases |outcomes|
  {
    hide Attempt, Cursor, Finished, Quiet, Remaining;
    if Finished(d) {
    } else if outcomes == [] {
      NotFinishedRemains(d);
    } else {
      AttemptSpends(d, outcomes[0]);
      DriverEnds(Attempt(d, outcomes[0]), outcomes[1..]);
    }
  }

  lemma NotFinishedRemains(d: Data)
    requires Quiet(d) && !Finished(d)
    ensures Remaining(d) > 0
  {
  }

  /** From a fresh workflow: at most steps × (max_retries + 1) starts. */
  lemma DriverBound(id: string, names: seq<string>, maxRetries: nat, outcomes: seq<bool>)
    ensures var d := FreshWorkflow(id, names, maxRetries);
            && Starts(d, outcomes) <= |names| * (maxRetries + 1)
            && (|outcomes| >= |names| * (maxRetries + 1) ==> Finished(Drive(d, outcomes)))
  {
    FreshRemaining(id, names, maxRetries);
    hide Starts, Drive, Finished, FreshWorkflow, Remaining, Quiet;
    DriverEnds(FreshWorkflow(id, names, maxRetries), outcomes);
  }

  lemma FreshRemaining(id: string, names: seq<string>, maxRetries: nat)
    ensures var d := FreshWorkflow(id, names, maxRetries); Quiet(d) && Remaining(d) == |names| * (maxRetries + 1)
  {
    FreshIsGood(id, names, maxRetries);
    BudgetIsProduct(|names|, maxRetries + 1);
  }

  // ----- The driver, outcome by outcome -----

  /** A count kept beside the driver: steps done, failures of the current step, outcomes used. */
  datatype Score = Score(done: nat, fails: nat, used: nat)

  /** A success finishes a step. */
  function Counted(score: Score, success: bool): Score {
    if success then Score(score.done + 1, 0, score.used + 1) else Score(score.done, score.fails + 1, score.used + 1)
  }

  /** A step is given up after more than `r` failures. */
  function Play(n: nat, r: nat, score: Score, outcomes: seq<bool>): Score
    decreases |outcomes|
  {
    if outcomes == [] || score.done == n || score.fails > r then score
    else Play(n, r, Counted(score, outcomes[0]), outcomes[1..])
  }

  /** The workflow is where the count says. */
  ghost predicate Shows(d: Data, score: Score) {
    && Quiet(d) && Cursor(d) == score.done
    && (score.done < |d.steps| ==>
          var s := d.steps[score.done];
          s.attempts == score.fails && (s.status.Stuck? <==> score.fails > d.maxRetries))
    && (score.done == |d.steps| ==> score.fails == 0)
  }

  lemma AttemptShows(d: Data, score: Score, success: bool)
    requires Shows(d, score) && !Finished(d)
    ensures Shows(Attempt(d, success), Counted(score, success))
  {
    AttemptSpends(d, success);
    CurrentPending(d);
    var k := Cursor(d);
    var started := Start(d).value;
    hide NextPending;
    CurrentReplaced(d, started.steps[k], started);
    OnlyCurrent(started);
    hide RunningStep;
    var d' := Attempt(d, success);
    CurrentReplaced(started, d'.steps[k], d');
    if success && k + 1 < |d.steps| { assert d'.steps[k + 1] == d.steps[k + 1] && IsFresh(d.steps[k + 1]); }
  }

  /** The driver is where the count says after any outcomes, and uses as many starts. */
  lemma {:induction false} DriverShows(d: Data, score: Score, outcomes: seq<bool>)
    requires Shows(d, score)
    ensures var end := Play(|d.steps|, d.maxRetries, score, outcomes);
            Shows(Drive(d, outcomes), end) && Starts(d, outcomes) == end.used - score.used
    decreases |outcomes|
  {
    hide Shows, Finished, Attempt;
    ScoreFinished(d, score);
    if outcomes != [] && !Finished(d) {
      AttemptShows(d, score, outcomes[0]);
      AttemptKeeps(d, score, outcomes[0]);
      DriverShows(Attempt(d, outcomes[0]), Counted(score, outcomes[0]), outcomes[1..]);
    }
  }

  lemma AttemptKeeps(d: Data, score: Score, success: bool)
    requires Shows(d, score) && !Finished(d)
    ensures |Attempt(d, success).steps| == |d.steps| && Attempt(d, success).maxRetries == d.maxRetries
  {
    hide Attempt;
    AttemptSpends(d, success);
  }

  lemma ScoreFinished(d: Data, score: Score)
    requires Shows(d, score)
    ensures Finished(d) <==> score.done == |d.steps| || score.fails > d.maxRetries
  {
  }

  /**
   A driver of a fresh workflow: after any outcomes it is complete exactly when every step had its success, stuck
   exactly when a step failed more than `max_retries` times in a row, and has made one start for each outcome used.
   */
  lemma DriverExactly(id: string, names: seq<string>, maxRetries: nat, outcomes: seq<bool>)
    ensures var d := FreshWorkflow(id, names, maxRetries);
            var end := Play(|names|, maxRetries, Score(0, 0, 0), outcomes);
            && Starts(d, outcomes) == end.used
            && (IsComplete(Drive(d, outcomes)) <==> end.done == |names|)
            && (AtStuck(Drive(d, outcomes)) <==> end.fails > maxRetries)
  {
    var d := FreshWorkflow(id, names, maxRetries);
    FreshRemaining(id, names, maxRetries);
    FreshIsGood(id, names, maxRetries);
    assert Shows(d, Score(0, 0, 0)) by { if names == [] { CursorIs(d, 0); } }
    DriverShows(d, Score(0, 0, 0), outcomes);
    DriveKeeps(d, outcomes);
    hide Drive, Starts, Play, FreshWorkflow;
  }

  lemma {:induction false} DriveKeeps(d: Data, outcomes: seq<bool>)
    requires Quiet(d)
    ensures |Drive(d, outcomes).steps| == |d.steps| && Drive(d, outcomes).maxRetries == d.maxRetries
    decreases |outcomes|
  {
    hide Attempt, Quiet, Finished;
    if outcomes != [] && !Finished(d) {
      AttemptSpends(d, outcomes[0]);
      DriveKeeps(Attempt(d, outcomes[0]), outcomes[1..]);
    }
  }
}

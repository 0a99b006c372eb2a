/**
 The checkpointed workflow of cave-hermes: an ordered list of steps, retried and resumed.
 */
module Workflow {
  import opened Text

  datatype Status = Pending | Running | Done | Failed(why: string) | Stuck(reason: string)

  /** The text a step carries: what it produced, or a note about its last failed attempt. */
  datatype Output = Produced(text: string) | AttemptFailed(attempt: nat, reason: string)

  datatype Step = Step(name: string, status: Status, output: Option<Output>, attempts: nat)

  datatype Data = Data(id: string, steps: seq<Step>, revision: nat, maxRetries: nat)

  datatype Checkpoint = Checkpoint(workflowId: string, revision: nat, data: Data)

  datatype Error = CheckpointMissing(what: string)

  function FreshStep(name: string): Step {
    Step(name, Pending, None, 0)
  }

  /** Index of the first step with property `p`. */
  function Position(steps: seq<Step>, p: Step -> bool): (r: Option<nat>)
    ensures r.Some? ==> r.value < |steps| && p(steps[r.value]) && forall i :: 0 <= i < r.value ==> !p(steps[i])
    ensures r.None? ==> forall i :: 0 <= i < |steps| ==> !p(steps[i])
  {
    if steps == [] then None
    else if p(steps[0]) then Some(0)
    else
      match Position(steps[1..], p)
      case None =>
        assert forall i :: 1 <= i < |steps| ==> steps[i] == steps[1..][i - 1];
        None
      case Some(k) =>
        assert forall i :: 1 <= i < |steps| ==> steps[i] == steps[1..][i - 1];
        Some(k + 1)
  }

  function NextPending(d: Data): Option<nat> {
    Position(d.steps, (s: Step) => s.status != Done)
  }

  function RunningStep(d: Data): Option<nat> {
    Position(d.steps, (s: Step) => s.status == Running)
  }

  function StuckStep(d: Data): Option<nat> {
    Position(d.steps, (s: Step) => s.status.Stuck?)
  }

  predicate IsComplete(d: Data) {
    NextPending(d).None?
  }

  // ----- What each operation makes of the workflow -----

  function Start(d: Data): Result<Data, Error> {
    match NextPending(d)
    case None => Err(CheckpointMissing("no pending step"))
    case Some(i) => Ok(d.(steps := d.steps[i := d.steps[i].(status := Running, attempts := d.steps[i].attempts + 1)]))
  }

  function Finish(d: Data, output: Option<string>): Result<Data, Error> {
    match RunningStep(d)
    case None => Err(CheckpointMissing("no running step"))
    case Some(i) =>
      var text := match output case None => None case Some(t) => Some(Produced(t));
      Ok(d.(steps := d.steps[i := d.steps[i].(status := Done, output := text)], revision := d.revision + 1))
  }

  function Fail(d: Data, reason: string): Result<Data, Error> {
    match RunningStep(d)
    case None => Err(CheckpointMissing("no running step"))
    case Some(i) =>
      var s := d.steps[i];
      var s' := if s.attempts > d.maxRetries then s.(status := Stuck(reason))
                else s.(status := Pending, output := Some(AttemptFailed(s.attempts, reason)));
      Ok(d.(steps := d.steps[i := s'], revision := d.revision + 1))
  }

  function Unstick(d: Data): Result<Data, Error> {
    match StuckStep(d)
    case None => Err(CheckpointMissing("no stuck step"))
    case Some(i) =>
      Ok(d.(steps := d.steps[i := d.steps[i].(status := Pending, attempts := 0)], revision := d.revision + 1))
  }

  function Restore(d: Data, ck: Checkpoint): Result<Data, Error> {
    if ck.workflowId != d.id then Err(CheckpointMissing("checkpoint id mismatch")) else Ok(ck.data)
  }

  function Capture(d: Data): Checkpoint {
    Checkpoint(d.id, d.revision, d)
  }

  // ----- The workflow object -----

  /** The state after an operation: the new one, or the old one when the operation is refused. */
  function After(d: Data, r: Result<Data, Error>): Data {
    if r.Ok? then r.value else d
  }

  /** The error of an operation that is refused. */
  function Refusal(r: Result<Data, Error>): Option<Error> {
    if r.Ok? then None else Some(r.error)
  }

  class WorkflowObject {
    var id: string
    var steps: seq<Step>
    var revision: nat
    var maxRetries: nat

    ghost function View(): Data
      reads this
    {
      Data(id, steps, revision, maxRetries)
    }

    constructor (id: string, steps: seq<Step>)
      ensures View() == Data(id, steps, 0, 3)
    {
      this.id := id;
      this.steps := steps;
      revision := 0;
      maxRetries := 3;
    }

    method StartStep() returns (r: Result<string, Error>)
      modifies this`steps
      ensures View() == After(old(View()), Start(old(View())))
      ensures r.Err? ==> Start(old(View())) == Err(r.error)
      ensures r.Ok? ==> Start(old(View())).Ok? && r.value == steps[NextPending(old(View())).value].name
    {
      var i := NextPending(Data(id, steps, revision, maxRetries));
      if i.None? {
        return Err(CheckpointMissing("no pending step"));
      }
      var s := steps[i.value];
      steps := steps[i.value := s.(status := Running, attempts := s.attempts + 1)];
      return Ok(s.name);
    }

    method FinishStep(output: Option<string>) returns (err: Option<Error>)
      modifies this`steps, this`revision
      ensures View() == After(old(View()), Finish(old(View()), output))
      ensures err == Refusal(Finish(old(View()), output))
    {
      var i := RunningStep(Data(id, steps, revision, maxRetries));
      if i.None? {
        return Some(CheckpointMissing("no running step"));
      }
      var text := match output case None => None case Some(t) => Some(Produced(t));
      steps := steps[i.value := steps[i.value].(status := Done, output := text)];
      revision := revision + 1;
      return None;
    }

    method FailStep(reason: string) returns (err: Option<Error>)
      modifies this`steps, this`revision
      ensures View() == After(old(View()), Fail(old(View()), reason))
      ensures err == Refusal(Fail(old(View()), reason))
    {
      var i := RunningStep(Data(id, steps, revision, maxRetries));
      if i.None? {
        return Some(CheckpointMissing("no running step"));
      }
      var s := steps[i.value];
      if s.attempts > maxRetries {
        s := s.(status := Stuck(reason));
      } else {
        s := s.(status := Pending, output := Some(AttemptFailed(s.attempts, reason)));
      }
      steps := steps[i.value := s];
      revision := revision + 1;
      return None;
    }

    method UnstickStep() returns (err: Option<Error>)
      modifies this`steps, this`revision
      ensures View() == After(old(View()), Unstick(old(View())))
      ensures err == Refusal(Unstick(old(View())))
    {
      var i := StuckStep(Data(id, steps, revision, maxRetries));
      if i.None? {
        return Some(CheckpointMissing("no stuck step"));
      }
      steps := steps[i.value := steps[i.value].(status := Pending, attempts := 0)];
      revision := revision + 1;
      return None;
    }

    method TakeCheckpoint() returns (ck: Checkpoint)
      ensures ck == Capture(View())
    {
      ck := Checkpoint(id, revision, Data(id, steps, revision, maxRetries));
    }

    method RestoreFrom(ck: Checkpoint) returns (err: Option<Error>)
      modifies this
      ensures err.None? <==> ck.workflowId == old(id)
      ensures View() == if err.None? then ck.data else old(View())
      ensures View() == After(old(View()), Restore(old(View()), ck))
      ensures err == Refusal(Restore(old(View()), ck))
    {
      if ck.workflowId != id {
        return Some(CheckpointMissing("checkpoint id mismatch"));
      }
      id, steps, revision, maxRetries := ck.data.id, ck.data.steps, ck.data.revision, ck.data.maxRetries;
      return None;
    }
  }
}

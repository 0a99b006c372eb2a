/**
 What the cost ledgers hold, compared with what the request pipeline has returned.

 A pipeline call records its cost by a call of the cost tracker; the ledgers are those of any run of the tracker
 in which the pipeline's records, and no others, were made.
 */
module GatewayCosts {
  import opened Text
  import opened PromptCache
  import P = GatewayPipeline
  import L = CostLedger

  /** The price list in force when a call recorded its cost. */
  type Prices = nat -> map<string, L.Pricing>

  /** The record that the cost tracker makes for a cost entry of the pipeline. */
  function RecordOf(prices: Prices, e: P.CostEntry): L.Record {
    L.MakeRecord(prices(e.call), e.consumer, e.model, e.promptTokens, e.completionTokens)
  }

  predicate Belongs(r: L.Record, b: L.Bucket) {
    match b
    case OfConsumer(name) => r.consumer == name
    case OfModel(name) => r.model == name
    case Global => true
  }

  function Share(r: L.Record, b: L.Bucket): L.Stats {
    if Belongs(r, b) then L.Worth(r) else L.ZERO
  }

  /** What the pipeline's cost entries are worth in a bucket. */
  function Charged(prices: Prices, costs: seq<P.CostEntry>, b: L.Bucket): L.Stats {
    if costs == [] then L.ZERO
    else
      var n := |costs| - 1;
      L.Plus(Charged(prices, costs[..n], b), Share(RecordOf(prices, costs[n]), b))
  }

  /** The response that a call has paid for. */
  function PaidFor(phase: P.Phase): Option<Response> {
    match phase
    case Recorded(response) => Some(response)
    case Full(response, _) => Some(response)
    case Evicting(response, _, _) => Some(response)
    case Inserting(response, _) => Some(response)
    case Returned(response, cached) => if cached then None else Some(response)
    case _ => None
  }

  /** What one call owes to a bucket. */
  function Owes(prices: Prices, t: nat, call: P.Call, b: L.Bucket): L.Stats {
    match PaidFor(call.phase)
    case None => L.ZERO
    case Some(response) => Share(RecordOf(prices, P.CostOf(t, call, response)), b)
  }

  function Owed(prices: Prices, calls: seq<P.Call>, b: L.Bucket): L.Stats {
    if calls == [] then L.ZERO
    else
      var n := |calls| - 1;
      L.Plus(Owed(prices, calls[..n], b), Owes(prices, n, calls[n], b))
  }

  // ----- The pipeline's entries are what its calls owe -----

  /** Changing one call changes the sum by what that call owes more. */
  lemma {:induction false} OwedUpdate(
    prices: Prices, calls: seq<P.Call>, t: nat, call: P.Call, b: L.Bucket, more: L.Stats)
    requires t < |calls| && Owes(prices, t, call, b) == L.Plus(Owes(prices, t, calls[t], b), more)
    ensures Owed(prices, calls[t := call], b) == L.Plus(Owed(prices, calls, b), more)
    decreases |calls|
  {
    hide Owes;
    var n := |calls| - 1;
    if t == n {
      assert calls[t := call][..n] == calls[..n];
    } else {
      assert calls[t := call][..n] == calls[..n][t := call];
      OwedUpdate(prices, calls[..n], t, call, b, more);
    }
  }

  lemma OwedAppend(prices: Prices, calls: seq<P.Call>, call: P.Call, b: L.Bucket)
    requires PaidFor(call.phase).None?
    ensures Owed(prices, calls + [call], b) == Owed(prices, calls, b)
  {
    assert (calls + [call])[..|calls|] == calls;
    L.PlusLaws(Owed(prices, calls, b), L.ZERO, L.ZERO);
  }

  /** A step other than recording a cost changes no call that owes anything, and makes none owe. */
  lemma SameOwed(prices: Prices, calls: seq<P.Call>, t: nat, call: P.Call, b: L.Bucket)
    requires t < |calls| && PaidFor(call.phase) == PaidFor(calls[t].phase)
    requires call.consumer == calls[t].consumer && call.req == calls[t].req
    ensures Owed(prices, calls[t := call], b) == Owed(prices, calls, b)
  {
    hide L.Plus, Share, RecordOf, Owed;
    L.PlusLaws(Owes(prices, t, calls[t], b), L.ZERO, L.ZERO);
    OwedUpdate(prices, calls, t, call, b, L.ZERO);
    L.PlusLaws(Owed(prices, calls, b), L.ZERO, L.ZERO);
  }

  /** What a step does to the calls. */
  lemma StepShape(c: P.Config, s: P.State, e: P.Event)
    ensures var s' := P.Advance(c, s, e);
            if e.Arrive? then s'.costs == s.costs && s'.calls == s.calls + [P.Call(e.consumer, e.req, P.Arrived)]
            else if e.Remove? || e.Tick? then s'.costs == s.costs && s'.calls == s.calls
            else if e.t >= |s.calls| then s' == s
            else
              && |s'.calls| == |s.calls| && s'.calls == s.calls[e.t := s'.calls[e.t]]
              && s'.calls[e.t].consumer == s.calls[e.t].consumer && s'.calls[e.t].req == s.calls[e.t].req
              && if e.RecordCost? && s.calls[e.t].phase.Checked? then
                   var response := s.calls[e.t].phase.response;
                   && s'.calls[e.t].phase == P.Recorded(response)
                   && s'.costs == s.costs + [P.CostOf(e.t, s.calls[e.t], response)]
                 else PaidFor(s'.calls[e.t].phase) == PaidFor(s.calls[e.t].phase) && s'.costs == s.costs
  {
  }

  lemma ChargedIsOwedStep(prices: Prices, c: P.Config, s: P.State, e: P.Event, b: L.Bucket)
    requires Charged(prices, s.costs, b) == Owed(prices, s.calls, b)
    ensures var s' := P.Advance(c, s, e); Charged(prices, s'.costs, b) == Owed(prices, s'.calls, b)
  {
    StepShape(c, s, e);
    var s' := P.Advance(c, s, e);
    hide P.Advance, L.Plus, Share, RecordOf;
    if e.Arrive? {
      OwedAppend(prices, s.calls, P.Call(e.consumer, e.req, P.Arrived), b);
    } else if !e.Remove? && !e.Tick? && e.t < |s.calls| {
      if e.RecordCost? && s.calls[e.t].phase.Checked? {
        var entry := P.CostOf(e.t, s.calls[e.t], s.calls[e.t].phase.response);
        var more := Share(RecordOf(prices, entry), b);
        assert s'.costs[..|s.costs|] == s.costs;
        L.PlusLaws(more, L.ZERO, L.ZERO);
        OwedUpdate(prices, s.calls, e.t, s'.calls[e.t], b, more);
      } else {
        SameOwed(prices, s.calls, e.t, s'.calls[e.t], b);
      }
    }
  }

  /** In every state of every run of the pipeline its cost entries are exactly what its calls owe, bucket by bucket. */
  lemma {:induction false} ChargedIsOwed(prices: Prices, c: P.Config, events: seq<P.Event>, b: L.Bucket)
    ensures Charged(prices, P.Run(c, events).costs, b) == Owed(prices, P.Run(c, events).calls, b)
    decreases |events|
  {
    hide P.Advance, Charged, Owed;
    if events == [] {
      NothingOwed(prices, b);
    } else {
      ChargedIsOwed(prices, c, events[..|events| - 1], b);
      ChargedIsOwedStep(prices, c, P.Run(c, events[..|events| - 1]), events[|events| - 1], b);
    }
  }

  lemma NothingOwed(prices: Prices, b: L.Bucket)
    ensures Charged(prices, [], b) == L.ZERO == Owed(prices, [], b)
  {
  }

  // ----- The ledgers -----

  /** The tracker has completely recorded these cost entries, and nothing else. */
  ghost predicate Recorded(prices: Prices, costs: seq<P.CostEntry>, calls: seq<L.Call>) {
    |calls| == |costs| && forall k :: 0 <= k < |costs| ==>
      var e := costs[k];
      calls[k] == L.Call(L.MakeRecord(prices(e.call), e.consumer, e.model, e.promptTokens, e.completionTokens), 3)
  }

  lemma {:induction false} HoldsCharged(prices: Prices, costs: seq<P.CostEntry>, calls: seq<L.Call>, b: L.Bucket)
    requires Recorded(prices, costs, calls)
    ensures L.Holds(calls, b) == Charged(prices, costs, b)
    decreases |calls|
  {
    hide L.MakeRecord, L.Plus, L.Worth;
    if calls != [] {
      var n := |calls| - 1;
      HoldsCharged(prices, costs[..n], calls[..n], b);
      assert calls[n] == L.Call(RecordOf(prices, costs[n]), 3);
    }
  }

  /** No call is between recording its cost and returning. */
  ghost predicate Settled(calls: seq<P.Call>) {
    forall t :: 0 <= t < |calls| && PaidFor(calls[t].phase).Some? ==> calls[t].phase.Returned?
  }

  /** What the answers that came from a provider are worth in a bucket. */
  function Uncached(prices: Prices, calls: seq<P.Call>, b: L.Bucket): L.Stats {
    if calls == [] then L.ZERO
    else
      var n := |calls| - 1;
      L.Plus(Uncached(prices, calls[..n], b),
             if calls[n].phase.Returned? && !calls[n].phase.cached then
               var call, response := calls[n], calls[n].phase.response;
               Share(L.MakeRecord(prices(n), call.consumer, call.req.model,
                                  response.promptTokens, response.completionTokens), b)
             else L.ZERO)
  }

  lemma {:induction false} SettledOwed(prices: Prices, calls: seq<P.Call>, b: L.Bucket)
    requires Settled(calls)
    ensures Owed(prices, calls, b) == Uncached(prices, calls, b)
    decreases |calls|
  {
    hide L.Plus, Share, L.MakeRecord;
    if calls != [] {
      var n := |calls| - 1;
      SettledOwed(prices, calls[..n], b);
      assert PaidFor(calls[n].phase).Some? ==> calls[n].phase.Returned?;
    }
  }

  /**
   Whatever the interleavings of the pipeline and of the tracker: when the tracker has recorded the pipeline's cost
   entries, every ledger row, of a consumer, of a model or the global one, holds exactly what the calls that belong
   to it owe; and if no call is on its way to returning, that is what the answers returned from providers are worth.
   */
  lemma LedgersMatchReturns(prices: Prices, c: P.Config, events: seq<P.Event>, recording: seq<L.Event>, b: L.Bucket)
    requires Recorded(prices, P.Run(c, events).costs, L.Run(recording).calls)
    ensures L.Content(L.Run(recording), b) == Owed(prices, P.Run(c, events).calls, b)
    ensures Settled(P.Run(c, events).calls) ==>
              L.Content(L.Run(recording), b) == Uncached(prices, P.Run(c, events).calls, b)
  {
    hide P.Run, L.Run, L.Content, L.Holds, Charged, Owed, Recorded, Settled;
    L.BucketExact(recording, b);
    HoldsCharged(prices, P.Run(c, events).costs, L.Run(recording).calls, b);
    ChargedIsOwed(prices, c, events, b);
    if Settled(P.Run(c, events).calls) { SettledOwed(prices, P.Run(c, events).calls, b); }
  }
}

/**
 The gateway's request pipeline under concurrency: cache check, provider call, output check, cost record and
 cache store of any number of requests, interleaved in any way, with entries removed from the cache at any time
 (by invalidation or clearing) and the clock moving on between steps.

 Guardrails and providers are arbitrary: which requests are refused, what a provider answers and which answers
 pass the output check is part of the run.
 */
module GatewayPipeline {
  import opened Machine
  import opened Text
  import opened PromptCache

  datatype Config = Config(cache: CacheConfig, fingerprint: Request -> nat, outputOk: Response -> bool)

  /**
   Where a request is in the pipeline. A request that is about to store its answer looks at the size of the cache,
   picks an entry, removes it and inserts its own in separate steps; `since` is the number of stores made by the
   time it looked.
   */
  datatype Phase =
    | Arrived
    | DroppingStale
    | Missed
    | Produced(response: Response)
    | Checked(response: Response)
    | Recorded(response: Response)
    | Full(response: Response, since: nat)                    // the cache was found full
    | Evicting(response: Response, victim: nat, since: nat)   // and this entry is to go
    | Inserting(response: Response, since: nat)
    | Returned(response: Response, cached: bool)
    | Failed

  datatype Call = Call(consumer: string, req: Request, phase: Phase)

  datatype Production = Production(call: nat, req: Request, response: Response)
  datatype CostEntry = CostEntry(call: nat, consumer: string, model: string, promptTokens: U32, completionTokens: U32)
  datatype Insertion = Insertion(call: nat, key: nat, response: Response, at: int)

  /**
   The calls so far, the cache, and the full history of provider answers, cost records and cache stores; `overlaps`
   adds up, over all stores, the other stores made since the storing call looked at the size of the cache.
   */
  datatype State = State(
    calls: seq<Call>,
    store: Store,
    produced: seq<Production>,
    costs: seq<CostEntry>,
    inserts: seq<Insertion>,
    overlaps: int,
    now: int)

  const START := State([], map[], [], [], [], 0, 0)

  datatype Event =
    | Arrive(consumer: string, req: Request)
    | Refuse(t: nat)                   // rate limit or input guardrail
    | CheckCache(t: nat)
    | DropStale(t: nat)
    | Answer(t: nat, response: Response)
    | NoAnswer(t: nat)
    | CheckOutput(t: nat)
    | RecordCost(t: nat)
    | CheckRoom(t: nat)
    | Choose(t: nat, key: nat)
    | EvictOne(t: nat)
    | Store(t: nat)                    // and return
    | Remove(key: nat)
    | Tick(later: nat)

  function Key(c: Config, s: State, t: nat): nat
    requires t < |s.calls|
  {
    c.fingerprint(s.calls[t].req)
  }

  function To(s: State, t: nat, phase: Phase): State
    requires t < |s.calls|
  {
    s.(calls := s.calls[t := s.calls[t].(phase := phase)])
  }

  /** One step of call `t`, or no change when the call is not there yet. */
  function Advance(c: Config, s: State, e: Event): State {
    match e
    case Arrive(consumer, req) => s.(calls := s.calls + [Call(consumer, req, Arrived)])
    case Remove(key) => s.(store := s.store - {key})
    case Tick(later) => s.(now := s.now + later)
    case Refuse(t) => if t < |s.calls| && s.calls[t].phase == Arrived then To(s, t, Failed) else s
    case CheckCache(t) =>
      if !(t < |s.calls| && s.calls[t].phase == Arrived) then s
      else (
        match Lookup(c.cache, s.store, Key(c, s, t), s.now)
        case Absent => To(s, t, Missed)
        case Stale => To(s, t, DroppingStale)
        case Hit(response) =>
          var key := Key(c, s, t);
          To(s, t, Returned(response, true)).(store := s.store[key := Touched(s.store[key])])
      )
    case DropStale(t) =>
      if t < |s.calls| && s.calls[t].phase == DroppingStale
      then To(s, t, Missed).(store := s.store - {Key(c, s, t)}) else s
    case Answer(t, response) =>
      if t < |s.calls| && s.calls[t].phase == Missed
      then To(s, t, Produced(response)).(produced := s.produced + [Production(t, s.calls[t].req, response)]) else s
    case NoAnswer(t) => if t < |s.calls| && s.calls[t].phase == Missed then To(s, t, Failed) else s
    case CheckOutput(t) =>
      if t < |s.calls| && s.calls[t].phase.Produced? then
        var response := s.calls[t].phase.response;
        To(s, t, if c.outputOk(response) then Checked(response) else Failed)
      else s
    case RecordCost(t) =>
      if t < |s.calls| && s.calls[t].phase.Checked? then
        var response := s.calls[t].phase.response;
        To(s, t, Recorded(response)).(costs := s.costs + [CostOf(t, s.calls[t], response)])
      else s
    case CheckRoom(t) =>
      if t < |s.calls| && s.calls[t].phase.Recorded? then
        var response := s.calls[t].phase.response;
        if !c.cache.enabled then To(s, t, Returned(response, false))
        else if |s.store| >= c.cache.maxEntries then To(s, t, Full(response, |s.inserts|))
        else To(s, t, Inserting(response, |s.inserts|))
      else s
    case Choose(t, key) =>
      if t < |s.calls| && s.calls[t].phase.Full? then
        var Full(response, since) := s.calls[t].phase;
        if s.store == map[] then To(s, t, Inserting(response, since))
        else if key in s.store then To(s, t, Evicting(response, key, since))
        else s
      else s
    case EvictOne(t) =>
      if t < |s.calls| && s.calls[t].phase.Evicting? then
        var Evicting(response, victim, since) := s.calls[t].phase;
        To(s, t, Inserting(response, since)).(store := s.store - {victim})
      else s
    case Store(t) =>
      if t < |s.calls| && s.calls[t].phase.Inserting? then
        var Inserting(response, since) := s.calls[t].phase;
        To(s, t, Returned(response, false)).(
          store := s.store[Key(c, s, t) := NewEntry(c.cache, response, s.now)],
          inserts := s.inserts + [Insertion(t, Key(c, s, t), response, s.now)],
          overlaps := s.overlaps + (|s.inserts| - since))
      else s
  }

  function CostOf(t: nat, call: Call, response: Response): CostEntry {
    CostEntry(t, call.consumer, call.req.model, response.promptTokens, response.completionTokens)
  }

  function Run(c: Config, events: seq<Event>): State
    decreases |events|
  {
    if events == [] then START else Advance(c, Run(c, events[..|events| - 1]), events[|events| - 1])
  }

  // ----- Invariants -----

  /** Number of cost records of call `t`. */
  function CostCount(costs: seq<CostEntry>, t: nat): nat {
    if costs == [] then 0 else CostCount(costs[..|costs| - 1], t) + if costs[|costs| - 1].call == t then 1 else 0
  }

  /** Position of the last store under `key`. */
  function LatestInsert(inserts: seq<Insertion>, key: nat): Option<nat> {
    if inserts == [] then None
    else if inserts[|inserts| - 1].key == key then Some(|inserts| - 1)
    else LatestInsert(inserts[..|inserts| - 1], key)
  }

  /** The response was produced for this very call. */
  ghost predicate Own(s: State, t: nat, response: Response)
    requires t < |s.calls|
  {
    Production(t, s.calls[t].req, response) in s.produced
  }

  /** A recorded answer: own, accepted, and paid for exactly once, with the call's own data. */
  ghost predicate Paid(c: Config, s: State, t: nat, response: Response)
    requires t < |s.calls|
  {
    && Own(s, t, response) && c.outputOk(response)
    && CostCount(s.costs, t) == 1 && CostOf(t, s.calls[t], response) in s.costs
  }

  /** A store that some call with the same fingerprint made, with the response it has paid for. */
  ghost predicate StoreOk(c: Config, s: State, i: nat)
    requires i < |s.inserts|
  {
    var ins := s.inserts[i];
    && ins.call < |s.calls| && s.calls[ins.call].phase == Returned(ins.response, false)
    && ins.key == Key(c, s, ins.call) && ins.at <= s.now
  }

  ghost predicate CallOk(c: Config, s: State, t: nat)
    requires t < |s.calls|
  {
    match s.calls[t].phase
    case Produced(response) => Own(s, t, response) && CostCount(s.costs, t) == 0
    case Checked(response) => Own(s, t, response) && c.outputOk(response) && CostCount(s.costs, t) == 0
    case Recorded(response) => Paid(c, s, t, response)
    case Full(response, _) => Paid(c, s, t, response)
    case Evicting(response, _, _) => Paid(c, s, t, response)
    case Inserting(response, _) => Paid(c, s, t, response)
    case Returned(response, cached) =>
      if cached then CostCount(s.costs, t) == 0 && Cached(c, s, Key(c, s, t), response)
      else Paid(c, s, t, response)
    case _ => CostCount(s.costs, t) == 0
  }

  /** The response was stored under `key`. */
  ghost predicate Cached(c: Config, s: State, key: nat, response: Response) {
    exists i :: 0 <= i < |s.inserts| && s.inserts[i].key == key && s.inserts[i].response == response
  }

  /** What the cache holds under a key is the last store under it. */
  ghost predicate EntryOk(c: Config, s: State, key: nat)
    requires key in s.store
  {
    var last := LatestInsert(s.inserts, key);
    && last.Some? && last.value < |s.inserts|
    && s.inserts[last.value].key == key
    && s.store[key].response == s.inserts[last.value].response
    && s.store[key].insertedAt == s.inserts[last.value].at
    && s.store[key].ttl == c.cache.ttl
  }

  ghost predicate Inv(c: Config, s: State) {
    && (forall t :: 0 <= t < |s.calls| ==> CallOk(c, s, t))
    && (forall i :: 0 <= i < |s.inserts| ==> StoreOk(c, s, i))
    && (forall key :: key in s.store ==> EntryOk(c, s, key))
    && (forall i, j :: 0 <= i < j < |s.inserts| ==> s.inserts[i].call != s.inserts[j].call)
    && (forall k :: 0 <= k < |s.costs| ==> s.costs[k].call < |s.calls|)
  }

  // ----- Every step keeps the invariant -----

  lemma CostAppended(costs: seq<CostEntry>, x: CostEntry, t: nat)
    ensures CostCount(costs + [x], t) == CostCount(costs, t) + if x.call == t then 1 else 0
  {
  }

  lemma {:induction false} NoCostYet(costs: seq<CostEntry>, t: nat)
    requires forall k :: 0 <= k < |costs| ==> costs[k].call != t
    ensures CostCount(costs, t) == 0
  {
    if costs != [] { NoCostYet(costs[..|costs| - 1], t); }
  }

  /** What a step may do to everything but the call it advances. */
  ghost predicate Grows(s: State, s': State) {
    && |s.calls| <= |s'.calls| && s.now <= s'.now
    && s.produced <= s'.produced && s.costs <= s'.costs && s.inserts <= s'.inserts
  }

  lemma CallFrame(c: Config, s: State, s': State, u: nat)
    requires Grows(s, s') && u < |s.calls| && s'.calls[u] == s.calls[u]
    requires CostCount(s'.costs, u) == CostCount(s.costs, u)
    requires CallOk(c, s, u)
    ensures CallOk(c, s', u)
  {
  }

  /** A step of call `t` that stores nothing. */
  ghost predicate CallStep(s: State, s': State, t: nat) {
    && Grows(s, s') && t < |s.calls| && |s'.calls| == |s.calls|
    && s.inserts == s'.inserts
    && (forall u :: 0 <= u < |s.calls| && u != t ==>
          s'.calls[u] == s.calls[u] && CostCount(s'.costs, u) == CostCount(s.costs, u))
    && s'.calls[t].req == s.calls[t].req && !s.calls[t].phase.Returned?
    && (forall key :: key in s'.store ==> key in s.store && SameEntry(s.store[key], s'.store[key]))
    && (forall k :: |s.costs| <= k < |s'.costs| ==> s'.costs[k].call == t)
  }

  predicate SameEntry(a: Entry, b: Entry) {
    a.response == b.response && a.insertedAt == b.insertedAt && a.ttl == b.ttl
  }

  lemma CallStepKeeps(c: Config, s: State, s': State, t: nat)
    requires Inv(c, s) && CallStep(s, s', t) && CallOk(c, s', t)
    ensures Inv(c, s')
  {
    hide CostCount, LatestInsert;
    forall u | 0 <= u < |s'.calls| ensures CallOk(c, s', u) {
      if u != t {
        assert CallOk(c, s, u);
        CallFrame(c, s, s', u);
      }
    }
    hide CallOk;
    forall i | 0 <= i < |s'.inserts| ensures StoreOk(c, s', i) { assert StoreOk(c, s, i); }
    forall key | key in s'.store ensures EntryOk(c, s', key) { assert EntryOk(c, s, key); }
    forall k | 0 <= k < |s'.costs| ensures s'.costs[k].call < |s'.calls| {
      if k < |s.costs| { assert s'.costs[k] == s.costs[k]; }
    }
  }

  /** Steps that only move a call on, without touching the cache or the histories. */
  lemma MoveKeeps(c: Config, s: State, t: nat, phase: Phase)
    requires Inv(c, s) && t < |s.calls| && !s.calls[t].phase.Returned? && CallOk(c, To(s, t, phase), t)
    ensures Inv(c, To(s, t, phase))
  {
    hide Inv, CallOk;
    CallStepKeeps(c, s, To(s, t, phase), t);
  }

  lemma CheckCacheKeeps(c: Config, s: State, t: nat)
    requires Inv(c, s) && t < |s.calls| && s.calls[t].phase == Arrived
    ensures Inv(c, Advance(c, s, CheckCache(t)))
  {
    assert CallOk(c, s, t);
    var key := Key(c, s, t);
    match Lookup(c.cache, s.store, key, s.now)
    case Absent => MoveKeeps(c, s, t, Missed);
    case Stale => MoveKeeps(c, s, t, DroppingStale);
    case Hit(response) =>
      assert EntryOk(c, s, key);
      hide Inv;
      CallStepKeeps(c, s, Advance(c, s, CheckCache(t)), t);
  }

  lemma AnswerKeeps(c: Config, s: State, t: nat, response: Response)
    requires Inv(c, s) && t < |s.calls| && s.calls[t].phase == Missed
    ensures Inv(c, Advance(c, s, Answer(t, response)))
  {
    assert CallOk(c, s, t);
    hide Inv;
    var s' := Advance(c, s, Answer(t, response));
    assert s'.produced[|s.produced|] == Production(t, s'.calls[t].req, response);
    CallStepKeeps(c, s, s', t);
  }

  lemma RecordKeeps(c: Config, s: State, t: nat)
    requires Inv(c, s) && t < |s.calls| && s.calls[t].phase.Checked?
    ensures Inv(c, Advance(c, s, RecordCost(t)))
  {
    assert CallOk(c, s, t);
    hide Inv, CostCount;
    var s' := Advance(c, s, RecordCost(t));
    var x := CostOf(t, s.calls[t], s.calls[t].phase.response);
    forall u: nat ensures CostCount(s'.costs, u) == CostCount(s.costs, u) + if u == t then 1 else 0 {
      CostAppended(s.costs, x, u);
    }
    assert s'.costs[|s.costs|] == x;
    CallStepKeeps(c, s, s', t);
  }

  lemma CheckRoomKeeps(c: Config, s: State, t: nat)
    requires Inv(c, s) && t < |s.calls| && s.calls[t].phase.Recorded?
    ensures Inv(c, Advance(c, s, CheckRoom(t)))
  {
    assert CallOk(c, s, t);
    hide CostCount;
    var s' := Advance(c, s, CheckRoom(t));
    MoveKeeps(c, s, t, s'.calls[t].phase);
  }

  lemma ChooseKeeps(c: Config, s: State, t: nat, key: nat)
    requires Inv(c, s) && t < |s.calls| && s.calls[t].phase.Full?
    ensures Inv(c, Advance(c, s, Choose(t, key)))
  {
    assert CallOk(c, s, t);
    hide CostCount;
    var s' := Advance(c, s, Choose(t, key));
    if s' != s { MoveKeeps(c, s, t, s'.calls[t].phase); }
  }

  lemma EvictKeeps(c: Config, s: State, t: nat)
    requires Inv(c, s) && t < |s.calls| && s.calls[t].phase.Evicting?
    ensures Inv(c, Advance(c, s, EvictOne(t)))
  {
    assert CallOk(c, s, t);
    var moved := Inserting(s.calls[t].phase.response, s.calls[t].phase.since);
    MoveKeeps(c, s, t, moved);
    hide Inv;
    RemoveKeeps(c, To(s, t, moved), Advance(c, s, EvictOne(t)));
  }

  lemma StoreKeeps(c: Config, s: State, t: nat)
    requires Inv(c, s) && t < |s.calls| && s.calls[t].phase.Inserting?
    ensures Inv(c, Advance(c, s, Store(t)))
  {
    hide CostCount, LatestInsert;
    var s' := Advance(c, s, Store(t));
    var n := |s.inserts|;
    forall u | 0 <= u < |s'.calls| ensures CallOk(c, s', u) {
      assert CallOk(c, s, u);
      if u != t { CallFrame(c, s, s', u); }
    }
    forall i | 0 <= i < n ensures s.inserts[i].call != t && StoreOk(c, s', i) {
      assert StoreOk(c, s, i) && s'.inserts[i] == s.inserts[i];
    }
    assert StoreOk(c, s', n);
    hide CallOk, StoreOk;
    forall key | key in s'.store ensures EntryOk(c, s', key) { StoredEntry(c, s, t, key); }
  }

  lemma StoredEntry(c: Config, s: State, t: nat, key: nat)
    requires t < |s.calls| && s.calls[t].phase.Inserting? && key in Advance(c, s, Store(t)).store
    requires key in s.store ==> EntryOk(c, s, key)
    ensures EntryOk(c, Advance(c, s, Store(t)), key)
  {
    var s' := Advance(c, s, Store(t));
    assert s'.inserts[..|s.inserts|] == s.inserts;
  }

  lemma RemoveKeeps(c: Config, s: State, s': State)
    requires Inv(c, s) && s' == s.(store := s'.store)
    requires forall key :: key in s'.store ==> key in s.store && s'.store[key] == s.store[key]
    ensures Inv(c, s')
  {
    hide CostCount, LatestInsert;
    forall t | 0 <= t < |s'.calls| ensures CallOk(c, s', t) {
      assert CallOk(c, s, t);
      CallFrame(c, s, s', t);
    }
    hide CallOk;
    forall i | 0 <= i < |s'.inserts| ensures StoreOk(c, s', i) { assert StoreOk(c, s, i); }
    forall key | key in s'.store ensures EntryOk(c, s', key) { assert EntryOk(c, s, key); }
  }

  lemma ArriveKeeps(c: Config, s: State, consumer: string, req: Request)
    requires Inv(c, s)
    ensures Inv(c, Advance(c, s, Arrive(consumer, req)))
  {
    hide LatestInsert;
    var s' := Advance(c, s, Arrive(consumer, req));
    NoCostYet(s.costs, |s.calls|);
    hide CostCount;
    forall t | 0 <= t < |s'.calls| ensures CallOk(c, s', t) {
      if t < |s.calls| {
        assert CallOk(c, s, t);
        CallFrame(c, s, s', t);
      }
    }
    hide CallOk;
    forall i | 0 <= i < |s'.inserts| ensures StoreOk(c, s', i) { assert StoreOk(c, s, i); }
    forall key | key in s'.store ensures EntryOk(c, s', key) { assert EntryOk(c, s, key); }
  }

  lemma TickKeeps(c: Config, s: State, later: nat)
    requires Inv(c, s)
    ensures Inv(c, Advance(c, s, Tick(later)))
  {
    hide LatestInsert, CostCount;
    var s' := Advance(c, s, Tick(later));
    forall t | 0 <= t < |s'.calls| ensures CallOk(c, s', t) {
      assert CallOk(c, s, t);
      CallFrame(c, s, s', t);
    }
    hide CallOk;
    forall i | 0 <= i < |s'.inserts| ensures StoreOk(c, s', i) { assert StoreOk(c, s, i); }
    forall key | key in s'.store ensures EntryOk(c, s', key) { assert EntryOk(c, s, key); }
  }

  lemma StepKeeps(c: Config, s: State, e: Event)
    requires Inv(c, s)
    ensures Inv(c, Advance(c, s, e))
  {
    hide Inv;
    match e
    case Arrive(consumer, req) => ArriveKeeps(c, s, consumer, req);
    case Remove(key) => RemoveKeeps(c, s, Advance(c, s, e));
    case Tick(later) => TickKeeps(c, s, later);
    case Refuse(t) => FailKeeps(c, s, t);
    case CheckCache(t) => if t < |s.calls| && s.calls[t].phase == Arrived { CheckCacheKeeps(c, s, t); }
    case DropStale(t) =>
      if t < |s.calls| && s.calls[t].phase == DroppingStale {
        DropKeeps(c, s, t);
      }
    case Answer(t, response) => if t < |s.calls| && s.calls[t].phase == Missed { AnswerKeeps(c, s, t, response); }
    case NoAnswer(t) => FailKeeps(c, s, t);
    case CheckOutput(t) => CheckOutputKeeps(c, s, t);
    case RecordCost(t) => if t < |s.calls| && s.calls[t].phase.Checked? { RecordKeeps(c, s, t); }
    case CheckRoom(t) => if t < |s.calls| && s.calls[t].phase.Recorded? { CheckRoomKeeps(c, s, t); }
    case Choose(t, key) => if t < |s.calls| && s.calls[t].phase.Full? { ChooseKeeps(c, s, t, key); }
    case EvictOne(t) => if t < |s.calls| && s.calls[t].phase.Evicting? { EvictKeeps(c, s, t); }
    case Store(t) => if t < |s.calls| && s.calls[t].phase.Inserting? { StoreKeeps(c, s, t); }
  }

  lemma FailKeeps(c: Config, s: State, t: nat)
    requires Inv(c, s)
    ensures t < |s.calls| && (s.calls[t].phase == Arrived || s.calls[t].phase == Missed) ==> Inv(c, To(s, t, Failed))
  {
    if t < |s.calls| && (s.calls[t].phase == Arrived || s.calls[t].phase == Missed) {
      assert CallOk(c, s, t);
      MoveKeeps(c, s, t, Failed);
    }
  }

  lemma DropKeeps(c: Config, s: State, t: nat)
    requires Inv(c, s) && t < |s.calls| && s.calls[t].phase == DroppingStale
    ensures Inv(c, Advance(c, s, DropStale(t)))
  {
    assert CallOk(c, s, t);
    MoveKeeps(c, s, t, Missed);
    hide Inv;
    RemoveKeeps(c, To(s, t, Missed), Advance(c, s, DropStale(t)));
  }

  lemma CheckOutputKeeps(c: Config, s: State, t: nat)
    requires Inv(c, s)
    ensures Inv(c, Advance(c, s, CheckOutput(t)))
  {
    if t < |s.calls| && s.calls[t].phase.Produced? {
      assert CallOk(c, s, t);
      MoveKeeps(c, s, t, if c.outputOk(s.calls[t].phase.response) then Checked(s.calls[t].phase.response) else Failed);
    }
  }

  lemma {:induction false} RunKeeps(c: Config, events: seq<Event>)
    ensures Inv(c, Run(c, events))
    decreases |events|
  {
    if events != [] {
      RunKeeps(c, events[..|events| - 1]);
      StepKeeps(c, Run(c, events[..|events| - 1]), events[|events| - 1]);
    }
  }

  // ----- Requests that fail -----

  lemma {:induction false} FailedStays(c: Config, events: seq<Event>, more: seq<Event>, t: nat)
    requires t < |Run(c, events).calls| && Run(c, events).calls[t].phase == Failed
    ensures t < |Run(c, events + more).calls| && Run(c, events + more).calls[t].phase == Failed
    decreases |more|
  {
    if more == [] {
      assert events + more == events;
    } else {
      var init := more[..|more| - 1];
      FailedStays(c, events, init, t);
      var all := events + more;
      assert all[..|all| - 1] == events + init;
      RunLast(c, all);
      hide Run, Advance;
      FailedStep(c, Run(c, events + init), all[|all| - 1], t);
    }
  }

  lemma RunLast(c: Config, events: seq<Event>)
    requires events != []
    ensures Run(c, events) == Advance(c, Run(c, events[..|events| - 1]), events[|events| - 1])
  {
  }

  lemma FailedStep(c: Config, s: State, e: Event, t: nat)
    requires t < |s.calls| && s.calls[t].phase == Failed
    ensures t < |Advance(c, s, e).calls| && Advance(c, s, e).calls[t].phase == Failed
  {
    hide Lookup, NewEntry, Touched, CostOf, Key;
    if e.Arrive? || e.Remove? || e.Tick? {
    } else if e.t != t && e.t < |s.calls| {
      assert Advance(c, s, e).calls[t] == s.calls[t];
    }
  }

  /**
   A request that is refused before the cache is asked, or that no provider answers, fails for good: whatever happens
   later it gets no response, is charged nothing and stores nothing.
   */
  lemma RefusedForGood(c: Config, events: seq<Event>, e: Event, more: seq<Event>)
    requires e.Refuse? || e.NoAnswer?
    requires var s := Run(c, events); e.t < |s.calls| && s.calls[e.t].phase == if e.Refuse? then Arrived else Missed
    ensures var s := Run(c, events + [e] + more);
            && e.t < |s.calls| && s.calls[e.t].phase == Failed && CostCount(s.costs, e.t) == 0
            && forall i :: 0 <= i < |s.inserts| ==> s.inserts[i].call != e.t
  {
    assert (events + [e])[..|events|] == events;
    FailedStays(c, events + [e], more, e.t);
    RunKeeps(c, events + [e] + more);
    hide Run, CostCount;
    var s := Run(c, events + [e] + more);
    assert CallOk(c, s, e.t);
    forall i | 0 <= i < |s.inserts| ensures s.inserts[i].call != e.t { assert StoreOk(c, s, i); }
  }

  // ----- What callers get -----

  /** Some provider produced the response for a request with this fingerprint, and it passed the output check. */
  ghost predicate Genuine(c: Config, s: State, key: nat, response: Response) {
    && c.outputOk(response)
    && exists p :: p in s.produced && c.fingerprint(p.req) == key && p.response == response
  }

  /** In every run every response a caller gets is genuine; it was paid for once, or not at all if it was cached. */
  lemma ReturnedIsGenuine(c: Config, events: seq<Event>, t: nat)
    requires var s := Run(c, events); t < |s.calls| && s.calls[t].phase.Returned?
    ensures var s := Run(c, events);
            var Returned(response, cached) := s.calls[t].phase;
            && Genuine(c, s, Key(c, s, t), response)
            && CostCount(s.costs, t) == (if cached then 0 else 1)
            && (!cached ==> CostEntry(t, s.calls[t].consumer, s.calls[t].req.model,
                                      response.promptTokens, response.completionTokens) in s.costs)
  {
    hide Run, CostCount;
    RunKeeps(c, events);
    var s := Run(c, events);
    assert CallOk(c, s, t);
    var Returned(response, cached) := s.calls[t].phase;
    if cached {
      var i :| 0 <= i < |s.inserts| && s.inserts[i].key == Key(c, s, t) && s.inserts[i].response == response;
      var u := s.inserts[i].call;
      assert StoreOk(c, s, i) && CallOk(c, s, u);
      assert Production(u, s.calls[u].req, response) in s.produced;
    } else {
      assert Production(t, s.calls[t].req, response) in s.produced;
    }
  }

  /** In every run everything ever stored is genuine, and its call has exactly one cost record and one store. */
  lemma StoredIsPaid(c: Config, events: seq<Event>, i: nat)
    requires i < |Run(c, events).inserts|
    ensures var s := Run(c, events);
            var ins := s.inserts[i];
            && Genuine(c, s, ins.key, ins.response) && CostCount(s.costs, ins.call) == 1
            && forall j :: 0 <= j < |s.inserts| && j != i ==> s.inserts[j].call != ins.call
  {
    hide Run, CostCount;
    RunKeeps(c, events);
    var s := Run(c, events);
    var u := s.inserts[i].call;
    assert StoreOk(c, s, i) && CallOk(c, s, u);
    assert Production(u, s.calls[u].req, s.inserts[i].response) in s.produced;
  }

  /**
   In every run, what a request finds that has just come to the cache: the latest store under its key, if that entry
   is there and has no time to live or is not older than it; an entry that is older is dropped; otherwise it misses.
   */
  lemma HitExactly(c: Config, events: seq<Event>, t: nat)
    requires var s := Run(c, events); t < |s.calls| && s.calls[t].phase == Arrived
    ensures var s := Run(c, events);
            var key := Key(c, s, t);
            var s' := Advance(c, s, CheckCache(t));
            if !c.cache.enabled || key !in s.store then s'.calls[t].phase == Missed && s'.store == s.store
            else
              var last := LatestInsert(s.inserts, key);
              && last.Some? && last.value < |s.inserts|
              && var Insertion(_, k, response, at) := s.inserts[last.value];
              && k == key && s'.store.Keys == s.store.Keys
              && s'.calls[t].phase ==
                 if c.cache.ttl == 0 || s.now - at <= c.cache.ttl then Returned(response, true) else DroppingStale
  {
    hide Run, LatestInsert;
    RunKeeps(c, events);
    var s := Run(c, events);
    if Key(c, s, t) in s.store { assert EntryOk(c, s, Key(c, s, t)); }
  }

  /** `LatestInsert` finds a store under the key that no later store replaced. */
  lemma {:induction false} LatestIsLast(inserts: seq<Insertion>, key: nat)
    ensures LatestInsert(inserts, key).None? ==> forall i :: 0 <= i < |inserts| ==> inserts[i].key != key
    ensures LatestInsert(inserts, key).Some? ==>
              var k := LatestInsert(inserts, key).value;
              k < |inserts| && inserts[k].key == key && forall i :: k < i < |inserts| ==> inserts[i].key != key
  {
    if inserts != [] { LatestIsLast(inserts[..|inserts| - 1], key); }
  }
}

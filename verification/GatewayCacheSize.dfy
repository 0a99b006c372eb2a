/**
 The size of the gateway's cache under concurrency. A request looks at the size, picks an entry to go, removes it
 and inserts its own answer in separate steps, so requests that store at the same time can exceed the limit.
 */
module GatewayCacheSize {
  import opened PromptCache
  import opened GatewayPipeline

  // ----- How far the limit can be exceeded -----

  /** The limit, the overlaps so far, and the stores made since a call looked at the size. */
  function Room(c: Config, s: State, since: nat): int {
    Bound(c.cache) + s.overlaps + (|s.inserts| - since)
  }

  /** What a call on its way to a store may count on. */
  predicate RoomOk(c: Config, s: State, phase: Phase) {
    match phase
    case Full(_, since) => since <= |s.inserts|
    case Evicting(_, victim, since) =>
      since <= |s.inserts| && (victim !in s.store ==> |s.store| + 1 <= Room(c, s, since))
    case Inserting(_, since) => since <= |s.inserts| && |s.store| + 1 <= Room(c, s, since)
    case _ => true
  }

  ghost predicate Sized(c: Config, s: State) {
    && |s.store| <= Bound(c.cache) + s.overlaps && s.overlaps >= 0
    && forall t :: 0 <= t < |s.calls| ==> RoomOk(c, s, s.calls[t].phase)
  }

  lemma KeysCount(a: Store, b: Store)
    requires a.Keys <= b.Keys
    ensures |a| <= |b| && (a.Keys != b.Keys ==> |a| < |b|)
  {
    Subset(a.Keys, b.Keys);
    if k :| k in b.Keys && k !in a.Keys { Subset(a.Keys, b.Keys - {k}); }
    assert |a| == |a.Keys| && |b| == |b.Keys|;
  }

  lemma Subset(a: set<nat>, b: set<nat>)
    requires a <= b
    ensures |a| <= |b|
  {
    assert b == a + (b - a);
  }

  /** Entries that go leave a call on its way to a store what it counts on. */
  lemma ShrinkKeeps(c: Config, s: State, s': State, phase: Phase)
    requires |s.store| <= Bound(c.cache) + s.overlaps && RoomOk(c, s, phase)
    requires s'.store.Keys <= s.store.Keys && s'.inserts == s.inserts && s'.overlaps == s.overlaps
    ensures RoomOk(c, s', phase)
  {
    KeysCount(s'.store, s.store);
  }

  /** So does the store of another call. */
  lemma GrowKeeps(c: Config, s: State, s': State, phase: Phase, key: nat)
    requires |s.store| <= Bound(c.cache) + s.overlaps && RoomOk(c, s, phase)
    requires s'.store.Keys == s.store.Keys + {key} && |s'.inserts| == |s.inserts| + 1 && s.overlaps <= s'.overlaps
    ensures RoomOk(c, s', phase) && |s'.store| <= |s.store| + 1
  {
    assert |s'.store| == |s'.store.Keys| && |s.store| == |s.store.Keys|;
  }

  /** A step that stores nothing, of call `t` if of any. */
  lemma OtherStep(c: Config, s: State, s': State, t: nat)
    requires Sized(c, s) && s'.store.Keys <= s.store.Keys && s'.inserts == s.inserts && s'.overlaps == s.overlaps
    requires |s'.calls| == |s.calls| || (|s'.calls| == |s.calls| + 1 && t == |s.calls|)
    requires forall u :: 0 <= u < |s.calls| && u != t ==> s'.calls[u].phase == s.calls[u].phase
    requires t < |s'.calls| ==> RoomOk(c, s', s'.calls[t].phase)
    ensures Sized(c, s')
  {
    KeysCount(s'.store, s.store);
    hide RoomOk;
    forall u | 0 <= u < |s'.calls| ensures RoomOk(c, s', s'.calls[u].phase) {
      if u != t { ShrinkKeeps(c, s, s', s.calls[u].phase); }
    }
  }

  lemma StoreStep(c: Config, s: State, t: nat)
    requires Sized(c, s) && t < |s.calls| && s.calls[t].phase.Inserting?
    ensures Sized(c, Advance(c, s, Store(t)))
  {
    var s' := Advance(c, s, Store(t));
    var key := Key(c, s, t);
    GrowKeeps(c, s, s', s.calls[t].phase, key);
    assert RoomOk(c, s, s.calls[t].phase);
    forall u | 0 <= u < |s'.calls| ensures RoomOk(c, s', s'.calls[u].phase) {
      if u != t {
        assert RoomOk(c, s, s.calls[u].phase);
        GrowKeeps(c, s, s', s.calls[u].phase, key);
      }
    }
  }

  /** The three steps between looking at the size and inserting. */
  lemma RoomStep(c: Config, s: State, e: Event)
    requires Sized(c, s) && (e.CheckRoom? || e.Choose? || e.EvictOne?)
    ensures Sized(c, Advance(c, s, e))
  {
    var t, s' := e.t, Advance(c, s, e);
    if t < |s.calls| && s' != s {
      assert RoomOk(c, s, s.calls[t].phase);
      if e.EvictOne? {
        assert s.calls[t].phase.victim !in s'.store;
        KeysCount(s'.store, s.store);
      }
      assert RoomOk(c, s', s'.calls[t].phase);
      hide Advance, RoomOk;
      OtherStep(c, s, s', t);
    }
  }

  /** The call that a step advances; for the other steps, a call that is not there yet. */
  function Mover(s: State, e: Event): nat {
    if e.Arrive? || e.Remove? || e.Tick? then |s.calls| else e.t
  }

  lemma EarlyShape(c: Config, s: State, e: Event)
    requires !(e.CheckRoom? || e.Choose? || e.EvictOne? || e.Store?)
    ensures var s', t := Advance(c, s, e), Mover(s, e);
            && s'.store.Keys <= s.store.Keys && s'.inserts == s.inserts && s'.overlaps == s.overlaps
            && (|s'.calls| == |s.calls| || (|s'.calls| == |s.calls| + 1 && t == |s.calls|))
            && (forall u :: 0 <= u < |s.calls| && u != t ==> s'.calls[u].phase == s.calls[u].phase)
            && (s' != s && t < |s'.calls| ==>
                  var phase := s'.calls[t].phase; !phase.Full? && !phase.Evicting? && !phase.Inserting?)
  {
    hide IsExpired;
  }

  /** The steps before a call has anything to store. */
  lemma EarlyStep(c: Config, s: State, e: Event)
    requires Sized(c, s) && !(e.CheckRoom? || e.Choose? || e.EvictOne? || e.Store?)
    ensures Sized(c, Advance(c, s, e))
  {
    hide Advance, Sized, Mover;
    EarlyShape(c, s, e);
    if Advance(c, s, e) != s { OtherStep(c, s, Advance(c, s, e), Mover(s, e)); }
  }

  lemma SizedStep(c: Config, s: State, e: Event)
    requires Sized(c, s)
    ensures Sized(c, Advance(c, s, e))
  {
    hide Sized, RoomOk;
    if e.Store? {
      if e.t < |s.calls| && s.calls[e.t].phase.Inserting? { StoreStep(c, s, e.t); }
    } else if e.CheckRoom? || e.Choose? || e.EvictOne? {
      RoomStep(c, s, e);
    } else {
      EarlyStep(c, s, e);
    }
  }

  lemma {:induction false} RunSized(c: Config, events: seq<Event>)
    ensures Sized(c, Run(c, events))
    decreases |events|
  {
    hide Advance;
    if events != [] {
      RunSized(c, events[..|events| - 1]);
      SizedStep(c, Run(c, events[..|events| - 1]), events[|events| - 1]);
    }
  }

  /** In every run the cache exceeds its limit by no more than the overlaps of its stores; without any, not at all. */
  lemma CacheBounded(c: Config, events: seq<Event>)
    ensures |Run(c, events).store| <= Bound(c.cache) + Run(c, events).overlaps
  {
    hide Run, RoomOk;
    RunSized(c, events);
  }

  // ----- Storing one at a time -----

  predicate IsStoring(phase: Phase) {
    phase.Full? || phase.Evicting? || phase.Inserting?
  }

  /** The calls that have looked at the size of the cache and not yet stored. */
  function Storing(s: State): set<nat> {
    set t | 0 <= t < |s.calls| && IsStoring(s.calls[t].phase)
  }

  /** At no time are more than `p` calls storing. */
  ghost predicate AtMost(c: Config, events: seq<Event>, p: nat) {
    forall i :: 0 <= i <= |events| ==> |Storing(Run(c, events[..i]))| <= p
  }

  lemma Snoc(c: Config, events: seq<Event>, e: Event, p: nat)
    ensures Run(c, events + [e]) == Advance(c, Run(c, events), e)
    ensures AtMost(c, events + [e], p) <==> AtMost(c, events, p) && |Storing(Run(c, events + [e]))| <= p
  {
    var all := events + [e];
    RunSnoc(c, events, e);
    hide Run, Storing, Advance;
    assert all[..|all|] == all;
    assert forall i :: 0 <= i <= |events| ==> all[..i] == events[..i];
  }

  lemma RunSnoc(c: Config, events: seq<Event>, e: Event)
    ensures Run(c, events + [e]) == Advance(c, Run(c, events), e)
  {
    assert (events + [e])[..|events|] == events;
  }

  /** No store has been made since a storing call looked. */
  ghost predicate Alone(s: State) {
    && s.overlaps == 0
    && forall t :: 0 <= t < |s.calls| && IsStoring(s.calls[t].phase) ==> s.calls[t].phase.since == |s.inserts|
  }

  lemma AloneStep(c: Config, s: State, e: Event)
    requires Alone(s) && |Storing(s)| <= 1
    ensures Alone(Advance(c, s, e))
  {
    if e.Store? {
      if e.t < |s.calls| && s.calls[e.t].phase.Inserting? {
        forall u | 0 <= u < |s.calls| && IsStoring(s.calls[u].phase) ensures u == e.t { OnlyOne(Storing(s), u, e.t); }
      }
    } else if e.CheckRoom? || e.Choose? || e.EvictOne? {
    } else {
      EarlyShape(c, s, e);
      hide Advance;
    }
  }

  lemma OnlyOne(ts: set<nat>, t: nat, u: nat)
    requires |ts| <= 1 && t in ts && u in ts
    ensures t == u
  {
    if t != u { Subset({t, u}, ts); }
  }

  /** If calls store one at a time, the cache keeps within its limit. */
  lemma {:induction false} OneAtATime(c: Config, events: seq<Event>)
    requires AtMost(c, events, 1)
    ensures Alone(Run(c, events)) && |Run(c, events).store| <= Bound(c.cache)
    decreases |events|
  {
    CacheBounded(c, events);
    if events != [] {
      var init, last := events[..|events| - 1], events[|events| - 1];
      assert events == init + [last];
      Snoc(c, init, last, 1);
      OneAtATime(c, init);
      assert init[..|init|] == init;
      AloneStep(c, Run(c, init), last);
    }
  }

  // ----- Runs that exceed any limit -----

  /** At most two calls were storing at any time, and now at most these are. */
  ghost predicate Busy(c: Config, events: seq<Event>, ts: set<nat>) {
    AtMost(c, events, 2) && |ts| <= 2 && Storing(Run(c, events)) <= ts
  }

  /** One more step, of one of these calls or of a new one. */
  lemma Go(c: Config, events: seq<Event>, e: Event, ts: set<nat>)
    requires Busy(c, events, ts) && (e.Arrive? || Mover(Run(c, events), e) in ts)
    ensures Run(c, events + [e]) == Advance(c, Run(c, events), e) && Busy(c, events + [e], ts)
  {
    var s := Run(c, events);
    var s' := Advance(c, s, e);
    hide Run, AtMost;
    Snoc(c, events, e, 2);
    assert Storing(s') <= ts by { StoringStep(c, s, e, ts); }
    Subset(Storing(s'), ts);
  }

  lemma StoringStep(c: Config, s: State, e: Event, ts: set<nat>)
    requires Storing(s) <= ts && (e.Arrive? || Mover(s, e) in ts)
    ensures Storing(Advance(c, s, e)) <= ts
  {
    var s' := Advance(c, s, e);
    forall t | t in Storing(s') ensures t in ts {
      if t != Mover(s, e) { OtherCalls(c, s, e, t); }
    }
  }

  lemma OtherCalls(c: Config, s: State, e: Event, t: nat)
    requires t != Mover(s, e)
    ensures var s' := Advance(c, s, e); t < |s'.calls| ==> t < |s.calls| && s'.calls[t].phase == s.calls[t].phase
  {
    if !(e.CheckRoom? || e.Choose? || e.EvictOne? || e.Store?) {
      EarlyShape(c, s, e);
      hide Advance;
    }
  }

  /** A call that misses the cache, gets an answer and pays for it. */
  lemma Prepare(c: Config, events: seq<Event>, req: Request, response: Response, ts: set<nat>)
    returns (events': seq<Event>)
    requires c.outputOk(response) && c.fingerprint(req) !in Run(c, events).store
    requires Busy(c, events, ts) && |Run(c, events).calls| in ts
    ensures var s, s' := Run(c, events), Run(c, events');
            s'.store == s.store && s'.calls == s.calls + [Call("", req, Recorded(response))]
    ensures Busy(c, events', ts)
  {
    hide Run, Busy;
    var t := |Run(c, events).calls|;
    var e1 := events + [Arrive("", req)];
    var e2 := e1 + [CheckCache(t)];
    var e3 := e2 + [Answer(t, response)];
    var e4 := e3 + [CheckOutput(t)];
    events' := e4 + [RecordCost(t)];
    Go(c, events, Arrive("", req), ts);
    Go(c, e1, CheckCache(t), ts);
    Go(c, e2, Answer(t, response), ts);
    Go(c, e3, CheckOutput(t), ts);
    Go(c, e4, RecordCost(t), ts);
  }

  /** Where a call is that has looked at the size of the cache and, if it was full, has picked `victim`. */
  function Ready(c: Config, s: State, response: Response, victim: nat): Phase {
    if |s.store| >= c.cache.maxEntries && s.store != map[] then Evicting(response, victim, |s.inserts|)
    else Inserting(response, |s.inserts|)
  }

  lemma MakeReady(c: Config, events: seq<Event>, t: nat, victim: nat, ts: set<nat>) returns (events': seq<Event>)
    requires c.cache.enabled && (Run(c, events).store != map[] ==> victim in Run(c, events).store)
    requires t < |Run(c, events).calls| && Run(c, events).calls[t].phase.Recorded?
    requires Busy(c, events, ts) && t in ts
    ensures var s := Run(c, events); Run(c, events') == To(s, t, Ready(c, s, s.calls[t].phase.response, victim))
    ensures Busy(c, events', ts)
  {
    hide Run, Busy;
    var s := Run(c, events);
    events' := events + [CheckRoom(t)] + [Choose(t, victim)];
    Go(c, events, CheckRoom(t), ts);
    Go(c, events + [CheckRoom(t)], Choose(t, victim), ts);
    var to := Ready(c, s, s.calls[t].phase.response, victim);
    assert Run(c, events').calls == s.calls[t := s.calls[t].(phase := to)];
  }

  /** Both calls remove the entry they picked, if any; it goes once. */
  lemma BothEvict(c: Config, events: seq<Event>, t: nat, u: nat, victim: nat, ts: set<nat>)
    returns (events': seq<Event>)
    requires var s := Run(c, events);
             && t < |s.calls| && u < |s.calls| && t != u
             && Removing(s.calls[t], victim) && Removing(s.calls[u], victim)
    requires Busy(c, events, ts) && t in ts && u in ts
    ensures var s, s' := Run(c, events), Run(c, events');
            && |s'.calls| == |s.calls| && s'.calls[t].phase.Inserting? && s'.calls[u].phase.Inserting?
            && (forall i :: 0 <= i < |s.calls| ==> s'.calls[i].req == s.calls[i].req)
            && (forall i :: 0 <= i < |s.calls| && i != t && i != u ==> s'.calls[i] == s.calls[i])
            && s.store.Keys - {victim} <= s'.store.Keys <= s.store.Keys
    ensures Busy(c, events', ts)
  {
    hide Run, Busy, Advance;
    events' := events + [EvictOne(t)] + [EvictOne(u)];
    Go(c, events, EvictOne(t), ts);
    EvictEffect(c, Run(c, events), t, victim);
    Go(c, events + [EvictOne(t)], EvictOne(u), ts);
    EvictEffect(c, Run(c, events + [EvictOne(t)]), u, victim);
  }

  /** The call is ready to insert, or about to remove this entry. */
  predicate Removing(call: Call, victim: nat) {
    call.phase.Inserting? || (call.phase.Evicting? && call.phase.victim == victim)
  }

  lemma EvictEffect(c: Config, s: State, t: nat, victim: nat)
    requires t < |s.calls| && Removing(s.calls[t], victim)
    ensures var s' := Advance(c, s, EvictOne(t));
            && |s'.calls| == |s.calls| && s'.calls[t].phase.Inserting? && s'.calls[t].req == s.calls[t].req
            && (forall i :: 0 <= i < |s.calls| && i != t ==> s'.calls[i] == s.calls[i])
            && s.store.Keys - {victim} <= s'.store.Keys <= s.store.Keys
  {
  }

  lemma BothStore(c: Config, events: seq<Event>, t: nat, u: nat, ts: set<nat>) returns (events': seq<Event>)
    requires var s := Run(c, events);
             t < |s.calls| && u < |s.calls| && t != u && s.calls[t].phase.Inserting? && s.calls[u].phase.Inserting?
    requires Busy(c, events, ts) && t in ts && u in ts
    ensures var s, s' := Run(c, events), Run(c, events');
            && s'.store.Keys == s.store.Keys + {Key(c, s, t), Key(c, s, u)}
            && |s'.calls| == |s.calls| && s'.calls[t].phase.Returned? && s'.calls[u].phase.Returned?
            && (forall i :: 0 <= i < |s.calls| && i != t && i != u ==> s'.calls[i] == s.calls[i])
    ensures Busy(c, events', ts)
  {
    hide Run, Busy;
    events' := events + [Store(t)] + [Store(u)];
    Go(c, events, Store(t), ts);
    Go(c, events + [Store(t)], Store(u), ts);
  }

  ghost predicate AllReturned(s: State) {
    forall t :: 0 <= t < |s.calls| ==> s.calls[t].phase.Returned?
  }

  /** Two calls with new keys are prepared and made ready to insert; at most one entry has gone. */
  lemma PairReady(c: Config, events: seq<Event>, r: Request, q: Request, response: Response, victim: nat, ts: set<nat>)
    returns (events': seq<Event>)
    requires c.cache.enabled && c.outputOk(response) && Busy(c, events, ts)
    requires var s := Run(c, events);
             && c.fingerprint(r) !in s.store && c.fingerprint(q) !in s.store
             && |s.calls| in ts && |s.calls| + 1 in ts && (s.store != map[] ==> victim in s.store)
    ensures var s, s' := Run(c, events), Run(c, events');
            && |s'.calls| == |s.calls| + 2 && (forall i :: 0 <= i < |s.calls| ==> s'.calls[i] == s.calls[i])
            && s'.calls[|s.calls|].phase.Inserting? && s'.calls[|s.calls|].req == r
            && s'.calls[|s.calls| + 1].phase.Inserting? && s'.calls[|s.calls| + 1].req == q
            && s.store.Keys - {victim} <= s'.store.Keys <= s.store.Keys
    ensures Busy(c, events', ts)
  {
    hide Run, Advance, Busy;
    var t := |Run(c, events).calls|;
    var e1 := Prepare(c, events, r, response, ts);
    var e2 := Prepare(c, e1, q, response, ts);
    var e3 := MakeReady(c, e2, t, victim, ts);
    var e4 := MakeReady(c, e3, t + 1, victim, ts);
    events' := BothEvict(c, e4, t, t + 1, victim, ts);
  }

  /** Two calls with new keys that store at the same time leave the cache larger, whatever its size and limit. */
  lemma PairGrows(c: Config, events: seq<Event>, r: Request, q: Request, response: Response)
    returns (events': seq<Event>)
    requires c.cache.enabled && c.outputOk(response) && AllReturned(Run(c, events)) && AtMost(c, events, 2)
    requires var keys := Run(c, events).store.Keys;
             c.fingerprint(r) !in keys && c.fingerprint(q) !in keys && c.fingerprint(r) != c.fingerprint(q)
    ensures var s, s' := Run(c, events), Run(c, events');
            && AllReturned(s') && |s'.store| > |s.store|
            && s'.store.Keys <= s.store.Keys + {c.fingerprint(r), c.fingerprint(q)}
    ensures AtMost(c, events', 2)
  {
    hide Run, Advance, Busy, AtMost;
    var s := Run(c, events);
    var t, u := |s.calls|, |s.calls| + 1;
    NobodyBusy(c, events, {t, u});
    var victim := if s.store == map[] then 0 else AnyKey(s.store);
    var ready := PairReady(c, events, r, q, response, victim, {t, u});
    events' := BothStore(c, ready, t, u, {t, u});
    BusyAtMost(c, events', {t, u});
    TwoForOne(s.store, Run(c, ready).store, Run(c, events').store, victim, c.fingerprint(r), c.fingerprint(q));
  }

  lemma NobodyBusy(c: Config, events: seq<Event>, ts: set<nat>)
    requires AllReturned(Run(c, events)) && AtMost(c, events, 2) && |ts| <= 2
    ensures Busy(c, events, ts)
  {
    hide Run;
  }

  lemma BusyAtMost(c: Config, events: seq<Event>, ts: set<nat>)
    requires Busy(c, events, ts)
    ensures AtMost(c, events, 2)
  {
  }

  ghost function AnyKey(store: Store): nat
    requires store != map[]
    ensures AnyKey(store) in store
  {
    var k :| k in store;
    k
  }

  lemma TwoForOne(before: Store, ready: Store, after: Store, victim: nat, k: nat, l: nat)
    requires k !in before && l !in before && k != l
    requires before.Keys - {victim} <= ready.Keys <= before.Keys && after.Keys == ready.Keys + {k, l}
    ensures |after| > |before| && after.Keys <= before.Keys + {k, l}
  {
    var left := before.Keys - {victim};
    var more := left + {k};
    var all := more + {l};
    assert |left| >= |before.Keys| - 1 && |more| == |left| + 1 && |all| == |more| + 1;
    Subset(all, after.Keys);
    assert |before| == |before.Keys| && |after| == |after.Keys|;
  }

  /** The fingerprints of the first `n` requests. */
  function Prints(c: Config, reqs: seq<Request>, n: nat): set<nat>
    requires n <= |reqs|
  {
    set i | 0 <= i < n :: c.fingerprint(reqs[i])
  }

  ghost predicate DifferentPrints(c: Config, reqs: seq<Request>) {
    forall i, j :: 0 <= i < j < |reqs| ==> c.fingerprint(reqs[i]) != c.fingerprint(reqs[j])
  }

  /**
   No limit holds for two at a time: whatever `max_entries` is, any number of requests with different fingerprints can
   leave an entry for every two of them, and the entries stay when all requests are done.
   */
  lemma {:induction false} CacheGrows(c: Config, reqs: seq<Request>, response: Response, n: nat)
    returns (events: seq<Event>)
    requires c.cache.enabled && c.outputOk(response) && 2 * n <= |reqs| && DifferentPrints(c, reqs)
    ensures |Run(c, events).store| >= n && AllReturned(Run(c, events)) && AtMost(c, events, 2)
    ensures Run(c, events).store.Keys <= Prints(c, reqs, 2 * n)
    decreases n
  {
    if n == 0 {
      events := [];
    } else {
      var before := CacheGrows(c, reqs, response, n - 1);
      hide Run, AllReturned, AtMost;
      events := PairGrows(c, before, reqs[2 * n - 2], reqs[2 * n - 1], response);
    }
  }

  lemma AtMostMore(c: Config, events: seq<Event>, p: nat, q: nat)
    requires AtMost(c, events, p) && p <= q
    ensures AtMost(c, events, q)
  {
  }

  /**
   The limit holds exactly for stores that are made one at a time: with enough different requests, every run in which
   at most `p` calls are storing keeps within it if and only if `p` is at most 1.
   */
  lemma LimitExactly(c: Config, reqs: seq<Request>, response: Response, p: nat)
    requires c.cache.enabled && c.outputOk(response)
    requires 2 * (Bound(c.cache) + 1) <= |reqs| && DifferentPrints(c, reqs)
    ensures (forall events :: AtMost(c, events, p) ==> |Run(c, events).store| <= Bound(c.cache)) <==> p <= 1
  {
    hide Run, AtMost, DifferentPrints;
    if p <= 1 {
      forall events | AtMost(c, events, p) ensures |Run(c, events).store| <= Bound(c.cache) {
        AtMostMore(c, events, p, 1);
        OneAtATime(c, events);
      }
    } else {
      var events := CacheGrows(c, reqs, response, Bound(c.cache) + 1);
      AtMostMore(c, events, 2, p);
    }
  }
}

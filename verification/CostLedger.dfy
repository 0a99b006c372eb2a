/**
 The cost tracker of cave-llm-gateway: every usage record is added to the ledger of its consumer, to the ledger
 of its model and to the global one. Costs are exact reals; 32-bit token sums wrap as in a release build.
 */
module CostLedger {
  import opened Machine

  datatype Pricing = Pricing(inputPerMillion: real, outputPerMillion: real)

  datatype Record = Record(consumer: string, model: string, input: U32, output: U32, total: U32, cost: real)

  datatype Stats = Stats(requests: nat, input: nat, output: nat, total: nat, cost: real)

  const ZERO := Stats(0, 0, 0, 0, 0.0)

  type Ledger = map<string, Stats>

  function Cost(p: Pricing, input: nat, output: nat): real {
    input as real / 1000000.0 * p.inputPerMillion + output as real / 1000000.0 * p.outputPerMillion
  }

  function CostFor(pricing: map<string, Pricing>, model: string, input: U32, output: U32): real {
    if model in pricing then Cost(pricing[model], input, output) else 0.0
  }

  function MakeRecord(pricing: map<string, Pricing>, consumer: string, model: string, input: U32, output: U32): Record {
    Record(consumer, model, input, output, (input + output) % TWO32, CostFor(pricing, model, input, output))
  }

  /** Costs add up over tokens. */
  lemma CostAdds(p: Pricing, a: nat, b: nat, c: nat, d: nat)
    ensures Cost(p, a + c, b + d) == Cost(p, a, b) + Cost(p, c, d)
  {
    Distributes(a as real / 1000000.0, c as real / 1000000.0, p.inputPerMillion);
    Distributes(b as real / 1000000.0, d as real / 1000000.0, p.outputPerMillion);
  }

  lemma Distributes(x: real, y: real, z: real)
    ensures (x + y) * z == x * z + y * z
  {
  }

  function Plus(a: Stats, b: Stats): Stats {
    Stats(a.requests + b.requests, a.input + b.input, a.output + b.output, a.total + b.total, a.cost + b.cost)
  }

  /** What one record is worth in a ledger. */
  function Worth(r: Record): Stats {
    Stats(1, r.input, r.output, r.total, r.cost)
  }

  function Add(s: Stats, r: Record): Stats {
    Plus(s, Worth(r))
  }

  function Row(l: Ledger, key: string): Stats {
    if key in l then l[key] else ZERO
  }

  function Posted(l: Ledger, key: string, r: Record): Ledger {
    l[key := Add(Row(l, key), r)]
  }

  /** A row with one more request, its tokens and its cost. */
  function OneMore(s: Stats, r: Record): Stats {
    s.(requests := s.requests + 1, input := s.input + r.input, output := s.output + r.output,
       total := s.total + r.total, cost := s.cost + r.cost)
  }

  class CostTracker {
    var pricing: map<string, Pricing>
    var consumerStats: Ledger
    var modelStats: Ledger
    var global: Stats

    constructor (pricing: map<string, Pricing>)
      ensures this.pricing == pricing && consumerStats == map[] && modelStats == map[] && global == ZERO
    {
      this.pricing := pricing;
      consumerStats := map[];
      modelStats := map[];
      global := ZERO;
    }

    method RecordUsage(consumer: string, model: string, input: U32, output: U32) returns (r: Record)
      modifies this`consumerStats, this`modelStats, this`global
      ensures r.consumer == consumer && r.model == model && r.input == input && r.output == output
      ensures r.total == (input + output) % 0x1_0000_0000
      ensures r.cost == if model !in pricing then 0.0
                        else input as real / 1000000.0 * pricing[model].inputPerMillion
                             + output as real / 1000000.0 * pricing[model].outputPerMillion
      ensures consumerStats == old(consumerStats)[consumer := OneMore(Row(old(consumerStats), consumer), r)]
      ensures modelStats == old(modelStats)[model := OneMore(Row(old(modelStats), model), r)]
      ensures global == OneMore(old(global), r)
      ensures r == MakeRecord(pricing, consumer, model, input, output)
      ensures consumerStats == Posted(old(consumerStats), consumer, r)
      ensures modelStats == Posted(old(modelStats), model, r)
    {
      hide Cost, Add;
      RecordFields(pricing, consumer, model, input, output);
      var cost := CostFor(pricing, model, input, output);
      r := Record(consumer, model, input, output, (input + output) % TWO32, cost);
      consumerStats := consumerStats[consumer := Add(Row(consumerStats, consumer), r)];
      modelStats := modelStats[model := Add(Row(modelStats, model), r)];
      global := Add(global, r);
      AddIsOneMore(Row(old(consumerStats), consumer), r);
      AddIsOneMore(Row(old(modelStats), model), r);
      AddIsOneMore(old(global), r);
    }
  }

  lemma AddIsOneMore(s: Stats, r: Record)
    ensures Add(s, r) == OneMore(s, r)
  {
  }

  lemma RecordFields(pricing: map<string, Pricing>, consumer: string, model: string, input: U32, output: U32)
    ensures var r := MakeRecord(pricing, consumer, model, input, output);
            && r.total == (input + output) % 0x1_0000_0000
            && r.cost == if model !in pricing then 0.0
                         else input as real / 1000000.0 * pricing[model].inputPerMillion
                              + output as real / 1000000.0 * pricing[model].outputPerMillion
  {
  }

  // ----- Sums over a ledger -----

  /** The sum of the rows of some keys. */
  ghost function SumOver(l: Ledger, keys: set<string>): Stats
    decreases |keys|
  {
    if keys == {} then ZERO
    else
      var k :| k in keys;
      Plus(Row(l, k), SumOver(l, keys - {k}))
  }

  ghost function Total(l: Ledger): Stats {
    SumOver(l, l.Keys)
  }

  lemma PlusLaws(a: Stats, b: Stats, c: Stats)
    ensures Plus(a, b) == Plus(b, a) && Plus(a, ZERO) == a && Plus(Plus(a, b), c) == Plus(a, Plus(b, c))
  {
  }

  /** The sum does not depend on the order in which keys are taken. */
  lemma {:induction false} SumTakes(l: Ledger, keys: set<string>, k: string)
    requires k in keys
    ensures SumOver(l, keys) == Plus(Row(l, k), SumOver(l, keys - {k}))
    decreases |keys|
  {
    var j :| j in keys && SumOver(l, keys) == Plus(Row(l, j), SumOver(l, keys - {j}));
    if j != k {
      SumTakes(l, keys - {j}, k);
      SumTakes(l, keys - {k}, j);
      assert keys - {j} - {k} == keys - {k} - {j};
      var rest := SumOver(l, keys - {j} - {k});
      PlusLaws(Row(l, j), Row(l, k), rest);
      PlusLaws(Row(l, k), Row(l, j), rest);
    }
  }

  lemma {:induction false} SumSame(l: Ledger, l': Ledger, keys: set<string>)
    requires forall k :: k in keys ==> Row(l, k) == Row(l', k)
    ensures SumOver(l, keys) == SumOver(l', keys)
    decreases |keys|
  {
    if keys != {} {
      var k :| k in keys;
      SumTakes(l, keys, k);
      SumTakes(l', keys, k);
      SumSame(l, l', keys - {k});
    }
  }

  /** A row that is not there yet counts as zero. */
  lemma SumWithKey(l: Ledger, key: string)
    ensures SumOver(l, l.Keys + {key}) == Total(l)
  {
    if key in l {
      assert l.Keys + {key} == l.Keys;
    } else {
      SumTakes(l, l.Keys + {key}, key);
      assert l.Keys + {key} - {key} == l.Keys;
      PlusLaws(Total(l), ZERO, ZERO);
    }
  }

  /** Posting a record adds its worth to the ledger's total, whichever row it goes to. */
  lemma PostedTotal(l: Ledger, key: string, r: Record)
    ensures Total(Posted(l, key, r)) == Plus(Total(l), Worth(r))
  {
    var l' := Posted(l, key, r);
    var keys := l.Keys + {key};
    assert l'.Keys == keys;
    SumTakes(l', keys, key);
    SumTakes(l, keys, key);
    SumSame(l, l', keys - {key});
    SumWithKey(l, key);
    var rest := SumOver(l, keys - {key});
    PlusLaws(Row(l, key), Worth(r), rest);
    PlusLaws(Row(l, key), rest, Worth(r));
    PlusLaws(Worth(r), rest, ZERO);
  }

  // ----- Concurrent recording -----

  /** A recording call in progress, by how many of the three ledgers it has reached. */
  datatype Call = Call(record: Record, posted: nat)

  datatype State = State(calls: seq<Call>, consumers: Ledger, models: Ledger, global: Stats)

  /** A call begins with the price list of that moment; each post takes it to its next ledger. */
  datatype Event =
    | Begin(pricing: map<string, Pricing>, consumer: string, model: string, input: U32, output: U32)
    | Post(i: nat)

  function Apply(s: State, e: Event): State {
    match e
    case Begin(pricing, consumer, model, input, output) =>
      s.(calls := s.calls + [Call(MakeRecord(pricing, consumer, model, input, output), 0)])
    case Post(i) =>
      if i >= |s.calls| || s.calls[i].posted >= 3 then s
      else
        var Call(r, n) := s.calls[i];
        var s' := s.(calls := Advanced(s.calls, i));
        if n == 0 then s'.(consumers := Posted(s.consumers, r.consumer, r))
        else if n == 1 then s'.(models := Posted(s.models, r.model, r))
        else s'.(global := Add(s.global, r))
  }

  function Run(events: seq<Event>): State
    decreases |events|
  {
    if events == [] then State([], map[], map[], ZERO)
    else Apply(Run(events[..|events| - 1]), events[|events| - 1])
  }

  /** The records of the calls that began, in order, by what was said when they began. */
  function Begun(events: seq<Event>): seq<Record>
    decreases |events|
  {
    if events == [] then []
    else
      var init, last := events[..|events| - 1], events[|events| - 1];
      match last
      case Post(_) => Begun(init)
      case Begin(pricing, consumer, model, input, output) =>
        var cost := if model !in pricing then 0.0
                    else input as real / 1000000.0 * pricing[model].inputPerMillion
                         + output as real / 1000000.0 * pricing[model].outputPerMillion;
        Begun(init) + [Record(consumer, model, input, output, (input + output) % 0x1_0000_0000, cost)]
  }

  function Records(calls: seq<Call>): seq<Record> {
    seq(|calls|, i requires 0 <= i < |calls| => calls[i].record)
  }

  /** In every run the calls are those that began, each with its own consumer, model, tokens and cost. */
  lemma {:induction false} CallsAreBegun(events: seq<Event>)
    ensures Records(Run(events).calls) == Begun(events)
    decreases |events|
  {
    if events != [] {
      var init, last := events[..|events| - 1], events[|events| - 1];
      CallsAreBegun(init);
      var s := Run(init);
      assert Run(events) == Apply(s, last);
      hide Run, Begun, Posted, Add;
      if last.Begin? {
        RecordFields(last.pricing, last.consumer, last.model, last.input, last.output);
        hide MakeRecord;
        BegunSnoc(events);
        assert Records(Apply(s, last).calls) == Records(s.calls) + [Apply(s, last).calls[|s.calls|].record];
      } else {
        assert Begun(events) == Begun(init) by { BegunSnoc(events); }
      }
    }
  }

  lemma BegunSnoc(events: seq<Event>)
    requires events != []
    ensures var init, last := events[..|events| - 1], events[|events| - 1];
            if last.Post? then Begun(events) == Begun(init)
            else
              var r := MakeRecord(last.pricing, last.consumer, last.model, last.input, last.output);
              Begun(events) == Begun(init) + [r]
  {
  }

  /** The worth of the calls that have reached at least `n` ledgers. */
  function Reached(calls: seq<Call>, n: nat): Stats {
    if calls == [] then ZERO
    else
      var init, last := calls[..|calls| - 1], calls[|calls| - 1];
      Plus(Reached(init, n), if last.posted >= n then Worth(last.record) else ZERO)
  }

  lemma {:induction false} ReachedAdvance(calls: seq<Call>, i: nat, n: nat)
    requires i < |calls|
    ensures Reached(Advanced(calls, i), n)
         == if calls[i].posted + 1 == n then Plus(Reached(calls, n), Worth(calls[i].record)) else Reached(calls, n)
    decreases |calls|
  {
    var init := calls[..|calls| - 1];
    if i < |calls| - 1 {
      ReachedAdvance(init, i, n);
      assert Advanced(calls, i)[..|calls| - 1] == Advanced(init, i);
    } else {
      assert Advanced(calls, i)[..|calls| - 1] == init;
    }
  }

  function Advanced(calls: seq<Call>, i: nat): seq<Call>
    requires i < |calls|
  {
    calls[i := calls[i].(posted := calls[i].posted + 1)]
  }

  /** Each ledger holds exactly the calls that have reached it. */
  ghost predicate Balanced(s: State) {
    && Total(s.consumers) == Reached(s.calls, 1)
    && Total(s.models) == Reached(s.calls, 2)
    && s.global == Reached(s.calls, 3)
  }

  lemma BalancedKept(s: State, e: Event)
    requires Balanced(s)
    ensures Balanced(Apply(s, e))
  {
    hide Total, Plus, Worth, Posted;
    match e
    case Begin(_, _, _, _, _) =>
      assert Apply(s, e).calls[..|s.calls|] == s.calls;
      PlusLaws(Reached(s.calls, 1), ZERO, ZERO);
      PlusLaws(Reached(s.calls, 2), ZERO, ZERO);
      PlusLaws(Reached(s.calls, 3), ZERO, ZERO);
    case Post(i) =>
      if i < |s.calls| && s.calls[i].posted < 3 {
        var Call(r, n) := s.calls[i];
        hide Reached, Advanced;
        ReachedAdvance(s.calls, i, 1);
        ReachedAdvance(s.calls, i, 2);
        ReachedAdvance(s.calls, i, 3);
        PostedTotal(s.consumers, r.consumer, r);
        PostedTotal(s.models, r.model, r);
      }
  }

  lemma {:induction false} RunBalanced(events: seq<Event>)
    ensures Balanced(Run(events))
    decreases |events|
  {
    if events != [] {
      RunBalanced(events[..|events| - 1]);
      BalancedKept(Run(events[..|events| - 1]), events[|events| - 1]);
    }
  }

  /** No call is half applied. */
  ghost predicate AtRest(s: State) {
    forall i :: 0 <= i < |s.calls| ==> s.calls[i].posted == 0 || s.calls[i].posted == 3
  }

  lemma {:induction false} RestReached(calls: seq<Call>)
    requires forall i :: 0 <= i < |calls| ==> calls[i].posted == 0 || calls[i].posted == 3
    ensures Reached(calls, 1) == Reached(calls, 2) == Reached(calls, 3)
    decreases |calls|
  {
    if calls != [] { RestReached(calls[..|calls| - 1]); }
  }

  /** Whenever no record is half applied the three ledgers have the same totals, in every field. */
  lemma Conservation(events: seq<Event>)
    requires AtRest(Run(events))
    ensures Total(Run(events).consumers) == Total(Run(events).models) == Run(events).global
  {
    hide Total, Reached, Run;
    RunBalanced(events);
    RestReached(Run(events).calls);
  }

  // ----- Every single bucket -----

  datatype Bucket = OfConsumer(name: string) | OfModel(name: string) | Global

  function Content(s: State, b: Bucket): Stats {
    match b
    case OfConsumer(name) => Row(s.consumers, name)
    case OfModel(name) => Row(s.models, name)
    case Global => s.global
  }

  /** The call belongs in the bucket and has been posted to it. */
  predicate Counted(c: Call, b: Bucket) {
    match b
    case OfConsumer(name) => c.posted >= 1 && c.record.consumer == name
    case OfModel(name) => c.posted >= 2 && c.record.model == name
    case Global => c.posted >= 3
  }

  function Holds(calls: seq<Call>, b: Bucket): Stats {
    if calls == [] then ZERO
    else
      var init, last := calls[..|calls| - 1], calls[|calls| - 1];
      Plus(Holds(init, b), if Counted(last, b) then Worth(last.record) else ZERO)
  }

  lemma {:induction false} HoldsAdvance(calls: seq<Call>, i: nat, b: Bucket)
    requires i < |calls|
    ensures Holds(Advanced(calls, i), b)
         == if Counted(Advanced(calls, i)[i], b) && !Counted(calls[i], b)
            then Plus(Holds(calls, b), Worth(calls[i].record))
            else Holds(calls, b)
    decreases |calls|
  {
    hide Counted, Plus, Worth;
    var init, last := calls[..|calls| - 1], calls[|calls| - 1];
    CountedStays(calls[i], b);
    if i < |calls| - 1 {
      HoldsAdvance(init, i, b);
      assert Advanced(calls, i)[..|calls| - 1] == Advanced(init, i);
      PlusSwap(Holds(init, b), Worth(calls[i].record), if Counted(last, b) then Worth(last.record) else ZERO);
    } else {
      assert Advanced(calls, i)[..|calls| - 1] == init;
      PlusLaws(Holds(init, b), ZERO, ZERO);
    }
  }

  lemma PlusSwap(a: Stats, b: Stats, c: Stats)
    ensures Plus(Plus(a, b), c) == Plus(Plus(a, c), b)
  {
  }

  lemma CountedStays(c: Call, b: Bucket)
    ensures Counted(c, b) ==> Counted(c.(posted := c.posted + 1), b)
  {
  }

  lemma BucketKept(s: State, e: Event, b: Bucket)
    requires Content(s, b) == Holds(s.calls, b)
    ensures Content(Apply(s, e), b) == Holds(Apply(s, e).calls, b)
  {
    hide Plus, Worth;
    match e
    case Begin(_, _, _, _, _) =>
      assert Apply(s, e).calls[..|s.calls|] == s.calls;
      PlusLaws(Holds(s.calls, b), ZERO, ZERO);
    case Post(i) =>
      if i < |s.calls| && s.calls[i].posted < 3 {
        HoldsAdvance(s.calls, i, b);
        hide Holds;
        assert Apply(s, e).calls == Advanced(s.calls, i);
      }
  }

  /** In every state of every run each bucket holds exactly the calls posted to it. */
  lemma {:induction false} BucketExact(events: seq<Event>, b: Bucket)
    ensures Content(Run(events), b) == Holds(Run(events).calls, b)
    decreases |events|
  {
    if events != [] {
      BucketExact(events[..|events| - 1], b);
      BucketKept(Run(events[..|events| - 1]), events[|events| - 1], b);
    }
  }

  // ----- Token totals and the 32-bit sum -----

  /** The tokens that 32-bit sums have lost in a bucket. */
  function Lost(s: Stats): int {
    s.input + s.output - s.total
  }

  ghost predicate Made(calls: seq<Call>) {
    forall i :: 0 <= i < |calls| ==> calls[i].record.total == (calls[i].record.input + calls[i].record.output) % TWO32
  }

  predicate Fits(r: Record) {
    r.input + r.output < TWO32
  }

  ghost predicate AllFit(calls: seq<Call>, b: Bucket) {
    forall i :: 0 <= i < |calls| && Counted(calls[i], b) ==> Fits(calls[i].record)
  }

  lemma RecordLoss(r: Record)
    requires r.total == (r.input + r.output) % TWO32
    ensures Lost(Worth(r)) == if Fits(r) then 0 else TWO32
  {
  }

  lemma LossAdds(a: Stats, b: Stats)
    ensures Lost(Plus(a, b)) == Lost(a) + Lost(b) && Lost(ZERO) == 0
  {
  }

  lemma {:induction false} HoldsLoss(calls: seq<Call>, b: Bucket)
    requires Made(calls)
    ensures Lost(Holds(calls, b)) >= 0 && (Lost(Holds(calls, b)) == 0 <==> AllFit(calls, b))
    decreases |calls|
  {
    hide Lost, Plus, Worth, Counted, Fits;
    LossAdds(ZERO, ZERO);
    if calls != [] {
      var init, last := calls[..|calls| - 1], calls[|calls| - 1];
      assert calls == init + [last];
      HoldsLoss(init, b);
      RecordLoss(last.record);
      LossAdds(Holds(init, b), Worth(last.record));
      LossAdds(Holds(init, b), ZERO);
      assert AllFit(calls, b) <==> AllFit(init, b) && (Counted(last, b) ==> Fits(last.record));
    }
  }

  lemma {:induction false} RunMade(events: seq<Event>)
    ensures Made(Run(events).calls)
    decreases |events|
  {
    if events != [] {
      RunMade(events[..|events| - 1]);
      MadeKept(Run(events[..|events| - 1]), events[|events| - 1]);
    }
  }

  lemma MadeKept(s: State, e: Event)
    requires Made(s.calls)
    ensures Made(Apply(s, e).calls)
  {
    hide Posted, Add, CostFor;
  }

  /** A bucket's total equals its input plus output exactly when no counted record's sum exceeded 32 bits. */
  lemma TotalsExactly(events: seq<Event>, b: Bucket)
    ensures var s := Run(events);
            var row := Content(s, b);
            row.total == row.input + row.output <==> AllFit(s.calls, b)
  {
    hide Run, Holds, AllFit, Content;
    BucketExact(events, b);
    RunMade(events);
    HoldsLoss(Run(events).calls, b);
  }

  // ----- Costs and prices -----

  /** Whenever a call for the model began, it had this price. */
  ghost predicate PricedAt(events: seq<Event>, model: string, p: Pricing) {
    forall i :: 0 <= i < |events| && events[i].Begin? && events[i].model == model ==>
      model in events[i].pricing && events[i].pricing[model] == p
  }

  ghost predicate CostsAt(calls: seq<Call>, model: string, p: Pricing) {
    forall i :: 0 <= i < |calls| && calls[i].record.model == model ==>
      calls[i].record.cost == Cost(p, calls[i].record.input, calls[i].record.output)
  }

  lemma {:induction false} RunCosts(events: seq<Event>, model: string, p: Pricing)
    requires PricedAt(events, model, p)
    ensures CostsAt(Run(events).calls, model, p)
    decreases |events|
  {
    hide Cost;
    if events != [] {
      var init := events[..|events| - 1];
      RunCosts(init, model, p);
      hide Run, Posted, Add;
      assert Run(events) == Apply(Run(init), events[|events| - 1]) by { RunSnoc(events); }
    }
  }

  lemma RunSnoc(events: seq<Event>)
    requires events != []
    ensures Run(events) == Apply(Run(events[..|events| - 1]), events[|events| - 1])
  {
  }

  lemma {:induction false} HoldsCost(calls: seq<Call>, model: string, p: Pricing)
    requires CostsAt(calls, model, p)
    ensures var row := Holds(calls, OfModel(model)); row.cost == Cost(p, row.input, row.output)
    decreases |calls|
  {
    if calls == [] {
      CostAdds(p, 0, 0, 0, 0);
    } else {
      var init, last := calls[..|calls| - 1], calls[|calls| - 1];
      HoldsCost(init, model, p);
      var row := Holds(init, OfModel(model));
      CostAdds(p, row.input, row.output, last.record.input, last.record.output);
      hide Cost;
    }
  }

  /**
   In every state of every run, what a model has cost is its price applied to the tokens of its bucket, however the
   tokens came in and whatever other prices changed.
   */
  lemma ModelCostExactly(events: seq<Event>, model: string, p: Pricing)
    requires PricedAt(events, model, p)
    ensures var row := Content(Run(events), OfModel(model));
            row.cost == row.input as real / 1000000.0 * p.inputPerMillion
                        + row.output as real / 1000000.0 * p.outputPerMillion
  {
    hide Run, Holds, Content, CostsAt, PricedAt;
    BucketExact(events, OfModel(model));
    RunCosts(events, model, p);
    HoldsCost(Run(events).calls, model, p);
  }
}

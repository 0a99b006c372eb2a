/**
 The rate windows of the model router over whole runs, compared with the full history of admissions.

 A run is the sequence of critical sections of the router's lock, each with the clock reading taken inside it.
 */
module HermesRouterRuns {
  import opened Text
  import opened HermesRouter

  // ----- One tier -----

  /** The first model that has room, judged by the counters as they were. */
  function FirstWithSlack(ms: seq<Profile>, cs: Counters, now: int): Option<Profile> {
    if ms == [] then None
    else if HasSlack(cs, ms[0], now) then Some(ms[0])
    else FirstWithSlack(ms[1..], cs, now)
  }

  /** Two sets of counters that no query at `now` or later can tell apart. */
  ghost predicate SameFrom(cs: Counters, cs': Counters, now: int) {
    forall id: string, from: int :: from >= now - WINDOW ==>
      CountFrom(Get(cs, id), from) == CountFrom(Get(cs', id), from)
  }

  lemma {:induction false} SameFirst(ms: seq<Profile>, cs: Counters, cs': Counters, earlier: int, now: int)
    requires SameFrom(cs, cs', earlier) && earlier <= now
    ensures FirstWithSlack(ms, cs, now) == FirstWithSlack(ms, cs', now)
  {
    if ms != [] { SameFirst(ms[1..], cs, cs', earlier, now); }
  }

  lemma EvictedSame(cs: Counters, id: string, now: int)
    ensures SameFrom(cs, cs[id := Evict(Get(cs, id), now)], now)
  {
    EvictCounts(Get(cs, id), now);
  }

  /** What one scan returns, and what it does to the counts: one admission, or nothing. */
  lemma {:induction false} PickExactly(ms: seq<Profile>, cs: Counters, now: int)
    ensures PickFrom(ms, cs, now).pick == FirstWithSlack(ms, cs, now)
    ensures PickFrom(ms, cs, now).pick.None? ==> SameFrom(cs, PickFrom(ms, cs, now).counters, now)
    ensures var p := PickFrom(ms, cs, now); p.pick.Some? ==> OneMore(cs, p.counters, p.pick.value.id, now)
    decreases |ms|
  {
    if ms != [] {
      var id := ms[0].id;
      var win := Evict(Get(cs, id), now);
      EvictCounts(Get(cs, id), now);
      if |win| < ms[0].rpmCap / 2 {
        AdmitCounts(cs, id, now);
      } else {
        var cs' := cs[id := win];
        EvictedSame(cs, id, now);
        hide CountFrom;
        SameFirst(ms[1..], cs, cs', now, now);
        PickExactly(ms[1..], cs', now);
      }
    }
  }

  /** `cs'` counts one sample more for `id`, taken at `now`. */
  ghost predicate OneMore(cs: Counters, cs': Counters, id: string, now: int) {
    forall k: string, from: int :: from >= now - WINDOW ==>
      CountFrom(Get(cs', k), from) == CountFrom(Get(cs, k), from) + if k == id && now >= from then 1 else 0
  }

  lemma AdmitCounts(cs: Counters, id: string, now: int)
    ensures OneMore(cs, cs[id := Evict(Evict(Get(cs, id), now) + [now], now)], id, now)
  {
    var win := Evict(Get(cs, id), now);
    EvictCounts(Get(cs, id), now);
    EvictCounts(win + [now], now);
    forall from: int | from >= now - WINDOW
      ensures CountFrom(Evict(win + [now], now), from) == CountFrom(Get(cs, id), from) + if now >= from then 1 else 0
    {
      CountAppend(win, [now], from);
      assert CountFrom([now], from) == if now >= from then 1 else 0;
    }
  }

  // ----- Degradation -----

  /** The highest tier at or below `tier` that has a model with room, and its first such model. */
  function BestAtOrBelow(reg: Registry, cs: Counters, tier: Tier, clock: Tier -> int): Option<Profile>
    decreases Rank(tier)
  {
    var here := FirstWithSlack(Candidates(reg, tier), cs, clock(tier));
    if here.Some? || Below(tier).None? then here else BestAtOrBelow(reg, cs, Below(tier).value, clock)
  }

  ghost predicate ClockForward(clock: Tier -> int) {
    clock(Top) <= clock(Mid) <= clock(Local)
  }

  lemma {:induction false} SameBest(
    reg: Registry, cs: Counters, cs': Counters, earlier: int, tier: Tier, clock: Tier -> int)
    requires SameFrom(cs, cs', earlier) && ClockForward(clock) && earlier <= clock(tier)
    ensures BestAtOrBelow(reg, cs, tier, clock) == BestAtOrBelow(reg, cs', tier, clock)
    decreases Rank(tier)
  {
    hide SameFrom, FirstWithSlack;
    SameFirst(Candidates(reg, tier), cs, cs', earlier, clock(tier));
    if Below(tier).Some? { SameBest(reg, cs, cs', earlier, Below(tier).value, clock); }
  }

  lemma SameFromLater(a: Counters, b: Counters, c: Counters, t1: int, t2: int)
    requires SameFrom(a, b, t1) && SameFrom(b, c, t2) && t1 <= t2
    ensures SameFrom(a, c, t2)
  {
  }

  lemma OneMoreLater(a: Counters, b: Counters, c: Counters, id: string, t1: int, t2: int)
    requires SameFrom(a, b, t1) && OneMore(b, c, id, t2) && t1 <= t2
    ensures OneMore(a, c, id, t2)
  {
  }

  /** The instant at which the last tier of an unsuccessful or successful request was tried. */
  function TriedAt(tier: Option<Profile>, clock: Tier -> int): int {
    if tier.Some? then clock(tier.value.tier) else clock(Local)
  }

  ghost predicate TiersRight(reg: Registry) {
    forall t :: t in reg ==> forall i :: 0 <= i < |reg[t]| ==> reg[t][i].tier == t
  }

  /** The registry after registering models one after another. */
  function RegisterAll(ms: seq<Profile>): Registry
    decreases |ms|
  {
    if ms == [] then map[] else WithModel(RegisterAll(ms[..|ms| - 1]), ms[|ms| - 1])
  }

  function OfTier(ms: seq<Profile>, tier: Tier): seq<Profile>
    decreases |ms|
  {
    if ms == [] then []
    else
      var last := ms[|ms| - 1];
      OfTier(ms[..|ms| - 1], tier) + if last.tier == tier then [last] else []
  }

  /** Whatever is registered, every tier lists exactly its own models, in the order of registration. */
  lemma {:induction false} RegisteredRight(ms: seq<Profile>)
    ensures TiersRight(RegisterAll(ms))
    ensures forall tier :: Candidates(RegisterAll(ms), tier) == OfTier(ms, tier)
    decreases |ms|
  {
    if ms != [] { RegisteredRight(ms[..|ms| - 1]); }
  }

  /**
   A request gets the first model with room in the highest tier at or below the desired one that has any, judged
   by the counters before the request; it fails exactly when no tier has any. It leaves one admission, or none.
   */
  lemma {:induction false} RouteExactly(reg: Registry, cs: Counters, tier: Tier, clock: Tier -> int)
    requires ClockForward(clock) && TiersRight(reg)
    ensures var p := RouteFrom(reg, cs, tier, clock);
            && p.pick == BestAtOrBelow(reg, cs, tier, clock)
            && (p.pick.None? ==> SameFrom(cs, p.counters, clock(Local)))
            && (p.pick.Some? ==> OneMore(cs, p.counters, p.pick.value.id, TriedAt(p.pick, clock)))
    decreases Rank(tier)
  {
    var ms := Candidates(reg, tier);
    PickExactly(ms, cs, clock(tier));
    FirstIsListed(ms, cs, clock(tier));
    hide SameFrom, OneMore, PickFrom, FirstWithSlack;
    var p := PickFrom(ms, cs, clock(tier));
    if p.pick.None? && Below(tier).Some? {
      var next := Below(tier).value;
      var q := RouteFrom(reg, p.counters, next, clock);
      SameBest(reg, cs, p.counters, clock(tier), next, clock);
      RouteExactly(reg, p.counters, next, clock);
      BestTier(reg, p.counters, next, clock);
      if q.pick.None? {
        SameFromLater(cs, p.counters, q.counters, clock(tier), clock(Local));
      } else {
        OneMoreLater(cs, p.counters, q.counters, q.pick.value.id, clock(tier), TriedAt(q.pick, clock));
      }
    }
  }

  lemma {:induction false} FirstIsListed(ms: seq<Profile>, cs: Counters, now: int)
    ensures var r := FirstWithSlack(ms, cs, now); r.Some? ==> r.value in ms && HasSlack(cs, r.value, now)
    ensures FirstWithSlack(ms, cs, now).None? <==> forall m :: m in ms ==> !HasSlack(cs, m, now)
  {
    if ms != [] {
      assert ms == [ms[0]] + ms[1..];
      FirstIsListed(ms[1..], cs, now);
    }
  }

  /** The model is the first of the list that has room. */
  ghost predicate FirstRoom(ms: seq<Profile>, cs: Counters, now: int, m: Profile) {
    exists j :: 0 <= j < |ms| && ms[j] == m && HasRoom(cs, ms[j], now) && NoRoom(ms[..j], cs, now)
  }

  /** Fewer requests than half the cap in the last 60 seconds. */
  predicate HasRoom(cs: Counters, m: Profile, now: int) {
    CountFrom(Get(cs, m.id), now - 60_000_000_000) < m.rpmCap / 2
  }

  ghost predicate NoRoom(ms: seq<Profile>, cs: Counters, now: int) {
    forall i :: 0 <= i < |ms| ==> !HasRoom(cs, ms[i], now)
  }

  lemma {:induction false} FirstExactly(ms: seq<Profile>, cs: Counters, now: int)
    ensures var r := FirstWithSlack(ms, cs, now);
            if r.Some? then FirstRoom(ms, cs, now, r.value) else NoRoom(ms, cs, now)
  {
    if ms != [] {
      FirstExactly(ms[1..], cs, now);
      hide HasRoom;
      assert HasSlack(cs, ms[0], now) <==> HasRoom(cs, ms[0], now) by { SameRoom(cs, ms[0], now); }
      hide HasSlack;
      assert forall i :: 0 < i < |ms| ==> ms[i] == ms[1..][i - 1];
      if !HasRoom(cs, ms[0], now) && FirstWithSlack(ms[1..], cs, now).Some? {
        var rest := ms[1..];
        var m := FirstWithSlack(rest, cs, now).value;
        var j :| 0 <= j < |rest| && rest[j] == m && HasRoom(cs, rest[j], now) && NoRoom(rest[..j], cs, now);
        assert ms[j + 1] == m && ms[..j + 1] == [ms[0]] + rest[..j];
      }
    }
  }

  lemma SameRoom(cs: Counters, m: Profile, now: int)
    ensures HasSlack(cs, m, now) <==> HasRoom(cs, m, now)
  {
  }

  /**
   What a request gets, tier by tier. A complex one gets the first Top model with room, else the first Mid one, else
   the first Local one; a standard one starts at Mid and a trivial one at Local. It fails when those tiers have no
   room, with the tier it started at.
   */
  lemma RequestExactly(reg: Registry, cs: Counters, complexity: Complexity, clock: Tier -> int)
    requires ClockForward(clock) && TiersRight(reg)
    ensures var r := RouteRequest(reg, cs, complexity, clock).0;
            var top, mid, low := Candidates(reg, Top), Candidates(reg, Mid), Candidates(reg, Local);
            if complexity == Complex && !NoRoom(top, cs, clock(Top)) then
              r.Ok? && FirstRoom(top, cs, clock(Top), r.value)
            else if complexity != Trivial && !NoRoom(mid, cs, clock(Mid)) then
              r.Ok? && FirstRoom(mid, cs, clock(Mid), r.value)
            else if !NoRoom(low, cs, clock(Local)) then r.Ok? && FirstRoom(low, cs, clock(Local), r.value)
            else r == Err(if complexity == Complex then Top else if complexity == Standard then Mid else Local)
  {
    var top, mid, low := Candidates(reg, Top), Candidates(reg, Mid), Candidates(reg, Local);
    RouteExactly(reg, cs, DesiredTier(complexity), clock);
    FirstExactly(top, cs, clock(Top));
    FirstExactly(mid, cs, clock(Mid));
    FirstExactly(low, cs, clock(Local));
    RoomOrNot(top, cs, clock(Top));
    RoomOrNot(mid, cs, clock(Mid));
    RoomOrNot(low, cs, clock(Local));
    hide FirstRoom, NoRoom, FirstWithSlack, RouteFrom, Candidates, TiersRight, SameFrom, OneMore;
  }

  lemma RoomOrNot(ms: seq<Profile>, cs: Counters, now: int)
    ensures forall m :: FirstRoom(ms, cs, now, m) ==> !NoRoom(ms, cs, now)
  {
  }

  lemma {:induction false} BestTier(reg: Registry, cs: Counters, tier: Tier, clock: Tier -> int)
    requires TiersRight(reg)
    ensures var r := BestAtOrBelow(reg, cs, tier, clock); r.Some? ==> Rank(r.value.tier) <= Rank(tier)
    decreases Rank(tier)
  {
    FirstIsListed(Candidates(reg, tier), cs, clock(tier));
    hide FirstWithSlack;
    if Below(tier).Some? { BestTier(reg, cs, Below(tier).value, clock); }
  }

  // ----- Runs -----

  datatype Step =
    | Try(tier: Tier, now: int)
    | Throttle(id: string, now: int)

  datatype Admission = Admission(id: string, time: int)

  /** The counters, and everything that was ever admitted. */
  datatype State = State(counters: Counters, log: seq<Admission>)

  function Apply(reg: Registry, s: State, step: Step): State {
    match step
    case Try(tier, now) =>
      var p := PickFrom(Candidates(reg, tier), s.counters, now);
      State(p.counters, if p.pick.Some? then s.log + [Admission(p.pick.value.id, now)] else s.log)
    case Throttle(id, now) => s.(counters := Throttled(s.counters, id, now))
  }

  function Run(reg: Registry, s: State, steps: seq<Step>): State
    decreases |steps|
  {
    if steps == [] then s else Apply(reg, Run(reg, s, steps[..|steps| - 1]), steps[|steps| - 1])
  }

  /** Clock readings do not go back, and none is before `start`. */
  ghost predicate Forward(steps: seq<Step>, start: int) {
    && (forall i :: 0 <= i < |steps| ==> start <= steps[i].now)
    && (forall i, j :: 0 <= i < j < |steps| ==> steps[i].now <= steps[j].now)
  }

  /** Admissions of `id` not before `from`. */
  function AdmittedFrom(log: seq<Admission>, id: string, from: int): nat {
    if log == [] then 0
    else
      var init, last := log[..|log| - 1], log[|log| - 1];
      AdmittedFrom(init, id, from) + if last.id == id && last.time >= from then 1 else 0
  }

  /** Admissions of `id` in the closed minute that starts at `from`, in nanoseconds. */
  function InMinute(log: seq<Admission>, id: string, from: int): nat {
    if log == [] then 0
    else InMinute(log[..|log| - 1], id, from)
         + if log[|log| - 1].id == id && from <= log[|log| - 1].time <= from + 60_000_000_000 then 1 else 0
  }

  lemma {:induction false} MinuteIsFrom(log: seq<Admission>, id: string, from: int)
    ensures InMinute(log, id, from) <= AdmittedFrom(log, id, from)
  {
    if log != [] { MinuteIsFrom(log[..|log| - 1], id, from); }
  }

  /** The evicted windows still count every admission of the last minute. */
  ghost predicate Covers(s: State, now: int) {
    forall id: string, from: int :: from >= now - WINDOW ==>
      AdmittedFrom(s.log, id, from) <= CountFrom(Get(s.counters, id), from)
  }

  lemma CoversLater(s: State, earlier: int, now: int)
    requires Covers(s, earlier) && earlier <= now
    ensures Covers(s, now)
  {
  }

  lemma CoversStep(reg: Registry, s: State, step: Step)
    requires Covers(s, step.now)
    ensures Covers(Apply(reg, s, step), step.now)
  {
    match step
    case Try(tier, now) =>
      PickExactly(Candidates(reg, tier), s.counters, now);
      hide PickFrom, FirstWithSlack, CountFrom;
      var p := PickFrom(Candidates(reg, tier), s.counters, now);
      if p.pick.Some? {
        var log := s.log + [Admission(p.pick.value.id, now)];
        assert log[..|log| - 1] == s.log;
      }
    case Throttle(id, now) =>
      var before := Get(s.counters, id);
      forall from: int ensures CountFrom(before + seq(THROTTLE, _ => now), from) >= CountFrom(before, from) {
        CountAppend(before, seq(THROTTLE, _ => now), from);
      }
  }

  ghost predicate Registered(reg: Registry, m: Profile) {
    exists t :: t in reg && m in reg[t]
  }

  /** A model id stands for one cap, also when it is registered more than once. */
  ghost predicate CapsAgree(reg: Registry) {
    forall a, b :: Registered(reg, a) && Registered(reg, b) && a.id == b.id ==> a.rpmCap == b.rpmCap
  }

  ghost predicate WithinCaps(reg: Registry, log: seq<Admission>) {
    forall m: Profile, from: int :: Registered(reg, m) ==> InMinute(log, m.id, from) <= m.rpmCap / 2
  }

  /** An admission of a model with room stays within every cap. */
  lemma AdmitWithinCaps(reg: Registry, s: State, m: Profile, now: int)
    requires CapsAgree(reg) && Covers(s, now) && WithinCaps(reg, s.log)
    requires Registered(reg, m) && HasSlack(s.counters, m, now)
    ensures WithinCaps(reg, s.log + [Admission(m.id, now)])
  {
    hide CountFrom, AdmittedFrom, Registered;
    var log := s.log + [Admission(m.id, now)];
    assert log[..|log| - 1] == s.log;
    forall a: Profile, from: int | Registered(reg, a) ensures InMinute(log, a.id, from) <= a.rpmCap / 2 {
      if a.id == m.id && from <= now <= from + WINDOW {
        MinuteIsFrom(s.log, m.id, from);
        CountAntitone(Get(s.counters, m.id), now - WINDOW, from);
      }
    }
  }

  lemma WithinCapsStep(reg: Registry, s: State, step: Step)
    requires CapsAgree(reg) && Covers(s, step.now) && WithinCaps(reg, s.log)
    ensures WithinCaps(reg, Apply(reg, s, step).log)
  {
    hide PickFrom, FirstWithSlack, HasSlack, SameFrom, OneMore, WithinCaps, CapsAgree, Covers;
    if step.Try? {
      var ms := Candidates(reg, step.tier);
      PickExactly(ms, s.counters, step.now);
      FirstIsListed(ms, s.counters, step.now);
      var p := PickFrom(ms, s.counters, step.now);
      if p.pick.Some? {
        assert Registered(reg, p.pick.value);
        AdmitWithinCaps(reg, s, p.pick.value, step.now);
      }
    }
  }

  lemma {:induction false} RunCovers(reg: Registry, steps: seq<Step>, start: int)
    requires CapsAgree(reg) && Forward(steps, start)
    ensures var s := Run(reg, State(map[], []), steps);
            && Covers(s, if steps == [] then start else steps[|steps| - 1].now)
            && WithinCaps(reg, s.log)
    decreases |steps|
  {
    if steps != [] {
      var init, last := steps[..|steps| - 1], steps[|steps| - 1];
      RunCovers(reg, init, start);
      var s := Run(reg, State(map[], []), init);
      hide Covers, WithinCaps, Apply;
      CoversLater(s, if init == [] then start else init[|init| - 1].now, last.now);
      CoversStep(reg, s, last);
      WithinCapsStep(reg, s, last);
    }
  }

  /** No model is ever admitted more often than half its cap in any closed minute of any run. */
  lemma RateBound(reg: Registry, steps: seq<Step>, start: int, m: Profile, from: int)
    requires CapsAgree(reg) && Forward(steps, start) && Registered(reg, m)
    ensures InMinute(Run(reg, State(map[], []), steps).log, m.id, from) <= m.rpmCap / 2
  {
    hide InMinute, Run;
    RunCovers(reg, steps, start);
  }

  // ----- Throttling -----

  /** Right after being throttled a model has room exactly when half its cap exceeds the pushed samples. */
  lemma ThrottleStopsExactly(cs: Counters, m: Profile, now: int)
    ensures HasSlack(Throttled(cs, m.id, now), m, now)
       <==> CountFrom(Get(cs, m.id), now - 60_000_000_000) + 1024 < m.rpmCap / 2
  {
    CountAppend(Get(cs, m.id), seq(THROTTLE, _ => now), now - WINDOW);
    CountRepeat(THROTTLE, now, now - WINDOW);
  }

  /** `after` continues `s` without any admission of `id`. */
  ghost predicate Skipped(s: State, after: State, id: string) {
    s.log <= after.log && forall i :: |s.log| <= i < |after.log| ==> after.log[i].id != id
  }

  lemma FullStep(reg: Registry, s: State, step: Step, id: string, since: int, full: nat)
    requires CountFrom(Get(s.counters, id), since) >= full && step.now <= since + WINDOW
    requires forall m :: Registered(reg, m) && m.id == id ==> m.rpmCap / 2 <= full
    ensures CountFrom(Get(Apply(reg, s, step).counters, id), since) >= full
    ensures Skipped(s, Apply(reg, s, step), id)
  {
    match step
    case Try(tier, now) =>
      var ms := Candidates(reg, tier);
      PickExactly(ms, s.counters, now);
      FirstIsListed(ms, s.counters, now);
      CountAntitone(Get(s.counters, id), now - WINDOW, since);
      hide PickFrom, FirstWithSlack;
      var p := PickFrom(ms, s.counters, now);
      if p.pick.Some? { assert Registered(reg, p.pick.value); }
    case Throttle(k, now) =>
      CountAppend(Get(s.counters, k), seq(THROTTLE, _ => now), since);
  }

  lemma ThrottledCount(cs: Counters, id: string, since: int)
    ensures CountFrom(Get(Throttled(cs, id, since), id), since) == CountFrom(Get(cs, id), since) + THROTTLE
  {
    CountAppend(Get(cs, id), seq(THROTTLE, _ => since), since);
    CountRepeat(THROTTLE, since, since);
  }

  /**
   For a minute after it is throttled a model gets nothing, if half its cap is at most the pushed samples and the
   others of that very instant.
   */
  lemma {:induction false} ThrottledIsSkipped(reg: Registry, s: State, steps: seq<Step>, id: string, since: int)
    requires forall m :: Registered(reg, m) && m.id == id ==>
               m.rpmCap / 2 <= CountFrom(Get(s.counters, id), since) + 1024
    requires forall i :: 0 <= i < |steps| ==> steps[i].now <= since + 60_000_000_000
    ensures var after := Run(reg, Apply(reg, s, Throttle(id, since)), steps);
            && CountFrom(Get(after.counters, id), since) >= CountFrom(Get(s.counters, id), since) + 1024
            && Skipped(s, after, id)
    decreases |steps|
  {
    ThrottledCount(s.counters, id, since);
    if steps != [] {
      var init := steps[..|steps| - 1];
      ThrottledIsSkipped(reg, s, init, id, since);
      var mid := Run(reg, Apply(reg, s, Throttle(id, since)), init);
      var full := CountFrom(Get(s.counters, id), since) + THROTTLE;
      hide Apply, CountFrom, Registered;
      FullStep(reg, mid, steps[|steps| - 1], id, since, full);
    }
  }

  /** Steps of the minute that starts at `since`. */
  ghost predicate OfMinute(steps: seq<Step>, since: int) {
    Forward(steps, since) && forall i :: 0 <= i < |steps| ==> steps[i].now <= since + 60_000_000_000
  }

  // ----- Making earlier models of a tier full -----

  lemma RunSnoc(reg: Registry, s: State, steps: seq<Step>, x: Step)
    ensures Run(reg, s, steps + [x]) == Apply(reg, Run(reg, s, steps), x)
  {
    assert (steps + [x])[..|steps|] == steps;
  }

  /** Only throttling of other models than `id`, all at one instant. */
  ghost predicate ThrottlesOnly(steps: seq<Step>, id: string, now: int) {
    forall i :: 0 <= i < |steps| ==> steps[i].Throttle? && steps[i].now == now && steps[i].id != id
  }

  /** Throttling leaves the history alone and never lowers a count; that of the other model stays as it is. */
  lemma {:induction false} ThrottlesRun(reg: Registry, s: State, steps: seq<Step>, id: string, now: int)
    requires ThrottlesOnly(steps, id, now)
    ensures var s' := Run(reg, s, steps);
            && s'.log == s.log && Get(s'.counters, id) == Get(s.counters, id)
            && forall k: string, from: int ::
                 CountFrom(Get(s'.counters, k), from) >= CountFrom(Get(s.counters, k), from)
    decreases |steps|
  {
    if steps != [] {
      var init, last := steps[..|steps| - 1], steps[|steps| - 1];
      ThrottlesRun(reg, s, init, id, now);
      var before := Run(reg, s, init).counters;
      forall from: int {
        CountAppend(Get(before, last.id), seq(THROTTLE, _ => now), from);
      }
    }
  }

  /** A model can be throttled until its window holds any number of samples. */
  lemma {:induction false} Fill(reg: Registry, s: State, k: string, id: string, now: int, n: nat)
    returns (steps: seq<Step>)
    requires k != id
    ensures ThrottlesOnly(steps, id, now) && CountFrom(Get(Run(reg, s, steps).counters, k), now) >= n
    decreases n
  {
    if n == 0 {
      steps := [];
    } else {
      var init := Fill(reg, s, k, id, now, n - 1);
      steps := init + [Throttle(k, now)];
      hide Run;
      RunSnoc(reg, s, init, Throttle(k, now));
      ThrottledCount(Run(reg, s, init).counters, k, now);
    }
  }

  lemma {:induction false} RunAppend(reg: Registry, s: State, a: seq<Step>, b: seq<Step>)
    ensures Run(reg, s, a + b) == Run(reg, Run(reg, s, a), b)
    decreases |b|
  {
    hide Apply;
    if b == [] {
      assert a + b == a;
    } else {
      assert (a + b)[..|a + b| - 1] == a + b[..|b| - 1];
      RunAppend(reg, s, a, b[..|b| - 1]);
    }
  }

  /** All these models can be made full, while the count of another one stays as it is. */
  lemma {:induction false} FillAll(reg: Registry, s: State, ms: seq<Profile>, id: string, now: int)
    returns (steps: seq<Step>)
    requires forall a :: a in ms ==> a.id != id
    ensures ThrottlesOnly(steps, id, now)
    ensures forall a :: a in ms ==> CountFrom(Get(Run(reg, s, steps).counters, a.id), now) >= a.rpmCap / 2
    decreases |ms|
  {
    if ms == [] {
      steps := [];
    } else {
      var first := Fill(reg, s, ms[0].id, id, now, ms[0].rpmCap / 2);
      var s1 := Run(reg, s, first);
      var more := FillAll(reg, s1, ms[1..], id, now);
      steps := first + more;
      RunAppend(reg, s, first, more);
      ThrottlesRun(reg, s1, more, id, now);
      hide Run, CountFrom;
      assert ms == [ms[0]] + ms[1..];
      assert forall i :: |first| <= i < |steps| ==> steps[i] == more[i - |first|];
    }
  }

  /** Position of the first model with this id. */
  lemma {:induction false} FirstOf(ms: seq<Profile>, m: Profile) returns (j: nat)
    requires m in ms
    ensures j < |ms| && ms[j].id == m.id && forall a :: a in ms[..j] ==> a.id != m.id
  {
    if ms[0].id == m.id {
      j := 0;
    } else {
      j := FirstOf(ms[1..], m);
      assert ms[..j + 1] == [ms[0]] + ms[1..][..j];
      j := j + 1;
    }
  }

  lemma {:induction false} FirstIsThis(ms: seq<Profile>, cs: Counters, now: int, j: nat)
    requires j < |ms| && HasSlack(cs, ms[j], now) && forall a :: a in ms[..j] ==> !HasSlack(cs, a, now)
    ensures FirstWithSlack(ms, cs, now) == Some(ms[j])
    decreases j
  {
    hide HasSlack;
    if j > 0 {
      assert ms[0] in ms[..j];
      assert forall a :: a in ms[1..][..j - 1] ==> a in ms[..j];
      FirstIsThis(ms[1..], cs, now, j - 1);
    }
  }

  /** A throttled model that has room at the end of the minute gets a request then, if those before it are full. */
  lemma LastChance(reg: Registry, s: State, m: Profile, since: int) returns (steps: seq<Step>)
    requires CapsAgree(reg) && Registered(reg, m)
    requires m.rpmCap / 2 > CountFrom(Get(s.counters, m.id), since) + THROTTLE
    ensures OfMinute(steps, since) && !Skipped(s, Run(reg, Apply(reg, s, Throttle(m.id, since)), steps), m.id)
  {
    var throttled := Apply(reg, s, Throttle(m.id, since));
    var end := since + WINDOW;
    var tier :| tier in reg && m in reg[tier];
    var j := FirstOf(reg[tier], m);
    assert Registered(reg, reg[tier][j]);
    var fill := FillAll(reg, throttled, reg[tier][..j], m.id, end);
    ThrottlesRun(reg, throttled, fill, m.id, end);
    ThrottledCount(s.counters, m.id, since);
    var full := Run(reg, throttled, fill);
    hide Run, Apply, HasSlack;
    assert HasSlack(full.counters, reg[tier][j], end) by { RoomAtEnd(full.counters, reg[tier][j], end); }
    forall a | a in reg[tier][..j] ensures !HasSlack(full.counters, a, end) { FullAtEnd(full.counters, a, end); }
    Admitted(reg, full, tier, j, end);
    steps := fill + [Try(tier, end)];
    RunSnoc(reg, throttled, fill, Try(tier, end));
    assert Run(reg, throttled, steps).log[|s.log|] == Admission(m.id, end);
  }

  lemma RoomAtEnd(cs: Counters, m: Profile, now: int)
    ensures CountFrom(Get(cs, m.id), now - WINDOW) < m.rpmCap / 2 ==> HasSlack(cs, m, now)
  {
  }

  lemma FullAtEnd(cs: Counters, m: Profile, now: int)
    requires CountFrom(Get(cs, m.id), now) >= m.rpmCap / 2
    ensures !HasSlack(cs, m, now)
  {
    CountAntitone(Get(cs, m.id), now - WINDOW, now);
  }

  lemma Admitted(reg: Registry, s: State, tier: Tier, j: nat, now: int)
    requires tier in reg && j < |reg[tier]| && HasSlack(s.counters, reg[tier][j], now)
    requires forall a :: a in reg[tier][..j] ==> !HasSlack(s.counters, a, now)
    ensures Apply(reg, s, Try(tier, now)).log == s.log + [Admission(reg[tier][j].id, now)]
  {
    hide HasSlack;
    FirstIsThis(reg[tier], s.counters, now, j);
    PickExactly(reg[tier], s.counters, now);
  }

  /**
   Throttling keeps a model from every request of the next minute exactly when half its cap is at most the pushed
   samples and those of that very instant; otherwise some run of the minute gets it.
   */
  lemma ThrottledMinuteExactly(reg: Registry, s: State, m: Profile, since: int)
    requires CapsAgree(reg) && Registered(reg, m)
    ensures (forall steps :: OfMinute(steps, since) ==>
                Skipped(s, Run(reg, Apply(reg, s, Throttle(m.id, since)), steps), m.id))
       <==> m.rpmCap / 2 <= CountFrom(Get(s.counters, m.id), since) + 1024
  {
    var throttled := Apply(reg, s, Throttle(m.id, since));
    hide Skipped, CountFrom, Run, Apply;
    if m.rpmCap / 2 <= CountFrom(Get(s.counters, m.id), since) + 1024 {
      forall steps | OfMinute(steps, since) ensures Skipped(s, Run(reg, throttled, steps), m.id) {
        ThrottledIsSkipped(reg, s, steps, m.id, since);
      }
    } else {
      var steps := LastChance(reg, s, m, since);
    }
  }
}

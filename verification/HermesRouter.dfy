/**
 The model router of cave-hermes: per-model sliding rate windows and degradation from tier to tier.

 Instants are integers, in nanoseconds. A clock reading is a parameter of every step that takes one.
 */
module HermesRouter {
  import opened Text

  datatype Tier = Local | Mid | Top

  datatype Profile = Profile(id: string, provider: string, tier: Tier, rpmCap: nat)

  datatype Complexity = Trivial | Standard | Complex

  function DesiredTier(c: Complexity): Tier {
    match c
    case Trivial => Local
    case Standard => Mid
    case Complex => Top
  }

  function Below(t: Tier): Option<Tier> {
    match t
    case Top => Some(Mid)
    case Mid => Some(Local)
    case Local => None
  }

  const WINDOW: nat := 60_000_000_000

  /** Samples pushed for a throttled model. */
  const THROTTLE: nat := 1024

  type Samples = seq<int>
  type Counters = map<string, Samples>
  type Registry = map<Tier, seq<Profile>>

  function Evict(s: Samples, now: int): Samples {
    if s == [] then []
    else if s[0] >= now - WINDOW then [s[0]] + Evict(s[1..], now)
    else Evict(s[1..], now)
  }

  function Get(cs: Counters, id: string): Samples {
    if id in cs then cs[id] else []
  }

  function Candidates(reg: Registry, tier: Tier): seq<Profile> {
    if tier in reg then reg[tier] else []
  }

  /** The registry after one more model: last in its tier. */
  function WithModel(reg: Registry, m: Profile): Registry {
    reg[m.tier := Candidates(reg, m.tier) + [m]]
  }

  /** Number of samples not older than `from`. */
  function CountFrom(s: Samples, from: int): nat {
    if s == [] then 0 else (if s[0] >= from then 1 else 0) + CountFrom(s[1..], from)
  }

  predicate HasSlack(cs: Counters, m: Profile, now: int) {
    CountFrom(Get(cs, m.id), now - WINDOW) < m.rpmCap / 2
  }

  datatype Picked = Picked(pick: Option<Profile>, counters: Counters)

  /** The scan over the candidates of one tier, at one instant. */
  function PickFrom(ms: seq<Profile>, cs: Counters, now: int): Picked
    decreases |ms|
  {
    if ms == [] then Picked(None, cs)
    else
      var win := Evict(Get(cs, ms[0].id), now);
      if |win| < ms[0].rpmCap / 2 then Picked(Some(ms[0]), cs[ms[0].id := Evict(win + [now], now)])
      else PickFrom(ms[1..], cs[ms[0].id := win], now)
  }

  function Throttled(cs: Counters, id: string, now: int): Counters {
    cs[id := Get(cs, id) + seq(THROTTLE, _ => now)]
  }

  function Rank(t: Tier): nat {
    match t
    case Local => 0
    case Mid => 1
    case Top => 2
  }

  /** The degradation loop; `clock` gives the instant at which each tier is tried. */
  function RouteFrom(reg: Registry, cs: Counters, tier: Tier, clock: Tier -> int): Picked
    decreases Rank(tier)
  {
    var p := PickFrom(Candidates(reg, tier), cs, clock(tier));
    if p.pick.Some? || Below(tier).None? then p else RouteFrom(reg, p.counters, Below(tier).value, clock)
  }

  /** One request: the model, or the tier named in the error, and the new counters. */
  function RouteRequest(reg: Registry, cs: Counters, complexity: Complexity, clock: Tier -> int)
    : (Result<Profile, Tier>, Counters)
  {
    var desired := DesiredTier(complexity);
    var p := RouteFrom(reg, cs, desired, clock);
    (if p.pick.Some? then Ok(p.pick.value) else Err(desired), p.counters)
  }

  // ----- Counting -----

  lemma {:induction false} EvictCounts(s: Samples, now: int)
    ensures |Evict(s, now)| == CountFrom(s, now - WINDOW)
    ensures forall from :: from >= now - WINDOW ==> CountFrom(Evict(s, now), from) == CountFrom(s, from)
  {
    if s != [] {
      EvictCounts(s[1..], now);
      forall from | from >= now - WINDOW ensures CountFrom(Evict(s, now), from) == CountFrom(s, from) {
        if s[0] >= now - WINDOW { assert Evict(s, now)[1..] == Evict(s[1..], now); }
      }
    }
  }

  lemma {:induction false} CountAppend(s: Samples, t: Samples, from: int)
    ensures CountFrom(s + t, from) == CountFrom(s, from) + CountFrom(t, from)
  {
    if s == [] { assert s + t == t; } else { assert (s + t)[1..] == s[1..] + t; CountAppend(s[1..], t, from); }
  }

  lemma {:induction false} CountRepeat(n: nat, now: int, from: int)
    ensures CountFrom(seq(n, _ => now), from) == if now >= from then n else 0
  {
    if n > 0 {
      assert seq(n, _ => now)[1..] == seq(n - 1, _ => now);
      CountRepeat(n - 1, now, from);
    }
  }

  lemma {:induction false} CountAntitone(s: Samples, a: int, b: int)
    requires a <= b
    ensures CountFrom(s, b) <= CountFrom(s, a)
  {
    if s != [] { CountAntitone(s[1..], a, b); }
  }

  // ----- The router -----

  class ModelRouter {
    var byTier: Registry
    var counters: Counters

    constructor ()
      ensures byTier == map[] && counters == map[]
    {
      byTier := map[];
      counters := map[];
    }

    method Register(m: Profile)
      modifies this`byTier
      ensures byTier == WithModel(old(byTier), m)
    {
      byTier := byTier[m.tier := Candidates(byTier, m.tier) + [m]];
    }

    method EvictWindow(id: string, now: int) returns (n: nat)
      modifies this`counters
      ensures counters == old(counters)[id := Evict(Get(old(counters), id), now)]
      ensures n == |counters[id]|
    {
      var old_ := Get(counters, id);
      var kept := [];
      assert old_[0..] == old_;
      for i := 0 to |old_|
        invariant counters == old(counters)
        invariant kept + Evict(old_[i..], now) == Evict(old_, now)
      {
        assert old_[i..][1..] == old_[i + 1..];
        if old_[i] >= now - WINDOW {
          kept := kept + [old_[i]];
        }
      }
      assert kept + [] == kept;
      counters := counters[id := kept];
      n := |kept|;
    }

    /** `slack` is the room left after this admission, as put into the decision's reason. */
    method PickInTier(tier: Tier, now: int) returns (pick: Option<Profile>, slack: nat)
      modifies this`counters
      ensures Picked(pick, counters) == PickFrom(Candidates(byTier, tier), old(counters), now)
      ensures pick.Some? ==> slack == pick.value.rpmCap / 2 - CountFrom(Get(counters, pick.value.id), now - WINDOW)
    {
      hide Evict, CountFrom, Candidates;
      var ms := Candidates(byTier, tier);
      slack := 0;
      ghost var goal := PickFrom(ms, counters, now);
      assert ms[0..] == ms;
      for i := 0 to |ms|
        invariant goal == PickFrom(ms[i..], counters, now)
      {
        var m := ms[i];
        assert ms[i..][1..] == ms[i + 1..];
        ghost var before := counters;
        EvictTwice(Get(counters, m.id), now);
        var n := EvictWindow(m.id, now);
        ghost var win := counters[m.id];
        if n < m.rpmCap / 2 {
          counters := counters[m.id := counters[m.id] + [now]];
          EvictIdle(win, now);
          n := EvictWindow(m.id, now);
          n := EvictWindow(m.id, now);
          assert counters == before[m.id := Evict(win + [now], now)];
          EvictCounts(counters[m.id], now);
          return Some(m), m.rpmCap / 2 - n;
        }
      }
      pick := None;
    }

    method Route(complexity: Complexity, clock: Tier -> int) returns (r: Result<Profile, Tier>)
      modifies this`counters
      ensures (r, counters) == RouteRequest(byTier, old(counters), complexity, clock)
    {
      var desired := DesiredTier(complexity);
      ghost var goal := RouteFrom(byTier, counters, desired, clock);
      while true
        invariant goal == RouteFrom(byTier, counters, desired, clock)
        decreases Rank(desired)
      {
        var pick, slack := PickInTier(desired, clock(desired));
        if pick.Some? {
          return Ok(pick.value);
        }
        match desired {
          case Top => desired := Mid;
          case Mid => desired := Local;
          case Local => return Err(DesiredTier(complexity));
        }
      }
    }

    method MarkThrottled(id: string, now: int)
      modifies this`counters
      ensures counters == Throttled(old(counters), id, now)
    {
      var win := Get(counters, id);
      for k := 0 to THROTTLE
        invariant counters == old(counters)
        invariant win == Get(counters, id) + seq(k, _ => now)
      {
        win := win + [now];
      }
      counters := counters[id := win];
    }
  }

  /** A second eviction at the same instant finds nothing, and the new sample is kept. */
  lemma EvictIdle(win: Samples, now: int)
    ensures |Evict(win + [now], now)| == |Evict(win, now)| + 1
    ensures Evict(Evict(win + [now], now), now) == Evict(win + [now], now)
  {
    EvictCounts(win, now);
    EvictCounts(win + [now], now);
    CountAppend(win, [now], now - WINDOW);
    assert CountFrom([now], now - WINDOW) == 1;
    EvictTwice(win + [now], now);
  }

  lemma {:induction false} EvictTwice(s: Samples, now: int)
    ensures Evict(Evict(s, now), now) == Evict(s, now)
  {
    if s != [] {
      EvictTwice(s[1..], now);
      if s[0] >= now - WINDOW { assert Evict(s, now)[1..] == Evict(s[1..], now); }
    }
  }
}

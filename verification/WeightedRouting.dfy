/**
 Weighted provider selection in cave-llm-gateway: a shared counter, reduced modulo the total weight, picks a
 provider by cumulative weight. Weights and sums are 32-bit; the counter is cut to 32 bits.
 */
module WeightedRouting {
  import opened Machine
  import opened Text

  type Weights = seq<nat>

  function Sum(ws: Weights): nat {
    if ws == [] then 0 else ws[0] + Sum(ws[1..])
  }

  /** The 32-bit addition of a release build. */
  function Add32(a: nat, b: nat): nat {
    (a + b) % TWO32
  }

  function Sum32(ws: Weights, acc: nat): nat {
    if ws == [] then acc else Sum32(ws[1..], Add32(acc, ws[0]))
  }

  /** First provider whose cumulative weight exceeds `idx`. */
  function Search(ws: Weights, idx: nat, cumulative: nat): Option<nat> {
    if ws == [] then None
    else
      var c := Add32(cumulative, ws[0]);
      if c > idx then Some(0)
      else match Search(ws[1..], idx, c) case None => None case Some(i) => Some(i + 1)
  }

  datatype Selection =
    | NoProviders
    | ZeroTotal // the remainder by zero panics
    | Chosen(index: nat, byDefault: bool)

  function Select(ws: Weights, counter: nat): Selection {
    if ws == [] then NoProviders
    else
      var total := Sum32(ws, 0);
      if total == 0 then ZeroTotal
      else
        match Search(ws, counter % TWO32 % total, 0)
        case Some(i) => Chosen(i, false)
        case None => Chosen(0, true)
  }

  class Router {
    const weights: Weights
    var counter: nat

    constructor (weights: Weights)
      ensures this.weights == weights && counter == 0
    {
      this.weights := weights;
      counter := 0;
    }

    /** One selection; the counter moves on unless there are no providers. */
    method SelectNext() returns (r: Selection)
      modifies this
      ensures r == Select(weights, old(counter))
      ensures counter == if r.NoProviders? then old(counter) else old(counter) + 1
    {
      if weights == [] {
        return NoProviders;
      }
      var total := 0;
      assert weights[0..] == weights;
      for i := 0 to |weights|
        invariant counter == old(counter)
        invariant Sum32(weights[i..], total) == Sum32(weights, 0)
      {
        assert weights[i..][1..] == weights[i + 1..];
        total := Add32(total, weights[i]);
      }
      var ticket := counter;
      counter := counter + 1;
      if total == 0 {
        return ZeroTotal;
      }
      var idx := ticket % TWO32 % total;
      var cumulative: nat := 0;
      ghost var goal := Search(weights, idx, 0);
      for i := 0 to |weights|
        invariant counter == old(counter) + 1
        invariant goal == match Search(weights[i..], idx, cumulative) case None => None case Some(k) => Some(k + i)
      {
        assert weights[i..][1..] == weights[i + 1..];
        cumulative := Add32(cumulative, weights[i]);
        if cumulative > idx {
          return Chosen(i, false);
        }
      }
      return Chosen(0, true);
    }
  }

  // ----- What is selected -----

  ghost predicate Weighted(ws: Weights) {
    0 < Sum(ws) < TWO32
  }

  lemma {:induction false} SumPrefix(ws: Weights, j: nat)
    requires j < |ws|
    ensures Sum(ws[..j + 1]) == Sum(ws[..j]) + ws[j] && Sum(ws[..j + 1]) <= Sum(ws)
  {
    if j == 0 {
      assert ws[..1] == [ws[0]] && ws[..0] == [];
      assert Sum([ws[0]]) == ws[0] + Sum([]);
    } else {
      SumPrefix(ws[1..], j - 1);
      assert ws[..j + 1][1..] == ws[1..][..j] && ws[..j][1..] == ws[1..][..j - 1];
    }
  }

  lemma {:induction false} SumIsSum32(ws: Weights, acc: nat)
    requires acc + Sum(ws) < TWO32
    ensures Sum32(ws, acc) == acc + Sum(ws)
    decreases |ws|
  {
    if ws != [] { SumIsSum32(ws[1..], acc + ws[0]); }
  }

  /** Provider `j` owns the indices from the weights before it up to and including its own. */
  predicate Owns(ws: Weights, j: nat, idx: nat)
    requires j < |ws|
  {
    Sum(ws[..j]) <= idx < Sum(ws[..j]) + ws[j]
  }

  lemma {:induction false} SearchFindsOwner(ws: Weights, idx: nat, c: nat, j: nat)
    requires c <= idx < c + Sum(ws) < TWO32 && j < |ws|
    ensures Search(ws, idx, c).Some? && Search(ws, idx, c).value < |ws|
    ensures Search(ws, idx, c) == Some(j) <==> Owns(ws, j, idx - c)
    decreases |ws|
  {
    assert Add32(c, ws[0]) == c + ws[0];
    if j == 0 {
      assert ws[..0] == [];
    } else {
      SumPrefix(ws, j - 1);
      assert ws[..j] == [ws[0]] + ws[1..][..j - 1];
      assert Sum(ws[..j]) == ws[0] + Sum(ws[1..][..j - 1]) by { assert ws[..j][1..] == ws[1..][..j - 1]; }
    }
    if c + ws[0] <= idx {
      assert Sum(ws[1..]) > 0;
      SearchFindsOwner(ws[1..], idx, c + ws[0], if j == 0 then 0 else j - 1);
    }
  }

  /** The counter cut to 32 bits and reduced by the total. */
  function Reduced(counter: nat, total: nat): nat
    requires total > 0
  {
    counter % TWO32 % total
  }

  function Rem(x: nat, total: nat): nat
    requires total > 0
  {
    x % total
  }

  /** The provider selected is the owner of the reduced counter; the default is never taken. */
  lemma SelectsOwner(ws: Weights, counter: nat, j: nat)
    requires Weighted(ws) && j < |ws|
    ensures var r := Select(ws, counter);
            && r.Chosen? && !r.byDefault && r.index < |ws|
            && (r.index == j <==> Owns(ws, j, Reduced(counter, Sum(ws))))
            && (ws[j] == 0 ==> r.index != j)
  {
    SumIsSum32(ws, 0);
    SearchFindsOwner(ws, counter % TWO32 % Sum(ws), 0, j);
  }

  // ----- Fairness -----

  function Picks(ws: Weights, counter: nat, n: nat, j: nat): nat
    decreases n
  {
    if n == 0 then 0
    else Picks(ws, counter, n - 1, j) + if PickedAt(ws, counter, n - 1, j) then 1 else 0
  }

  /** Provider `j` is selected `k` selections after the counter stood at `counter`. */
  predicate PickedAt(ws: Weights, counter: nat, k: nat, j: nat) {
    Select(ws, counter + k) == Chosen(j, false)
  }

  /** How many of the `n` numbers from `x` on have a remainder by the total that `j` owns. */
  function Owned(ws: Weights, x: nat, n: nat, j: nat): nat
    requires Sum(ws) > 0 && j < |ws|
    decreases n
  {
    if n == 0 then 0 else Owned(ws, x, n - 1, j) + if Owns(ws, j, Rem(x + (n - 1), Sum(ws))) then 1 else 0
  }

  lemma {:induction false} OwnedFirst(ws: Weights, x: nat, n: nat, j: nat)
    requires Sum(ws) > 0 && j < |ws|
    ensures Owned(ws, x, n + 1, j) == Owned(ws, x + 1, n, j) + if Owns(ws, j, Rem(x, Sum(ws))) then 1 else 0
  {
    hide Owns, Rem, Sum;
    if n > 0 { OwnedFirst(ws, x, n - 1, j); }
  }

  /** Below the total, provider `j` owns as many numbers as its weight. */
  lemma {:induction false} OwnedBelow(ws: Weights, n: nat, j: nat)
    requires Sum(ws) > 0 && j < |ws| && n <= Sum(ws)
    ensures var lo := Sum(ws[..j]);
            Owned(ws, 0, n, j) == if n <= lo then 0 else if n <= lo + ws[j] then n - lo else ws[j]
  {
    hide Sum;
    if n > 0 {
      OwnedBelow(ws, n - 1, j);
      ModUnique(n - 1, Sum(ws), 0, n - 1);
    }
  }

  /** Any `total` consecutive numbers: each provider owns as many as its weight. */
  lemma {:induction false} OwnedAnywhere(ws: Weights, x: nat, j: nat)
    requires Sum(ws) > 0 && j < |ws|
    ensures Owned(ws, x, Sum(ws), j) == ws[j]
  {
    var t := Sum(ws);
    if x == 0 {
      SumPrefix(ws, j);
      OwnedBelow(ws, t, j);
    } else {
      OwnedAnywhere(ws, x - 1, j);
      OwnedFirst(ws, x - 1, t, j);
      ModShift(x - 1, t);
    }
  }

  lemma ModShift(x: nat, t: nat)
    requires t > 0
    ensures Rem(x + t, t) == Rem(x, t)
  {
    ModUnique(x + t, t, x / t + 1, x % t);
  }

  lemma ModUnique(y: int, t: int, q: int, r: int)
    requires t > 0 && 0 <= r < t && y == q * t + r
    ensures y % t == r
  {
    var d := y / t;
    assert y == d * t + y % t;
    if d < q {
      MulMono(d + 1, q, t);
      assert false;
    }
    if d > q {
      MulMono(q + 1, d, t);
      assert false;
    }
  }

  /** The window of `total` selections starting at `counter` does not meet the 32-bit wrap-around unevenly. */
  predicate Even(counter: nat, total: nat)
    requires total > 0
  {
    counter % TWO32 + total <= TWO32 || TWO32 % total == 0
  }

  /** The number whose remainder decides the selection at `counter + k`. */
  lemma ReducedCounter(counter: nat, k: nat, total: nat)
    requires 0 < total < TWO32 && k < total && Even(counter, total)
    ensures Reduced(counter + k, total) == Rem(counter % TWO32 + k, total)
  {
    var x := counter % TWO32;
    var q := counter / TWO32;
    assert counter == q * TWO32 + x;
    if x + k < TWO32 {
      ModUnique(counter + k, TWO32, q, x + k);
    } else {
      var m := TWO32 / total;
      assert TWO32 == m * total;
      ModUnique(counter + k, TWO32, q + 1, x + k - TWO32);
      var y := x + k - TWO32;
      ModUnique(x + k, total, y / total + m, y % total);
    }
  }

  lemma {:induction false} PicksAreOwned(ws: Weights, counter: nat, n: nat, j: nat)
    requires Weighted(ws) && j < |ws| && n <= Sum(ws) && Even(counter, Sum(ws))
    ensures Picks(ws, counter, n, j) == Owned(ws, counter % TWO32, n, j)
  {
    hide Select, Owns, Even, Sum, Reduced, Rem;
    if n > 0 {
      PicksAreOwned(ws, counter, n - 1, j);
      SelectsOwner(ws, counter + (n - 1), j);
      ReducedCounter(counter, n - 1, Sum(ws));
    }
  }

  /** In any even window of `total` selections every provider is selected exactly as often as its weight says. */
  lemma Fair(ws: Weights, counter: nat, j: nat)
    requires Weighted(ws) && j < |ws| && Even(counter, Sum(ws))
    ensures Picks(ws, counter, Sum(ws), j) == ws[j]
  {
    PicksAreOwned(ws, counter, Sum(ws), j);
    OwnedAnywhere(ws, counter % TWO32, j);
  }

  // ----- Across the wrap-around -----

  function Ones(n: nat): Weights {
    seq(n, _ => 1)
  }

  lemma {:induction false} SumOnes(n: nat)
    ensures Sum(Ones(n)) == n
  {
    if n > 0 {
      SumOnes(n - 1);
      assert Ones(n)[1..] == Ones(n - 1);
    }
  }

  /** With `total` providers of weight one, each owns its own position. */
  lemma OnesOwn(total: nat, counter: nat, k: nat, j: nat)
    requires 0 < total < TWO32 && j < total
    ensures PickedAt(Ones(total), counter, k, j) <==> (counter + k) % TWO32 % total == j
  {
    SumOnes(total);
    SumOnes(j);
    assert Ones(total)[..j] == Ones(j);
    hide Select;
    SelectsOwner(Ones(total), counter + k, j);
  }

  lemma {:induction false} NoPick(ws: Weights, counter: nat, n: nat, j: nat)
    requires forall k :: 0 <= k < n ==> !PickedAt(ws, counter, k, j)
    ensures Picks(ws, counter, n, j) == 0
  {
    if n > 0 { NoPick(ws, counter, n - 1, j); }
  }

  lemma {:induction false} SomePicks(ws: Weights, counter: nat, n: nat, j: nat, a: nat, b: nat)
    requires a < b < n && PickedAt(ws, counter, a, j) && PickedAt(ws, counter, b, j)
    ensures Picks(ws, counter, n, j) >= 2
  {
    hide PickedAt;
    if b < n - 1 { SomePicks(ws, counter, n - 1, j, a, b); } else { OnePick(ws, counter, n - 1, j, a); }
  }

  lemma {:induction false} OnePick(ws: Weights, counter: nat, n: nat, j: nat, a: nat)
    requires a < n && PickedAt(ws, counter, a, j)
    ensures Picks(ws, counter, n, j) >= 1
  {
    hide PickedAt;
    if a < n - 1 { OnePick(ws, counter, n - 1, j, a); }
  }

  /** Reduction of the counters on either side of the wrap-around. */
  lemma AcrossWrap(counter: nat, k: nat)
    requires k < TWO32
    ensures var x := counter % TWO32;
            (counter + k) % TWO32 == if x + k < TWO32 then x + k else x + k - TWO32
  {
    var x, q := counter % TWO32, counter / TWO32;
    assert counter == q * TWO32 + x;
    if x + k < TWO32 {
      ModUnique(counter + k, TWO32, q, x + k);
    } else {
      ModUnique(counter + k, TWO32, q + 1, x + k - TWO32);
    }
  }

  /** The last counter before the wrap-around and one after it select the same provider. */
  lemma PickedTwice(counter: nat, total: nat, k0: nat)
    requires 0 < total < TWO32 && 1 <= k0 < total && counter % TWO32 + k0 == TWO32
    requires 1 <= TWO32 % total <= total - k0
    ensures Picks(Ones(total), counter, total, TWO32 % total - 1) >= 2
  {
    var q, r := TWO32 / total, TWO32 % total;
    assert TWO32 == q * total + r;
    AcrossWrap(counter, k0 - 1);
    AcrossWrap(counter, k0 + r - 1);
    ModUnique(TWO32 - 1, total, q, r - 1);
    ModUnique(r - 1, total, 0, r - 1);
    hide PickedAt;
    OnesOwn(total, counter, k0 - 1, r - 1);
    OnesOwn(total, counter, k0 + r - 1, r - 1);
    SomePicks(Ones(total), counter, total, r - 1, k0 - 1, k0 + r - 1);
  }

  /** No counter of the window selects this provider. */
  lemma NeverPicked(counter: nat, total: nat, k0: nat)
    requires 0 < total < TWO32 && 1 <= k0 < total && counter % TWO32 + k0 == TWO32
    requires TWO32 % total > total - k0
    ensures Picks(Ones(total), counter, total, TWO32 % total) == 0
  {
    var q, r := TWO32 / total, TWO32 % total;
    assert TWO32 == q * total + r;
    assert q >= 1 && (q - 1) * total == q * total - total;
    forall k | 0 <= k < total ensures !PickedAt(Ones(total), counter, k, r) {
      var x := counter % TWO32;
      AcrossWrap(counter, k);
      hide PickedAt;
      OnesOwn(total, counter, k, r);
      if k < k0 { NotThere(x + k, total, q, r); } else { ModUnique(k - k0, total, 0, k - k0); }
    }
    NoPick(Ones(total), counter, total, r);
  }

  /** A window that meets the wrap-around unevenly treats some provider of an equal-weight list unfairly. */
  lemma UnevenIsUnfair(counter: nat, total: nat) returns (j: nat)
    requires 0 < total < TWO32 && !Even(counter, total)
    ensures j < total && Picks(Ones(total), counter, total, j) != 1
  {
    var k0, r := TWO32 - counter % TWO32, TWO32 % total;
    if r <= total - k0 {
      PickedTwice(counter, total, k0);
      j := r - 1;
    } else {
      NeverPicked(counter, total, k0);
      j := r;
    }
  }

  /** Strictly between two neighbouring numbers with remainder `r` there is no other. */
  lemma NotThere(y: nat, total: nat, q: nat, r: nat)
    requires 0 <= r < total && q >= 1 && (q - 1) * total + r < y < q * total + r
    ensures y % total != r
  {
    var d := y / total;
    assert y == d * total + y % total;
    if y % total == r {
      assert (q - 1) * total < d * total < q * total;
      Between(q, d, total);
      assert false;
    }
  }

  lemma Between(q: int, d: int, t: int)
    requires t > 0
    ensures !((q - 1) * t < d * t < q * t)
  {
    if d >= q { MulMono(q, d, t); } else { MulMono(d, q - 1, t); }
  }

  lemma MulMono(a: int, b: int, t: int)
    requires a <= b && t > 0
    ensures a * t <= b * t
  {
    assert (b - a) * t >= 0;
  }

  /** Exactly when selection is fair for every weight list of a given total. */
  lemma FairExactly(counter: nat, total: nat)
    requires 0 < total < TWO32
    ensures (forall ws: Weights, j: nat :: Sum(ws) == total && j < |ws| ==> Picks(ws, counter, total, j) == ws[j])
       <==> Even(counter, total)
  {
    hide Picks;
    if Even(counter, total) {
      forall ws: Weights, j: nat | Sum(ws) == total && j < |ws| ensures Picks(ws, counter, total, j) == ws[j] {
        Fair(ws, counter, j);
      }
    } else {
      var j := UnevenIsUnfair(counter, total);
      SumOnes(total);
      assert Ones(total)[j] == 1 && Picks(Ones(total), counter, total, j) != 1;
    }
  }
}

/** Smooth weighted round robin: the balancer and its exact fairness. */
module WeightedRR {
  import opened Options

  function Sum(s: seq<int>): int {
    if s == [] then 0 else Sum(s[..|s| - 1]) + s[|s| - 1]
  }

  /** Negative weights count as zero. */
  function Normalized(weights: seq<int>): (w: seq<int>)
    ensures |w| == |weights| && forall i :: 0 <= i < |w| ==> w[i] == weights[i] || (weights[i] < 0 && w[i] == 0)
    ensures forall i :: 0 <= i < |w| ==> 0 <= w[i]
  {
    seq(|weights|, i requires 0 <= i < |weights| => if weights[i] < 0 then 0 else weights[i])
  }

  ghost predicate Weights(w: seq<int>) {
    (forall i :: 0 <= i < |w| ==> 0 <= w[i]) && Sum(w) > 0
  }

  // ---- One selection ----

  /** Every server gains its weight. */
  function Raised(cur: seq<int>, w: seq<int>): (r: seq<int>)
    requires |cur| == |w|
    ensures |r| == |w|
  {
    seq(|w|, i requires 0 <= i < |w| => cur[i] + w[i])
  }

  /** `m` is the first position of the largest element. */
  ghost predicate FirstMax(s: seq<int>, m: nat) {
    m < |s| && (forall j :: 0 <= j < |s| ==> s[j] <= s[m]) && (forall j :: 0 <= j < m ==> s[j] < s[m])
  }

  lemma {:induction false} FirstMaxExists(s: seq<int>)
    requires s != []
    ensures exists m: nat :: FirstMax(s, m)
  {
    var m: nat := 0;
    for i := 1 to |s|
      invariant m < i
      invariant FirstMax(s[..i], m)
    {
      var before := m;
      assert forall j :: 0 <= j < i ==> s[..i][j] == s[j];
      if s[i] > s[m] {
        m := i;
      }
    }
    assert s[..|s|] == s;
  }

  ghost function Picked(cur: seq<int>, w: seq<int>): (m: nat)
    requires |cur| == |w| > 0
    ensures m < |w| && FirstMax(Raised(cur, w), m)
  {
    FirstMaxExists(Raised(cur, w));
    var m: nat :| FirstMax(Raised(cur, w), m); m
  }

  /** The picked server pays the total weight. */
  ghost function Next(cur: seq<int>, w: seq<int>): (r: seq<int>)
    requires |cur| == |w| > 0
    ensures |r| == |w|
  {
    var m := Picked(cur, w);
    var up := Raised(cur, w);
    up[m := up[m] - Sum(w)]
  }

  // ---- Runs from a fresh balancer ----

  function Zeros(n: nat): (z: seq<int>)
    ensures |z| == n && forall i :: 0 <= i < n ==> z[i] == 0
  {
    seq(n, i => 0)
  }

  ghost function After(w: seq<int>, k: nat): (cur: seq<int>)
    requires w != []
    ensures |cur| == |w|
  {
    if k == 0 then Zeros(|w|) else Next(After(w, k - 1), w)
  }

  /** Which server selection number `k` (from 0) picks. */
  ghost function PickAt(w: seq<int>, k: nat): (m: nat)
    requires w != []
    ensures m < |w|
  {
    Picked(After(w, k), w)
  }

  /** How often server `i` is picked in the first `k` selections. */
  ghost function Picks(w: seq<int>, k: nat, i: nat): nat
    requires w != []
  {
    if k == 0 then 0 else Picks(w, k - 1, i) + (if PickAt(w, k - 1) == i then 1 else 0)
  }

  /** The number of selections in so many rounds. */
  ghost function Rounds(w: seq<int>, rounds: nat): nat
    requires Weights(w)
  {
    if rounds == 0 then 0 else Rounds(w, rounds - 1) + Sum(w)
  }

  lemma {:induction false} RoundsProduct(w: seq<int>, rounds: nat)
    requires Weights(w)
    ensures Rounds(w, rounds) == rounds * Sum(w)
  {
    if rounds > 0 {
      RoundsProduct(w, rounds - 1);
      assert rounds * Sum(w) == (rounds - 1) * Sum(w) + Sum(w);
    }
  }

  // ---- Invariants of a run ----

  lemma {:induction false} SumUpdate(s: seq<int>, i: nat, v: int)
    requires i < |s|
    ensures Sum(s[i := v]) == Sum(s) - s[i] + v
  {
    var n := |s| - 1;
    if i == n {
      assert s[i := v][..n] == s[..n];
    } else {
      assert s[i := v][..n] == s[..n][i := v];
      SumUpdate(s[..n], i, v);
    }
  }

  lemma {:induction false} SumRaised(cur: seq<int>, w: seq<int>)
    requires |cur| == |w|
    ensures Sum(Raised(cur, w)) == Sum(cur) + Sum(w)
  {
    if w != [] {
      var n := |w| - 1;
      assert Raised(cur, w)[..n] == Raised(cur[..n], w[..n]);
      SumRaised(cur[..n], w[..n]);
    }
  }

  lemma {:induction false} SumZeros(n: nat)
    ensures Sum(Zeros(n)) == 0
  {
    if n > 0 {
      assert Zeros(n)[..n - 1] == Zeros(n - 1);
      SumZeros(n - 1);
    }
  }

  lemma {:induction false} SumNotPositive(s: seq<int>)
    requires forall i :: 0 <= i < |s| ==> s[i] <= 0
    ensures Sum(s) <= 0
  {
    if s != [] {
      SumNotPositive(s[..|s| - 1]);
    }
  }

  lemma {:induction false} NextSum(cur: seq<int>, w: seq<int>)
    requires |cur| == |w| > 0
    ensures Sum(Next(cur, w)) == Sum(cur)
  {
    hide Sum, Picked, Raised, FirstMax;
    var m := Picked(cur, w);
    SumRaised(cur, w);
    var up := Raised(cur, w);
    SumUpdate(up, m, up[m] - Sum(w));
  }

  /** The picked server has a positive raised weight, so paying a whole round leaves it above -W. */
  lemma {:induction false} PickedPositive(cur: seq<int>, w: seq<int>)
    requires |cur| == |w| > 0 && Sum(cur) == 0 && Sum(w) > 0
    ensures cur[Picked(cur, w)] + w[Picked(cur, w)] > 0
  {
    hide Sum;
    var up, m := Raised(cur, w), Picked(cur, w);
    SumRaised(cur, w);
    if up[m] <= 0 {
      SumNotPositive(up);
    }
  }

  /** Weights only move between servers, and no server ever owes a whole round. */
  lemma {:induction false} Balanced(w: seq<int>, k: nat)
    requires Weights(w) && w != []
    ensures Sum(After(w, k)) == 0
    ensures forall i :: 0 <= i < |w| ==> After(w, k)[i] > -Sum(w)
  {
    hide Sum, Next, Picked, Raised;
    if k == 0 {
      SumZeros(|w|);
    } else {
      var cur := After(w, k - 1);
      Balanced(w, k - 1);
      NextSum(cur, w);
      PickedPositive(cur, w);
      forall i | 0 <= i < |w| ensures Next(cur, w)[i] > -Sum(w) {
        NextAt(cur, w, i);
      }
    }
  }

  lemma {:induction false} NextAt(cur: seq<int>, w: seq<int>, i: nat)
    requires |cur| == |w| && i < |w|
    ensures Next(cur, w)[i] == cur[i] + w[i] - (if Picked(cur, w) == i then Sum(w) else 0)
  {
  }

  /** A server's current weight is what it was owed less what it was given. */
  lemma {:induction false} Ledger(w: seq<int>, k: nat, i: nat)
    requires w != [] && i < |w|
    ensures After(w, k)[i] == k * w[i] - Sum(w) * Picks(w, k, i)
  {
    hide Next, Raised, Picked, Sum, FirstMax;
    if k > 0 {
      Ledger(w, k - 1, i);
      NextAt(After(w, k - 1), w, i);
      OneMore(Sum(w), Picks(w, k - 1, i), k, w[i]);
    }
  }

  lemma {:induction false} OneMore(total: int, before: nat, k: nat, share: int)
    ensures total * (before + 1) == total * before + total
    ensures k * share == (k - 1) * share + share
  {
  }

  /** What a server is owed when selection number `k` is made: its share of `k + 1` selections, less what it was given. */
  ghost function Due(w: seq<int>, k: nat, i: nat): int
    requires w != [] && i < |w|
  {
    (k + 1) * w[i] - Sum(w) * Picks(w, k, i)
  }

  /** The server picked is the first of those that are owed most. */
  lemma {:induction false} PicksMostOwed(w: seq<int>, k: nat)
    requires w != []
    ensures forall j :: 0 <= j < |w| ==> Due(w, k, j) <= Due(w, k, PickAt(w, k))
    ensures forall j :: 0 <= j < PickAt(w, k) ==> Due(w, k, j) < Due(w, k, PickAt(w, k))
  {
    var up := Raised(After(w, k), w);
    forall j | 0 <= j < |w| ensures up[j] == Due(w, k, j) {
      Ledger(w, k, j);
      OneMore(Sum(w), Picks(w, k, j), k + 1, w[j]);
    }
    hide Due, Raised, Picks, After, Sum;
    assert FirstMax(up, PickAt(w, k));
  }

  /** After `k` selections server `i` has been picked fewer than k * w[i] / W + 1 times. */
  lemma {:induction false} NeverAhead(w: seq<int>, k: nat, i: nat)
    requires Weights(w) && w != [] && i < |w|
    ensures Sum(w) * Picks(w, k, i) < k * w[i] + Sum(w)
  {
    Balanced(w, k);
    Ledger(w, k, i);
  }

  lemma {:induction false} ZeroWeightNever(w: seq<int>, k: nat, i: nat)
    requires Weights(w) && w != [] && i < |w| && w[i] == 0
    ensures Picks(w, k, i) == 0
  {
    NeverAhead(w, k, i);
    var total, n := Sum(w), Picks(w, k, i);
    if n >= 1 {
      assert total * n >= total by { Grows(total, n); }
    }
  }

  lemma {:induction false} Grows(total: int, n: nat)
    requires total > 0 && n >= 1
    ensures total * n >= total
  {
  }

  // ---- Exact proportions, round by round ----

  ghost function AllPicks(w: seq<int>, k: nat, n: nat): int
    requires w != [] && n <= |w|
  {
    if n == 0 then 0 else AllPicks(w, k, n - 1) + Picks(w, k, n - 1)
  }

  lemma {:induction false} PickCounted(w: seq<int>, k: nat, n: nat)
    requires w != [] && n <= |w| && k > 0
    ensures AllPicks(w, k, n) == AllPicks(w, k - 1, n) + (if PickAt(w, k - 1) < n then 1 else 0)
  {
    if n > 0 {
      PickCounted(w, k, n - 1);
    }
  }

  /** Every selection picks exactly one server. */
  lemma {:induction false} PicksTotal(w: seq<int>, k: nat)
    requires w != []
    ensures AllPicks(w, k, |w|) == k
  {
    if k == 0 {
      NoPicks(w, |w|);
    } else {
      PickCounted(w, k, |w|);
      PicksTotal(w, k - 1);
    }
  }

  lemma {:induction false} NoPicks(w: seq<int>, n: nat)
    requires w != [] && n <= |w|
    ensures AllPicks(w, 0, n) == 0
  {
    if n > 0 {
      NoPicks(w, n - 1);
    }
  }

  lemma {:induction false} AtMostShare(w: seq<int>, rounds: nat, i: nat)
    requires Weights(w) && w != [] && i < |w|
    ensures Picks(w, Rounds(w, rounds), i) <= rounds * w[i]
  {
    RoundsProduct(w, rounds);
    var n := Picks(w, Rounds(w, rounds), i);
    NeverAhead(w, Rounds(w, rounds), i);
    AtMost(Sum(w), n, rounds, w[i]);
  }

  lemma {:induction false} AtMost(total: int, n: nat, rounds: nat, share: int)
    requires total > 0 && total * n < (rounds * total) * share + total
    ensures n <= rounds * share
  {
    assert (rounds * total) * share == total * (rounds * share);
    assert total * (n - rounds * share) == total * n - total * (rounds * share);
    if n > rounds * share {
      Scales(total, n - rounds * share, 1);
    }
  }

  lemma {:induction false} Scales(total: int, a: int, b: int)
    requires total > 0 && a >= b
    ensures total * a >= total * b
  {
  }

  /** What the first `n` servers are owed over so many rounds. */
  function Owed(w: seq<int>, rounds: nat, n: nat): int
    requires n <= |w|
  {
    if n == 0 then 0 else Owed(w, rounds, n - 1) + rounds * w[n - 1]
  }

  lemma {:induction false} OwedTotal(w: seq<int>, rounds: nat, n: nat)
    requires n <= |w|
    ensures Owed(w, rounds, n) == rounds * Sum(w[..n])
  {
    if n > 0 {
      OwedTotal(w, rounds, n - 1);
      assert w[..n][..n - 1] == w[..n - 1];
    }
  }

  /** Shares that are at most the weights and add up to them are the weights. */
  lemma {:induction false} SharesExact(w: seq<int>, rounds: nat, n: nat)
    requires Weights(w) && w != [] && n <= |w|
    requires AllPicks(w, Rounds(w, rounds), n) >= Owed(w, rounds, n)
    ensures AllPicks(w, Rounds(w, rounds), n) == Owed(w, rounds, n)
    ensures forall i :: 0 <= i < n ==> Picks(w, Rounds(w, rounds), i) == rounds * w[i]
  {
    hide Weights, Picks, Rounds, Sum;
    if n > 0 {
      AtMostShare(w, rounds, n - 1);
      SharesExact(w, rounds, n - 1);
    }
  }

  /** After every whole number of rounds each server has been picked exactly in proportion to its
      weight, and all current weights are back to 0. */
  lemma {:induction false} ExactRounds(w: seq<int>, rounds: nat)
    requires Weights(w) && w != []
    ensures forall i :: 0 <= i < |w| ==> Picks(w, Rounds(w, rounds), i) == rounds * w[i]
    ensures After(w, Rounds(w, rounds)) == Zeros(|w|)
  {
    RoundsProduct(w, rounds);
    PicksTotal(w, Rounds(w, rounds));
    OwedTotal(w, rounds, |w|);
    assert w[..|w|] == w;
    SharesExact(w, rounds, |w|);
    hide After, Picks;
    forall i | 0 <= i < |w| ensures After(w, Rounds(w, rounds))[i] == 0 {
      Ledger(w, Rounds(w, rounds), i);
      Settled(Sum(w), rounds, w[i]);
    }
  }

  lemma {:induction false} Settled(total: int, rounds: nat, share: int)
    ensures (rounds * total) * share - total * (rounds * share) == 0
  {
  }

  /** The schedule repeats with period Sum(w). */
  lemma {:induction false} Periodic(w: seq<int>, k: nat)
    requires Weights(w) && w != []
    ensures After(w, k + Sum(w)) == After(w, k) && PickAt(w, k + Sum(w)) == PickAt(w, k)
  {
    hide Next, Raised, Picked, Sum, FirstMax, Picks;
    if k == 0 {
      ExactRounds(w, 1);
      assert Rounds(w, 1) == Rounds(w, 0) + Sum(w);
    } else {
      Periodic(w, k - 1);
    }
  }

  // ---- The balancer ----

  class Balancer {
    const weights: array<int>
    const currentWeight: array<int>
    const totalWeight: int

    // How many selections have been made; the balancer is always where a run of that length leads.
    ghost var made: nat

    ghost predicate Valid()
      reads this, weights, currentWeight
    {
      && weights != currentWeight
      && weights.Length == currentWeight.Length
      && (forall i :: 0 <= i < weights.Length ==> 0 <= weights[i])
      && totalWeight == Sum(weights[..])
      && (weights.Length > 0 ==> currentWeight[..] == After(weights[..], made))
    }

    constructor (ws: seq<int>)
      ensures Valid() && made == 0
      ensures weights[..] == Normalized(ws)
      ensures fresh(weights) && fresh(currentWeight)
    {
      var w := new int[|ws|];
      var total := 0;
      for i := 0 to |ws|
        invariant w[..i] == Normalized(ws)[..i]
        invariant total == Sum(w[..i])
      {
        var wt := if ws[i] < 0 then 0 else ws[i];
        w[i] := wt;
        total := total + wt;
        assert w[..i + 1][..i] == w[..i];
      }
      assert w[..|ws|] == w[..];
      weights, currentWeight, totalWeight := w, new int[|ws|](_ => 0), total;
      made := 0;
    }

    /** Picks an instance of the list, or none when the list does not fit the weights or all weights
        are zero; only a pick changes the balancer. */
    method Select(count: nat) returns (picked: Option<nat>)
      requires Valid()
      modifies this`made, currentWeight
      ensures Valid() && weights[..] == old(weights[..])
      ensures if count == 0 || count != weights.Length || totalWeight <= 0 then
                picked == None && made == old(made) && currentWeight[..] == old(currentWeight[..])
              else
                made == old(made) + 1 && picked == Some(PickAt(weights[..], old(made)))
    {
      if count == 0 {
        return None;
      }
      if count != weights.Length {
        return None;
      }
      if totalWeight <= 0 {
        return None;
      }
      ghost var w, cur := weights[..], currentWeight[..];
      hide FirstMax, Weights;
      var maxIdx := Raise();
      ghost var raised := currentWeight[..];
      assert maxIdx < currentWeight.Length by { FirstMaxInRange(raised, maxIdx); }
      PickIs(cur, w, maxIdx);
      currentWeight[maxIdx] := currentWeight[maxIdx] - totalWeight;
      assert currentWeight[..] == raised[maxIdx := raised[maxIdx] - totalWeight];
      made := made + 1;
      return Some(maxIdx);
    }

    /** The loop of a selection: raises every current weight and finds the first largest. */
    method Raise() returns (maxIdx: nat)
      requires weights != currentWeight && 0 < weights.Length == currentWeight.Length
      modifies currentWeight
      ensures weights[..] == old(weights[..])
      ensures currentWeight[..] == Raised(old(currentWeight[..]), weights[..])
      ensures FirstMax(currentWeight[..], maxIdx)
    {
      var best := -1;
      for i := 0 to weights.Length
        invariant -1 <= best < i && (i > 0 ==> best >= 0)
        invariant weights[..] == old(weights[..])
        invariant forall j :: 0 <= j < i ==> currentWeight[j] == old(currentWeight[j]) + weights[j]
        invariant forall j :: i <= j < weights.Length ==> currentWeight[j] == old(currentWeight[j])
        invariant forall j :: 0 <= j < i ==> currentWeight[j] <= currentWeight[best]
        invariant forall j :: 0 <= j < best ==> currentWeight[j] < currentWeight[best]
      {
        currentWeight[i] := currentWeight[i] + weights[i];
        if best == -1 || currentWeight[i] > currentWeight[best] {
          best := i;
        }
      }
      maxIdx := best;
    }
  }

  lemma {:induction false} FirstMaxInRange(s: seq<int>, m: nat)
    requires FirstMax(s, m)
    ensures m < |s|
  {
  }

  lemma {:induction false} PickIs(cur: seq<int>, w: seq<int>, m: nat)
    requires |cur| == |w| > 0 && FirstMax(Raised(cur, w), m)
    ensures Picked(cur, w) == m
  {
    OneFirstMax(Raised(cur, w), m, Picked(cur, w));
  }

  lemma {:induction false} OneFirstMax(s: seq<int>, m: nat, n: nat)
    requires FirstMax(s, m) && FirstMax(s, n)
    ensures m == n
  {
    assert s[m] <= s[n] && s[n] <= s[m];
  }
}

/** The weighted draw of `LuckyWheel.spin` (scripts/wheel.js:171-185): each
    entry of a wheel weighs `weight || 1`, a number `r` is taken in
    `[0, total)`, and the entry drawn is the first whose running weight sum
    reaches `r`. No check keeps a weight positive (a parsed weight may be
    negative), so the properties that need it say so. */
module Selection {
  import opened Prizes

  /** `prize.weight || 1`: an absent (here 0) weight counts as 1. */
  function Weight(p: WheelPrize): (w: int)
    ensures p.weight == 0 ==> w == 1
    ensures p.weight != 0 ==> w == p.weight
    ensures w != 0
    ensures p.weight >= 0 ==> w >= 1
  {
    if p.weight != 0 then p.weight else 1
  }

  /** The running weight sum of the first `k` entries. */
  function Prefix(prizes: seq<WheelPrize>, k: nat): (p: int)
    requires k <= |prizes|
  {
    if k == 0 then 0 else Prefix(prizes, k - 1) + Weight(prizes[k - 1])
  }

  /** The `accumulatedWeight` after the loop has reached entry `i`. */
  function Accumulated(prizes: seq<WheelPrize>, i: nat): int
    requires i < |prizes|
  {
    Prefix(prizes, i + 1)
  }

  /** The `reduce` that gives `totalWeight`: the running sum the loop reaches
      at the last entry, at least the number of entries when no weight is negative. */
  function TotalWeight(prizes: seq<WheelPrize>): (t: int)
    ensures |prizes| > 0 ==> t == Accumulated(prizes, |prizes| - 1)
    ensures NonNegativeWeights(prizes) ==> t >= |prizes|
  {
    if NonNegativeWeights(prizes) then
      PrefixMonotone(prizes, 0, |prizes|);
      Prefix(prizes, |prizes|)
    else Prefix(prizes, |prizes|)
  }

  /** No entry carries a negative weight. */
  predicate NonNegativeWeights(prizes: seq<WheelPrize>) {
    forall i :: 0 <= i < |prizes| ==> prizes[i].weight >= 0
  }

  /** Some running sum reaches `r`. */
  ghost predicate Reached(prizes: seq<WheelPrize>, r: real) {
    exists i :: 0 <= i < |prizes| && r <= Accumulated(prizes, i) as real
  }

  /** What the draw promises: an index of the wheel which, when some running
      sum reaches `r`, is the first such entry, and is 0 otherwise. */
  ghost predicate IsSelection(prizes: seq<WheelPrize>, r: real, index: nat) {
    && index < |prizes|
    && (Reached(prizes, r) ==>
          && r <= Accumulated(prizes, index) as real
          && forall j :: 0 <= j < index ==> Accumulated(prizes, j) as real < r)
    && (!Reached(prizes, r) ==> index == 0)
  }

  /** What a draw with `random` standing for `Math.random()` promises: the
      selection for `randomWeight` = `random * totalWeight`. */
  ghost predicate Drew(prizes: seq<WheelPrize>, random: real, index: nat) {
    IsSelection(prizes, random * TotalWeight(prizes) as real, index)
  }

  /** The `for` loop with its early `break`, for `randomWeight` = `r`. */
  method SelectIndex(prizes: seq<WheelPrize>, r: real) returns (selectedIndex: nat)
    ensures |prizes| == 0 ==> selectedIndex == 0
    ensures |prizes| > 0 ==> IsSelection(prizes, r, selectedIndex)
  {
    var accumulatedWeight := 0;
    selectedIndex := 0;
    var i := 0;
    while i < |prizes|
      invariant 0 <= i <= |prizes|
      invariant accumulatedWeight == Prefix(prizes, i)
      invariant forall j :: 0 <= j < i ==> Accumulated(prizes, j) as real < r
    {
      accumulatedWeight := accumulatedWeight + Weight(prizes[i]);
      if r <= accumulatedWeight as real {
        selectedIndex := i;
        return;
      }
      i := i + 1;
    }
  }

  /** Lines 171-185 as a whole: the total weight, `randomWeight` =
      `random * totalWeight` with `random` standing for `Math.random()`, and the
      selection loop. */
  method Draw(prizes: seq<WheelPrize>, random: real) returns (selectedIndex: nat)
    ensures |prizes| == 0 ==> selectedIndex == 0
    ensures |prizes| > 0 ==> Drew(prizes, random, selectedIndex)
  {
    var totalWeight := TotalWeight(prizes);
    var randomWeight := random * totalWeight as real;
    selectedIndex := SelectIndex(prizes, randomWeight);
  }

  /** At most one index answers a draw. */
  lemma SelectionIsUnique(prizes: seq<WheelPrize>, r: real, a: nat, b: nat)
    requires IsSelection(prizes, r, a) && IsSelection(prizes, r, b)
    ensures a == b
  {
  }

  /** With no negative weight, the running sums never decrease. */
  lemma {:induction false} PrefixMonotone(prizes: seq<WheelPrize>, i: nat, j: nat)
    requires NonNegativeWeights(prizes)
    requires i <= j <= |prizes|
    ensures Prefix(prizes, i) <= Prefix(prizes, j)
    ensures Prefix(prizes, j) - Prefix(prizes, i) >= j - i
    decreases j
  {
    if i < j {
      PrefixMonotone(prizes, i, j - 1);
      assert Weight(prizes[j - 1]) >= 1;
    }
  }

  /** A missing weight counting as 1 makes the total of a non-empty wheel
      without negative weights at least its number of entries, so positive. */
  lemma TotalIsPositive(prizes: seq<WheelPrize>)
    requires NonNegativeWeights(prizes)
    requires |prizes| > 0
    ensures TotalWeight(prizes) >= |prizes| > 0
  {
    PrefixMonotone(prizes, 0, |prizes|);
  }

  /** With no negative weight, every `r` in `[0, total]` is reached by the
      last entry at the latest, so the fallback to 0 is never taken there. */
  lemma InRangeIsReached(prizes: seq<WheelPrize>, r: real)
    requires NonNegativeWeights(prizes)
    requires |prizes| > 0 && r <= TotalWeight(prizes) as real
    ensures Reached(prizes, r)
  {
    assert r <= Accumulated(prizes, |prizes| - 1) as real;
  }

  /** With no negative weight, an `r` above the total is reached by no
      running sum, and the draw falls back to the first entry. */
  lemma AboveTotalFallsBack(prizes: seq<WheelPrize>, r: real, index: nat)
    requires NonNegativeWeights(prizes)
    requires TotalWeight(prizes) as real < r
    requires IsSelection(prizes, r, index)
    ensures index == 0
  {
    forall i | 0 <= i < |prizes|
      ensures Accumulated(prizes, i) as real < r
    {
      PrefixMonotone(prizes, i + 1, |prizes|);
    }
  }

  /** The draw as an interval: for positive `r` and no negative weight,
      entry `index` is drawn exactly when `r` lies in
      `(Prefix(index), Prefix(index + 1)]`, an interval as wide as its weight. */
  lemma SelectionInterval(prizes: seq<WheelPrize>, r: real, index: nat)
    requires NonNegativeWeights(prizes)
    requires 0.0 < r && index < |prizes|
    ensures Prefix(prizes, index + 1) - Prefix(prizes, index) == Weight(prizes[index])
    ensures Reached(prizes, r) ==>
              (IsSelection(prizes, r, index) <==>
                 Prefix(prizes, index) as real < r <= Prefix(prizes, index + 1) as real)
  {
    if Reached(prizes, r) {
      if IsSelection(prizes, r, index) && index > 0 {
        assert Accumulated(prizes, index - 1) as real < r;
      }
      if Prefix(prizes, index) as real < r <= Prefix(prizes, index + 1) as real {
        forall j | 0 <= j < index
          ensures Accumulated(prizes, j) as real < r
        {
          PrefixMonotone(prizes, j + 1, index);
        }
      }
    }
  }

  /** A wheel with a single entry always draws it. */
  lemma SinglePrizeIsDrawn(prizes: seq<WheelPrize>, r: real)
    requires |prizes| == 1
    ensures IsSelection(prizes, r, 0)
  {
  }
}

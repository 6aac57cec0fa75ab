/** Colour bucketing of an absolute temperature (`getFillColor`). */
module Bucketing {

  /** The 11-colour diverging palette, coldest first (`cellColors`). */
  const CellColors: seq<string> := [
    "rgb(49, 54, 149)",
    "rgb(69, 117, 180)",
    "rgb(116, 173, 209)",
    "rgb(171, 217, 233)",
    "rgb(224, 243, 248)",
    "rgb(255, 255, 191)",
    "rgb(254, 224, 144)",
    "rgb(253, 174, 97)",
    "rgb(244, 109, 67)",
    "rgb(215, 48, 39)",
    "rgb(165, 0, 38)"
  ]

  /** The lower bounds tested by the chain, in ascending order:
      Thresholds[i] is the least temperature of bucket i + 1. */
  const Thresholds: seq<real> := [2.8, 3.9, 5.0, 6.1, 7.2, 8.3, 9.5, 10.6, 11.7, 12.8]

  ghost predicate StrictlyAscending(s: seq<real>) {
    forall i, j :: 0 <= i < j < |s| ==> s[i] < s[j]
  }

  /** Index of the palette entry chosen for `temp`: inclusive `>=` tests from
      the highest threshold down, falling through to entry 0. Bucket k holds
      exactly the temperatures from Thresholds[k - 1] (inclusive; no lower
      bound for k = 0) up to Thresholds[k] (exclusive; no upper bound for k = 10). */
  function FillIndex(temp: real): (k: nat)
    ensures k < |CellColors| && |CellColors| == |Thresholds| + 1
    ensures k == 0 <==> temp < Thresholds[0]
    ensures k == |Thresholds| <==> temp >= Thresholds[|Thresholds| - 1]
    ensures 0 < k ==> Thresholds[k - 1] <= temp
    ensures k < |Thresholds| ==> temp < Thresholds[k]
  {
    if temp >= 12.8 then 10
    else if temp >= 11.7 then 9
    else if temp >= 10.6 then 8
    else if temp >= 9.5 then 7
    else if temp >= 8.3 then 6
    else if temp >= 7.2 then 5
    else if temp >= 6.1 then 4
    else if temp >= 5.0 then 3
    else if temp >= 3.9 then 2
    else if temp >= 2.8 then 1
    else 0
  }

  /** The fill colour of a cell whose absolute temperature is `temp`. */
  function GetFillColor(temp: real): (c: string)
    ensures c in CellColors
  {
    CellColors[FillIndex(temp)]
  }

  /** Reference definition: the number of table entries at or below `t`. */
  function Rank(bounds: seq<real>, t: real): (n: nat)
    ensures n <= |bounds|
  {
    if bounds == [] then 0
    else (if bounds[0] <= t then 1 else 0) + Rank(bounds[1..], t)
  }

  /** In a strictly ascending table, the rank of `t` is the k whose interval
      [bounds[k - 1], bounds[k]) contains `t`. */
  lemma {:induction false} RankOfInterval(bounds: seq<real>, t: real, k: nat)
    requires StrictlyAscending(bounds)
    requires k <= |bounds|
    requires k == 0 || bounds[k - 1] <= t
    requires k == |bounds| || t < bounds[k]
    ensures Rank(bounds, t) == k
  {
    if bounds != [] {
      assert StrictlyAscending(bounds[1..]);
      if k == 0 {
        assert t < bounds[0];
        RankOfInterval(bounds[1..], t, 0);
      } else {
        assert bounds[0] <= bounds[k - 1];
        RankOfInterval(bounds[1..], t, k - 1);
      }
    }
  }

  /** Rank never decreases as the temperature rises. */
  lemma {:induction false} RankMonotone(bounds: seq<real>, t1: real, t2: real)
    requires t1 <= t2
    ensures Rank(bounds, t1) <= Rank(bounds, t2)
  {
    if bounds != [] {
      RankMonotone(bounds[1..], t1, t2);
    }
  }

  /** The if/else chain is the rank of the temperature in the threshold table,
      i.e. the linear chain agrees with any search over the sorted table. */
  lemma FillIndexIsRank(temp: real)
    ensures FillIndex(temp) == Rank(Thresholds, temp)
  {
    assert StrictlyAscending(Thresholds);
    RankOfInterval(Thresholds, temp, FillIndex(temp));
  }

  /** Bucketing is monotone. */
  lemma FillIndexMonotone(t1: real, t2: real)
    requires t1 <= t2
    ensures FillIndex(t1) <= FillIndex(t2)
  {
    FillIndexIsRank(t1);
    FillIndexIsRank(t2);
    RankMonotone(Thresholds, t1, t2);
  }

  /** A temperature equal to a threshold lands in the higher bucket. */
  lemma ThresholdIsInclusive(i: nat)
    requires i < |Thresholds|
    ensures FillIndex(Thresholds[i]) == i + 1
    ensures forall t :: t < Thresholds[i] ==> FillIndex(t) <= i
  {
  }

  /** The palette entries are pairwise distinct, so a fill colour determines its bucket. */
  lemma FillColorDeterminesBucket(t1: real, t2: real)
    ensures GetFillColor(t1) == GetFillColor(t2) <==> FillIndex(t1) == FillIndex(t2)
  {
    assert forall i, j :: 0 <= i < j < |CellColors| ==> CellColors[i] != CellColors[j];
  }
}

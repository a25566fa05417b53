/** The arithmetic of `antnet_rtable::update` on one row. */
module Pheromones {
  import opened AntTypes
  import opened RealArith

  /** Sum of the first k pheromone values: the accumulators lrange and urange. */
  function Prefix(row: Row, k: nat): real
    requires k <= |row|
  {
    if k == 0 then 0.0 else Prefix(row, k - 1) + row[k - 1].phvalue
  }

  function Total(row: Row): real { Prefix(row, |row|) }

  /** How many of the first k entries name `n`. */
  function Count(row: Row, n: int, k: nat): nat
    requires k <= |row|
  {
    if k == 0 then 0 else Count(row, n, k - 1) + if row[k - 1].neighbor == n then 1 else 0
  }

  predicate Positive(row: Row) {
    forall k :: 0 <= k < |row| ==> row[k].phvalue > 0.0
  }

  predicate DistinctNeighbors(row: Row) {
    forall i, j :: 0 <= i < j < |row| ==> row[i].neighbor != row[j].neighbor
  }

  /** A row that is a probability distribution over distinct neighbours. */
  predicate Distribution(row: Row) {
    Positive(row) && DistinctNeighbors(row) && Total(row) == 1.0
  }

  /** The value one entry is given by an update in favour of `next`. */
  function Reinforce(e: Pheromone, next: int, r: real): Pheromone {
    Pheromone(e.neighbor, if e.neighbor == next then e.phvalue + r * (1.0 - e.phvalue) else (1.0 - r) * e.phvalue)
  }

  /** Every entry decays; the favoured one gains r on top. */
  lemma {:induction false} ReinforceLinear(e: Pheromone, next: int, r: real)
    ensures Reinforce(e, next, r).neighbor == e.neighbor
    ensures Reinforce(e, next, r).phvalue
            == Times(1.0 - r, e.phvalue) + if e.neighbor == next then r else 0.0
  {
    TowardsOne(e.phvalue, r);
  }

  lemma {:induction false} ReinforcePositive(e: Pheromone, next: int, r: real)
    requires e.phvalue > 0.0 && 0.0 < r < 1.0
    ensures Reinforce(e, next, r).phvalue > 0.0
  {
    ReinforceLinear(e, next, r);
    TimesOrder(1.0 - r, 0.0, e.phvalue);
  }

  function Reinforced(row: Row, next: int, r: real): (out: Row)
    ensures |out| == |row|
  {
    seq(|row|, i requires 0 <= i < |row| => Reinforce(row[i], next, r))
  }

  /** What the first k entries gain by an update, over and above their decay. */
  function Gain(row: Row, next: int, r: real, k: nat): real
    requires k <= |row|
  {
    if k == 0 then 0.0 else Gain(row, next, r, k - 1) + if row[k - 1].neighbor == next then r else 0.0
  }

  lemma {:induction false} GainIs(row: Row, next: int, r: real, k: nat)
    requires k <= |row|
    ensures Count(row, next, k) == 0 ==> Gain(row, next, r, k) == 0.0
    ensures Count(row, next, k) == 1 ==> Gain(row, next, r, k) == r
  {
    if k > 0 { GainIs(row, next, r, k - 1); }
  }

  lemma {:induction false} PrefixAfterUpdate(row: Row, next: int, r: real, k: nat)
    requires k <= |row|
    ensures Prefix(Reinforced(row, next, r), k) == Times(1.0 - r, Prefix(row, k)) + Gain(row, next, r, k)
  {
    if k > 0 {
      PrefixAfterUpdate(row, next, r, k - 1);
      ReinforceLinear(row[k - 1], next, r);
      TimesDistrib(1.0 - r, Prefix(row, k - 1), row[k - 1].phvalue);
    }
  }

  lemma {:induction false} CountDistinct(row: Row, n: int, k: nat)
    requires k <= |row| && DistinctNeighbors(row)
    ensures Count(row, n, k) == if IndexOf(row, n) < k then 1 else 0
  {
    if k > 0 {
      CountDistinct(row, n, k - 1);
      if row[k - 1].neighbor == n { IndexOfIs(row, n, k - 1); }
    }
  }

  /** With `next` named exactly once, the distance of the total from one shrinks by the factor 1-r. */
  lemma {:induction false} NormalisationErrorContracts(row: Row, next: int, r: real)
    requires Count(row, next, |row|) == 1
    ensures Total(Reinforced(row, next, r)) - 1.0 == (1.0 - r) * (Total(row) - 1.0)
  {
    PrefixAfterUpdate(row, next, r, |row|);
    GainIs(row, next, r, |row|);
    TimesDistrib(1.0 - r, Total(row), 1.0);
  }

  /** A normalised row stays normalised exactly when `next` is one of its entries. */
  lemma {:induction false} StaysDistributionIff(row: Row, next: int, r: real)
    requires Distribution(row) && 0.0 < r < 1.0
    ensures Distribution(Reinforced(row, next, r)) <==> exists k :: 0 <= k < |row| && row[k].neighbor == next
  {
    var out := Reinforced(row, next, r);
    PrefixAfterUpdate(row, next, r, |row|);
    GainIs(row, next, r, |row|);
    CountDistinct(row, next, |row|);
    forall k | 0 <= k < |row| ensures out[k].neighbor == row[k].neighbor && out[k].phvalue > 0.0 {
      ReinforcePositive(row[k], next, r);
    }
  }

  /** The favoured entry strictly rises unless it is already one; every other positive entry strictly falls. */
  lemma {:induction false} UpdateMovesEveryEntry(row: Row, next: int, r: real, k: nat)
    requires k < |row| && Positive(row) && 0.0 < r < 1.0
    ensures row[k].neighbor == next ==>
              (Reinforced(row, next, r)[k].phvalue > row[k].phvalue <==> row[k].phvalue < 1.0)
    ensures row[k].neighbor != next ==> 0.0 < Reinforced(row, next, r)[k].phvalue < row[k].phvalue
  {
    var ph := row[k].phvalue;
    RealArith.Positive(r, ph);
    Distrib(ph, 1.0, r);
    ReinforcePositive(row[k], next, r);
    if ph < 1.0 { RealArith.Positive(r, 1.0 - ph); } else { Monotone(r, 1.0 - ph, 0.0); }
  }

  function Pow(b: real, m: nat): real { if m == 0 then 1.0 else Times(b, Pow(b, m - 1)) }

  /** The row after a history of updates, oldest first. */
  function ReinforcedBy(row: Row, nexts: seq<int>, r: real): (out: Row)
    ensures |out| == |row|
  {
    if nexts == [] then row
    else Reinforced(ReinforcedBy(row, nexts[..|nexts| - 1], r), nexts[|nexts| - 1], r)
  }

  /** Discounted sum of the reinforcements that a history gives to `n`. */
  function Credit(nexts: seq<int>, n: int, r: real): real {
    if nexts == [] then 0.0
    else Times(1.0 - r, Credit(nexts[..|nexts| - 1], n, r)) + if nexts[|nexts| - 1] == n then r else 0.0
  }

  /** Closed form of any history: the initial value decays geometrically and the credits add up. */
  lemma {:induction false} HistoryClosedForm(row: Row, nexts: seq<int>, r: real, k: nat)
    requires k < |row|
    ensures ReinforcedBy(row, nexts, r)[k].neighbor == row[k].neighbor
    ensures ReinforcedBy(row, nexts, r)[k].phvalue
            == Times(Pow(1.0 - r, |nexts|), row[k].phvalue) + Credit(nexts, row[k].neighbor, r)
  {
    if nexts != [] {
      var m := |nexts| - 1;
      HistoryClosedForm(row, nexts[..m], r, k);
      var p, ph, c := Pow(1.0 - r, m), row[k].phvalue, Credit(nexts[..m], row[k].neighbor, r);
      var mid := ReinforcedBy(row, nexts[..m], r)[k].phvalue;
      ReinforceLinear(ReinforcedBy(row, nexts[..m], r)[k], nexts[m], r);
      assert ReinforcedBy(row, nexts, r)[k] == Reinforce(ReinforcedBy(row, nexts[..m], r)[k], nexts[m], r);
      TimesDistrib(1.0 - r, Times(p, ph), c);
      TimesAssoc(1.0 - r, p, ph);
    }
  }

  lemma {:induction false} CreditRange(nexts: seq<int>, n: int, r: real)
    requires 0.0 < r < 1.0
    ensures 0.0 <= Credit(nexts, n, r) <= 1.0 - Pow(1.0 - r, |nexts|)
    ensures (forall i :: 0 <= i < |nexts| ==> nexts[i] == n) ==> Credit(nexts, n, r) == 1.0 - Pow(1.0 - r, |nexts|)
  {
    if nexts != [] {
      var m := |nexts| - 1;
      CreditRange(nexts[..m], n, r);
      var c, p := Credit(nexts[..m], n, r), Pow(1.0 - r, m);
      TimesOrder(1.0 - r, 0.0, c);
      TimesOrder(1.0 - r, c, 1.0 - p);
      TimesDistrib(1.0 - r, 1.0, p);
    }
  }

  /** After m updates an entry keeps at least (1-r)^m of its value, whatever was reinforced. */
  lemma {:induction false} EntryFloor(row: Row, nexts: seq<int>, r: real, k: nat)
    requires k < |row| && 0.0 < r < 1.0
    ensures ReinforcedBy(row, nexts, r)[k].phvalue >= Pow(1.0 - r, |nexts|) * row[k].phvalue
  {
    HistoryClosedForm(row, nexts, r, k);
    CreditRange(nexts, row[k].neighbor, r);
  }

  /** After m reinforcements of one neighbour its distance from one is exactly (1-r)^m of what it was. */
  lemma {:induction false} DeficitDecaysGeometrically(row: Row, nexts: seq<int>, r: real, k: nat)
    requires k < |row| && 0.0 < r < 1.0
    requires forall i :: 0 <= i < |nexts| ==> nexts[i] == row[k].neighbor
    ensures 1.0 - ReinforcedBy(row, nexts, r)[k].phvalue == Pow(1.0 - r, |nexts|) * (1.0 - row[k].phvalue)
  {
    HistoryClosedForm(row, nexts, r, k);
    CreditRange(nexts, row[k].neighbor, r);
    Distrib(Pow(1.0 - r, |nexts|), 1.0, row[k].phvalue);
  }

  lemma {:induction false} PrefixMonotone(row: Row, i: nat, j: nat)
    requires i <= j <= |row| && Positive(row)
    ensures Prefix(row, i) <= Prefix(row, j)
    ensures i < j ==> Prefix(row, i) < Prefix(row, j)
  {
    if i < j { PrefixMonotone(row, i, j - 1); }
  }
}

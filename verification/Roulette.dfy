/** `antnet_rtable::calc_next`: the roulette wheel over a row, with the parent's range cut out. */
module Roulette {
  import opened AntTypes
  import opened Pheromones

  predicate InUnit(draws: seq<real>) { forall i :: 0 <= i < |draws| ==> 0.0 <= draws[i] < 1.0 }

  /** The draw u falls in the k-th half-open slot of the wheel. */
  predicate InSlot(row: Row, k: nat, u: real)
    requires k < |row|
  {
    Prefix(row, k) <= u < Prefix(row, k + 1)
  }

  /** lrange as the first pass leaves it. */
  function ParentLow(row: Row, parent: int): real { Prefix(row, IndexOf(row, parent)) }

  /** urange as the first pass leaves it, 0.0 having been replaced by 1.0. */
  function ParentHigh(row: Row, parent: int): real {
    var k := IndexOf(row, parent);
    var high := if k < |row| then Prefix(row, k + 1) else 0.0;
    if high == 0.0 then 1.0 else high
  }

  /** The test by which the code recognises a dead end. */
  predicate DeadEnd(row: Row, parent: int) { ParentLow(row, parent) == 0.0 && ParentHigh(row, parent) == 1.0 }

  predicate Rejected(row: Row, parent: int, u: real) { ParentLow(row, parent) <= u < ParentHigh(row, parent) }

  /** Position of the first draw that leaves the rejection loop, or |draws|. */
  function FirstAccepted(row: Row, parent: int, draws: seq<real>): (j: nat)
    ensures j <= |draws|
    ensures forall i :: 0 <= i < j ==> Rejected(row, parent, draws[i])
    ensures j < |draws| ==> !Rejected(row, parent, draws[j])
  {
    if draws == [] || !Rejected(row, parent, draws[0]) then 0
    else 1 + FirstAccepted(row, parent, draws[1..])
  }

  /** Position of the first slot at or after k that contains u, or |row|. */
  function SlotFrom(row: Row, u: real, k: nat): (s: nat)
    requires k <= |row|
    ensures k <= s <= |row|
    ensures s < |row| ==> InSlot(row, s, u)
    ensures forall i :: k <= i < s ==> !InSlot(row, i, u)
    decreases |row| - k
  {
    if k == |row| || InSlot(row, k, u) then k else SlotFrom(row, u, k + 1)
  }

  /** The hop that `calc_next` returns for a row, a parent and a supply of draws. */
  function Choose(row: Row, parent: int, draws: seq<real>): Hop {
    if DeadEnd(row, parent) then NextHop(parent)
    else
      var j := FirstAccepted(row, parent, draws);
      if j == |draws| then StillDrawing
      else
        var k := SlotFrom(row, draws[j], 0);
        if k == |row| then RanOffEnd else NextHop(row[k].neighbor)
  }

  /** The slots partition [0,1): every draw is in exactly one, the one the second pass finds. */
  lemma {:induction false} SlotsPartitionUnit(row: Row, u: real)
    requires Distribution(row) && 0.0 <= u < 1.0
    ensures SlotFrom(row, u, 0) < |row|
    ensures forall k :: 0 <= k < |row| ==> (InSlot(row, k, u) <==> k == SlotFrom(row, u, 0))
  {
    SlotExists(row, u, |row|);
    var s := SlotFrom(row, u, 0);
    forall k | s < k < |row| ensures !InSlot(row, k, u) {
      PrefixMonotone(row, s + 1, k);
    }
  }

  /** Each slot lies inside [0,1) and is as long as its pheromone, which is therefore the chance of its neighbour. */
  lemma {:induction false} SlotLength(row: Row, k: nat)
    requires Distribution(row) && k < |row|
    ensures 0.0 <= Prefix(row, k) < Prefix(row, k + 1) <= 1.0
    ensures Prefix(row, k + 1) - Prefix(row, k) == row[k].phvalue
  {
    PrefixMonotone(row, 0, k);
    PrefixMonotone(row, k + 1, |row|);
  }

  lemma {:induction false} SlotExists(row: Row, u: real, n: nat)
    requires n <= |row| && 0.0 <= u < Prefix(row, n)
    ensures exists k :: 0 <= k < n && InSlot(row, k, u)
  {
    if u < Prefix(row, n - 1) { SlotExists(row, u, n - 1); } else { assert InSlot(row, n - 1, u); }
  }

  /** On a distribution the dead-end test recognises exactly the nodes whose only neighbour is the parent. */
  lemma {:induction false} DeadEndIffOnlyParent(row: Row, parent: int)
    requires Distribution(row)
    ensures DeadEnd(row, parent) <==> |row| == 1 && row[0].neighbor == parent
  {
    var k := IndexOf(row, parent);
    PrefixMonotone(row, 0, k);
    if k < |row| {
      PrefixMonotone(row, k + 1, |row|);
    }
  }

  /** On a distribution the rejected draws are exactly those in the parent's slot, whichever pass computes it. */
  lemma {:induction false} RejectedIffParentSlot(row: Row, parent: int, u: real)
    requires Distribution(row) && 0.0 <= u < 1.0
    ensures Rejected(row, parent, u) <==> exists k :: 0 <= k < |row| && row[k].neighbor == parent && InSlot(row, k, u)
  {
    var k := IndexOf(row, parent);
    if k < |row| {
      PrefixMonotone(row, 0, k);
      PrefixMonotone(row, k, k + 1);
      assert Rejected(row, parent, u) <==> InSlot(row, k, u);
    }
  }

  /** The law of `calc_next`: it returns the k-th neighbour, not the parent, exactly when the first draw outside the
      parent's slot lies in the k-th slot. */
  lemma {:induction false} ChoosesBySlot(row: Row, parent: int, draws: seq<real>, k: nat)
    requires Distribution(row) && InUnit(draws)
    requires k < |row| && row[k].neighbor != parent
    ensures Choose(row, parent, draws) == NextHop(row[k].neighbor) <==>
            exists j :: 0 <= j < |draws| && InSlot(row, k, draws[j]) &&
                        forall i :: 0 <= i < j ==> Rejected(row, parent, draws[i])
  {
    DeadEndIffOnlyParent(row, parent);
    if Choose(row, parent, draws) == NextHop(row[k].neighbor) {
      assert InSlot(row, k, draws[FirstAccepted(row, parent, draws)]);
    }
    if j :| 0 <= j < |draws| && InSlot(row, k, draws[j]) && forall i :: 0 <= i < j ==> Rejected(row, parent, draws[i]) {
      SlotsPartitionUnit(row, draws[j]);
      RejectedIffParentSlot(row, parent, draws[j]);
      FirstAcceptedIs(row, parent, draws, j);
      ChoiceIsSlot(row, parent, draws, j, k);
    }
  }

  predicate InParentSlot(row: Row, parent: int, u: real) {
    exists k :: 0 <= k < |row| && row[k].neighbor == parent && InSlot(row, k, u)
  }

  /** The first draw that is not in the parent's slot is in the k-th. */
  predicate FirstOutsideIn(row: Row, parent: int, draws: seq<real>, k: nat)
    requires k < |row|
  {
    exists j :: 0 <= j < |draws| && InSlot(row, k, draws[j]) &&
                forall i :: 0 <= i < j ==> InParentSlot(row, parent, draws[i])
  }

  /** The law again, with the first pass spelled out as the parent's slot. */
  lemma {:induction false} ChoosesFirstOutside(row: Row, parent: int, draws: seq<real>, k: nat)
    requires Distribution(row) && InUnit(draws)
    requires k < |row| && row[k].neighbor != parent
    ensures Choose(row, parent, draws) == NextHop(row[k].neighbor) <==> FirstOutsideIn(row, parent, draws, k)
  {
    ChoosesBySlot(row, parent, draws, k);
    forall i | 0 <= i < |draws| ensures Rejected(row, parent, draws[i]) <==> InParentSlot(row, parent, draws[i]) {
      RejectedIffParentSlot(row, parent, draws[i]);
    }
    hide Choose, Rejected, InSlot, Distribution;
  }

  /** The lower end of a slot is a draw in it, and in no other. */
  lemma {:induction false} SlotCanBeDrawn(row: Row, parent: int, k: nat)
    requires Distribution(row) && k < |row| && row[k].neighbor != parent
    ensures InUnit([Prefix(row, k)]) && FirstOutsideIn(row, parent, [Prefix(row, k)], k)
  {
    SlotLength(row, k);
    assert InSlot(row, k, [Prefix(row, k)][0]);
  }

  lemma {:induction false} FirstAcceptedIs(row: Row, parent: int, draws: seq<real>, j: nat)
    requires j < |draws| && !Rejected(row, parent, draws[j])
    requires forall i :: 0 <= i < j ==> Rejected(row, parent, draws[i])
    ensures FirstAccepted(row, parent, draws) == j
  {
  }

  lemma {:induction false} ChoiceIsSlot(row: Row, parent: int, draws: seq<real>, j: nat, k: nat)
    requires !DeadEnd(row, parent) && j == FirstAccepted(row, parent, draws) < |draws|
    requires k == SlotFrom(row, draws[j], 0) < |row|
    ensures Choose(row, parent, draws) == NextHop(row[k].neighbor)
  {
  }

  /** On a distribution `calc_next` always returns: a neighbour, and the parent exactly when it is the only one.
      The rejection loop goes on only while every draw is in the parent's slot. */
  lemma {:induction false} CalcNextIsSafe(row: Row, parent: int, draws: seq<real>)
    requires Distribution(row) && InUnit(draws)
    ensures Choose(row, parent, draws) != RanOffEnd
    ensures Choose(row, parent, draws).NextHop? ==>
              exists k :: 0 <= k < |row| && row[k].neighbor == Choose(row, parent, draws).node
    ensures Choose(row, parent, draws) == NextHop(parent) <==> |row| == 1 && row[0].neighbor == parent
    ensures Choose(row, parent, draws) == StillDrawing <==>
              !(|row| == 1 && row[0].neighbor == parent) &&
              forall i :: 0 <= i < |draws| ==> Rejected(row, parent, draws[i])
  {
    DeadEndIffOnlyParent(row, parent);
    var j := FirstAccepted(row, parent, draws);
    if j < |draws| {
      SlotsPartitionUnit(row, draws[j]);
      RejectedIffParentSlot(row, parent, draws[j]);
    }
  }

  /** Outside a dead end some draw is accepted, so the rejection loop can be left. */
  lemma {:induction false} AcceptableDrawExists(row: Row, parent: int)
    requires Distribution(row) && !DeadEnd(row, parent)
    ensures exists u :: 0.0 <= u < 1.0 && !Rejected(row, parent, u)
  {
    var k := IndexOf(row, parent);
    PrefixMonotone(row, 0, k);
    if k == |row| || Prefix(row, k) > 0.0 {
      assert !Rejected(row, parent, 0.0);
    } else {
      PrefixMonotone(row, k + 1, |row|);
      assert !Rejected(row, parent, Prefix(row, k + 1));
    }
  }
}

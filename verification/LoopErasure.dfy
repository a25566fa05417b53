/** Loop erasure of a walk, defined by last exits, and `memorize`, which reaches it by truncating in place. */
module LoopErasure {
  import opened AntTypes

  /** One arrival of an ant at a node. The first visit is the ant's creation. */
  datatype Visit = Visit(node: int, time: real)

  type Walk = seq<Visit>

  /** The last position of the walk at which the node at position `from` is visited. */
  function LastExit(w: Walk, from: nat): (j: nat)
    requires from < |w|
    ensures from <= j < |w|
  {
    LastVisit(w, w[from].node, from, |w|)
  }

  function LastVisit(w: Walk, v: int, from: nat, end: nat): (j: nat)
    requires from < end <= |w| && w[from].node == v
    ensures from <= j < end
  {
    if w[end - 1].node == v then end - 1 else LastVisit(w, v, from, end - 1)
  }

  lemma {:induction false} LastVisitIsLast(w: Walk, v: int, from: nat, end: nat)
    requires from < end <= |w| && w[from].node == v
    ensures w[LastVisit(w, v, from, end)].node == v
    ensures forall i :: LastVisit(w, v, from, end) < i < end ==> w[i].node != v
  {
    if w[end - 1].node != v { LastVisitIsLast(w, v, from, end - 1); }
  }

  /** Positions in a walk. */
  predicate Positions(w: Walk, e: seq<nat>) { forall k :: 0 <= k < |e| ==> e[k] < |w| }

  /** The loop erasure of w from position `from` on, as positions of w: leave each node by its last exit. */
  function Exits(w: Walk, from: nat): (e: seq<nat>)
    requires from <= |w|
    ensures Positions(w, e)
    decreases |w| - from
  {
    if from == |w| then [] else [LastExit(w, from)] + Exits(w, LastExit(w, from) + 1)
  }

  /** The k-th step of the erasure is the step by which the walk left its k-th node. */
  predicate StepOfWalk(w: Walk, e: seq<nat>, k: nat)
    requires Positions(w, e) && k + 1 < |e|
  {
    e[k] < e[k + 1] && w[e[k + 1]].node == w[e[k] + 1].node
  }

  /** After its k-th position the walk does not see that node again. */
  predicate LeftForGood(w: Walk, e: seq<nat>, k: nat)
    requires Positions(w, e) && k < |e|
  {
    forall i :: e[k] < i < |w| ==> w[i].node != w[e[k]].node
  }

  /** The shape of a loop erasure: it starts where the walk starts, ends where it ends, each step is a step of the walk,
      and no node is visited again after it was left. */
  lemma {:induction false} ExitsShape(w: Walk, from: nat)
    requires from <= |w|
    ensures var e := Exits(w, from);
            && (from < |w| ==> e != [] && w[e[0]].node == w[from].node && e[|e| - 1] == |w| - 1)
            && (forall k :: 0 <= k && k + 1 < |e| ==> StepOfWalk(w, e, k))
            && (forall k :: 0 <= k < |e| ==> LeftForGood(w, e, k))
    decreases |w| - from
  {
    if from < |w| {
      var j := LastExit(w, from);
      var rest, e := Exits(w, j + 1), Exits(w, from);
      ExitsShape(w, j + 1);
      LastVisitIsLast(w, w[from].node, from, |w|);
      forall k | 0 <= k && k + 1 < |e| ensures StepOfWalk(w, e, k) {
        if k > 0 { assert StepOfWalk(w, rest, k - 1); }
      }
      forall k | 0 <= k < |e| ensures LeftForGood(w, e, k) {
        if k > 0 { assert LeftForGood(w, rest, k - 1); }
      }
    }
  }

  lemma {:induction false} ExitsIncrease(w: Walk, e: seq<nat>, i: nat, j: nat)
    requires Positions(w, e) && i < j < |e|
    requires forall k :: 0 <= k && k + 1 < |e| ==> StepOfWalk(w, e, k)
    ensures e[i] < e[j]
  {
    assert StepOfWalk(w, e, j - 1);
    if i < j - 1 { ExitsIncrease(w, e, i, j - 1); }
  }

  /** The first place in the erasure that shows node v, or its length. */
  function PlaceOf(w: Walk, e: seq<nat>, v: int): (k: nat)
    requires Positions(w, e)
    ensures k <= |e|
  {
    if e == [] || w[e[0]].node == v then 0 else 1 + PlaceOf(w, e[1..], v)
  }

  lemma {:induction false} LastVisitAppend(w: Walk, x: Visit, v: int, from: nat, end: nat)
    requires from < end <= |w| && w[from].node == v
    ensures LastVisit(w + [x], v, from, end) == LastVisit(w, v, from, end)
  {
    assert (w + [x])[end - 1] == w[end - 1];
    if w[end - 1].node != v { LastVisitAppend(w, x, v, from, end - 1); }
  }

  lemma {:induction false} LastExitAppend(w: Walk, x: Visit, from: nat)
    requires from < |w|
    ensures LastExit(w + [x], from) == if w[from].node == x.node then |w| else LastExit(w, from)
  {
    LastVisitAppend(w, x, w[from].node, from, |w|);
  }

  lemma {:induction false} PlaceOfCons(w: Walk, j: nat, e: seq<nat>, v: int)
    requires j < |w| && Positions(w, [j] + e) && Positions(w, e)
    ensures PlaceOf(w, [j] + e, v) == if w[j].node == v then 0 else 1 + PlaceOf(w, e, v)
  {
    assert ([j] + e)[1..] == e;
  }

  /** The erasure from `from` on, when the rest of it is known. */
  lemma {:induction false} ExitsUnfold(w: Walk, from: nat, rest: seq<nat>)
    requires from < |w| && Exits(w, LastExit(w, from) + 1) == rest
    ensures Exits(w, from) == [LastExit(w, from)] + rest
  {
  }

  lemma {:induction false} ExitsEnd(w: Walk)
    ensures Exits(w, |w|) == []
  {
  }

  lemma {:induction false} TakeCons(j: nat, e: seq<nat>, k: nat, n: nat)
    requires k <= |e|
    ensures ([j] + e)[..k + 1] + [n] == [j] + (e[..k] + [n])
  {
    assert ([j] + e)[..k + 1] == [j] + e[..k];
  }

  lemma {:induction false} AppendAtNodeItself(w: Walk, x: Visit, from: nat)
    requires from < |w| && w[from].node == x.node
    ensures Exits(w + [x], from) == [|w|]
    ensures PlaceOf(w, Exits(w, from), x.node) == 0
  {
    LastExitAppend(w, x, from);
    LastVisitIsLast(w, x.node, from, |w|);
    ExitsEnd(w + [x]);
    ExitsUnfold(w + [x], from, []);
  }

  lemma {:induction false} AppendBeyondNode(w: Walk, x: Visit, from: nat, rest: seq<nat>)
    requires from < |w| && w[from].node != x.node
    requires Exits(w + [x], LastExit(w, from) + 1) == rest
    ensures Exits(w + [x], from) == [LastExit(w, from)] + rest
  {
    LastExitAppend(w, x, from);
    ExitsUnfold(w + [x], from, rest);
  }

  /** One more visit: the erasure is cut before the visited node if it is there, and then ends with the new visit. */
  lemma {:induction false} ExitsAppend(w: Walk, x: Visit, from: nat)
    requires from <= |w|
    ensures Exits(w + [x], from) == Exits(w, from)[..PlaceOf(w, Exits(w, from), x.node)] + [|w|]
    decreases |w| - from
  {
    if from == |w| {
      ExitsEnd(w + [x]);
      ExitsUnfold(w + [x], from, []);
    } else if w[from].node == x.node {
      AppendAtNodeItself(w, x, from);
    } else {
      var j := LastExit(w, from);
      var e := Exits(w, j + 1);
      var k := PlaceOf(w, e, x.node);
      ExitsAppend(w, x, j + 1);
      AppendBeyondNode(w, x, from, e[..k] + [|w|]);
      LastVisitIsLast(w, w[from].node, from, |w|);
      PlaceOfCons(w, j, e, x.node);
      TakeCons(j, e, k, |w|);
    }
  }

  /** The memory an ant has after `memorize` at node `addr`, `time` after its creation. */
  function Memorized(mem: seq<Memory>, addr: int, time: real): (out: seq<Memory>)
  {
    var i := Find(mem, addr);
    if i == |mem| then mem + [Memory(addr, time)]
    else Shifted(mem[..i + 1], time - mem[i].tripTime)
  }

  /** All trip times later by t. */
  function Shifted(mem: seq<Memory>, t: real): (out: seq<Memory>)
    ensures |out| == |mem|
  {
    seq(|mem|, j requires 0 <= j < |mem| => Memory(mem[j].nodeAddr, mem[j].tripTime + t))
  }

  /** Between its k-th and next entry the memory shows the delay of the hop by which the walk left the k-th node. */
  predicate HopDelay(mem: seq<Memory>, w: Walk, e: seq<nat>, k: nat)
    requires Positions(w, e) && |mem| == |e| && k + 1 < |e|
  {
    e[k] + 1 < |w| && mem[k + 1].tripTime - mem[k].tripTime == w[e[k] + 1].time - w[e[k]].time
  }

  predicate HopDelays(mem: seq<Memory>, w: Walk, e: seq<nat>)
    requires Positions(w, e)
  {
    |mem| == |e| && forall k :: 0 <= k && k + 1 < |e| ==> HopDelay(mem, w, e, k)
  }

  predicate SameNodes(mem: seq<Memory>, w: Walk, e: seq<nat>)
    requires Positions(w, e)
  {
    |mem| == |e| && forall k :: 0 <= k < |e| ==> mem[k].nodeAddr == w[e[k]].node
  }

  /** The memory shows the loop erasure of the walk: its nodes, and between consecutive entries the delay of the very
      hop by which the walk left the earlier node for good. The last time is the age of the ant. */
  predicate Tracks(mem: seq<Memory>, w: Walk, start: real)
  {
    var e := Exits(w, 0);
    && w != [] && mem != []
    && SameNodes(mem, w, e)
    && HopDelays(mem, w, e)
    && mem[|mem| - 1].tripTime == w[|w| - 1].time - start
  }

  lemma {:induction false} FindIsPlace(mem: seq<Memory>, w: Walk, e: seq<nat>, v: int)
    requires Positions(w, e) && SameNodes(mem, w, e)
    ensures Find(mem, v) == PlaceOf(w, e, v)
  {
    if mem != [] { FindIsPlace(mem[1..], w, e[1..], v); }
  }

  /** A new ant's memory tracks the walk of one visit. */
  lemma {:induction false} TracksNew(addr: int, now: real)
    ensures Tracks([Memory(addr, 0.0)], [Visit(addr, now)], now)
  {
    var w := [Visit(addr, now)];
    assert Exits(w, 1) == [];
    assert Exits(w, 0) == [0];
  }

  lemma {:induction false} HopDelayKept(mem: seq<Memory>, w: Walk, start: real, x: Visit, k: nat)
    requires Tracks(mem, w, start)
    requires k < Find(mem, x.node)
    requires Exits(w + [x], 0) == Exits(w, 0)[..Find(mem, x.node)] + [|w|]
    ensures HopDelay(Memorized(mem, x.node, x.time - start), w + [x], Exits(w + [x], 0), k)
  {
    var e, w', i := Exits(w, 0), w + [x], Find(mem, x.node);
    ExitsShape(w, 0);
    assert w'[e[k]] == w[e[k]];
    if k + 1 < |e| {
      assert HopDelay(mem, w, e, k);
      assert StepOfWalk(w, e, k);
      assert w'[e[k] + 1] == w[e[k] + 1];
    }
  }

  lemma {:induction false} SameNodesKept(mem: seq<Memory>, w: Walk, time: real, x: Visit)
    requires SameNodes(mem, w, Exits(w, 0))
    requires Exits(w + [x], 0) == Exits(w, 0)[..Find(mem, x.node)] + [|w|]
    ensures SameNodes(Memorized(mem, x.node, time), w + [x], Exits(w + [x], 0))
  {
    var e, w', i := Exits(w, 0), w + [x], Find(mem, x.node);
    forall k | 0 <= k < i ensures mem[k].nodeAddr == w'[e[k]].node {
      assert w'[e[k]] == w[e[k]];
    }
  }

  lemma {:induction false} HopDelaysKept(mem: seq<Memory>, w: Walk, start: real, x: Visit)
    requires Tracks(mem, w, start)
    requires Exits(w + [x], 0) == Exits(w, 0)[..Find(mem, x.node)] + [|w|]
    ensures HopDelays(Memorized(mem, x.node, x.time - start), w + [x], Exits(w + [x], 0))
  {
    var e', w', mem' := Exits(w + [x], 0), w + [x], Memorized(mem, x.node, x.time - start);
    forall k | 0 <= k && k + 1 < |e'| ensures HopDelay(mem', w', e', k) {
      HopDelayKept(mem, w, start, x, k);
    }
  }

  /** `memorize` refines loop erasure: what it leaves in memory tracks the walk with the new visit. */
  lemma {:induction false} MemorizeTracks(mem: seq<Memory>, w: Walk, start: real, x: Visit)
    requires Tracks(mem, w, start)
    ensures Tracks(Memorized(mem, x.node, x.time - start), w + [x], start)
  {
    ExitsAppend(w, x, 0);
    FindIsPlace(mem, w, Exits(w, 0), x.node);
    SameNodesKept(mem, w, x.time - start, x);
    HopDelaysKept(mem, w, start, x);
  }

  /** The memory after a whole walk: one entry at the node that creates the ant, then `memorize` at every arrival. */
  function MemoryAfter(w: Walk): seq<Memory>
    requires w != []
  {
    var n := |w| - 1;
    if n == 0 then [Memory(w[0].node, 0.0)] else Memorized(MemoryAfter(w[..n]), w[n].node, w[n].time - w[0].time)
  }

  /** For every walk whatsoever, the memory built by scanning and truncating in place is the loop erasure of the
      walk. */
  lemma {:induction false} MemoryIsLoopErasure(w: Walk)
    requires w != []
    ensures Tracks(MemoryAfter(w), w, w[0].time)
  {
    var n := |w| - 1;
    assert w == w[..n] + [w[n]];
    if n == 0 {
      TracksNew(w[0].node, w[0].time);
    } else {
      MemoryIsLoopErasure(w[..n]);
      MemorizeTracks(MemoryAfter(w[..n]), w[..n], w[0].time, w[n]);
    }
  }

  predicate TimesIncrease(w: Walk) { forall i, j :: 0 <= i < j < |w| ==> w[i].time < w[j].time }

  /** The time spent in erased loops from position `from` on: at each node of the erasure, from the arrival that
      leads to it until the last exit. */
  function LoopTime(w: Walk, from: nat): real
    requires from <= |w|
    decreases |w| - from
  {
    if from == |w| then 0.0
    else
      var j := LastExit(w, from);
      (w[j].time - w[from].time) + LoopTime(w, j + 1)
  }

  /** The k-th trip time is the age at which the ant came to the k-th node, plus all loop time from there on. */
  lemma {:induction false} TripTimeFrom(mem: seq<Memory>, w: Walk, start: real, k: nat, from: nat)
    requires Tracks(mem, w, start) && k < |mem| && from < |w| && Exits(w, 0)[k..] == Exits(w, from)
    ensures mem[k].tripTime == w[from].time - start + LoopTime(w, from)
    decreases |mem| - k
  {
    var e, j := Exits(w, 0), LastExit(w, from);
    ExitsShape(w, 0);
    ExitsUnfold(w, from, Exits(w, j + 1));
    assert e[k] == e[k..][0] == j;
    assert e[k + 1..] == e[k..][1..] == Exits(w, j + 1);
    if j + 1 < |w| {
      ExitsShape(w, j + 1);
      assert k + 1 < |e|;
      TripTimeFrom(mem, w, start, k + 1, j + 1);
      assert HopDelay(mem, w, e, k);
    } else {
      ExitsEnd(w);
    }
  }

  /** The first trip time of an ant is exactly the time it has spent in loops that were erased. */
  lemma {:induction false} FirstTripTimeIsLoopTime(mem: seq<Memory>, w: Walk)
    requires w != [] && Tracks(mem, w, w[0].time)
    ensures mem[0].tripTime == LoopTime(w, 0)
  {
    assert Exits(w, 0)[0..] == Exits(w, 0);
    TripTimeFrom(mem, w, w[0].time, 0, 0);
  }

  /** From position `from` on no node is visited twice. */
  predicate SimpleFrom(w: Walk, from: nat) { forall i, j :: from <= i < j < |w| ==> w[i].node != w[j].node }

  lemma {:induction false} LoopTimeZeroIff(w: Walk, from: nat)
    requires from <= |w| && TimesIncrease(w)
    ensures LoopTime(w, from) >= 0.0
    ensures LoopTime(w, from) == 0.0 <==> SimpleFrom(w, from)
    decreases |w| - from
  {
    if from < |w| {
      var j := LastExit(w, from);
      LastVisitIsLast(w, w[from].node, from, |w|);
      LoopTimeZeroIff(w, j + 1);
      if j == from {
        assert SimpleFrom(w, from) <==> SimpleFrom(w, from + 1);
      } else {
        assert w[from].node == w[j].node && w[from].time < w[j].time;
      }
    }
  }

  /** After any walk the first trip time is not negative, and it is zero exactly when no node was visited twice. */
  lemma {:induction false} FirstTripTimeZeroIff(w: Walk)
    requires w != [] && TimesIncrease(w)
    ensures MemoryAfter(w) != [] && MemoryAfter(w)[0].tripTime == LoopTime(w, 0) >= 0.0
    ensures MemoryAfter(w)[0].tripTime == 0.0 <==> SimpleFrom(w, 0)
  {
    MemoryIsLoopErasure(w);
    FirstTripTimeIsLoopTime(MemoryAfter(w), w);
    LoopTimeZeroIff(w, 0);
  }

  /** A walk 0, 1, 2, 0 with one unit of time for each hop leaves the creating node alone in memory, three units
      late. */
  lemma {:induction false} FirstTripTimeCanBePositive()
    ensures MemoryAfter([Visit(0, 0.0), Visit(1, 1.0), Visit(2, 2.0), Visit(0, 3.0)]) == [Memory(0, 3.0)]
  {
    var w1, w2, w3 := [Visit(0, 0.0)], [Visit(0, 0.0), Visit(1, 1.0)], [Visit(0, 0.0), Visit(1, 1.0), Visit(2, 2.0)];
    var w4 := w3 + [Visit(0, 3.0)];
    assert w4 == [Visit(0, 0.0), Visit(1, 1.0), Visit(2, 2.0), Visit(0, 3.0)];
    assert w2[..1] == w1 && w3[..2] == w2 && w4[..3] == w3;
    assert MemoryAfter(w1) == [Memory(0, 0.0)];
    assert MemoryAfter(w2) == [Memory(0, 0.0), Memory(1, 1.0)];
    assert MemoryAfter(w3) == [Memory(0, 0.0), Memory(1, 1.0), Memory(2, 2.0)];
    assert MemoryAfter(w3)[..1] == [Memory(0, 0.0)];
    assert Find(MemoryAfter(w3), 0) == 0;
    assert MemoryAfter(w4) == Shifted([Memory(0, 0.0)], 3.0);
  }

  /** What tracking gives: a path without repetition, from the start of the walk to its end, each step a step of the
      walk, with strictly increasing trip times. */
  lemma {:induction false} TrackedMemoryIsSimple(mem: seq<Memory>, w: Walk, start: real)
    requires Tracks(mem, w, start) && TimesIncrease(w)
    ensures mem != [] && mem[0].nodeAddr == w[0].node && mem[|mem| - 1].nodeAddr == w[|w| - 1].node
    ensures DistinctNodes(mem)
    ensures forall k :: 0 <= k && k + 1 < |mem| ==> MovesAlong(mem, w, k)
    ensures forall k :: 0 <= k < |mem| ==> Visits(w, mem[k].nodeAddr)
  {
    var e := Exits(w, 0);
    ExitsShape(w, 0);
    forall k | 0 <= k && k + 1 < |mem| ensures MovesAlong(mem, w, k) {
      assert StepOfWalk(w, e, k) && HopDelay(mem, w, e, k);
      assert HasStep(w, mem[k].nodeAddr, mem[k + 1].nodeAddr, e[k]);
    }
    forall i, j | 0 <= i < j < |mem| ensures mem[i].nodeAddr != mem[j].nodeAddr {
      assert LeftForGood(w, e, i);
      ExitsIncrease(w, e, i, j);
    }
  }

  predicate Visits(w: Walk, v: int) { exists i :: 0 <= i < |w| && w[i].node == v }

  predicate HasStep(w: Walk, u: int, v: int, i: nat) { i + 1 < |w| && w[i].node == u && w[i + 1].node == v }

  /** The walk goes from u to v in one hop. */
  ghost predicate Steps(w: Walk, u: int, v: int) { exists i: nat :: HasStep(w, u, v, i) }

  /** The k-th step of the memory is a step of the walk, and trip times increase over it. */
  ghost predicate MovesAlong(mem: seq<Memory>, w: Walk, k: nat)
    requires k + 1 < |mem|
  {
    && mem[k].tripTime < mem[k + 1].tripTime
    && Steps(w, mem[k].nodeAddr, mem[k + 1].nodeAddr)
  }

  /** The time of the hop by which the walk left its p-th position. */
  function HopTime(w: Walk, p: nat): real { if p + 1 < |w| then w[p + 1].time - w[p].time else 0.0 }

  /** The time of the hops that the erasure keeps from its i-th to its j-th node. */
  function TravelTime(w: Walk, e: seq<nat>, i: nat, j: nat): real
    requires i <= j <= |e|
  {
    if i == j then 0.0 else TravelTime(w, e, i, j - 1) + HopTime(w, e[j - 1])
  }

  /** The difference of two trip times is the time the ant travelled between the two nodes, loops not counted. */
  lemma {:induction false} TripTimesAreTravelTimes(mem: seq<Memory>, w: Walk, start: real, i: nat, j: nat)
    requires Tracks(mem, w, start) && i <= j < |mem|
    ensures |Exits(w, 0)| == |mem|
    ensures mem[j].tripTime - mem[i].tripTime == TravelTime(w, Exits(w, 0), i, j)
  {
    hide Exits;
    if i < j {
      TripTimesAreTravelTimes(mem, w, start, i, j - 1);
      assert HopDelay(mem, w, Exits(w, 0), j - 1);
    }
  }
}

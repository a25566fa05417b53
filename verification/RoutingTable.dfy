/** The class `antnet_rtable`, changed in place, and the neighbour list its initial rows are read from. */
module RoutingTable {
  import opened AntTypes
  import opened Pheromones
  import opened Roulette

  /** A node's neighbour list, a linked list that is only walked. */
  datatype NeighborList = Null | Entry(nodeid: int, next: NeighborList)

  function Ids(nb: NeighborList): seq<int> {
    match nb
    case Null => []
    case Entry(id, next) => [id] + Ids(next)
  }

  method GetNumNeighbors(list: NeighborList) returns (count: nat)
    ensures count == |Ids(list)|
  {
    count := 0;
    var nb := list;
    while nb != Null
      invariant count + |Ids(nb)| == |Ids(list)|
      decreases nb
    {
      count := count + 1;
      nb := nb.next;
    }
  }

  function WithEntry(t: Table, dest: int, next: int, ph: real): Table {
    t[dest := (if dest in t then t[dest] else []) + [Pheromone(next, ph)]]
  }

  function Updated(t: Table, dest: int, next: int, r: real): Table {
    if dest in t then t[dest := Reinforced(t[dest], next, r)] else t
  }

  function HopFrom(t: Table, dest: int, parent: int, draws: seq<real>): Hop {
    if dest in t then Choose(t[dest], parent, draws) else RanOffEnd
  }

  /** A table has a row for every node but its own; `calc_destination` draws one of them. */
  predicate IsDestination(d: int, n: nat, addr: int) { 0 <= d < n && d != addr }

  /** Position of the first draw that differs from `source`, or |draws|. */
  function FirstOther(draws: seq<int>, source: int): (k: nat)
    ensures k <= |draws|
    ensures forall i :: 0 <= i < k ==> draws[i] == source
    ensures k < |draws| ==> draws[k] != source
  {
    if draws == [] || draws[0] != source then 0 else 1 + FirstOther(draws[1..], source)
  }

  /** `d` is the first of the nodes drawn that differs from `source`. */
  predicate FirstOtherIs(draws: seq<int>, source: int, d: int) {
    exists k :: 0 <= k < |draws| && draws[k] == d != source && forall i :: 0 <= i < k ==> draws[i] == source
  }

  predicate NodesBelow(draws: seq<int>, n: nat) { forall i :: 0 <= i < |draws| ==> 0 <= draws[i] < n }

  class AntnetRtable {
    var rt: Table

    constructor ()
      ensures rt == map[]
    {
      rt := map[];
    }

    method AddEntry(dest: int, next: int, ph: real)
      modifies this
      ensures rt == WithEntry(old(rt), dest, next, ph)
    {
      if dest !in rt {
        assert [] + [Pheromone(next, ph)] == [Pheromone(next, ph)];
        rt := rt[dest := [Pheromone(next, ph)]];
      } else {
        rt := rt[dest := rt[dest] + [Pheromone(next, ph)]];
      }
    }

    /** Rewrites the row of `dest` entry by entry. */
    method Update(dest: int, next: int, r: real)
      modifies this
      ensures rt == Updated(old(rt), dest, next, r)
    {
      if dest in rt {
        ghost var row := rt[dest];
        var i := 0;
        while i < |rt[dest]|
          invariant dest in rt && rt == old(rt)[dest := rt[dest]]
          invariant i <= |rt[dest]| == |row|
          invariant rt[dest][..i] == Reinforced(row, next, r)[..i]
          invariant rt[dest][i..] == row[i..]
          decreases |row| - i
        {
          var e := rt[dest][i];
          assert e == row[i];
          var oldph := e.phvalue;
          var e' := if e.neighbor == next then e.(phvalue := oldph + r * (1.0 - oldph))
                    else e.(phvalue := (1.0 - r) * oldph);
          rt := rt[dest := rt[dest][i := e']];
          assert Reinforced(row, next, r)[i] == e';
          i := i + 1;
        }
        assert rt[dest] == rt[dest][..i] && Reinforced(row, next, r) == Reinforced(row, next, r)[..i];
      }
    }

    /** Draws node numbers until one differs from `source`; not ok when the supply of draws is used up first. */
    method CalcDestination(source: int, n: nat, draws: seq<int>) returns (ok: bool, dest: int)
      requires NodesBelow(draws, n)
      ensures ok <==> exists i :: 0 <= i < |draws| && draws[i] != source
      ensures ok ==> IsDestination(dest, n, source)
      ensures ok <==> FirstOther(draws, source) < |draws|
      ensures ok ==> dest == draws[FirstOther(draws, source)]
    {
      var used := 0;
      while used < |draws| && draws[used] == source
        invariant used <= |draws|
        invariant forall i :: 0 <= i < used ==> draws[i] == source
      {
        used := used + 1;
      }
      ok := used < |draws|;
      dest := if ok then draws[used] else source;
      assert used == FirstOther(draws, source);
    }

    /** Two cumulative passes over the row with rejection sampling between them. */
    method CalcNext(dest: int, parent: int, draws: seq<real>) returns (hop: Hop)
      ensures hop == HopFrom(rt, dest, parent, draws)
    {
      if dest !in rt { return RanOffEnd; }
      var row := rt[dest];

      // range of the parent's link
      var lrange, urange := 0.0, 0.0;
      var i := 0;
      while i < |row|
        invariant i <= |row| && lrange == Prefix(row, i) && urange == 0.0
        invariant forall j :: 0 <= j < i ==> row[j].neighbor != parent
      {
        if row[i].neighbor == parent {
          urange := lrange + row[i].phvalue;
          break;
        }
        lrange := lrange + row[i].phvalue;
        i := i + 1;
      }
      assert i == IndexOf(row, parent);
      if urange == 0.0 { urange := 1.0; }
      if lrange == 0.0 && urange == 1.0 { return NextHop(parent); }

      // a random value outside that range
      var d := 0;
      while d < |draws| && lrange <= draws[d] < urange
        invariant d <= |draws| && forall j :: 0 <= j < d ==> Rejected(row, parent, draws[j])
      {
        d := d + 1;
      }
      if d == |draws| { return StillDrawing; }
      var u := draws[d];
      FirstAcceptedIs(row, parent, draws, d);

      // the neighbour this value selects
      lrange, urange := 0.0, 0.0;
      i := 0;
      while i < |row|
        invariant i <= |row| && lrange == Prefix(row, i) == urange
        invariant SlotFrom(row, u, 0) == SlotFrom(row, u, i)
      {
        urange := urange + row[i].phvalue;
        if lrange <= u < urange { return NextHop(row[i].neighbor); }
        lrange := urange;
        i := i + 1;
      }
      return RanOffEnd;
    }
  }
}

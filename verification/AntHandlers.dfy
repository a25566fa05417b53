/** What the agent's handlers compute, as functions of the packet, the routing table, the clock and the draws. */
module AntHandlers {
  import opened AntTypes
  import opened RealArith
  import opened Pheromones
  import opened LoopErasure
  import opened RoutingTable

  /** `send_ant_pkt`: a destination is drawn, and then the first hop. */
  function GenerateAnt(addr: int, dstDraws: seq<int>, now: real, t: Table, draws: seq<real>): Outcome {
    var k := FirstOther(dstDraws, addr);
    if k == |dstDraws| then Drawing else SendAnt(addr, dstDraws[k], now, t, draws)
  }

  /** The rest of `send_ant_pkt`: a new forward ant for `dst`. */
  function SendAnt(addr: int, dst: int, now: real, t: Table, draws: seq<real>): Outcome {
    match HopFrom(t, dst, addr, draws)
    case RanOffEnd => Fault
    case StillDrawing => Drawing
    case NextHop(next) =>
      if next == addr then Freed
      else Sent(Ant(true, 0, Down, addr, dst, now, addr, next, [Memory(addr, 0.0)]))
  }

  /** `forward_ant_pkt`: the next hop of a forward ant, or its end. */
  function ForwardAnt(ant: Ant, addr: int, t: Table, draws: seq<real>): Outcome {
    match HopFrom(t, ant.dst, ant.saddr, draws)
    case RanOffEnd => Fault
    case StillDrawing => Drawing
    case NextHop(next) =>
      if next == addr || next == ant.saddr then Freed else Sent(ant.(saddr := addr, nextHop := next))
  }

  /** `create_backward_ant_pkt`: the ant goes back to the last but one entry of its memory. */
  function TurnRound(ant: Ant, addr: int): Outcome {
    var index := |ant.memory| - 2;
    if index < 0 then Fault
    else Sent(ant.(src := ant.dst, dst := ant.src, direction := Up, isAnt := true,
                   nextHop := ant.memory[index].nodeAddr, saddr := addr))
  }

  /** Position of the last memory entry holding `addr`, or -1. */
  function FindLast(mem: seq<Memory>, addr: int): (k: int)
    ensures -1 <= k < |mem|
    ensures k >= 0 ==> mem[k].nodeAddr == addr
    ensures forall i :: k < i < |mem| ==> mem[i].nodeAddr != addr
  {
    if mem == [] then -1
    else if mem[|mem| - 1].nodeAddr == addr then |mem| - 1
    else FindLast(mem[..|mem| - 1], addr)
  }

  /** `backward_ant_pkt`: the ant goes on to the entry before this node's. */
  function BackwardHop(ant: Ant, addr: int): Outcome {
    var index := FindLast(ant.memory, addr) - 1;
    if index < 0 then Fault
    else Sent(ant.(direction := Up, isAnt := true, nextHop := ant.memory[index].nodeAddr, saddr := addr))
  }

  /** The rows of all destinations from position i of the memory on, updated in favour of `next`. */
  function UpdatedFrom(t: Table, mem: seq<Memory>, i: nat, next: int, r: real): Table
    decreases |mem| - i
  {
    if i >= |mem| then t else UpdatedFrom(Updated(t, mem[i].nodeAddr, next, r), mem, i + 1, next, r)
  }

  /** `update_table` finds this node in the memory, with an entry after it. */
  predicate CanUpdate(mem: seq<Memory>, addr: int) { Find(mem, addr) + 1 < |mem| }

  function UpdateTable(t: Table, mem: seq<Memory>, addr: int, r: real): Table
    requires CanUpdate(mem, addr)
  {
    var i := Find(mem, addr) + 1;
    UpdatedFrom(t, mem, i, mem[i].nodeAddr, r)
  }

  /** There is an array slot for what `memorize` writes. */
  predicate HasRoom(mem: seq<Memory>, addr: int) { Find(mem, addr) < |mem| || |mem| < MAX_NUM_NODES }

  /** `recv_ant_pkt`. */
  function HandleAnt(ant: Ant, addr: int, now: real, t: Table, r: real, draws: seq<real>): (Outcome, Table) {
    match ant.direction
    case Down =>
      if !HasRoom(ant.memory, addr) then (Fault, t)
      else
        var ant' := ant.(memory := Memorized(ant.memory, addr, now - ant.startTime));
        if addr == ant.dst then (TurnRound(ant', addr), t) else (ForwardAnt(ant', addr, t, draws), t)
    case Up =>
      if !CanUpdate(ant.memory, addr) then (Fault, t)
      else
        var t' := UpdateTable(t, ant.memory, addr, r);
        if addr == ant.dst then (Freed, t') else (BackwardHop(ant, addr), t')
    case None => (Untouched, t)
  }

  /** `recv`. */
  function Handle(ant: Ant, addr: int, now: real, t: Table, r: real, draws: seq<real>): (Outcome, Table) {
    if ant.saddr == addr then
      if ant.numForwards > 0 then (Dropped, t) else (Untouched, t)
    else if ant.isAnt then HandleAnt(ant, addr, now, t, r, draws)
    else (Dropped, t)
  }

  /** A new ant goes to the destination that was drawn. */
  lemma {:induction false} GoesToTheNodeDrawn(addr: int, dstDraws: seq<int>, now: real, t: Table, draws: seq<real>)
    ensures var o := GenerateAnt(addr, dstDraws, now, t, draws); o.Sent? ==> FirstOtherIs(dstDraws, addr, o.ant.dst)
  {
    var k := FirstOther(dstDraws, addr);
    hide HopFrom;
    if k < |dstDraws| { assert FirstOtherIs(dstDraws, addr, dstDraws[k]); }
  }

  /** What may become of a packet: it is dropped exactly when it has come back to its last sender after a hop, or is no
      ant; it is forgotten exactly when it has not left that sender, or is an ant without direction; it is freed or sent
      on only as an ant of another node; and only a backward ant changes the table. */
  lemma {:induction false} DisposalExactly(ant: Ant, addr: int, now: real, t: Table, r: real, draws: seq<real>)
    ensures var (o, t') := Handle(ant, addr, now, t, r, draws);
            var own := ant.saddr == addr;
            && (o == Dropped <==> (own && ant.numForwards > 0) || (!own && !ant.isAnt))
            && (o == Untouched <==> (own && ant.numForwards <= 0) || (!own && ant.isAnt && ant.direction == None))
            && (o == Freed || o.Sent? ==> !own && ant.isAnt)
            && (t' != t ==> !own && ant.isAnt && ant.direction == Up)
  {
    hide Memorized, UpdateTable, CanUpdate, HasRoom, HopFrom, FindLast;
  }

  /** The same chance for every neighbour. */
  function UniformRow(ids: seq<int>): (row: Row)
    ensures |row| == |ids|
  {
    seq(|ids|, k requires 0 <= k < |ids| => Pheromone(ids[k], 1.0 / |ids| as real))
  }

  /** `initialize_rtable`: a uniform row for every other node. A node without neighbours gets no rows. */
  function InitialTable(ids: seq<int>, n: nat, addr: int): Table {
    map d | 0 <= d < n && IsDestination(d, n, addr) && ids != [] :: UniformRow(ids)
  }

  lemma {:induction false} UniformPrefix(ids: seq<int>, k: nat)
    requires 0 < |ids| && k <= |ids|
    ensures Prefix(UniformRow(ids), k) == Times(k as real, 1.0 / |ids| as real)
  {
    if k > 0 {
      UniformPrefix(ids, k - 1);
      assert k as real == (k - 1) as real + 1.0;
    }
  }

  /** The rows that `initialize_rtable` creates are distributions. */
  lemma {:induction false} UniformRowIsDistribution(ids: seq<int>)
    requires ids != [] && forall i, j :: 0 <= i < j < |ids| ==> ids[i] != ids[j]
    ensures Distribution(UniformRow(ids))
  {
    UniformPrefix(ids, |ids|);
    assert 1.0 / |ids| as real > 0.0;
  }

  /** Closed form of the update loop: with distinct nodes in memory every destination from position i on is updated
      once. */
  lemma {:induction false} UpdatedFromClosedForm(t: Table, mem: seq<Memory>, i: nat, next: int, r: real, d: int)
    requires DistinctNodes(mem)
    ensures UpdatedFrom(t, mem, i, next, r).Keys == t.Keys
    ensures d in t ==>
              UpdatedFrom(t, mem, i, next, r)[d]
              == if i <= Find(mem, d) < |mem| then Reinforced(t[d], next, r) else t[d]
    decreases |mem| - i
  {
    if i < |mem| {
      UpdatedFromClosedForm(Updated(t, mem[i].nodeAddr, next, r), mem, i + 1, next, r, d);
      FindUnique(mem, i);
    }
  }

  /** In a memory without repetition the front search and the back search find the same entry. */
  lemma {:induction false} SearchesAgree(mem: seq<Memory>, addr: int)
    requires DistinctNodes(mem) && Find(mem, addr) < |mem|
    ensures FindLast(mem, addr) == Find(mem, addr)
  {
  }
}

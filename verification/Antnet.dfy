/** The agent of one node and the packets it handles, changed in place. */
module Antnet {
  import opened AntTypes
  import opened LoopErasure
  import opened RoutingTable
  import opened AntHandlers

  class AntPacket {
    var isAnt: bool
    var numForwards: int
    var direction: Direction
    var src: int
    var dst: int
    var startTime: real
    var saddr: int
    var nextHop: int
    const memory: array<Memory>
    var memSize: nat

    ghost predicate Valid()
      reads this
    {
      memory.Length == MAX_NUM_NODES && memSize <= memory.Length
    }

    /** The packet as a value: its memory is the used part of the array. */
    ghost function View(): Ant
      reads this, memory
      requires Valid()
    {
      Ant(isAnt, numForwards, direction, src, dst, startTime, saddr, nextHop, memory[..memSize])
    }

    /** A packet from the pool: header bits zero, direction down. */
    constructor ()
      ensures Valid() && fresh(memory)
      ensures numForwards == 0
    {
      isAnt, numForwards, direction, src, dst, startTime, saddr, nextHop := false, 0, Down, 0, 0, 0.0, 0, -2;
      memory := new Memory[MAX_NUM_NODES](_ => Memory(0, 0.0));
      memSize := 0;
    }
  }

  class AntnetAgent {
    const addr: int
    const r: real
    const rtable: AntnetRtable
    var sent: seq<AntPacket>
    var freed: seq<AntPacket>
    var dropped: seq<AntPacket>

    constructor (addr: int, r: real)
      ensures this.addr == addr && this.r == r && fresh(rtable) && rtable.rt == map[]
      ensures sent == freed == dropped == []
    {
      this.addr, this.r := addr, r;
      rtable := new AntnetRtable();
      sent, freed, dropped := [], [], [];
    }

    /** The packet was disposed of as `o` says, once, and nothing else was. */
    ghost predicate Disposed(p: AntPacket, o: Outcome,
                             sent0: seq<AntPacket>, freed0: seq<AntPacket>, dropped0: seq<AntPacket>)
      reads this, p, p.memory
    {
      match o
      case Sent(a) => p.Valid() && p.View() == a && sent == sent0 + [p] && freed == freed0 && dropped == dropped0
      case Freed => sent == sent0 && freed == freed0 + [p] && dropped == dropped0
      case Dropped => sent == sent0 && freed == freed0 && dropped == dropped0 + [p]
      case Untouched => sent == sent0 && freed == freed0 && dropped == dropped0
      case Drawing => sent == sent0 && freed == freed0 && dropped == dropped0
      case Fault => false
    }

    method InitializeRtable(list: NeighborList, n: nat)
      requires rtable.rt == map[]
      modifies rtable
      ensures rtable.rt == InitialTable(Ids(list), n, addr)
    {
      ghost var ids := Ids(list);
      var numNb := GetNumNeighbors(list);
      for i := 0 to n
        invariant rtable.rt == InitialTable(ids, i, addr)
      {
        if addr != i {
          ghost var base := rtable.rt;
          ghost var k := 0;
          var nb := list;
          while nb != Null
            invariant k <= |ids| && Ids(nb) == ids[k..]
            invariant rtable.rt == if k == 0 then base else base[i := UniformRow(ids)[..k]]
            decreases nb
          {
            var phvalue := 1.0 / numNb as real;
            rtable.AddEntry(i, nb.nodeid, phvalue);
            assert UniformRow(ids)[..k + 1] == UniformRow(ids)[..k] + [UniformRow(ids)[k]];
            nb := nb.next;
            k := k + 1;
          }
          assert UniformRow(ids)[..|ids|] == UniformRow(ids);
        }
      }
    }

    /** The first half of `send_ant_pkt`: a packet with the header and memory of a new forward ant. */
    method NewAntPkt(now: real, dst: int) returns (p: AntPacket)
      ensures fresh(p) && fresh(p.memory) && p.Valid()
      ensures p.View() == Ant(true, 0, Down, addr, dst, now, p.saddr, p.nextHop, [Memory(addr, 0.0)])
    {
      p := new AntPacket();
      p.src := addr;
      p.startTime := now;
      p.dst := dst;
      p.memSize := 0;
      p.memory[0] := Memory(addr, 0.0);
      p.memSize := p.memSize + 1;
      p.isAnt := true;
      p.direction := Down;
      assert p.memory[..p.memSize] == [Memory(addr, 0.0)];
    }

    /** Sends a new forward ant to a destination drawn by `calc_destination` among n nodes. */
    method SendAntPkt(now: real, n: nat, dstDraws: seq<int>, draws: seq<real>) returns (p: AntPacket)
      requires NodesBelow(dstDraws, n)
      requires GenerateAnt(addr, dstDraws, now, rtable.rt, draws) != Fault
      modifies this
      ensures fresh(p) && fresh(p.memory)
      ensures Disposed(p, GenerateAnt(addr, dstDraws, now, rtable.rt, draws), old(sent), old(freed), old(dropped))
      ensures sent != old(sent) ==> p.Valid() && IsDestination(p.dst, n, addr) && FirstOtherIs(dstDraws, addr, p.dst)
    {
      GoesToTheNodeDrawn(addr, dstDraws, now, rtable.rt, draws);
      var ok, dest := rtable.CalcDestination(addr, n, dstDraws);
      p := NewAntPkt(now, dest);
      if !ok { return; }
      var hop := rtable.CalcNext(p.dst, addr, draws);
      if hop.NextHop? {
        if hop.node == addr {
          freed := freed + [p];
        } else {
          p.nextHop := hop.node;
          p.saddr := addr;
          sent := sent + [p];
        }
      }
    }

    /** The loop of `memorize` that makes the kept trip times later by t. */
    method ShiftTimes(p: AntPacket, n: nat, t: real)
      requires p.Valid() && n <= p.memory.Length
      modifies p.memory
      ensures p.memory[..n] == Shifted(old(p.memory[..n]), t)
    {
      ghost var mem := p.memory[..n];
      var j := 0;
      while j < n
        invariant j <= n
        invariant forall k :: 0 <= k < j ==> p.memory[k] == Shifted(mem, t)[k]
        invariant forall k :: j <= k < n ==> p.memory[k] == mem[k]
      {
        p.memory[j] := Memory(p.memory[j].nodeAddr, p.memory[j].tripTime + t);
        j := j + 1;
      }
    }

    /** The scan of `memorize`. */
    method FindSelf(p: AntPacket) returns (i: nat)
      requires p.Valid()
      ensures i == Find(p.View().memory, addr)
    {
      ghost var mem := p.View().memory;
      i := 0;
      while i < p.memSize
        invariant i <= p.memSize
        invariant forall j :: 0 <= j < i ==> mem[j].nodeAddr != addr
      {
        if p.memory[i].nodeAddr == addr {
          assert mem[i].nodeAddr == addr;
          return;
        }
        i := i + 1;
      }
    }

    /** Appends this node to the memory, or cuts the loop and makes the kept times later. */
    method Memorize(p: AntPacket, now: real)
      requires p.Valid() && HasRoom(p.View().memory, addr)
      modifies p`memSize, p.memory
      ensures p.Valid()
      ensures p.View() == old(p.View().(memory := Memorized(p.View().memory, addr, now - p.startTime)))
    {
      ghost var mem := p.memory[..p.memSize];
      var time := now - p.startTime;
      var i := FindSelf(p);
      if i < p.memSize {
        assert p.memory[..i + 1] == mem[..i + 1];
        p.memSize := i + 1;
        ShiftTimes(p, i + 1, time - p.memory[i].tripTime);
      } else {
        p.memory[p.memSize] := Memory(addr, time);
        p.memSize := p.memSize + 1;
        assert p.memory[..p.memSize] == mem + [Memory(addr, time)];
      }
    }

    method ForwardAntPkt(p: AntPacket, draws: seq<real>)
      requires p.Valid() && ForwardAnt(p.View(), addr, rtable.rt, draws) != Fault
      modifies this, p`nextHop, p`saddr
      ensures Disposed(p, old(ForwardAnt(p.View(), addr, rtable.rt, draws)), old(sent), old(freed), old(dropped))
    {
      var parent := p.saddr;
      var hop := rtable.CalcNext(p.dst, parent, draws);
      if hop.NextHop? {
        if hop.node == addr || hop.node == parent {
          freed := freed + [p];
          return;
        }
        p.nextHop := hop.node;
        p.saddr := addr;
        sent := sent + [p];
      }
    }

    method CreateBackwardAntPkt(p: AntPacket)
      requires p.Valid() && TurnRound(p.View(), addr) != Fault
      modifies this, p
      ensures Disposed(p, old(TurnRound(p.View(), addr)), old(sent), old(freed), old(dropped))
    {
      var temp := p.src;
      p.src := p.dst;
      p.dst := temp;
      var index := p.memSize - 2;
      p.direction := Up;
      p.isAnt := true;
      p.nextHop := p.memory[index].nodeAddr;
      p.saddr := addr;
      sent := sent + [p];
    }

    method BackwardAntPkt(p: AntPacket)
      requires p.Valid() && BackwardHop(p.View(), addr) != Fault
      modifies this, p
      ensures Disposed(p, old(BackwardHop(p.View(), addr)), old(sent), old(freed), old(dropped))
    {
      ghost var mem := p.View().memory;
      var index := -1;
      var i := p.memSize - 1;
      while i >= 0
        invariant -1 <= i < p.memSize == |mem| && p.View().memory == mem && index == -1
        invariant forall j :: i < j < |mem| ==> mem[j].nodeAddr != addr
      {
        if p.memory[i].nodeAddr == addr {
          index := i - 1;
          break;
        }
        i := i - 1;
      }
      assert i == FindLast(mem, addr);
      p.nextHop := p.memory[index].nodeAddr;
      p.direction := Up;
      p.isAnt := true;
      p.saddr := addr;
      sent := sent + [p];
    }

    method UpdateTablePkt(p: AntPacket)
      requires p.Valid() && CanUpdate(p.View().memory, addr)
      modifies rtable
      ensures rtable.rt == UpdateTable(old(rtable.rt), p.View().memory, addr, r)
    {
      ghost var mem := p.View().memory;
      var i := 0;
      while p.memory[i].nodeAddr != addr
        invariant i <= Find(mem, addr)
        decreases |mem| - i
      {
        assert mem[i] == p.memory[i];
        i := i + 1;
      }
      assert mem[i] == p.memory[i];
      i := i + 1;
      var next := p.memory[i].nodeAddr;
      var index := i;
      while index < p.memSize
        invariant i <= index <= p.memSize
        invariant UpdatedFrom(rtable.rt, mem, index, next, r) == UpdatedFrom(old(rtable.rt), mem, i, next, r)
      {
        rtable.Update(p.memory[index].nodeAddr, next, r);
        index := index + 1;
      }
    }

    method RecvAntPkt(p: AntPacket, now: real, draws: seq<real>)
      requires p.Valid() && HandleAnt(p.View(), addr, now, rtable.rt, r, draws).0 != Fault
      modifies this, rtable, p, p.memory
      ensures rtable.rt == old(HandleAnt(p.View(), addr, now, rtable.rt, r, draws).1)
      ensures Disposed(p, old(HandleAnt(p.View(), addr, now, rtable.rt, r, draws).0),
                       old(sent), old(freed), old(dropped))
    {
      hide Memorized, HasRoom, TurnRound, ForwardAnt, BackwardHop, UpdateTable, CanUpdate;
      if p.direction == Down {
        if addr == p.dst {
          Memorize(p, now);
          CreateBackwardAntPkt(p);
        } else {
          Memorize(p, now);
          ForwardAntPkt(p, draws);
        }
      } else if p.direction == Up {
        if addr == p.dst {
          UpdateTablePkt(p);
          freed := freed + [p];
        } else {
          UpdateTablePkt(p);
          BackwardAntPkt(p);
        }
      }
    }

    /** The entry point: whatever arrives is disposed of exactly as `Handle` says. */
    method Recv(p: AntPacket, now: real, draws: seq<real>)
      requires p.Valid() && Handle(p.View(), addr, now, rtable.rt, r, draws).0 != Fault
      modifies this, rtable, p, p.memory
      ensures rtable.rt == old(Handle(p.View(), addr, now, rtable.rt, r, draws).1)
      ensures Disposed(p, old(Handle(p.View(), addr, now, rtable.rt, r, draws).0), old(sent), old(freed), old(dropped))
    {
      if p.saddr == addr {
        if p.numForwards > 0 {
          dropped := dropped + [p];
        }
      } else if p.isAnt {
        RecvAntPkt(p, now, draws);
      } else {
        dropped := dropped + [p];
      }
    }
  }
}

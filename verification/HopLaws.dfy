/** Where ants go: the law of every hop, in terms of the draws and the row of the ant's destination. */
module HopLaws {
  import opened AntTypes
  import opened Pheromones
  import opened Roulette
  import opened LoopErasure
  import opened RoutingTable
  import opened AntHandlers
  import opened Network
  import opened NetworkTheorems

  /** A forward ant goes on to the k-th neighbour of the row of its destination, unless that is the node it came from,
      exactly when the first draw outside the slot of that node is in the k-th slot. */
  lemma {:induction false} ForwardGoesBySlot(cfg: Config, ant: Ant, v: int, t: Table, draws: seq<real>, k: nat)
    requires ValidConfig(cfg) && InNet(cfg, v) && TableOK(cfg, v, t) && InUnit(draws)
    requires ant.dst in t && k < |t[ant.dst]| && t[ant.dst][k].neighbor != ant.saddr
    ensures ForwardAnt(ant, v, t, draws) == Sent(ant.(saddr := v, nextHop := t[ant.dst][k].neighbor))
            <==> FirstOutsideIn(t[ant.dst], ant.saddr, draws, k)
  {
    var row := t[ant.dst];
    RowOKIsDistribution(cfg, v, row);
    assert Adjacent(cfg, v, row[k].neighbor);
    ChoosesFirstOutside(row, ant.saddr, draws, k);
    hide Choose, FirstOutsideIn, Distribution;
  }

  /** A new ant has no node to avoid: the first draw decides. */
  lemma {:induction false} NewAntGoesBySlot(
      cfg: Config, v: int, dst: int, time: real, t: Table, draws: seq<real>, k: nat)
    requires ValidConfig(cfg) && InNet(cfg, v) && TableOK(cfg, v, t) && InUnit(draws)
    requires dst in t && k < |t[dst]|
    ensures SendAnt(v, dst, time, t, draws)
            == Sent(Ant(true, 0, Down, v, dst, time, v, t[dst][k].neighbor, [Memory(v, 0.0)]))
            <==> draws != [] && InSlot(t[dst], k, draws[0])
  {
    var row := t[dst];
    RowOKIsDistribution(cfg, v, row);
    assert Adjacent(cfg, v, row[k].neighbor);
    ChoosesFirstOutside(row, v, draws, k);
    NoParentSlot(row, v, draws, k);
    hide Choose, FirstOutsideIn, Distribution, InSlot;
  }

  lemma {:induction false} NoParentSlot(row: Row, parent: int, draws: seq<real>, k: nat)
    requires k < |row| && forall e :: 0 <= e < |row| ==> row[e].neighbor != parent
    ensures FirstOutsideIn(row, parent, draws, k) <==> draws != [] && InSlot(row, k, draws[0])
  {
    hide InSlot;
    if FirstOutsideIn(row, parent, draws, k) {
      var j :| 0 <= j < |draws| && InSlot(row, k, draws[j]) &&
               forall i :: 0 <= i < j ==> InParentSlot(row, parent, draws[i]);
      assert j > 0 ==> InParentSlot(row, parent, draws[0]);
    }
  }

  /** The ant goes on to the k-th neighbour of the row, unless it came from there, exactly when the first draw outside
      the slot of the node it came from is in that neighbour's slot; its memory then has this node memorised, and
      nothing else about it is changed. */
  predicate HopsBySlot(o: Outcome, ant: Ant, time: real, row: Row, draws: seq<real>, k: nat) {
    k < |row| && row[k].neighbor != ant.saddr ==>
      (o == Sent(ant.(memory := Memorized(ant.memory, ant.nextHop, time - ant.startTime), saddr := ant.nextHop,
                      nextHop := row[k].neighbor))
       <==> FirstOutsideIn(row, ant.saddr, draws, k))
  }

  /** In every reachable state a forward ant short of its destination chooses its hop so, by the row that the node it
      arrives at has for the destination of this ant. */
  lemma {:induction false} ForwardHopLaw(
      cfg: Config, states: seq<NetState>, events: seq<Event>, i: nat, id: nat, time: real, draws: seq<real>, k: nat)
    requires ValidConfig(cfg) && IsRun(cfg, states, events) && i < |states|
    requires id in states[i].ants && Enabled(cfg, states[i], Receive(id, time, draws))
    requires states[i].ants[id].ant.direction == Down
    requires states[i].ants[id].ant.nextHop != states[i].ants[id].ant.dst
    ensures var s, ant := states[i], states[i].ants[id].ant;
            var v := ant.nextHop;
            && 0 <= v < |s.tables| && ant.dst in s.tables[v]
            && HopsBySlot(Reception(cfg, s, s.ants[id], time, draws).0, ant, time, s.tables[v][ant.dst], draws, k)
  {
    RunKeepsInv(cfg, states, events, i);
    var s, f := states[i], states[i].ants[id];
    ForwardArrival(cfg, s, id, time, draws);
    hide *;
    var v, t := f.ant.nextHop, s.tables[f.ant.nextHop];
    HasRow(cfg, f, t);
    FlightHopLaw(cfg, f, time, t, draws, k);
  }

  /** What an enabled reception of a forward ant gives. */
  lemma {:induction false} ForwardArrival(cfg: Config, s: NetState, id: nat, time: real, draws: seq<real>)
    requires ValidConfig(cfg) && Inv(cfg, s) && Enabled(cfg, s, Receive(id, time, draws))
    requires s.ants[id].ant.direction == Down
    ensures var f := s.ants[id];
            var v := f.ant.nextHop;
            && ForwardOK(cfg, f) && time > f.sentAt && InUnit(draws)
            && InNet(cfg, v) && v < |cfg.nbrs| && v < |s.tables| && TableOK(cfg, v, s.tables[v])
            && Reception(cfg, s, f, time, draws) == Handle(f.ant, v, time, s.tables[v], cfg.r, draws)
  {
    hide Handle, CarriesPath, ForwardShape, BackwardShape, TableOK;
    ForwardOnly(cfg, s.ants[id]);
    NextHopInNet(cfg, s.ants[id]);
  }

  lemma {:induction false} HasRow(cfg: Config, f: Flight, t: Table)
    requires ValidConfig(cfg) && ForwardOK(cfg, f) && f.ant.nextHop != f.ant.dst
    requires InNet(cfg, f.ant.nextHop) && TableOK(cfg, f.ant.nextHop, t)
    ensures f.ant.dst in t
  {
    assert IsDestination(f.ant.dst, cfg.n, f.ant.nextHop);
  }

  /** The same law for one flight and one table. */
  lemma {:induction false} FlightHopLaw(cfg: Config, f: Flight, time: real, t: Table, draws: seq<real>, k: nat)
    requires ValidConfig(cfg) && ForwardOK(cfg, f) && time > f.sentAt && InUnit(draws)
    requires f.ant.nextHop != f.ant.dst && InNet(cfg, f.ant.nextHop) && TableOK(cfg, f.ant.nextHop, t)
    requires f.ant.dst in t
    ensures HopsBySlot(Handle(f.ant, f.ant.nextHop, time, t, cfg.r, draws).0, f.ant, time, t[f.ant.dst], draws, k)
  {
    ArrivedPath(cfg, f, time);
    HandleForward(f, time, t, cfg.r, draws);
    if k < |t[f.ant.dst]| && t[f.ant.dst][k].neighbor != f.ant.saddr {
      ForwardGoesBySlot(cfg, Arrived(f, time).ant, f.ant.nextHop, t, draws, k);
    }
    hide ForwardAnt, Handle, IsPath, FirstOutsideIn, Memorized, TableOK;
  }

  lemma {:induction false} ForwardOnly(cfg: Config, f: Flight)
    requires FlightOK(cfg, f) && f.ant.direction == Down
    ensures ForwardOK(cfg, f)
  {
    hide CarriesPath;
  }

  /** In every reachable state a new ant is for the first node drawn other than its own, and leaves for the k-th
      neighbour of the row for that destination exactly when its first draw is in that neighbour's slot. */
  lemma {:induction false} NewAntHopLaw(
      cfg: Config, states: seq<NetState>, events: seq<Event>, i: nat, v: int, dstDraws: seq<int>, time: real,
      draws: seq<real>, k: nat)
    requires ValidConfig(cfg) && IsRun(cfg, states, events) && i < |states|
    requires Enabled(cfg, states[i], Generate(v, dstDraws, time, draws))
    ensures var o := GenerateAnt(v, dstDraws, time, states[i].tables[v], draws);
            && o.Sent? && FirstOtherIs(dstDraws, v, o.ant.dst)
            && o.ant.dst in states[i].tables[v] && draws != []
            && var row := states[i].tables[v][o.ant.dst];
            k < |row| ==>
              (o == Sent(Ant(true, 0, Down, v, o.ant.dst, time, v, row[k].neighbor, [Memory(v, 0.0)]))
               <==> InSlot(row, k, draws[0]))
  {
    RunKeepsInv(cfg, states, events, i);
    NewAntsAreSent(cfg, states, events, i, v, dstDraws, time, draws);
    var t := states[i].tables[v];
    var d := GenerateAnt(v, dstDraws, time, t, draws).ant.dst;
    assert TableOK(cfg, v, t) && InNet(cfg, v);
    FirstDrawUsed(cfg, v, d, time, t, draws);
    if k < |t[d]| { NewAntGoesBySlot(cfg, v, d, time, t, draws, k); }
  }

  lemma {:induction false} FirstDrawUsed(cfg: Config, v: int, d: int, time: real, t: Table, draws: seq<real>)
    requires ValidConfig(cfg) && InNet(cfg, v) && TableOK(cfg, v, t) && InUnit(draws) && d in t
    requires SendAnt(v, d, time, t, draws).Sent?
    ensures draws != []
  {
    RowOKIsDistribution(cfg, v, t[d]);
    CalcNextIsSafe(t[d], v, draws);
  }

  /** No choice is ever closed: in every reachable state a forward ant short of its destination can go on to each
      neighbour of the node it arrives at, other than the one it came from. */
  lemma {:induction false} EveryHopIsPossible(
      cfg: Config, states: seq<NetState>, events: seq<Event>, i: nat, id: nat, k: nat)
    requires ValidConfig(cfg) && IsRun(cfg, states, events) && i < |states| && id in states[i].ants
    requires var ant := states[i].ants[id].ant;
             && ant.direction == Down && ant.nextHop != ant.dst && 0 <= ant.nextHop < |cfg.nbrs|
             && k < |cfg.nbrs[ant.nextHop]| && cfg.nbrs[ant.nextHop][k] != ant.saddr
    ensures exists time, draws ::
              && Enabled(cfg, states[i], Receive(id, time, draws))
              && GoesTo(Reception(cfg, states[i], states[i].ants[id], time, draws).0,
                        cfg.nbrs[states[i].ants[id].ant.nextHop][k])
  {
    RunKeepsInv(cfg, states, events, i);
    var s, f := states[i], states[i].ants[id];
    var v := f.ant.nextHop;
    var t := s.tables[v];
    assert TableOK(cfg, v, t);
    hide CarriesPath, ForwardShape, BackwardShape;
    ForwardOnly(cfg, f);
    var time := if s.now >= f.sentAt then s.now + 1.0 else f.sentAt + 1.0;
    var draws := DrawsFor(cfg, f, time, t, k);
    hide Handle, ForwardOK, TableOK;
    EnabledIf(cfg, s, id, time, draws);
  }

  lemma {:induction false} DrawsFor(cfg: Config, f: Flight, time: real, t: Table, k: nat) returns (draws: seq<real>)
    requires ValidConfig(cfg) && ForwardOK(cfg, f) && time > f.sentAt && f.ant.nextHop != f.ant.dst
    requires InNet(cfg, f.ant.nextHop) && TableOK(cfg, f.ant.nextHop, t)
    requires k < |cfg.nbrs[f.ant.nextHop]| && cfg.nbrs[f.ant.nextHop][k] != f.ant.saddr
    ensures InUnit(draws)
    ensures GoesTo(Handle(f.ant, f.ant.nextHop, time, t, cfg.r, draws).0, cfg.nbrs[f.ant.nextHop][k])
  {
    HasRow(cfg, f, t);
    var row := t[f.ant.dst];
    RowOKIsDistribution(cfg, f.ant.nextHop, row);
    draws := [Prefix(row, k)];
    SlotCanBeDrawn(row, f.ant.saddr, k);
    FlightHopLaw(cfg, f, time, t, draws, k);
    hide Handle, CarriesPath, FirstOutsideIn, Distribution, Memorized, InSlot;
  }

  predicate GoesTo(o: Outcome, v: int) { o.Sent? && o.ant.nextHop == v }

  /** In every reachable state every node can send an ant to every other node, over each of its neighbours. */
  lemma {:induction false} EveryNodeCanGenerate(
      cfg: Config, states: seq<NetState>, events: seq<Event>, i: nat, v: int, d: int, k: nat)
    requires ValidConfig(cfg) && IsRun(cfg, states, events) && i < |states|
    requires InNet(cfg, v) && InNet(cfg, d) && v != d && v < |cfg.nbrs| && k < |cfg.nbrs[v]|
    ensures v < |states[i].tables|
    ensures exists draws ::
              && Enabled(cfg, states[i], Generate(v, [d], states[i].now, draws))
              && var o := GenerateAnt(v, [d], states[i].now, states[i].tables[v], draws);
              GoesTo(o, cfg.nbrs[v][k]) && o.ant.dst == d
  {
    RunKeepsInv(cfg, states, events, i);
    var s := states[i];
    var t := s.tables[v];
    assert TableOK(cfg, v, t) && IsDestination(d, cfg.n, v);
    RowOKIsDistribution(cfg, v, t[d]);
    assert Adjacent(cfg, v, t[d][k].neighbor);
    SlotCanBeDrawn(t[d], v, k);
    var draws := [Prefix(t[d], k)];
    SlotLength(t[d], k);
    NewAntGoesBySlot(cfg, v, d, s.now, t, draws, k);
    hide SendAnt, TableOK, Distribution, FirstOutsideIn;
    assert Enabled(cfg, s, Generate(v, [d], s.now, draws));
  }
}

/** What holds in every state of every run of the network. */
module NetworkTheorems {
  import opened AntTypes
  import opened Pheromones
  import opened Roulette
  import opened LoopErasure
  import opened RoutingTable
  import opened AntHandlers
  import opened Network

  /** Each node's row for each other node lists the node's neighbours once each, with positive pheromones of sum one. */
  lemma {:induction false} RowsStayDistributions(
      cfg: Config, states: seq<NetState>, events: seq<Event>, i: nat, v: int, d: int)
    requires ValidConfig(cfg) && IsRun(cfg, states, events) && i < |states|
    requires InNet(cfg, v) && InNet(cfg, d) && d != v
    ensures v < |states[i].tables| && d in states[i].tables[v]
    ensures RowOK(cfg.nbrs[v], states[i].tables[v][d]) && Distribution(states[i].tables[v][d])
  {
    RunKeepsInv(cfg, states, events, i);
    assert IsDestination(d, cfg.n, v);
    RowOKIsDistribution(cfg, v, states[i].tables[v][d]);
  }

  /** Every ant in flight carries the loop erasure of its walk: a simple path along links that starts where the ant was
      created and fits the memory array, with strictly increasing trip times. */
  lemma {:induction false} AntsCarrySimplePaths(cfg: Config, states: seq<NetState>, events: seq<Event>, i: nat, id: nat)
    requires ValidConfig(cfg) && IsRun(cfg, states, events) && i < |states| && id in states[i].ants
    ensures var f := states[i].ants[id];
            var mem := f.ant.memory;
            && Tracks(mem, f.walk, f.ant.startTime)
            && 0 < |mem| <= cfg.n <= MAX_NUM_NODES
            && DistinctNodes(mem)
            && mem[0].nodeAddr == (if f.ant.direction == Down then f.ant.src else f.ant.dst)
            && (forall k :: 0 <= k && k + 1 < |mem| ==> AdjacentEntries(cfg, mem, k))
  {
    RunKeepsInv(cfg, states, events, i);
    var f := states[i].ants[id];
    PathFacts(cfg, f);
  }

  /** The first trip time in an ant's memory is the time it has lost in loops: zero exactly if it never met a node
      twice. */
  lemma {:induction false} FirstTripTimeIsLostTime(
      cfg: Config, states: seq<NetState>, events: seq<Event>, i: nat, id: nat)
    requires ValidConfig(cfg) && IsRun(cfg, states, events) && i < |states| && id in states[i].ants
    ensures var f := states[i].ants[id];
            && f.ant.memory != [] && f.walk != []
            && f.ant.memory[0].tripTime == LoopTime(f.walk, 0) >= 0.0
            && (f.ant.memory[0].tripTime == 0.0 <==> SimpleFrom(f.walk, 0))
  {
    RunKeepsInv(cfg, states, events, i);
    var f := states[i].ants[id];
    hide Inv, ForwardShape, BackwardShape;
    FirstTripTimeIsLoopTime(f.ant.memory, f.walk);
    LoopTimeZeroIff(f.walk, 0);
  }

  /** No forward ant ever turns straight back: three consecutive nodes of its walk are three different nodes. */
  lemma {:induction false} WalksDoNotBacktrack(
      cfg: Config, states: seq<NetState>, events: seq<Event>, i: nat, id: nat, k: nat)
    requires ValidConfig(cfg) && IsRun(cfg, states, events) && i < |states| && id in states[i].ants
    requires k + 2 < |states[i].ants[id].walk|
    ensures var w := states[i].ants[id].walk;
            w[k].node != w[k + 1].node && w[k + 1].node != w[k + 2].node && w[k].node != w[k + 2].node
  {
    RunKeepsInv(cfg, states, events, i);
    var w := states[i].ants[id].walk;
    assert GoodHop(cfg, w, k) && GoodHop(cfg, w, k + 1);
  }

  /** Every packet in flight goes over a link, so the own-address branches of `recv` are never taken. */
  lemma {:induction false} PacketsCrossLinks(cfg: Config, states: seq<NetState>, events: seq<Event>, i: nat, id: nat)
    requires ValidConfig(cfg) && IsRun(cfg, states, events) && i < |states| && id in states[i].ants
    ensures var ant := states[i].ants[id].ant; Adjacent(cfg, ant.saddr, ant.nextHop) && ant.saddr != ant.nextHop
  {
    RunKeepsInv(cfg, states, events, i);
    var f := states[i].ants[id];
    if BackwardOK(cfg, f) { BackwardCrossesLink(cfg, f); }
  }

  /** Whatever arrives wherever, the handler is left with the packet sent on or freed: it is never dropped or forgotten,
      no search misses, no index leaves its array, and `calc_next` returns. */
  lemma {:induction false} HandlersNeverFault(
      cfg: Config, states: seq<NetState>, events: seq<Event>, i: nat, id: nat, time: real, draws: seq<real>)
    requires ValidConfig(cfg) && IsRun(cfg, states, events) && i < |states|
    requires Enabled(cfg, states[i], Receive(id, time, draws))
    ensures var f := states[i].ants[id];
            var (o, t') := Reception(cfg, states[i], f, time, draws);
            && (o.Sent? || o == Freed)
            && (f.ant.direction == Down ==> t' == states[i].tables[f.ant.nextHop])
  {
    RunKeepsInv(cfg, states, events, i);
    hide CarriesPath, Handle;
    var s, f := states[i], states[i].ants[id];
    NextHopInNet(cfg, f);
    if ForwardOK(cfg, f) {
      ForwardLeavesTable(cfg, f, time, s.tables[f.ant.nextHop], draws);
    } else {
      BackwardReceiveOK(cfg, f, time, s.tables[f.ant.nextHop], draws);
    }
  }

  /** A new ant is always sent to a neighbour, on its way to the first node drawn other than its own: the branch of
      `send_ant_pkt` that frees it is never taken. */
  lemma {:induction false} NewAntsAreSent(
      cfg: Config, states: seq<NetState>, events: seq<Event>, i: nat, v: int, dstDraws: seq<int>, time: real,
      draws: seq<real>)
    requires ValidConfig(cfg) && IsRun(cfg, states, events) && i < |states|
    requires Enabled(cfg, states[i], Generate(v, dstDraws, time, draws))
    ensures var o := GenerateAnt(v, dstDraws, time, states[i].tables[v], draws);
            && o.Sent? && o.ant.memory == [Memory(v, 0.0)]
            && IsDestination(o.ant.dst, cfg.n, v) && FirstOtherIs(dstDraws, v, o.ant.dst)
            && Adjacent(cfg, v, o.ant.nextHop)
  {
    GoesToTheNodeDrawn(v, dstDraws, time, states[i].tables[v], draws);
    RunKeepsInv(cfg, states, events, i);
    GenerateOK(cfg, v, dstDraws, time, states[i].tables[v], draws);
  }

  lemma {:induction false} SomeDrawsSuffice(cfg: Config, ant: Ant, v: int, t: Table) returns (draws: seq<real>)
    requires ValidConfig(cfg) && InNet(cfg, v) && TableOK(cfg, v, t) && IsDestination(ant.dst, cfg.n, v)
    ensures InUnit(draws) && ForwardAnt(ant, v, t, draws) != Drawing
  {
    var row := t[ant.dst];
    RowOKIsDistribution(cfg, v, row);
    draws := [];
    if !DeadEnd(row, ant.saddr) {
      AcceptableDrawExists(row, ant.saddr);
      var u :| 0.0 <= u < 1.0 && !Rejected(row, ant.saddr, u);
      draws := [u];
    }
  }

  lemma {:induction false} ForwardCanArrive(cfg: Config, f: Flight, time: real, t: Table) returns (draws: seq<real>)
    requires ValidConfig(cfg) && ForwardOK(cfg, f) && time > f.sentAt
    requires InNet(cfg, f.ant.nextHop) && TableOK(cfg, f.ant.nextHop, t)
    ensures InUnit(draws) && Handle(f.ant, f.ant.nextHop, time, t, cfg.r, draws).0 != Drawing
  {
    ArrivedPath(cfg, f, time);
    draws := [];
    if f.ant.nextHop != f.ant.dst {
      draws := SomeDrawsSuffice(cfg, Arrived(f, time).ant, f.ant.nextHop, t);
    }
    HandleForward(f, time, t, cfg.r, draws);
    hide Handle, IsPath, ForwardAnt;
  }

  lemma {:induction false} BackwardCanArrive(cfg: Config, f: Flight, time: real, t: Table)
    requires ValidConfig(cfg) && BackwardOK(cfg, f)
    ensures Handle(f.ant, f.ant.nextHop, time, t, cfg.r, []).0 != Drawing
  {
    PathDistinct(cfg, f);
    HandleBackward(f.ant, f.trail, time, t, cfg.r, []);
    hide Handle, IsPath;
  }

  lemma {:induction false} FlightCanArrive(cfg: Config, f: Flight, time: real, t: Table) returns (draws: seq<real>)
    requires ValidConfig(cfg) && FlightOK(cfg, f) && time > f.sentAt
    requires InNet(cfg, f.ant.nextHop) && TableOK(cfg, f.ant.nextHop, t)
    ensures InUnit(draws) && Handle(f.ant, f.ant.nextHop, time, t, cfg.r, draws).0 != Drawing
  {
    hide CarriesPath, ForwardShape, BackwardShape, Handle;
    if ForwardOK(cfg, f) {
      draws := ForwardCanArrive(cfg, f, time, t);
    } else {
      BackwardCanArrive(cfg, f, time, t);
      draws := [];
    }
  }

  lemma {:induction false} InFlightFacts(cfg: Config, s: NetState, id: nat)
    requires ValidConfig(cfg) && Inv(cfg, s) && id in s.ants
    ensures var f := s.ants[id];
            && FlightOK(cfg, f) && InNet(cfg, f.ant.nextHop) && 0 <= f.ant.nextHop < |cfg.nbrs| == |s.tables|
            && TableOK(cfg, f.ant.nextHop, s.tables[f.ant.nextHop])
  {
    NextHopInNet(cfg, s.ants[id]);
    hide FlightOK;
  }

  lemma {:induction false} EnabledIf(cfg: Config, s: NetState, id: nat, time: real, draws: seq<real>)
    requires id in s.ants && time >= s.now && time > s.ants[id].sentAt && InUnit(draws)
    requires var ant := s.ants[id].ant;
             0 <= ant.nextHop < |s.tables|
             && Handle(ant, ant.nextHop, time, s.tables[ant.nextHop], cfg.r, draws).0 != Drawing
    ensures Enabled(cfg, s, Receive(id, time, draws))
  {
    hide Handle, InUnit;
  }

  lemma {:induction false} ArrivalEnabled(cfg: Config, s: NetState, id: nat) returns (time: real, draws: seq<real>)
    requires ValidConfig(cfg) && Inv(cfg, s) && id in s.ants
    ensures Enabled(cfg, s, Receive(id, time, draws))
  {
    var f := s.ants[id];
    hide *;
    InFlightFacts(cfg, s, id);
    time := if s.now >= f.sentAt then s.now + 1.0 else f.sentAt + 1.0;
    draws := FlightCanArrive(cfg, f, time, s.tables[f.ant.nextHop]);
    EnabledIf(cfg, s, id, time, draws);
  }

  /** No ant is ever stuck: in every reachable state each ant in flight can arrive, with draws that end the rejection
      loop of the node it arrives at. */
  lemma {:induction false} EveryAntCanArrive(cfg: Config, states: seq<NetState>, events: seq<Event>, i: nat, id: nat)
    requires ValidConfig(cfg) && IsRun(cfg, states, events) && i < |states| && id in states[i].ants
    ensures exists time, draws :: Enabled(cfg, states[i], Receive(id, time, draws))
  {
    RunKeepsInv(cfg, states, events, i);
    hide *;
    var time, draws := ArrivalEnabled(cfg, states[i], id);
  }

  /** A forward ant that arrives short of its destination is freed exactly at a node whose only neighbour it came
      from. */
  lemma {:induction false} DeadEndExactly(
      cfg: Config, states: seq<NetState>, events: seq<Event>, i: nat, id: nat, time: real, draws: seq<real>)
    requires ValidConfig(cfg) && IsRun(cfg, states, events) && i < |states|
    requires Enabled(cfg, states[i], Receive(id, time, draws))
    requires states[i].ants[id].ant.direction == Down
    ensures var ant := states[i].ants[id].ant;
            Reception(cfg, states[i], states[i].ants[id], time, draws).0 == Freed
            <==> ant.nextHop != ant.dst && InNet(cfg, ant.nextHop) && ant.nextHop < |cfg.nbrs|
                 && cfg.nbrs[ant.nextHop] == [ant.saddr]
  {
    RunKeepsInv(cfg, states, events, i);
    var s, f := states[i], states[i].ants[id];
    NextHopInNet(cfg, f);
    if f.ant.nextHop == f.ant.dst {
      TurnRoundOK(cfg, f, time, s.tables[f.ant.nextHop], draws);
    } else {
      ForwardOnOK(cfg, f, time, s.tables[f.ant.nextHop], draws);
    }
  }

  /** A completed ant was received, as a backward ant, at exactly the nodes of its memory before the last, in reverse:
      |mem|-1 receptions, the last of them where it had been created. */
  lemma {:induction false} CompletedAntsRetraced(
      cfg: Config, states: seq<NetState>, events: seq<Event>, i: nat, id: nat)
    requires ValidConfig(cfg) && IsRun(cfg, states, events) && i < |states| && id in states[i].completed
    ensures var f := states[i].completed[id];
            var mem := f.ant.memory;
            && |f.trail| == |mem| - 1
            && (forall j :: 0 <= j < |f.trail| ==> f.trail[j] == mem[|mem| - 2 - j].nodeAddr)
            && Tracks(mem, f.walk, f.ant.startTime)
            && 2 <= |mem| && f.trail[|f.trail| - 1] == f.walk[0].node && DistinctNodes(mem)
  {
    RunKeepsInv(cfg, states, events, i);
    PathFacts(cfg, states[i].completed[id]);
  }

  function Going(ants: map<nat, Flight>, d: Direction): map<nat, Flight> {
    map id | id in ants && ants[id].ant.direction == d :: ants[id]
  }

  lemma {:induction false} GoesForwardOrBackward(cfg: Config, f: Flight)
    requires FlightOK(cfg, f)
    ensures f.ant.direction == Down || f.ant.direction == Up
  {
    hide CarriesPath;
  }

  /** Every ant generated so far is on its way forward or backward, completed, at a dead end or lost: nothing else. */
  lemma {:induction false} AntsAreConserved(cfg: Config, states: seq<NetState>, events: seq<Event>, i: nat)
    requires ValidConfig(cfg) && IsRun(cfg, states, events) && i < |states|
    ensures var s := states[i];
            && s.generated == |Going(s.ants, Down)| + |Going(s.ants, Up)| + |s.completed| + s.deadEnded + s.lost
            && s.dropped == s.untouched == s.faults == 0
  {
    RunKeepsInv(cfg, states, events, i);
    var s := states[i];
    var fwd, bwd := Going(s.ants, Down), Going(s.ants, Up);
    forall id | id in s.ants ensures id in fwd.Keys + bwd.Keys {
      assert FlightOK(cfg, s.ants[id]);
      GoesForwardOrBackward(cfg, s.ants[id]);
    }
    hide FlightOK, AllCompletedOK, TablesOK;
    assert s.ants.Keys == fwd.Keys + bwd.Keys && fwd.Keys !! bwd.Keys;
    assert |s.ants.Keys| == |fwd.Keys| + |bwd.Keys|;
  }

  lemma {:induction false} LaterEntriesLaterTimes(cfg: Config, mem: seq<Memory>, i: nat, j: nat)
    requires i < j < |mem| && forall k :: 0 <= k && k + 1 < |mem| ==> AdjacentEntries(cfg, mem, k)
    ensures mem[i].tripTime < mem[j].tripTime
  {
    assert AdjacentEntries(cfg, mem, j - 1);
    if i < j - 1 { LaterEntriesLaterTimes(cfg, mem, i, j - 1); }
  }

  /** Wherever a backward ant arrives, its memory meets what `update_traffic` needs: the node is found with an entry
      after it, and every trip time from there on is positive. */
  lemma {:induction false} BackwardAntsFeedTraffic(
      cfg: Config, states: seq<NetState>, events: seq<Event>, i: nat, id: nat)
    requires ValidConfig(cfg) && IsRun(cfg, states, events) && i < |states| && id in states[i].ants
    requires states[i].ants[id].ant.direction == Up
    ensures var mem, v := states[i].ants[id].ant.memory, states[i].ants[id].ant.nextHop;
            && CanUpdate(mem, v)
            && forall j :: Find(mem, v) < j < |mem| ==> mem[j].tripTime > mem[Find(mem, v)].tripTime
  {
    RunKeepsInv(cfg, states, events, i);
    var f := states[i].ants[id];
    assert BackwardOK(cfg, f);
    PathFacts(cfg, f);
    hide IsPath;
    var mem, k := f.ant.memory, |f.ant.memory| - 2 - |f.trail|;
    FindUnique(mem, k);
    forall j | k < j < |mem| ensures mem[j].tripTime > mem[k].tripTime {
      LaterEntriesLaterTimes(cfg, mem, k, j);
    }
  }
}

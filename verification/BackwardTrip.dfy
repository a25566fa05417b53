/** The effect of one backward ant's whole way home, with no other ant in between. */
module BackwardTrip {
  import opened AntTypes
  import opened Pheromones
  import opened RoutingTable
  import opened AntHandlers
  import opened Network

  /** Only ant `id` is received, again and again. */
  ghost predicate IsTrip(cfg: Config, states: seq<NetState>, events: seq<Event>, id: nat) {
    && |states| == |events| + 1
    && (forall i :: 0 <= i < |events| ==>
          events[i].Receive? && events[i].id == id && FollowsBy(cfg, states, events[i], i))
  }

  /** The ant has just been turned round. */
  ghost predicate JustTurned(cfg: Config, s: NetState, id: nat) {
    id in s.ants && BackwardOK(cfg, s.ants[id]) && s.ants[id].trail == []
  }

  /** The ant is on its way with memory `mem` and has been received j times. */
  ghost predicate OnItsWay(cfg: Config, s: NetState, id: nat, mem: seq<Memory>, j: nat) {
    && id in s.ants && BackwardOK(cfg, s.ants[id])
    && s.ants[id].ant.memory == mem && |s.ants[id].trail| == j
  }

  /** The ant has completed its way with memory `mem`, having been received at every entry before the last. */
  predicate IsHome(s: NetState, id: nat, mem: seq<Memory>) {
    && id !in s.ants && id in s.completed
    && s.completed[id].ant.memory == mem && |s.completed[id].trail| == |mem| - 1
  }

  /** The tables after entry k of the memory was reached: only that node's table changes. */
  function TablesAt(tables: seq<Table>, mem: seq<Memory>, k: nat, r: real): seq<Table>
    requires k + 1 < |mem| && 0 <= mem[k].nodeAddr < |tables|
  {
    var v := mem[k].nodeAddr;
    tables[v := UpdatedFrom(tables[v], mem, k + 1, mem[k + 1].nodeAddr, r)]
  }

  lemma {:induction false} ReceptionAt(cfg: Config, s: NetState, id: nat, time: real, draws: seq<real>)
    requires Enabled(cfg, s, Receive(id, time, draws))
    requires s.ants[id].ant.isAnt && BackwardShape(s.ants[id].ant, s.ants[id].trail)
    requires DistinctNodes(s.ants[id].ant.memory) && 0 <= s.ants[id].ant.nextHop < |s.tables|
    ensures var f, s' := s.ants[id], Step(cfg, s, Receive(id, time, draws));
            var mem, k, v := f.ant.memory, |f.ant.memory| - 2 - |f.trail|, f.ant.nextHop;
            && s'.tables == TablesAt(s.tables, mem, k, cfg.r)
            && (k > 0 ==>
                  s'.ants == s.ants[id := Continued(f, f.ant.(nextHop := mem[k - 1].nodeAddr, saddr := v), time)])
            && (k == 0 ==> IsHome(s', id, mem))
  {
    var f := s.ants[id];
    HandleBackward(f.ant, f.trail, time, s.tables[f.ant.nextHop], cfg.r, draws);
    var (o, t') := Reception(cfg, s, f, time, draws);
    ReceiveStep(cfg, s, id, time, draws, o, t');
  }

  /** One reception moves the ant one entry towards the front of its memory, or home from the first. */
  lemma {:induction false} TripStep(
      cfg: Config, s: NetState, id: nat, time: real, draws: seq<real>, mem: seq<Memory>, j: nat)
    requires ValidConfig(cfg) && Enabled(cfg, s, Receive(id, time, draws)) && OnItsWay(cfg, s, id, mem, j)
    requires |s.tables| == cfg.n
    ensures var s' := Step(cfg, s, Receive(id, time, draws));
            && j + 1 < |mem| && DistinctNodes(mem) && InNet(cfg, mem[|mem| - 2 - j].nodeAddr)
            && s'.tables == TablesAt(s.tables, mem, |mem| - 2 - j, cfg.r)
            && if j + 2 < |mem| then OnItsWay(cfg, s', id, mem, j + 1) else IsHome(s', id, mem)
  {
    hide IsPath, Step, Enabled, TablesAt;
    var f := s.ants[id];
    NextHopInNet(cfg, f);
    PathDistinct(cfg, f);
    ReceptionAt(cfg, s, id, time, draws);
    if j + 2 < |mem| { BackwardGoesOn(cfg, f, time); }
  }

  lemma {:induction false} OnlyAntsInFlightArrive(cfg: Config, s: NetState, id: nat, time: real, draws: seq<real>)
    requires Enabled(cfg, s, Receive(id, time, draws))
    ensures id in s.ants
  {
  }

  /** Where the ant is after j receptions: still on its way with the same memory, or home after the last. */
  lemma {:induction false} TripPosition(cfg: Config, states: seq<NetState>, events: seq<Event>, id: nat, j: nat)
    requires ValidConfig(cfg) && IsTrip(cfg, states, events, id) && JustTurned(cfg, states[0], id) && j <= |events|
    requires |states[0].tables| == cfg.n
    ensures var mem := states[0].ants[id].ant.memory;
            && |states[j].tables| == cfg.n && j < |mem|
            && if j + 1 < |mem| then OnItsWay(cfg, states[j], id, mem, j) else IsHome(states[j], id, mem)
  {
    hide Enabled, Step, CarriesPath;
    if j > 0 {
      TripPosition(cfg, states, events, id, j - 1);
      var e := events[j - 1];
      assert FollowsBy(cfg, states, e, j - 1) && e == Receive(id, e.time, e.draws);
      OnlyAntsInFlightArrive(cfg, states[j - 1], id, e.time, e.draws);
      TripStep(cfg, states[j - 1], id, e.time, e.draws, states[0].ants[id].ant.memory, j - 1);
    }
  }

  lemma {:induction false} RowAt(tables: seq<Table>, mem: seq<Memory>, j: nat, r: real, v: int, d: int)
    requires DistinctNodes(mem) && j + 1 < |mem| && 0 <= mem[|mem| - 2 - j].nodeAddr < |tables|
    requires 0 <= v < |tables| && d in tables[v]
    ensures var k := |mem| - 2 - j;
            && d in TablesAt(tables, mem, k, r)[v]
            && TablesAt(tables, mem, k, r)[v][d]
               == if k == Find(mem, v) && k < Find(mem, d) < |mem| then Reinforced(tables[v][d], mem[k + 1].nodeAddr, r)
                  else tables[v][d]
  {
    var k := |mem| - 2 - j;
    FindUnique(mem, k);
    UpdatedFromClosedForm(tables[mem[k].nodeAddr], mem, k + 1, mem[k + 1].nodeAddr, r, d);
  }

  /** After j receptions the row of node v for destination d has been updated, once, in favour of the node after v in
      memory, if v is among the last j+1 entries and d comes after v; else it is as it was. */
  lemma {:induction false} TripRow(
      cfg: Config, states: seq<NetState>, events: seq<Event>, id: nat, j: nat, v: int, d: int)
    requires ValidConfig(cfg) && IsTrip(cfg, states, events, id) && JustTurned(cfg, states[0], id) && j <= |events|
    requires |states[0].tables| == cfg.n && InNet(cfg, v) && d in states[0].tables[v]
    ensures var mem := states[0].ants[id].ant.memory;
            var k, l := Find(mem, v), Find(mem, d);
            && |states[j].tables| == cfg.n && d in states[j].tables[v]
            && states[j].tables[v][d]
               == if |mem| - 1 - j <= k < l < |mem| then Reinforced(states[0].tables[v][d], mem[k + 1].nodeAddr, cfg.r)
                  else states[0].tables[v][d]
  {
    hide Enabled, Step, BackwardOK, Reinforced, UpdatedFrom;
    if j > 0 {
      TripRow(cfg, states, events, id, j - 1, v, d);
      TripPosition(cfg, states, events, id, j - 1);
      var e, mem := events[j - 1], states[0].ants[id].ant.memory;
      assert FollowsBy(cfg, states, e, j - 1) && e == Receive(id, e.time, e.draws);
      OnlyAntsInFlightArrive(cfg, states[j - 1], id, e.time, e.draws);
      TripStep(cfg, states[j - 1], id, e.time, e.draws, mem, j - 1);
      RowAt(states[j - 1].tables, mem, j - 1, cfg.r, v, d);
    }
  }

  /** The whole way home: for k < l the row of mem[k] for mem[l] is updated exactly once, in favour of mem[k+1]; every
      other row of every node is unchanged; and the ant takes exactly |mem|-1 receptions. */
  lemma {:induction false} TripEffect(cfg: Config, states: seq<NetState>, events: seq<Event>, id: nat, v: int, d: int)
    requires ValidConfig(cfg) && IsTrip(cfg, states, events, id)
    requires Inv(cfg, states[0]) && JustTurned(cfg, states[0], id) && id !in states[|events|].ants
    requires InNet(cfg, v) && InNet(cfg, d) && v != d
    ensures var mem := states[0].ants[id].ant.memory;
            var k, l := Find(mem, v), Find(mem, d);
            var s, s' := states[0], states[|events|];
            && |events| == |mem| - 1 && id in s'.completed
            && |s'.tables| == |s.tables| == cfg.n && d in s.tables[v] && d in s'.tables[v]
            && s'.tables[v][d] == if k < l < |mem| then Reinforced(s.tables[v][d], mem[k + 1].nodeAddr, cfg.r)
                                  else s.tables[v][d]
  {
    assert IsDestination(d, cfg.n, v);
    assert TableOK(cfg, v, states[0].tables[v]);
    TripPosition(cfg, states, events, id, |events|);
    TripRow(cfg, states, events, id, |events|, v, d);
  }

  /** So on the rows of the path the neighbour the ant used strictly rises unless it has everything already, and every
      other neighbour strictly falls. */
  lemma {:induction false} TripFavoursThePath(
      cfg: Config, states: seq<NetState>, events: seq<Event>, id: nat, k: nat, l: nat, e: nat)
    requires ValidConfig(cfg) && IsTrip(cfg, states, events, id)
    requires Inv(cfg, states[0]) && JustTurned(cfg, states[0], id) && id !in states[|events|].ants
    requires k < l < |states[0].ants[id].ant.memory|
    ensures var mem := states[0].ants[id].ant.memory;
            var v, d := mem[k].nodeAddr, mem[l].nodeAddr;
            && InNet(cfg, v) && |states[|events|].tables| == |states[0].tables| == cfg.n
            && d in states[0].tables[v] && d in states[|events|].tables[v]
            && var row, row' := states[0].tables[v][d], states[|events|].tables[v][d];
            && |row'| == |row|
            && (e < |row| ==> row'[e].neighbor == row[e].neighbor)
            && (e < |row| && row[e].neighbor == mem[k + 1].nodeAddr ==>
                  (row'[e].phvalue > row[e].phvalue <==> row[e].phvalue < 1.0))
            && (e < |row| && row[e].neighbor != mem[k + 1].nodeAddr ==> 0.0 < row'[e].phvalue < row[e].phvalue)
  {
    var f := states[0].ants[id];
    var mem := f.ant.memory;
    PathFacts(cfg, f);
    FindUnique(mem, k);
    FindUnique(mem, l);
    var v, d := mem[k].nodeAddr, mem[l].nodeAddr;
    assert InNet(cfg, v) && InNet(cfg, d) && v != d;
    TripEffect(cfg, states, events, id, v, d);
    var row := states[0].tables[v][d];
    assert RowOK(cfg.nbrs[v], row);
    if e < |row| { UpdateMovesEveryEntry(row, mem[k + 1].nodeAddr, cfg.r, e); }
  }
}

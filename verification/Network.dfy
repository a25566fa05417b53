/** The whole network as a step system: one table per node, ants in flight, and a clock, under any interleaving. */
module Network {
  import opened AntTypes
  import opened Pheromones
  import opened Roulette
  import opened LoopErasure
  import opened RoutingTable
  import opened AntHandlers

  /** The topology and the reinforcement factor: nodes 0 to n-1, each with its neighbour list. */
  datatype Config = Config(n: nat, nbrs: seq<seq<int>>, r: real)

  predicate InNet(cfg: Config, v: int) { 0 <= v < cfg.n }

  predicate Adjacent(cfg: Config, u: int, v: int) { 0 <= u < |cfg.nbrs| && v in cfg.nbrs[u] }

  predicate DistinctIds(ids: seq<int>) { forall i, j :: 0 <= i < j < |ids| ==> ids[i] != ids[j] }

  ghost predicate ValidConfig(cfg: Config) {
    && 2 <= cfg.n <= MAX_NUM_NODES
    && |cfg.nbrs| == cfg.n
    && 0.0 < cfg.r < 1.0
    && (forall v :: 0 <= v < cfg.n ==> cfg.nbrs[v] != [] && DistinctIds(cfg.nbrs[v]))
    && (forall u, v :: Adjacent(cfg, u, v) ==> InNet(cfg, v) && u != v && Adjacent(cfg, v, u))
  }

  /** An ant on its way. `walk` and `trail` record its history: every arrival of the forward ant, and the nodes that the
      backward ant has been received at. */
  datatype Flight = Flight(ant: Ant, sentAt: real, walk: Walk, trail: seq<int>)

  datatype NetState = NetState(
    now: real,
    tables: seq<Table>,
    ants: map<nat, Flight>,
    completed: map<nat, Flight>,
    generated: nat,
    deadEnded: nat,
    lost: nat,
    dropped: nat,
    untouched: nat,
    faults: nat)

  datatype Event =
    | Generate(node: int, dstDraws: seq<int>, time: real, draws: seq<real>)
    | Receive(id: nat, time: real, draws: seq<real>)
    | Lose(id: nat)

  function InitialTables(cfg: Config, k: nat): seq<Table>
    requires k <= |cfg.nbrs|
  {
    seq(k, v requires 0 <= v < k => InitialTable(cfg.nbrs[v], cfg.n, v))
  }

  /** Every agent has been started and no ant exists. */
  function Initial(cfg: Config): NetState {
    NetState(0.0, InitialTables(cfg, |cfg.nbrs|), map[], map[], 0, 0, 0, 0, 0, 0)
  }

  /** What the receiving node makes of an ant in flight. */
  function Reception(cfg: Config, s: NetState, f: Flight, time: real, draws: seq<real>): (Outcome, Table) {
    var v := f.ant.nextHop;
    if 0 <= v < |s.tables| then Handle(f.ant, v, time, s.tables[v], cfg.r, draws) else (Fault, map[])
  }

  /** An event can happen: times move on, draws are in range and suffice to leave the rejection loops. */
  predicate Enabled(cfg: Config, s: NetState, e: Event) {
    match e
    case Generate(v, dstDraws, time, draws) =>
      && 0 <= v < |s.tables| && time >= s.now && NodesBelow(dstDraws, cfg.n) && InUnit(draws)
      && GenerateAnt(v, dstDraws, time, s.tables[v], draws) != Drawing
    case Receive(id, time, draws) =>
      && id in s.ants && time >= s.now && time > s.ants[id].sentAt && InUnit(draws)
      && Reception(cfg, s, s.ants[id], time, draws).0 != Drawing
    case Lose(id) => id in s.ants
  }

  function Without(ants: map<nat, Flight>, id: nat): map<nat, Flight> { map i | i in ants && i != id :: ants[i] }

  /** The flight as it goes on after it was received: the history gets one entry. */
  function Continued(f: Flight, ant: Ant, time: real): Flight {
    if f.ant.direction == Down then Flight(ant, time, f.walk + [Visit(f.ant.nextHop, time)], f.trail)
    else Flight(ant, time, f.walk, f.trail + [f.ant.nextHop])
  }

  function Step(cfg: Config, s: NetState, e: Event): NetState
    requires Enabled(cfg, s, e)
  {
    match e
    case Generate(v, dstDraws, time, draws) =>
      var s' := s.(now := time, generated := s.generated + 1);
      (match GenerateAnt(v, dstDraws, time, s.tables[v], draws)
       case Sent(a) => s'.(ants := s.ants[s.generated := Flight(a, time, [Visit(v, time)], [])])
       case Freed => s'.(deadEnded := s.deadEnded + 1)
       case _ => s'.(faults := s.faults + 1))
    case Receive(id, time, draws) =>
      var f := s.ants[id];
      var v := f.ant.nextHop;
      var (o, table) := Reception(cfg, s, f, time, draws);
      var s' := s.(now := time, tables := if 0 <= v < |s.tables| then s.tables[v := table] else s.tables,
                   ants := Without(s.ants, id));
      (match o
       case Sent(a) => s'.(ants := s.ants[id := Continued(f, a, time)])
       case Freed =>
         if f.ant.direction == Down then s'.(deadEnded := s.deadEnded + 1)
         else s'.(completed := s.completed[id := f.(trail := f.trail + [v])])
       case Dropped => s'.(dropped := s.dropped + 1)
       case Untouched => s'.(untouched := s.untouched + 1)
       case Fault => s'.(faults := s.faults + 1)
       case Drawing => s)
    case Lose(id) => s.(ants := Without(s.ants, id), lost := s.lost + 1)
  }

  // ---------------------------------------------------------------- the invariant

  /** The row lists the given neighbours once each, with positive pheromones that sum to one. */
  predicate RowOK(ids: seq<int>, row: Row) {
    |row| == |ids| && (forall k :: 0 <= k < |row| ==> row[k].neighbor == ids[k]) && Positive(row) && Total(row) == 1.0
  }

  /** A row for each other node, and no other. */
  ghost predicate TableOK(cfg: Config, v: int, t: Table)
    requires 0 <= v < |cfg.nbrs|
  {
    && (forall d :: d in t <==> IsDestination(d, cfg.n, v))
    && (forall d :: d in t ==> RowOK(cfg.nbrs[v], t[d]))
  }

  ghost predicate TablesOK(cfg: Config, tables: seq<Table>) {
    |tables| == |cfg.nbrs| && forall v :: 0 <= v < |tables| ==> TableOK(cfg, v, tables[v])
  }

  /** The i-th hop of the walk goes to a neighbour and does not turn straight back. */
  predicate GoodHop(cfg: Config, w: Walk, i: nat)
    requires i + 1 < |w|
  {
    Adjacent(cfg, w[i].node, w[i + 1].node) && (i > 0 ==> w[i - 1].node != w[i + 1].node)
  }

  predicate WalkOK(cfg: Config, w: Walk) {
    && w != [] && TimesIncrease(w)
    && (forall i :: 0 <= i < |w| ==> InNet(cfg, w[i].node))
    && (forall i :: 0 <= i && i + 1 < |w| ==> GoodHop(cfg, w, i))
  }

  /** The memory is the loop erasure of a walk along links, which began when the ant was created. */
  predicate IsPath(cfg: Config, mem: seq<Memory>, w: Walk, start: real) {
    WalkOK(cfg, w) && start == w[0].time && Tracks(mem, w, start)
  }

  /** Every ant carries the loop erasure of its walk. */
  predicate CarriesPath(cfg: Config, f: Flight) {
    f.ant.isAnt && f.ant.numForwards == 0 && IsPath(cfg, f.ant.memory, f.walk, f.ant.startTime)
  }

  predicate ForwardShape(cfg: Config, ant: Ant, sentAt: real, w: Walk) {
    && w != [] && ant.direction == Down
    && InNet(cfg, ant.dst) && !Visits(w, ant.dst)
    && ant.src == w[0].node
    && ant.saddr == w[|w| - 1].node
    && sentAt == w[|w| - 1].time
    && Adjacent(cfg, ant.saddr, ant.nextHop)
    && (|w| > 1 ==> w[|w| - 2].node != ant.nextHop)
  }

  /** A forward ant: its destination is not on its walk, and it is on the way to a neighbour of the last node, not
      back. */
  predicate ForwardOK(cfg: Config, f: Flight) {
    CarriesPath(cfg, f) && ForwardShape(cfg, f.ant, f.sentAt, f.walk) && f.trail == []
  }

  /** The backward ant has been received at the entries before the last, from the back, down to entry
      |mem|-1-|trail|. */
  predicate Retraced(mem: seq<Memory>, trail: seq<int>) {
    && |trail| < |mem|
    && forall j :: 0 <= j < |trail| ==> trail[j] == mem[|mem| - 2 - j].nodeAddr
  }

  predicate BackwardShape(ant: Ant, trail: seq<int>) {
    var mem, k := ant.memory, |ant.memory| - 2 - |trail|;
    && ant.direction == Up
    && k >= 0 && Retraced(mem, trail)
    && ant.nextHop == mem[k].nodeAddr && ant.saddr == mem[k + 1].nodeAddr
    && ant.dst == mem[0].nodeAddr && ant.src == mem[|mem| - 1].nodeAddr
  }

  /** A backward ant: on the way from one entry of its memory to the entry before it. */
  predicate BackwardOK(cfg: Config, f: Flight) { CarriesPath(cfg, f) && BackwardShape(f.ant, f.trail) }

  predicate FlightOK(cfg: Config, f: Flight) { ForwardOK(cfg, f) || BackwardOK(cfg, f) }

  /** A completed ant has been received at every entry of its memory but the last, in reverse order. */
  predicate CompletedOK(cfg: Config, f: Flight) {
    CarriesPath(cfg, f) && Retraced(f.ant.memory, f.trail) && |f.trail| == |f.ant.memory| - 1 >= 1
  }

  predicate FlightsOK(cfg: Config, ants: map<nat, Flight>, bound: nat) {
    forall id :: id in ants ==> id < bound && FlightOK(cfg, ants[id])
  }

  predicate AllCompletedOK(cfg: Config, completed: map<nat, Flight>, bound: nat) {
    forall id :: id in completed ==> id < bound && CompletedOK(cfg, completed[id])
  }

  /** Tables, ants in flight and completed ants are as they must be; every ant ever generated is accounted for once; and
      no handler ever dropped an ant, left it lying about, or went outside its arrays. */
  ghost predicate Inv(cfg: Config, s: NetState) {
    && TablesOK(cfg, s.tables)
    && FlightsOK(cfg, s.ants, s.generated)
    && AllCompletedOK(cfg, s.completed, s.generated)
    && s.ants.Keys !! s.completed.Keys
    && s.generated == |s.ants| + |s.completed| + s.deadEnded + s.lost
    && s.dropped == s.untouched == s.faults == 0
  }

  // ---------------------------------------------------------------- tables

  lemma {:induction false} RowOKIsDistribution(cfg: Config, v: int, row: Row)
    requires ValidConfig(cfg) && InNet(cfg, v) && RowOK(cfg.nbrs[v], row)
    ensures Distribution(row)
    ensures forall k :: 0 <= k < |row| ==> Adjacent(cfg, v, row[k].neighbor)
  {
    assert DistinctIds(cfg.nbrs[v]);
  }

  lemma {:induction false} InitialTablesOK(cfg: Config)
    requires ValidConfig(cfg)
    ensures TablesOK(cfg, InitialTables(cfg, |cfg.nbrs|))
  {
    forall v | 0 <= v < cfg.n ensures TableOK(cfg, v, InitialTable(cfg.nbrs[v], cfg.n, v)) {
      UniformRowIsDistribution(cfg.nbrs[v]);
    }
  }

  /** Reinforcing a neighbour keeps the rows of a node as they must be. */
  lemma {:induction false} UpdatedOK(cfg: Config, v: int, t: Table, dest: int, next: int)
    requires ValidConfig(cfg) && InNet(cfg, v) && TableOK(cfg, v, t) && Adjacent(cfg, v, next)
    ensures TableOK(cfg, v, Updated(t, dest, next, cfg.r))
  {
    if dest in t {
      var row := t[dest];
      RowOKIsDistribution(cfg, v, row);
      var k :| 0 <= k < |cfg.nbrs[v]| && cfg.nbrs[v][k] == next;
      assert row[k].neighbor == next;
      StaysDistributionIff(row, next, cfg.r);
    }
  }

  lemma {:induction false} UpdatedFromOK(cfg: Config, v: int, t: Table, mem: seq<Memory>, i: nat, next: int)
    requires ValidConfig(cfg) && InNet(cfg, v) && TableOK(cfg, v, t) && Adjacent(cfg, v, next)
    ensures TableOK(cfg, v, UpdatedFrom(t, mem, i, next, cfg.r))
    decreases |mem| - i
  {
    if i < |mem| {
      UpdatedOK(cfg, v, t, mem[i].nodeAddr, next);
      UpdatedFromOK(cfg, v, Updated(t, mem[i].nodeAddr, next, cfg.r), mem, i + 1, next);
    }
  }

  // ---------------------------------------------------------------- what a path gives

  lemma {:induction false} SetBelow(a: set<int>, n: nat)
    requires forall x :: x in a ==> 0 <= x < n
    ensures |a| <= n
  {
    if n == 0 {
      assert forall x :: x !in a;
      assert a == {};
    } else {
      SetBelow(a - {n - 1}, n - 1);
    }
  }

  lemma {:induction false} NodeSet(mem: seq<Memory>) returns (a: set<int>)
    requires DistinctNodes(mem)
    ensures |a| == |mem|
    ensures forall x :: x in a ==> exists k :: 0 <= k < |mem| && mem[k].nodeAddr == x
  {
    a := {};
    if mem != [] {
      var m := |mem| - 1;
      a := NodeSet(mem[..m]);
      assert mem[m].nodeAddr !in a;
      a := a + {mem[m].nodeAddr};
    }
  }

  /** The facts about an ant's memory on which the handlers rely. */
  lemma {:induction false} PathFacts(cfg: Config, f: Flight)
    requires ValidConfig(cfg) && CarriesPath(cfg, f)
    ensures var mem := f.ant.memory;
            && mem != [] && DistinctNodes(mem) && |mem| <= cfg.n
            && mem[0].nodeAddr == f.walk[0].node && mem[|mem| - 1].nodeAddr == f.walk[|f.walk| - 1].node
            && (forall k :: 0 <= k < |mem| ==> InNet(cfg, mem[k].nodeAddr) && Visits(f.walk, mem[k].nodeAddr))
            && (forall k :: 0 <= k && k + 1 < |mem| ==> AdjacentEntries(cfg, mem, k))
  {
    var mem, w := f.ant.memory, f.walk;
    TrackedMemoryIsSimple(mem, w, f.ant.startTime);
    forall k | 0 <= k && k + 1 < |mem| ensures AdjacentEntries(cfg, mem, k) {
      assert MovesAlong(mem, w, k);
      var i: nat :| HasStep(w, mem[k].nodeAddr, mem[k + 1].nodeAddr, i);
      assert GoodHop(cfg, w, i);
    }
    var a := NodeSet(mem);
    SetBelow(a, cfg.n);
  }

  /** Consecutive memory entries are neighbours, and the later one was reached later. */
  predicate AdjacentEntries(cfg: Config, mem: seq<Memory>, k: nat)
    requires k + 1 < |mem|
  {
    Adjacent(cfg, mem[k].nodeAddr, mem[k + 1].nodeAddr) && mem[k].tripTime < mem[k + 1].tripTime
  }

  lemma {:induction false} RoomForOneMore(cfg: Config, f: Flight, v: int)
    requires ValidConfig(cfg) && CarriesPath(cfg, f) && InNet(cfg, v)
    ensures HasRoom(f.ant.memory, v)
  {
    PathFacts(cfg, f);
    var mem := f.ant.memory;
    if Find(mem, v) == |mem| {
      var mem' := mem + [Memory(v, 0.0)];
      var a := NodeSet(mem');
      SetBelow(a, cfg.n);
    }
  }

  lemma {:induction false} WalkExtended(cfg: Config, w: Walk, x: Visit)
    requires WalkOK(cfg, w) && InNet(cfg, x.node) && x.time > w[|w| - 1].time
    requires Adjacent(cfg, w[|w| - 1].node, x.node)
    requires |w| > 1 ==> w[|w| - 2].node != x.node
    ensures WalkOK(cfg, w + [x])
  {
    var w' := w + [x];
    forall i | 0 <= i && i + 1 < |w'| ensures GoodHop(cfg, w', i) {
      if i + 1 < |w| { assert GoodHop(cfg, w, i); }
    }
  }

  // ---------------------------------------------------------------- the steps

  /** A new ant is always sent on, as a good forward ant. */
  lemma {:induction false} GenerateOK(cfg: Config, v: int, dstDraws: seq<int>, time: real, t: Table, draws: seq<real>)
    requires ValidConfig(cfg) && InNet(cfg, v) && TableOK(cfg, v, t) && NodesBelow(dstDraws, cfg.n) && InUnit(draws)
    requires GenerateAnt(v, dstDraws, time, t, draws) != Drawing
    ensures var o := GenerateAnt(v, dstDraws, time, t, draws);
            o.Sent? && ForwardOK(cfg, Flight(o.ant, time, [Visit(v, time)], []))
  {
    var dst := dstDraws[FirstOther(dstDraws, v)];
    assert IsDestination(dst, cfg.n, v);
    RowOKIsDistribution(cfg, v, t[dst]);
    CalcNextIsSafe(t[dst], v, draws);
    TracksNew(v, time);
  }

  lemma {:induction false} SamePath(cfg: Config, f: Flight, g: Flight)
    requires CarriesPath(cfg, f)
    requires g.ant == f.ant.(direction := g.ant.direction, src := g.ant.src, dst := g.ant.dst, saddr := g.ant.saddr,
                             nextHop := g.ant.nextHop)
    requires g.walk == f.walk
    ensures CarriesPath(cfg, g)
  {
  }

  /** The ant as it is once memorised at the node that receives it. */
  function Arrived(f: Flight, time: real): Flight {
    Flight(f.ant.(memory := Memorized(f.ant.memory, f.ant.nextHop, time - f.ant.startTime)), time,
           f.walk + [Visit(f.ant.nextHop, time)], f.trail)
  }

  lemma {:induction false} ArrivedPath(cfg: Config, f: Flight, time: real)
    requires ValidConfig(cfg) && ForwardOK(cfg, f) && time > f.sentAt
    ensures CarriesPath(cfg, Arrived(f, time)) && HasRoom(f.ant.memory, f.ant.nextHop)
    ensures InNet(cfg, f.ant.nextHop) && f.ant.saddr != f.ant.nextHop
  {
    RoomForOneMore(cfg, f, f.ant.nextHop);
    MemorizeTracks(f.ant.memory, f.walk, f.ant.startTime, Visit(f.ant.nextHop, time));
    WalkExtended(cfg, f.walk, Visit(f.ant.nextHop, time));
  }

  /** What `recv` comes to for a forward ant that did not start here and has room. */
  lemma {:induction false} HandleForward(f: Flight, time: real, t: Table, r: real, draws: seq<real>)
    requires f.ant.isAnt && f.ant.direction == Down && f.ant.saddr != f.ant.nextHop
    requires HasRoom(f.ant.memory, f.ant.nextHop)
    ensures var v, ant := f.ant.nextHop, Arrived(f, time).ant;
            Handle(f.ant, v, time, t, r, draws)
            == (if v == f.ant.dst then TurnRound(ant, v) else ForwardAnt(ant, v, t, draws), t)
  {
  }

  lemma {:induction false} TurnedShape(ant: Ant, v: int)
    requires |ant.memory| >= 2 && ant.memory[0].nodeAddr == ant.src
    requires ant.memory[|ant.memory| - 1].nodeAddr == v == ant.dst
    ensures TurnRound(ant, v).Sent? && BackwardShape(TurnRound(ant, v).ant, [])
  {
  }

  /** A forward ant that arrives at its destination is turned round, with at least two entries in its memory. */
  lemma {:induction false} TurnRoundOK(cfg: Config, f: Flight, time: real, t: Table, draws: seq<real>)
    requires ValidConfig(cfg) && ForwardOK(cfg, f) && time > f.sentAt
    requires f.ant.nextHop == f.ant.dst
    ensures var (o, t') := Handle(f.ant, f.ant.nextHop, time, t, cfg.r, draws);
            t' == t && o.Sent? && |o.ant.memory| >= 2 && BackwardOK(cfg, Continued(f, o.ant, time))
  {
    var g := Arrived(f, time);
    ArrivedPath(cfg, f, time);
    HandleForward(f, time, t, cfg.r, draws);
    PathFacts(cfg, g);
    assert g.walk[0] == f.walk[0] && Visits(f.walk, f.walk[0].node);
    TurnedShape(g.ant, f.ant.nextHop);
    SamePath(cfg, g, Continued(f, TurnRound(g.ant, f.ant.nextHop).ant, time));
  }

  /** The hop of a forward ant: to a neighbour that is not its parent; freed exactly where the parent is the only
      one. */
  lemma {:induction false} ForwardChoice(cfg: Config, ant: Ant, v: int, t: Table, draws: seq<real>)
    requires ValidConfig(cfg) && InNet(cfg, v) && TableOK(cfg, v, t) && InUnit(draws)
    requires IsDestination(ant.dst, cfg.n, v) && ForwardAnt(ant, v, t, draws) != Drawing
    ensures ForwardAnt(ant, v, t, draws) == Freed <==> cfg.nbrs[v] == [ant.saddr]
    ensures ForwardAnt(ant, v, t, draws) != Freed ==>
              exists next :: Adjacent(cfg, v, next) && next != ant.saddr &&
                             ForwardAnt(ant, v, t, draws) == Sent(ant.(saddr := v, nextHop := next))
  {
    var row := t[ant.dst];
    RowOKIsDistribution(cfg, v, row);
    CalcNextIsSafe(row, ant.saddr, draws);
    assert cfg.nbrs[v] == [ant.saddr] <==> |row| == 1 && row[0].neighbor == ant.saddr;
    assert Adjacent(cfg, v, HopFrom(t, ant.dst, ant.saddr, draws).node);
  }

  lemma {:induction false} ForwardedShape(cfg: Config, f: Flight, time: real, next: int)
    requires ForwardShape(cfg, f.ant, f.sentAt, f.walk) && f.ant.nextHop != f.ant.dst
    requires Adjacent(cfg, f.ant.nextHop, next) && next != f.ant.saddr
    ensures var g := Arrived(f, time);
            ForwardShape(cfg, g.ant.(saddr := f.ant.nextHop, nextHop := next), time, g.walk)
  {
    var w := Arrived(f, time).walk;
    forall i | 0 <= i < |w| ensures w[i].node != f.ant.dst {
      if i < |f.walk| { assert w[i] == f.walk[i]; }
    }
  }

  /** Elsewhere it goes on to a neighbour other than the one it came from, or it is freed, exactly when there is
      none. */
  lemma {:induction false} ForwardOnOK(cfg: Config, f: Flight, time: real, t: Table, draws: seq<real>)
    requires ValidConfig(cfg) && ForwardOK(cfg, f) && time > f.sentAt
    requires f.ant.nextHop != f.ant.dst && InNet(cfg, f.ant.nextHop) && TableOK(cfg, f.ant.nextHop, t) && InUnit(draws)
    requires Handle(f.ant, f.ant.nextHop, time, t, cfg.r, draws).0 != Drawing
    ensures var (o, t') := Handle(f.ant, f.ant.nextHop, time, t, cfg.r, draws);
            && t' == t
            && (o == Freed || (o.Sent? && ForwardOK(cfg, Continued(f, o.ant, time))))
            && (o == Freed <==> cfg.nbrs[f.ant.nextHop] == [f.ant.saddr])
  {
    var g, v := Arrived(f, time), f.ant.nextHop;
    ArrivedPath(cfg, f, time);
    HandleForward(f, time, t, cfg.r, draws);
    ForwardChoice(cfg, g.ant, v, t, draws);
    if ForwardAnt(g.ant, v, t, draws) != Freed {
      var next :| Adjacent(cfg, v, next) && next != f.ant.saddr &&
                  ForwardAnt(g.ant, v, t, draws) == Sent(g.ant.(saddr := v, nextHop := next));
      ForwardedShape(cfg, f, time, next);
      SamePath(cfg, g, Continued(f, g.ant.(saddr := v, nextHop := next), time));
    }
  }

  /** A forward ant is sent on or freed and changes no table. */
  lemma {:induction false} ForwardLeavesTable(cfg: Config, f: Flight, time: real, t: Table, draws: seq<real>)
    requires ValidConfig(cfg) && ForwardOK(cfg, f) && time > f.sentAt && InUnit(draws)
    requires InNet(cfg, f.ant.nextHop) && TableOK(cfg, f.ant.nextHop, t)
    requires Handle(f.ant, f.ant.nextHop, time, t, cfg.r, draws).0 != Drawing
    ensures var (o, t') := Handle(f.ant, f.ant.nextHop, time, t, cfg.r, draws); t' == t && (o.Sent? || o == Freed)
  {
    hide Handle, CarriesPath;
    if f.ant.nextHop == f.ant.dst {
      TurnRoundOK(cfg, f, time, t, draws);
    } else {
      ForwardOnOK(cfg, f, time, t, draws);
    }
  }

  lemma {:induction false} RetracedStep(mem: seq<Memory>, trail: seq<int>, v: int)
    requires Retraced(mem, trail) && |trail| + 1 < |mem| && v == mem[|mem| - 2 - |trail|].nodeAddr
    ensures Retraced(mem, trail + [v])
  {
  }

  /** Both searches of a backward ant's handlers find the entry of the receiving node. */
  lemma {:induction false} BackwardSearches(ant: Ant, k: nat)
    requires DistinctNodes(ant.memory) && k + 1 < |ant.memory|
    ensures var v := ant.memory[k].nodeAddr;
            && Find(ant.memory, v) == FindLast(ant.memory, v) == k
            && BackwardHop(ant, v) == if k == 0 then Fault else
                 Sent(ant.(direction := Up, isAnt := true, nextHop := ant.memory[k - 1].nodeAddr, saddr := v))
  {
    FindUnique(ant.memory, k);
    SearchesAgree(ant.memory, ant.memory[k].nodeAddr);
  }

  /** What `recv` comes to for a backward ant. */
  lemma {:induction false} HandleBackward(ant: Ant, trail: seq<int>, time: real, t: Table, r: real, draws: seq<real>)
    requires ant.isAnt && BackwardShape(ant, trail) && DistinctNodes(ant.memory)
    ensures var mem, k, v := ant.memory, |ant.memory| - 2 - |trail|, ant.nextHop;
            Handle(ant, v, time, t, r, draws)
            == (if k == 0 then Freed else Sent(ant.(nextHop := mem[k - 1].nodeAddr, saddr := v)),
                UpdatedFrom(t, mem, k + 1, mem[k + 1].nodeAddr, r))
  {
    BackwardSearches(ant, |ant.memory| - 2 - |trail|);
  }

  lemma {:induction false} NextBackwardShape(ant: Ant, trail: seq<int>)
    requires BackwardShape(ant, trail) && |trail| + 2 < |ant.memory|
    ensures BackwardShape(ant.(nextHop := ant.memory[|ant.memory| - 3 - |trail|].nodeAddr, saddr := ant.nextHop),
                          trail + [ant.nextHop])
  {
    RetracedStep(ant.memory, trail, ant.nextHop);
  }

  lemma {:induction false} BackwardTableOK(cfg: Config, f: Flight, t: Table)
    requires ValidConfig(cfg) && BackwardOK(cfg, f)
    requires InNet(cfg, f.ant.nextHop) && TableOK(cfg, f.ant.nextHop, t)
    ensures var mem, k := f.ant.memory, |f.ant.memory| - 2 - |f.trail|;
            TableOK(cfg, f.ant.nextHop, UpdatedFrom(t, mem, k + 1, mem[k + 1].nodeAddr, cfg.r))
  {
    PathFacts(cfg, f);
    var mem, k := f.ant.memory, |f.ant.memory| - 2 - |f.trail|;
    assert AdjacentEntries(cfg, mem, k);
    UpdatedFromOK(cfg, f.ant.nextHop, t, mem, k + 1, mem[k + 1].nodeAddr);
  }

  lemma {:induction false} PathDistinct(cfg: Config, f: Flight)
    requires ValidConfig(cfg) && CarriesPath(cfg, f)
    ensures DistinctNodes(f.ant.memory)
  {
    PathFacts(cfg, f);
  }

  lemma {:induction false} BackwardGoesOn(cfg: Config, f: Flight, time: real)
    requires BackwardOK(cfg, f) && |f.trail| + 2 < |f.ant.memory|
    ensures var prev := f.ant.memory[|f.ant.memory| - 3 - |f.trail|].nodeAddr;
            BackwardOK(cfg, Continued(f, f.ant.(nextHop := prev, saddr := f.ant.nextHop), time))
  {
    NextBackwardShape(f.ant, f.trail);
    var prev := f.ant.memory[|f.ant.memory| - 3 - |f.trail|].nodeAddr;
    SamePath(cfg, f, Continued(f, f.ant.(nextHop := prev, saddr := f.ant.nextHop), time));
  }

  lemma {:induction false} BackwardEnds(cfg: Config, f: Flight)
    requires BackwardOK(cfg, f) && |f.trail| + 2 == |f.ant.memory|
    ensures CompletedOK(cfg, f.(trail := f.trail + [f.ant.nextHop]))
  {
    RetracedStep(f.ant.memory, f.trail, f.ant.nextHop);
    SamePath(cfg, f, f.(trail := f.trail + [f.ant.nextHop]));
  }

  /** A backward ant that arrives reinforces the neighbour it came from and goes on to the entry before, or is done. */
  lemma {:induction false} BackwardReceiveOK(cfg: Config, f: Flight, time: real, t: Table, draws: seq<real>)
    requires ValidConfig(cfg) && BackwardOK(cfg, f)
    ensures var (o, t') := Handle(f.ant, f.ant.nextHop, time, t, cfg.r, draws);
            var mem, k := f.ant.memory, |f.ant.memory| - 2 - |f.trail|;
            && t' == UpdatedFrom(t, mem, k + 1, mem[k + 1].nodeAddr, cfg.r)
            && (k > 0 ==> o.Sent? && BackwardOK(cfg, Continued(f, o.ant, time)))
            && (k == 0 ==> o == Freed && CompletedOK(cfg, f.(trail := f.trail + [f.ant.nextHop])))
  {
    hide IsPath, Handle;
    PathDistinct(cfg, f);
    HandleBackward(f.ant, f.trail, time, t, cfg.r, draws);
    if |f.trail| + 2 < |f.ant.memory| { BackwardGoesOn(cfg, f, time); } else { BackwardEnds(cfg, f); }
  }

  lemma {:induction false} WithoutSize(ants: map<nat, Flight>, id: nat)
    requires id in ants
    ensures |Without(ants, id)| == |ants| - 1
    ensures Without(ants, id).Keys == ants.Keys - {id}
  {
    assert Without(ants, id).Keys == ants.Keys - {id};
    assert |ants.Keys - {id}| == |ants.Keys| - 1;
  }

  lemma {:induction false} InitialInv(cfg: Config)
    requires ValidConfig(cfg)
    ensures Inv(cfg, Initial(cfg))
  {
    InitialTablesOK(cfg);
  }

  lemma {:induction false} GenerateKeepsInv(
      cfg: Config, s: NetState, v: int, dstDraws: seq<int>, time: real, draws: seq<real>)
    requires ValidConfig(cfg) && Inv(cfg, s) && Enabled(cfg, s, Generate(v, dstDraws, time, draws))
    ensures Inv(cfg, Step(cfg, s, Generate(v, dstDraws, time, draws)))
  {
    GenerateOK(cfg, v, dstDraws, time, s.tables[v], draws);
  }

  /** What a reception may come to: the table is still good, and the ant goes on as a good ant, or is at a dead end, or
      has completed its way. */
  ghost predicate GoodReception(cfg: Config, f: Flight, time: real, o: Outcome, t': Table) {
    && InNet(cfg, f.ant.nextHop) && f.ant.nextHop < |cfg.nbrs| && TableOK(cfg, f.ant.nextHop, t')
    && match o
       case Sent(a) => FlightOK(cfg, Continued(f, a, time))
       case Freed => f.ant.direction == Down || CompletedOK(cfg, f.(trail := f.trail + [f.ant.nextHop]))
       case _ => false
  }

  lemma {:induction false} ReceptionIsGood(cfg: Config, f: Flight, time: real, t: Table, draws: seq<real>)
    requires ValidConfig(cfg) && FlightOK(cfg, f) && InUnit(draws)
    requires ForwardOK(cfg, f) ==> time > f.sentAt
    requires InNet(cfg, f.ant.nextHop) && TableOK(cfg, f.ant.nextHop, t)
    requires Handle(f.ant, f.ant.nextHop, time, t, cfg.r, draws).0 != Drawing
    ensures var (o, t') := Handle(f.ant, f.ant.nextHop, time, t, cfg.r, draws); GoodReception(cfg, f, time, o, t')
  {
    if ForwardOK(cfg, f) {
      if f.ant.nextHop == f.ant.dst {
        TurnRoundOK(cfg, f, time, t, draws);
      } else {
        ForwardOnOK(cfg, f, time, t, draws);
      }
    } else {
      BackwardReceiveOK(cfg, f, time, t, draws);
      BackwardTableOK(cfg, f, t);
    }
  }

  lemma {:induction false} NextHopInNet(cfg: Config, f: Flight)
    requires ValidConfig(cfg) && FlightOK(cfg, f)
    ensures InNet(cfg, f.ant.nextHop)
  {
    if BackwardOK(cfg, f) { PathFacts(cfg, f); }
  }

  lemma {:induction false} BackwardCrossesLink(cfg: Config, f: Flight)
    requires ValidConfig(cfg) && BackwardOK(cfg, f)
    ensures Adjacent(cfg, f.ant.saddr, f.ant.nextHop)
  {
    PathFacts(cfg, f);
    var mem, k := f.ant.memory, |f.ant.memory| - 2 - |f.trail|;
    assert AdjacentEntries(cfg, mem, k);
    assert Adjacent(cfg, mem[k].nodeAddr, mem[k + 1].nodeAddr);
  }

  lemma {:induction false} ReceiveKeepsInv(cfg: Config, s: NetState, id: nat, time: real, draws: seq<real>)
    requires ValidConfig(cfg) && Inv(cfg, s) && Enabled(cfg, s, Receive(id, time, draws))
    ensures Inv(cfg, Step(cfg, s, Receive(id, time, draws)))
  {
    var f := s.ants[id];
    NextHopInNet(cfg, f);
    ReceptionIsGood(cfg, f, time, s.tables[f.ant.nextHop], draws);
    var (o, t') := Reception(cfg, s, f, time, draws);
    ReceiveStep(cfg, s, id, time, draws, o, t');
    var s' := Step(cfg, s, Receive(id, time, draws));
    if o.Sent? { SentOnKeepsInv(cfg, s, id, time, o.ant, t', s'); } else { FreedKeepsInv(cfg, s, id, time, t', s'); }
  }

  /** The state after a reception that sent the ant on or freed it. */
  predicate AfterReception(s: NetState, id: nat, time: real, o: Outcome, t': Table, s': NetState)
    requires id in s.ants && 0 <= s.ants[id].ant.nextHop < |s.tables|
  {
    var f := s.ants[id];
    var tables := s.tables[f.ant.nextHop := t'];
    if o.Sent? then s' == s.(now := time, tables := tables, ants := s.ants[id := Continued(f, o.ant, time)])
    else if f.ant.direction == Down then
      s' == s.(now := time, tables := tables, ants := Without(s.ants, id), deadEnded := s.deadEnded + 1)
    else s' == s.(now := time, tables := tables, ants := Without(s.ants, id),
                  completed := s.completed[id := f.(trail := f.trail + [f.ant.nextHop])])
  }

  lemma {:induction false} ReceiveStep(
      cfg: Config, s: NetState, id: nat, time: real, draws: seq<real>, o: Outcome, t': Table)
    requires Enabled(cfg, s, Receive(id, time, draws))
    requires (o, t') == Reception(cfg, s, s.ants[id], time, draws) && 0 <= s.ants[id].ant.nextHop < |s.tables|
    requires o.Sent? || o == Freed
    ensures AfterReception(s, id, time, o, t', Step(cfg, s, Receive(id, time, draws)))
  {
  }

  lemma {:induction false} TablesOKWith(cfg: Config, tables: seq<Table>, v: int, t': Table)
    requires TablesOK(cfg, tables) && 0 <= v < |cfg.nbrs| && TableOK(cfg, v, t')
    ensures TablesOK(cfg, tables[v := t'])
  {
  }

  lemma {:induction false} InvWithFlight(cfg: Config, s: NetState, s': NetState, id: nat, f: Flight)
    requires Inv(cfg, s) && id in s.ants && FlightOK(cfg, f) && TablesOK(cfg, s'.tables)
    requires s' == s.(now := s'.now, tables := s'.tables, ants := s.ants[id := f])
    ensures Inv(cfg, s')
  {
    hide FlightOK, AllCompletedOK, TablesOK;
    assert s'.ants.Keys == s.ants.Keys;
  }

  lemma {:induction false} InvWithoutFlight(cfg: Config, s: NetState, s': NetState, id: nat)
    requires Inv(cfg, s) && id in s.ants && TablesOK(cfg, s'.tables)
    requires s' == s.(now := s'.now, tables := s'.tables, ants := Without(s.ants, id), deadEnded := s'.deadEnded,
                      lost := s'.lost)
    requires s'.deadEnded + s'.lost == s.deadEnded + s.lost + 1
    ensures Inv(cfg, s')
  {
    WithoutSize(s.ants, id);
  }

  lemma {:induction false} InvWithCompleted(cfg: Config, s: NetState, s': NetState, id: nat, f: Flight)
    requires Inv(cfg, s) && id in s.ants && CompletedOK(cfg, f) && TablesOK(cfg, s'.tables)
    requires s' == s.(now := s'.now, tables := s'.tables, ants := Without(s.ants, id),
                      completed := s.completed[id := f])
    ensures Inv(cfg, s')
  {
    WithoutSize(s.ants, id);
  }

  lemma {:induction false} SentOnKeepsInv(
      cfg: Config, s: NetState, id: nat, time: real, a: Ant, t': Table, s': NetState)
    requires Inv(cfg, s) && id in s.ants && GoodReception(cfg, s.ants[id], time, Sent(a), t')
    requires AfterReception(s, id, time, Sent(a), t', s')
    ensures Inv(cfg, s')
  {
    TablesOKWith(cfg, s.tables, s.ants[id].ant.nextHop, t');
    InvWithFlight(cfg, s, s', id, Continued(s.ants[id], a, time));
  }

  lemma {:induction false} FreedKeepsInv(cfg: Config, s: NetState, id: nat, time: real, t': Table, s': NetState)
    requires Inv(cfg, s) && id in s.ants && GoodReception(cfg, s.ants[id], time, Freed, t')
    requires AfterReception(s, id, time, Freed, t', s')
    ensures Inv(cfg, s')
  {
    var f := s.ants[id];
    TablesOKWith(cfg, s.tables, f.ant.nextHop, t');
    if f.ant.direction == Down {
      InvWithoutFlight(cfg, s, s', id);
    } else {
      InvWithCompleted(cfg, s, s', id, f.(trail := f.trail + [f.ant.nextHop]));
    }
  }

  lemma {:induction false} LoseKeepsInv(cfg: Config, s: NetState, id: nat)
    requires ValidConfig(cfg) && Inv(cfg, s) && id in s.ants
    ensures Inv(cfg, Step(cfg, s, Lose(id)))
  {
    InvWithoutFlight(cfg, s, Step(cfg, s, Lose(id)), id);
  }

  lemma {:induction false} StepKeepsInv(cfg: Config, s: NetState, e: Event)
    requires ValidConfig(cfg) && Inv(cfg, s) && Enabled(cfg, s, e)
    ensures Inv(cfg, Step(cfg, s, e))
  {
    match e
    case Generate(v, dstDraws, time, draws) => GenerateKeepsInv(cfg, s, v, dstDraws, time, draws);
    case Receive(id, time, draws) => ReceiveKeepsInv(cfg, s, id, time, draws);
    case Lose(id) => LoseKeepsInv(cfg, s, id);
  }

  /** A run: any interleaving of enabled events from the initial state. */
  ghost predicate IsRun(cfg: Config, states: seq<NetState>, events: seq<Event>) {
    && |states| == |events| + 1
    && states[0] == Initial(cfg)
    && forall i :: 0 <= i < |events| ==> FollowsBy(cfg, states, events[i], i)
  }

  ghost predicate FollowsBy(cfg: Config, states: seq<NetState>, e: Event, i: nat)
    requires i + 1 < |states|
  {
    Enabled(cfg, states[i], e) && states[i + 1] == Step(cfg, states[i], e)
  }

  lemma {:induction false} RunKeepsInv(cfg: Config, states: seq<NetState>, events: seq<Event>, i: nat)
    requires ValidConfig(cfg) && IsRun(cfg, states, events) && i < |states|
    ensures Inv(cfg, states[i])
  {
    if i == 0 {
      InitialInv(cfg);
    } else {
      RunKeepsInv(cfg, states, events, i - 1);
      assert FollowsBy(cfg, states, events[i - 1], i - 1);
      StepKeepsInv(cfg, states[i - 1], events[i - 1]);
    }
  }
}

/** Progress of one ant, what it brings, and the history of one row, while anything else goes on in the network. */
module InterleavedRuns {
  import opened AntTypes
  import opened Pheromones
  import opened RoutingTable
  import opened AntHandlers
  import opened Network
  import opened NetworkTheorems
  import opened BackwardTrip

  // ---------------------------------------------------------------- progress

  predicate Receives(e: Event, id: nat) { e.Receive? && e.id == id }

  /** How often ant `id` is received from state i to state j. */
  function Receptions(events: seq<Event>, id: nat, i: nat, j: nat): nat
    requires i <= j <= |events|
  {
    if i == j then 0 else Receptions(events, id, i, j - 1) + if Receives(events[j - 1], id) then 1 else 0
  }

  /** What happens to other ants does not touch an ant in flight. */
  lemma {:induction false} OthersLeaveFlight(cfg: Config, s: NetState, e: Event, id: nat)
    requires Enabled(cfg, s, e) && id in s.ants && id < s.generated
    requires !Receives(e, id) && e != Lose(id)
    ensures id in Step(cfg, s, e).ants && Step(cfg, s, e).ants[id] == s.ants[id]
  {
    hide Handle, GenerateAnt;
  }

  /** A completed ant stays completed, as it is. */
  lemma {:induction false} CompletedStays(cfg: Config, s: NetState, e: Event, id: nat)
    requires Enabled(cfg, s, e) && id in s.completed && id !in s.ants && id < s.generated
    ensures var s' := Step(cfg, s, e); id !in s'.ants && id in s'.completed && s'.completed[id] == s.completed[id]
  {
    hide Handle, GenerateAnt;
  }

  /** One event, not the loss of the ant: received, it moves one entry or comes home; else it stays where it is. */
  lemma {:induction false} ProgressStep(cfg: Config, s: NetState, e: Event, id: nat, mem: seq<Memory>, n: nat)
    requires ValidConfig(cfg) && Enabled(cfg, s, e) && e != Lose(id) && |s.tables| == cfg.n && id < s.generated
    requires if n + 1 < |mem| then OnItsWay(cfg, s, id, mem, n) else IsHome(s, id, mem)
    requires n < |mem|
    ensures var n' := n + if Receives(e, id) then 1 else 0;
            && n' < |mem|
            && if n' + 1 < |mem| then OnItsWay(cfg, Step(cfg, s, e), id, mem, n') else IsHome(Step(cfg, s, e), id, mem)
  {
    hide Step, CarriesPath, BackwardShape;
    if Receives(e, id) {
      assert e == Receive(id, e.time, e.draws);
      OnlyAntsInFlightArrive(cfg, s, id, e.time, e.draws);
      TripStep(cfg, s, id, e.time, e.draws, mem, n);
    } else if n + 1 < |mem| {
      OthersLeaveFlight(cfg, s, e, id);
    } else {
      CompletedStays(cfg, s, e, id);
    }
  }

  lemma {:induction false} FlightIsGenerated(cfg: Config, s: NetState, id: nat)
    requires Inv(cfg, s) && ValidConfig(cfg)
    ensures |s.tables| == cfg.n
    ensures id in s.ants || id in s.completed ==> id < s.generated
  {
  }

  /** Whatever else happens: a backward ant that is not lost keeps its memory, moves one entry towards the front with
      each of its receptions, and is home after |mem|-1 of them, where it stays. */
  lemma {:induction false} ProgressUnderInterleaving(
      cfg: Config, states: seq<NetState>, events: seq<Event>, i: nat, j: nat, id: nat, mem: seq<Memory>, t: nat)
    requires ValidConfig(cfg) && IsRun(cfg, states, events) && i <= j < |states|
    requires forall k :: i <= k < j ==> events[k] != Lose(id)
    requires OnItsWay(cfg, states[i], id, mem, t)
    ensures var n := t + Receptions(events, id, i, j);
            && n < |mem|
            && if n + 1 < |mem| then OnItsWay(cfg, states[j], id, mem, n) else IsHome(states[j], id, mem)
  {
    hide Step, Enabled, CarriesPath;
    if i < j {
      ProgressUnderInterleaving(cfg, states, events, i, j - 1, id, mem, t);
      RunKeepsInv(cfg, states, events, j - 1);
      FlightIsGenerated(cfg, states[j - 1], id);
      hide Inv, BackwardOK;
      assert FollowsBy(cfg, states, events[j - 1], j - 1);
      ProgressStep(cfg, states[j - 1], events[j - 1], id, mem, t + Receptions(events, id, i, j - 1));
    }
  }

  // ---------------------------------------------------------------- rows

  /** The neighbour that the reception of an ant reinforces in the row of v for d, if any: the entry after v in the
      memory of a backward ant that is received at v with d later in its memory. */
  function Favours(ant: Ant, v: int, d: int): seq<int> {
    if ant.direction == Up && ant.nextHop == v && Find(ant.memory, v) < Find(ant.memory, d) < |ant.memory| then
      [ant.memory[Find(ant.memory, v) + 1].nodeAddr]
    else []
  }

  /** The neighbour that an event reinforces in that row, if any. */
  function ReinforcedIn(s: NetState, e: Event, v: int, d: int): seq<int> {
    if e.Receive? && e.id in s.ants then Favours(s.ants[e.id].ant, v, d) else []
  }

  /** All neighbours reinforced in that row up to state i, oldest first. */
  function Reinforcements(states: seq<NetState>, events: seq<Event>, i: nat, v: int, d: int): seq<int>
    requires i <= |events| && |states| == |events| + 1
  {
    if i == 0 then []
    else Reinforcements(states, events, i - 1, v, d) + ReinforcedIn(states[i - 1], events[i - 1], v, d)
  }

  lemma {:induction false} ReinforcedByAppend(row: Row, nexts: seq<int>, more: seq<int>, r: real)
    requires |more| <= 1
    ensures ReinforcedBy(row, nexts + more, r)
            == if more == [] then ReinforcedBy(row, nexts, r) else Reinforced(ReinforcedBy(row, nexts, r), more[0], r)
  {
    if more == [] { assert nexts + more == nexts; } else { assert (nexts + more)[..|nexts|] == nexts; }
  }

  lemma {:induction false} GenerateOrLoseLeavesTables(cfg: Config, s: NetState, e: Event)
    requires Enabled(cfg, s, e) && !e.Receive?
    ensures Step(cfg, s, e).tables == s.tables
  {
    hide GenerateAnt;
  }

  lemma {:induction false} ForwardLeavesTables(cfg: Config, s: NetState, id: nat, time: real, draws: seq<real>)
    requires ValidConfig(cfg) && TablesOK(cfg, s.tables)
    requires Enabled(cfg, s, Receive(id, time, draws)) && ForwardOK(cfg, s.ants[id])
    ensures Step(cfg, s, Receive(id, time, draws)).tables == s.tables
  {
    hide Handle, CarriesPath, Step;
    var f := s.ants[id];
    NextHopInNet(cfg, f);
    ForwardLeavesTable(cfg, f, time, s.tables[f.ant.nextHop], draws);
    var (o, t') := Reception(cfg, s, f, time, draws);
    ReceiveStep(cfg, s, id, time, draws, o, t');
    assert s.tables[f.ant.nextHop := t'] == s.tables;
  }

  lemma {:induction false} BackwardChangesRow(
      cfg: Config, s: NetState, id: nat, time: real, draws: seq<real>, v: int, d: int)
    requires ValidConfig(cfg) && Enabled(cfg, s, Receive(id, time, draws))
    requires id in s.ants && BackwardOK(cfg, s.ants[id])
    requires |s.tables| == cfg.n && InNet(cfg, v) && d in s.tables[v]
    ensures var e := Receive(id, time, draws);
            var tables', more := Step(cfg, s, e).tables, ReinforcedIn(s, e, v, d);
            && |tables'| == cfg.n && d in tables'[v] && |more| <= 1
            && tables'[v][d] == if more == [] then s.tables[v][d] else Reinforced(s.tables[v][d], more[0], cfg.r)
  {
    hide Step, Enabled, CarriesPath;
    var f := s.ants[id];
    var mem, j := f.ant.memory, |f.trail|;
    TripStep(cfg, s, id, time, draws, mem, j);
    RowAt(s.tables, mem, j, cfg.r, v, d);
    FindUnique(mem, |mem| - 2 - j);
  }

  lemma {:induction false} StepChangesRow(cfg: Config, s: NetState, e: Event, v: int, d: int)
    requires ValidConfig(cfg) && Inv(cfg, s) && Enabled(cfg, s, e) && InNet(cfg, v) && |s.tables| == cfg.n
    requires d in s.tables[v]
    ensures var tables', more := Step(cfg, s, e).tables, ReinforcedIn(s, e, v, d);
            && |tables'| == cfg.n && d in tables'[v] && |more| <= 1
            && tables'[v][d] == if more == [] then s.tables[v][d] else Reinforced(s.tables[v][d], more[0], cfg.r)
  {
    hide Step, CarriesPath;
    if !e.Receive? {
      GenerateOrLoseLeavesTables(cfg, s, e);
    } else {
      assert e == Receive(e.id, e.time, e.draws);
      OnlyAntsInFlightArrive(cfg, s, e.id, e.time, e.draws);
      if ForwardOK(cfg, s.ants[e.id]) {
        ForwardLeavesTables(cfg, s, e.id, e.time, e.draws);
      } else {
        BackwardChangesRow(cfg, s, e.id, e.time, e.draws, v, d);
      }
    }
  }

  /** In every run the row of v for d is the uniform initial row after exactly the reinforcements that backward ants
      have brought to v, in their order. */
  lemma {:induction false} RowIsItsHistory(
      cfg: Config, states: seq<NetState>, events: seq<Event>, i: nat, v: int, d: int)
    requires ValidConfig(cfg) && IsRun(cfg, states, events) && i < |states|
    requires InNet(cfg, v) && IsDestination(d, cfg.n, v)
    ensures |states[i].tables| == cfg.n && d in states[i].tables[v]
    ensures states[i].tables[v][d]
            == ReinforcedBy(UniformRow(cfg.nbrs[v]), Reinforcements(states, events, i, v, d), cfg.r)
  {
    hide Enabled, Step;
    if i > 0 {
      RowIsItsHistory(cfg, states, events, i - 1, v, d);
      RunKeepsInv(cfg, states, events, i - 1);
      hide Inv;
      assert FollowsBy(cfg, states, events[i - 1], i - 1);
      StepChangesRow(cfg, states[i - 1], events[i - 1], v, d);
      ReinforcedByAppend(UniformRow(cfg.nbrs[v]), Reinforcements(states, events, i - 1, v, d),
                         ReinforcedIn(states[i - 1], events[i - 1], v, d), cfg.r);
    }
  }

  /** So no neighbour is ever forgotten: after m reinforcements of the row each pheromone is at least (1-r)^m of the
      uniform share it started with, whatever was reinforced. */
  lemma {:induction false} PheromoneFloor(
      cfg: Config, states: seq<NetState>, events: seq<Event>, i: nat, v: int, d: int, k: nat)
    requires ValidConfig(cfg) && IsRun(cfg, states, events) && i < |states|
    requires InNet(cfg, v) && IsDestination(d, cfg.n, v) && k < |cfg.nbrs[v]|
    ensures |states[i].tables| == cfg.n && d in states[i].tables[v] && |states[i].tables[v][d]| == |cfg.nbrs[v]|
    ensures states[i].tables[v][d][k].phvalue
            >= Pow(1.0 - cfg.r, |Reinforcements(states, events, i, v, d)|) * (1.0 / |cfg.nbrs[v]| as real)
  {
    RowIsItsHistory(cfg, states, events, i, v, d);
    EntryFloor(UniformRow(cfg.nbrs[v]), Reinforcements(states, events, i, v, d), cfg.r, k);
  }

  // ---------------------------------------------------------------- what one ant brings

  /** What an event of ant `id` reinforces in the row of v for d. */
  function BroughtBy(s: NetState, e: Event, id: nat, v: int, d: int): seq<int> {
    if Receives(e, id) then ReinforcedIn(s, e, v, d) else []
  }

  /** What ant `id` has reinforced in that row up to state i, oldest first. */
  function Brought(states: seq<NetState>, events: seq<Event>, i: nat, id: nat, v: int, d: int): seq<int>
    requires i <= |events| && |states| == |events| + 1
  {
    if i == 0 then []
    else Brought(states, events, i - 1, id, v, d) + BroughtBy(states[i - 1], events[i - 1], id, v, d)
  }

  /** What a backward ant with memory `mem` has to bring by its n-th reception: one update of the row of each entry it
      was received at, for each later entry, in favour of the entry after it. */
  function Due(mem: seq<Memory>, n: nat, v: int, d: int): seq<int> {
    var k := Find(mem, v);
    if |mem| - 1 - n <= k < Find(mem, d) < |mem| then [mem[k + 1].nodeAddr] else []
  }

  /** An ant has brought `b`: nothing before it exists and while it goes forward, then what is due. */
  ghost predicate HasBrought(s: NetState, id: nat, v: int, d: int, b: seq<int>) {
    && (id >= s.generated ==> b == [])
    && (id in s.ants ==>
          var f := s.ants[id]; b == if f.ant.direction == Up then Due(f.ant.memory, |f.trail|, v, d) else [])
    && (id in s.completed ==> b == Due(s.completed[id].ant.memory, |s.completed[id].trail|, v, d))
  }

  /** With the next reception of a backward ant, at entry k, exactly what it brings becomes due. */
  lemma {:induction false} BringsWhatIsDue(ant: Ant, trail: seq<int>, v: int, d: int)
    requires DistinctNodes(ant.memory) && BackwardShape(ant, trail)
    ensures Due(ant.memory, |trail|, v, d) + Favours(ant, v, d) == Due(ant.memory, |trail| + 1, v, d)
  {
    FindUnique(ant.memory, |ant.memory| - 2 - |trail|);
    hide Find, DistinctNodes, Retraced;
  }

  lemma {:induction false} StepGenerates(cfg: Config, s: NetState, e: Event)
    requires Enabled(cfg, s, e)
    ensures Step(cfg, s, e).generated == s.generated + if e.Generate? then 1 else 0
  {
    hide Handle, GenerateAnt;
  }

  lemma {:induction false} BackwardReceptionBrings(
      cfg: Config, s: NetState, id: nat, time: real, draws: seq<real>, v: int, d: int, b: seq<int>)
    requires ValidConfig(cfg) && Inv(cfg, s) && Enabled(cfg, s, Receive(id, time, draws))
    requires id in s.ants && BackwardOK(cfg, s.ants[id]) && HasBrought(s, id, v, d, b)
    ensures var e := Receive(id, time, draws);
            HasBrought(Step(cfg, s, e), id, v, d, b + BroughtBy(s, e, id, v, d))
  {
    var e, f := Receive(id, time, draws), s.ants[id];
    PathDistinct(cfg, f);
    BringsWhatIsDue(f.ant, f.trail, v, d);
    FlightIsGenerated(cfg, s, id);
    StepKeepsInv(cfg, s, e);
    StepGenerates(cfg, s, e);
    TripStep(cfg, s, id, time, draws, f.ant.memory, |f.trail|);
    hide Step, Enabled, CarriesPath, Due, Favours;
  }

  /** A forward ant brings nothing, and nothing is due when it has just been turned round. */
  lemma {:induction false} ForwardReceptionBrings(
      cfg: Config, s: NetState, id: nat, time: real, draws: seq<real>, v: int, d: int, b: seq<int>)
    requires ValidConfig(cfg) && Inv(cfg, s) && Enabled(cfg, s, Receive(id, time, draws))
    requires id in s.ants && ForwardOK(cfg, s.ants[id]) && HasBrought(s, id, v, d, b)
    ensures var e := Receive(id, time, draws);
            HasBrought(Step(cfg, s, e), id, v, d, b + BroughtBy(s, e, id, v, d))
  {
    var e, f := Receive(id, time, draws), s.ants[id];
    NextHopInNet(cfg, f);
    ForwardLeavesTable(cfg, f, time, s.tables[f.ant.nextHop], draws);
    FlightIsGenerated(cfg, s, id);
    StepGenerates(cfg, s, e);
    var (o, t') := Reception(cfg, s, f, time, draws);
    ReceiveStep(cfg, s, id, time, draws, o, t');
    hide Step, Enabled, CarriesPath, Handle;
  }

  /** Where an ant that is not received now comes from: it was there already, or it has just been created. */
  predicate ComesFrom(s: NetState, s': NetState, id: nat) {
    && (id in s'.completed ==> id in s.completed && s'.completed[id] == s.completed[id])
    && (id in s'.ants ==>
          || (id in s.ants && s'.ants[id] == s.ants[id])
          || (id == s.generated && s'.ants[id].ant.direction == Down))
  }

  lemma {:induction false} GenerateOrigin(cfg: Config, s: NetState, e: Event, id: nat)
    requires ValidConfig(cfg) && Inv(cfg, s) && Enabled(cfg, s, e) && e.Generate?
    ensures ComesFrom(s, Step(cfg, s, e), id)
  {
    GenerateOK(cfg, e.node, e.dstDraws, e.time, s.tables[e.node], e.draws);
    hide GenerateAnt, CarriesPath, ValidConfig, Inv;
  }

  lemma {:induction false} ReceiveOrigin(cfg: Config, s: NetState, e: Event, id: nat)
    requires Enabled(cfg, s, e) && e.Receive? && e.id != id
    ensures ComesFrom(s, Step(cfg, s, e), id)
  {
    hide Reception, Continued;
  }

  lemma {:induction false} LoseOrigin(cfg: Config, s: NetState, e: Event, id: nat)
    requires Enabled(cfg, s, e) && e.Lose?
    ensures ComesFrom(s, Step(cfg, s, e), id)
  {
  }

  lemma {:induction false} Origin(cfg: Config, s: NetState, e: Event, id: nat)
    requires ValidConfig(cfg) && Inv(cfg, s) && Enabled(cfg, s, e) && !Receives(e, id)
    ensures ComesFrom(s, Step(cfg, s, e), id)
  {
    hide Step, Enabled, ComesFrom, Inv, ValidConfig;
    match e
    case Generate(_, _, _, _) => GenerateOrigin(cfg, s, e, id);
    case Receive(_, _, _) => ReceiveOrigin(cfg, s, e, id);
    case Lose(_) => LoseOrigin(cfg, s, e, id);
  }

  lemma {:induction false} StepBrings(cfg: Config, s: NetState, e: Event, id: nat, v: int, d: int, b: seq<int>)
    requires ValidConfig(cfg) && Inv(cfg, s) && Enabled(cfg, s, e) && HasBrought(s, id, v, d, b)
    ensures HasBrought(Step(cfg, s, e), id, v, d, b + BroughtBy(s, e, id, v, d))
  {
    hide Step, CarriesPath, Due, ReinforcedIn;
    if Receives(e, id) {
      assert e == Receive(id, e.time, e.draws);
      OnlyAntsInFlightArrive(cfg, s, id, e.time, e.draws);
      if ForwardOK(cfg, s.ants[id]) {
        ForwardReceptionBrings(cfg, s, id, e.time, e.draws, v, d, b);
      } else {
        BackwardReceptionBrings(cfg, s, id, e.time, e.draws, v, d, b);
      }
    } else {
      Origin(cfg, s, e, id);
      StepGenerates(cfg, s, e);
      assert b + [] == b;
    }
  }

  lemma {:induction false} RunBrings(
      cfg: Config, states: seq<NetState>, events: seq<Event>, i: nat, id: nat, v: int, d: int)
    requires ValidConfig(cfg) && IsRun(cfg, states, events) && i < |states|
    ensures HasBrought(states[i], id, v, d, Brought(states, events, i, id, v, d))
  {
    hide Enabled, Step, Inv;
    if i > 0 {
      hide HasBrought;
      RunBrings(cfg, states, events, i - 1, id, v, d);
      RunKeepsInv(cfg, states, events, i - 1);
      assert FollowsBy(cfg, states, events[i - 1], i - 1);
      StepBrings(cfg, states[i - 1], events[i - 1], id, v, d, Brought(states, events, i - 1, id, v, d));
    }
  }

  /** Event e of the run is a reception of ant `id` that reinforces `next` in the row of v for d. */
  predicate Reinforces(states: seq<NetState>, events: seq<Event>, e: nat, id: nat, v: int, d: int, next: int)
    requires e < |events| && |states| == |events| + 1
  {
    BroughtBy(states[e], events[e], id, v, d) == [next]
  }

  lemma {:induction false} NothingBrought(
      states: seq<NetState>, events: seq<Event>, i: nat, id: nat, v: int, d: int, e: nat)
    requires e < i <= |events| && |states| == |events| + 1 && Brought(states, events, i, id, v, d) == []
    ensures BroughtBy(states[e], events[e], id, v, d) == []
  {
    hide BroughtBy;
    if e < i - 1 { NothingBrought(states, events, i - 1, id, v, d, e); }
  }

  lemma {:induction false} OneOfTwoParts(a: seq<int>, b: seq<int>, x: int)
    requires a + b == [x]
    ensures if a == [] then b == [x] else a == [x] && b == []
  {
    assert |a| + |b| == 1;
    assert a + b == if a == [] then b else a;
  }

  /** An ant that has brought one update brought it with one event, and nothing with its others. */
  lemma {:induction false} OneBrought(
      states: seq<NetState>, events: seq<Event>, i: nat, id: nat, v: int, d: int, next: int) returns (e: nat)
    requires i <= |events| && |states| == |events| + 1 && Brought(states, events, i, id, v, d) == [next]
    ensures e < i && Reinforces(states, events, e, id, v, d, next)
    ensures forall e' :: 0 <= e' < i && e' != e ==> BroughtBy(states[e'], events[e'], id, v, d) == []
  {
    hide BroughtBy;
    var before := Brought(states, events, i - 1, id, v, d);
    OneOfTwoParts(before, BroughtBy(states[i - 1], events[i - 1], id, v, d), next);
    if before == [] {
      e := i - 1;
      forall e' | 0 <= e' < i && e' != e ensures BroughtBy(states[e'], events[e'], id, v, d) == [] {
        NothingBrought(states, events, i - 1, id, v, d, e');
      }
    } else {
      e := OneBrought(states, events, i - 1, id, v, d, next);
    }
  }

  /** Whatever else went on in the network: a completed ant with memory mem has reinforced, for each k < l, the row of
      mem[k] for mem[l] with exactly one of its events, in favour of mem[k+1]. */
  lemma {:induction false} EachRowOnceInAnyRun(
      cfg: Config, states: seq<NetState>, events: seq<Event>, i: nat, id: nat, k: nat, l: nat) returns (e: nat)
    requires ValidConfig(cfg) && IsRun(cfg, states, events) && i < |states| && id in states[i].completed
    requires k < l < |states[i].completed[id].ant.memory|
    ensures var mem := states[i].completed[id].ant.memory;
            var v, d := mem[k].nodeAddr, mem[l].nodeAddr;
            && e < i && Reinforces(states, events, e, id, v, d, mem[k + 1].nodeAddr)
            && forall e' :: 0 <= e' < i && e' != e ==> BroughtBy(states[e'], events[e'], id, v, d) == []
  {
    var mem := states[i].completed[id].ant.memory;
    var v, d := mem[k].nodeAddr, mem[l].nodeAddr;
    CompletedAntsRetraced(cfg, states, events, i, id);
    FindUnique(mem, k);
    FindUnique(mem, l);
    RunBrings(cfg, states, events, i, id, v, d);
    hide IsRun, BroughtBy;
    e := OneBrought(states, events, i, id, v, d, mem[k + 1].nodeAddr);
  }

  /** And no other row: it has brought nothing to the row of v for d unless v stands before d in its memory. */
  lemma {:induction false} OtherRowsUntouchedInAnyRun(
      cfg: Config, states: seq<NetState>, events: seq<Event>, i: nat, id: nat, v: int, d: int, e: nat)
    requires ValidConfig(cfg) && IsRun(cfg, states, events) && e < i < |states| && id in states[i].completed
    requires var mem := states[i].completed[id].ant.memory; !(Find(mem, v) < Find(mem, d) < |mem|)
    ensures BroughtBy(states[e], events[e], id, v, d) == []
  {
    RunBrings(cfg, states, events, i, id, v, d);
    hide IsRun, BroughtBy;
    NothingBrought(states, events, i, id, v, d, e);
  }
}

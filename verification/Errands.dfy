/** What becomes of one ant from its creation on: it keeps its origin, its start time and its destination. */
module Errands {
  import opened AntTypes
  import opened LoopErasure
  import opened RoutingTable
  import opened AntHandlers
  import opened Network
  import opened BackwardTrip
  import opened InterleavedRuns
  import opened HopLaws

  /** The flight began at node v at the given time and is for node d: it looks for d, or has been turned round there. */
  predicate IsFor(f: Flight, v: int, time: real, d: int) {
    && f.walk != [] && f.walk[0] == Visit(v, time)
    && if f.ant.direction == Down then f.ant.dst == d else f.walk[|f.walk| - 1].node == d
  }

  /** Ant `id` is on that errand, or has done it, or is gone. */
  predicate OnErrand(s: NetState, id: nat, v: int, time: real, d: int) {
    && id < s.generated
    && (id in s.ants ==> IsFor(s.ants[id], v, time, d))
    && (id in s.completed ==> s.completed[id].ant.direction == Up && IsFor(s.completed[id], v, time, d))
  }

  lemma {:induction false} NewErrand(
      cfg: Config, s: NetState, v: int, dstDraws: seq<int>, time: real, draws: seq<real>)
    requires ValidConfig(cfg) && Inv(cfg, s) && Enabled(cfg, s, Generate(v, dstDraws, time, draws))
    ensures var o := GenerateAnt(v, dstDraws, time, s.tables[v], draws);
            o.Sent? && OnErrand(Step(cfg, s, Generate(v, dstDraws, time, draws)), s.generated, v, time, o.ant.dst)
  {
    GenerateOK(cfg, v, dstDraws, time, s.tables[v], draws);
    hide GenerateAnt, CarriesPath, TablesOK;
  }

  lemma {:induction false} ForwardKeepsErrand(
      cfg: Config, f: Flight, time: real, t: Table, draws: seq<real>, v: int, start: real, d: int)
    requires ValidConfig(cfg) && ForwardOK(cfg, f) && time > f.sentAt && IsFor(f, v, start, d)
    ensures var o := Handle(f.ant, f.ant.nextHop, time, t, cfg.r, draws).0;
            o.Sent? ==> IsFor(Continued(f, o.ant, time), v, start, d)
  {
    ArrivedPath(cfg, f, time);
    HandleForward(f, time, t, cfg.r, draws);
    hide CarriesPath, Handle, HopFrom, Memorized;
  }

  lemma {:induction false} ReceptionKeepsErrand(
      cfg: Config, s: NetState, id: nat, time: real, draws: seq<real>, v: int, start: real, d: int)
    requires ValidConfig(cfg) && Inv(cfg, s) && id in s.ants && Enabled(cfg, s, Receive(id, time, draws))
    requires OnErrand(s, id, v, start, d) && ForwardOK(cfg, s.ants[id])
    ensures OnErrand(Step(cfg, s, Receive(id, time, draws)), id, v, start, d)
  {
    var f := s.ants[id];
    ForwardArrival(cfg, s, id, time, draws);
    ForwardLeavesTable(cfg, f, time, s.tables[f.ant.nextHop], draws);
    ForwardKeepsErrand(cfg, f, time, s.tables[f.ant.nextHop], draws, v, start, d);
    FlightIsGenerated(cfg, s, id);
    StepGenerates(cfg, s, Receive(id, time, draws));
    var (o, t') := Reception(cfg, s, f, time, draws);
    ReceiveStep(cfg, s, id, time, draws, o, t');
    hide Step, Enabled, CarriesPath, Handle, IsFor;
  }

  lemma {:induction false} BackwardKeepsErrand(
      cfg: Config, s: NetState, id: nat, time: real, draws: seq<real>, v: int, start: real, d: int)
    requires ValidConfig(cfg) && Inv(cfg, s) && id in s.ants && Enabled(cfg, s, Receive(id, time, draws))
    requires OnErrand(s, id, v, start, d) && BackwardOK(cfg, s.ants[id])
    ensures OnErrand(Step(cfg, s, Receive(id, time, draws)), id, v, start, d)
  {
    var f := s.ants[id];
    NextHopInNet(cfg, f);
    PathDistinct(cfg, f);
    HandleBackward(f.ant, f.trail, time, s.tables[f.ant.nextHop], cfg.r, draws);
    FlightIsGenerated(cfg, s, id);
    StepGenerates(cfg, s, Receive(id, time, draws));
    var (o, t') := Reception(cfg, s, f, time, draws);
    ReceiveStep(cfg, s, id, time, draws, o, t');
    hide Step, Enabled, CarriesPath, Handle;
  }

  lemma {:induction false} StepKeepsErrand(
      cfg: Config, s: NetState, e: Event, id: nat, v: int, start: real, d: int)
    requires ValidConfig(cfg) && Inv(cfg, s) && Enabled(cfg, s, e) && OnErrand(s, id, v, start, d)
    ensures OnErrand(Step(cfg, s, e), id, v, start, d)
  {
    hide Step, CarriesPath, IsFor;
    if Receives(e, id) {
      assert e == Receive(id, e.time, e.draws);
      OnlyAntsInFlightArrive(cfg, s, id, e.time, e.draws);
      if ForwardOK(cfg, s.ants[id]) {
        ReceptionKeepsErrand(cfg, s, id, e.time, e.draws, v, start, d);
      } else {
        BackwardKeepsErrand(cfg, s, id, e.time, e.draws, v, start, d);
      }
    } else {
      Origin(cfg, s, e, id);
      StepGenerates(cfg, s, e);
    }
  }

  /** From its creation on, in every state of every run, an ant is on the errand it was created for: from its node to
      the first node drawn other than that. */
  lemma {:induction false} ErrandIsKept(
      cfg: Config, states: seq<NetState>, events: seq<Event>, e: nat, i: nat) returns (d: int)
    requires ValidConfig(cfg) && IsRun(cfg, states, events) && e < i < |states| && events[e].Generate?
    ensures FirstOtherIs(events[e].dstDraws, events[e].node, d)
    ensures OnErrand(states[i], states[e].generated, events[e].node, events[e].time, d)
  {
    hide Enabled, Step, Inv, OnErrand, FirstOtherIs;
    RunKeepsInv(cfg, states, events, i - 1);
    assert FollowsBy(cfg, states, events[i - 1], i - 1);
    var s, ev := states[i - 1], events[i - 1];
    if e == i - 1 {
      var v := CreatedAt(cfg, s, ev);
      NewErrand(cfg, s, v, ev.dstDraws, ev.time, ev.draws);
      GoesToTheNodeDrawn(v, ev.dstDraws, ev.time, s.tables[v], ev.draws);
      d := GenerateAnt(v, ev.dstDraws, ev.time, s.tables[v], ev.draws).ant.dst;
    } else {
      d := ErrandIsKept(cfg, states, events, e, i - 1);
      StepKeepsErrand(cfg, s, ev, states[e].generated, events[e].node, events[e].time, d);
    }
  }

  lemma {:induction false} CreatedAt(cfg: Config, s: NetState, e: Event) returns (v: int)
    requires Enabled(cfg, s, e) && e.Generate?
    ensures v == e.node && 0 <= v < |s.tables| && e == Generate(v, e.dstDraws, e.time, e.draws)
  {
    v := e.node;
  }

  lemma {:induction false} ErrandDone(cfg: Config, s: NetState, id: nat, v: int, start: real, d: int)
    requires ValidConfig(cfg) && Inv(cfg, s) && OnErrand(s, id, v, start, d) && id in s.completed
    ensures var f := s.completed[id];
            var mem := f.ant.memory;
            && 2 <= |mem| && f.walk != [] && f.ant.startTime == start
            && mem[0].nodeAddr == v && mem[|mem| - 1].nodeAddr == d
            && mem[|mem| - 1].tripTime == f.walk[|f.walk| - 1].time - start
  {
    var f := s.completed[id];
    assert CompletedOK(cfg, f);
    PathFacts(cfg, f);
    hide Inv;
  }

  /** So a completed ant has a memory from the node that created it to the destination drawn for it there, and its last
      trip time is the time it took to get there. */
  lemma {:induction false} CompletedAntsFoundTheirDestination(
      cfg: Config, states: seq<NetState>, events: seq<Event>, e: nat, i: nat) returns (d: int)
    requires ValidConfig(cfg) && IsRun(cfg, states, events) && e < i < |states| && events[e].Generate?
    requires states[e].generated in states[i].completed
    ensures FirstOtherIs(events[e].dstDraws, events[e].node, d)
    ensures var f := states[i].completed[states[e].generated];
            var mem := f.ant.memory;
            && 2 <= |mem| && f.walk != []
            && mem[0].nodeAddr == events[e].node && mem[|mem| - 1].nodeAddr == d
            && f.ant.startTime == events[e].time
            && mem[|mem| - 1].tripTime == f.walk[|f.walk| - 1].time - events[e].time
  {
    hide Inv, Enabled, Step, OnErrand, FirstOtherIs, ValidConfig;
    d := ErrandIsKept(cfg, states, events, e, i);
    RunKeepsInv(cfg, states, events, i);
    ErrandDone(cfg, states[i], states[e].generated, events[e].node, events[e].time, d);
  }
}

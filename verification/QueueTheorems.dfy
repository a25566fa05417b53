/** What the interface queue does with each packet: admission, precedence, delivery and removal, over any run. */
module QueueTheorems {
  import opened InterfaceQueue

  // ---------------------------------------------------------------- which packets are preferred

  /** Preference, type by type: routing packets and ants on their way back; with preference off, nothing. */
  lemma {:induction false} HighIff(c: Params, p: Pkt)
    ensures High(c, p) <==>
              c.prefer && (p.ptype in {DSR, MESSAGE, TORA, AODV, AOMDV, MDART} || (p.ptype == ANT && p.up))
  {
  }

  /** While a backward ant or a routing packet is queued, from any state in which it is until the event that takes it
      out, no data packet and no forward ant is delivered. */
  lemma {:induction false} BackwardAntsGoFirst(
      c: Params, qlim: int, events: seq<Event>, i: nat, j: nat, p: Pkt, k: nat)
    requires i <= j < |events| && c.prefer
    requires (p.ptype == ANT && p.up) || p.ptype in {DSR, MESSAGE, TORA, AODV, AOMDV, MDART}
    requires p in Run(c, qlim, events[..i]).q && p in Run(c, qlim, events[..j]).q
    ensures var before, after := Run(c, qlim, events[..i]).delivered, Run(c, qlim, events[..j + 1]).delivered;
            && before <= after
            && (|before| <= k < |after| ==> after[k].ptype != OTHER && !(after[k].ptype == ANT && !after[k].up))
  {
    HighIff(c, p);
    HighIsNotOvertaken(c, qlim, events, i, j, p);
    var before, after := Run(c, qlim, events[..i]).delivered, Run(c, qlim, events[..j + 1]).delivered;
    hide Run, High;
    if |before| <= k < |after| { HighIff(c, after[k]); }
  }

  // ---------------------------------------------------------------- arrivals

  /** A routing packet or backward ant that arrives under preference goes before everything queued, or at once to an
      idle link. It drops nothing exactly when fewer than qlim-1 packets are queued, and else the last of them. */
  lemma {:induction false} PreferredArrival(c: Params, s: QState, p: Pkt)
    requires c.prefer && (p.ptype in {DSR, MESSAGE, TORA, AODV, AOMDV, MDART} || (p.ptype == ANT && p.up))
    requires !s.blocked ==> s.q == []
    ensures var s', room := Received(c, s, p), |s.q| + 1 < s.qlim;
            && s'.dropped == (if room then s.dropped else s.dropped + [([p] + s.q)[|s.q|]])
            && s'.delivered == (if room && !s.blocked then s.delivered + [p] else s.delivered)
            && s'.q == (if !s.blocked then [] else if room then [p] + s.q else ([p] + s.q)[..|s.q|])
            && s'.blocked == (s.blocked || room)
  {
    HighIff(c, p);
    hide High;
  }

  /** Every other arrival goes behind everything queued, or at once to an idle link. It drops nothing exactly when it
      stays below the limit, in packets or in bytes; else one packet is dropped: the head of the queue with it at the
      end, or itself. */
  lemma {:induction false} OrdinaryArrival(c: Params, s: QState, p: Pkt)
    requires !c.prefer || p.ptype == OTHER || (p.ptype == ANT && !p.up)
    requires !s.blocked ==> s.q == []
    ensures var s' := Received(c, s, p);
            var room := if c.inBytes then Bytes(s.q) + p.size < s.qlim * c.meanSize else |s.q| + 1 < s.qlim;
            && s'.dropped == (if room then s.dropped else s.dropped + [if c.dropFront then (s.q + [p])[0] else p])
            && s'.delivered == (if room && !s.blocked then s.delivered + [p] else s.delivered)
            && s'.q == (if !s.blocked then []
                        else if room then s.q + [p] else if c.dropFront then (s.q + [p])[1..] else s.q)
            && s'.blocked == (s.blocked || room)
  {
    HighIff(c, p);
    hide High;
  }

  /** What an event needs in order to drop nothing: room for an arrival, a queue within the limit when it is shrunk, an
      empty queue at the end. */
  predicate FindsRoom(c: Params, s: QState, e: Event) {
    match e
    case Arrive(p) =>
      var preferred := c.prefer && (p.ptype in {DSR, MESSAGE, TORA, AODV, AOMDV, MDART} || (p.ptype == ANT && p.up));
      if c.inBytes && !preferred then Bytes(s.q) + p.size < s.qlim * c.meanSize else |s.q| + 1 < s.qlim
    case Shrink => s.q == [] || if c.inBytes then Bytes(s.q) <= s.qlim * c.meanSize else |s.q| <= s.qlim
    case Terminate => s.q == []
    case _ => true
  }

  lemma {:induction false} ShrunkDrops(c: Params, s: QState)
    ensures s.dropped <= Shrunk(c, s).dropped
    ensures |Shrunk(c, s).dropped| - |s.dropped| == |s.q| - |Shrunk(c, s).q|
    ensures s.q != [] && !Fits(c, s.q, s.qlim) ==> |Shrunk(c, s).dropped| > |s.dropped|
    decreases |s.q|
  {
    if s.q != [] && !Fits(c, s.q, s.qlim) { ShrunkDrops(c, DropOne(c, s)); }
  }

  lemma {:induction false} ArrivalDrops(c: Params, s: QState, p: Pkt)
    requires !s.blocked ==> s.q == []
    ensures var s' := Received(c, s, p);
            && s.dropped <= s'.dropped
            && |s'.dropped| == |s.dropped| + if FindsRoom(c, s, Arrive(p)) then 0 else 1
  {
    if c.prefer && (p.ptype in {DSR, MESSAGE, TORA, AODV, AOMDV, MDART} || (p.ptype == ANT && p.up)) {
      PreferredArrival(c, s, p);
    } else {
      assert !c.prefer || p.ptype == OTHER || (p.ptype == ANT && !p.up);
      OrdinaryArrival(c, s, p);
    }
    hide Received, Bytes;
  }

  /** One event drops nothing exactly when it finds room, and an arrival never drops more than one packet. */
  lemma {:induction false} StepDrops(c: Params, s: QState, e: Event)
    requires !s.blocked ==> s.q == []
    ensures s.dropped <= Step(c, s, e).dropped
    ensures Step(c, s, e).dropped == s.dropped <==> FindsRoom(c, s, e)
    ensures e.Arrive? ==> |Step(c, s, e).dropped| <= |s.dropped| + 1
  {
    match e
    case Arrive(p) => ArrivalDrops(c, s, p.(stamp := |s.arrivals|)); hide Received;
    case Resume =>
    case FilterBy(f) =>
    case FilterHop(id) =>
    case Shrink => ShrunkDrops(c, s);
    case SetLimit(l) =>
    case Terminate =>
  }

  predicate RoomAt(c: Params, qlim: int, events: seq<Event>, n: nat)
    requires n < |events|
  {
    FindsRoom(c, Run(c, qlim, events[..n]), events[n])
  }

  lemma {:induction false} NothingDroppedTo(c: Params, qlim: int, events: seq<Event>, n: nat)
    requires n <= |events|
    ensures Run(c, qlim, events[..n]).dropped == [] <==> forall m :: 0 <= m < n ==> RoomAt(c, qlim, events, m)
  {
    if n > 0 {
      NothingDroppedTo(c, qlim, events, n - 1);
      DropsAt(c, qlim, events, n - 1);
      hide Run, RoomAt;
      NothingInBoth(Run(c, qlim, events[..n - 1]).dropped, Run(c, qlim, events[..n]).dropped);
    } else {
      assert events[..0] == [];
    }
  }

  lemma {:induction false} NothingInBoth(a: seq<Pkt>, b: seq<Pkt>)
    requires a <= b
    ensures b == [] <==> a == [] && b == a
  {
  }

  lemma {:induction false} DropsAt(c: Params, qlim: int, events: seq<Event>, n: nat)
    requires n < |events|
    ensures var s, s' := Run(c, qlim, events[..n]), Run(c, qlim, events[..n + 1]);
            s.dropped <= s'.dropped && (s'.dropped == s.dropped <==> RoomAt(c, qlim, events, n))
  {
    RunTo(c, qlim, events, n);
    RunInv(c, qlim, events[..n]);
    StepDrops(c, Run(c, qlim, events[..n]), events[n]);
    hide Run, Step, FindsRoom, Shape, Tally;
  }

  /** A run loses no packet exactly if each of its arrivals finds room and nothing is cut off when the queue is shrunk
      or terminated. */
  lemma {:induction false} NothingDroppedIff(c: Params, qlim: int, events: seq<Event>)
    ensures Run(c, qlim, events).dropped == [] <==>
              forall m :: 0 <= m < |events| ==> RoomAt(c, qlim, events, m)
  {
    NothingDroppedTo(c, qlim, events, |events|);
    assert events[..|events|] == events;
  }

  // ---------------------------------------------------------------- the link

  /** What an event gives to the link: the head of the queue when the link is free again, or an arrival with room when
      the link is idle. */
  lemma {:induction false} StepSendsExactly(c: Params, s: QState, e: Event)
    requires !s.blocked ==> s.q == []
    ensures Step(c, s, e).delivered
            == s.delivered + match e
                             case Resume => if s.q != [] then [s.q[0]] else []
                             case Arrive(p) =>
                               if !s.blocked && FindsRoom(c, s, e) then [p.(stamp := |s.arrivals|)] else []
                             case _ => []
    ensures var s' := Step(c, s, e);
            |s'.delivered| - (if s'.blocked then 1 else 0)
            == |s.delivered| - (if s.blocked then 1 else 0) + (if e.Resume? && s.blocked then 1 else 0)
  {
    match e
    case Arrive(p) => ArrivalSends(c, s, p.(stamp := |s.arrivals|)); hide Received;
    case Resume =>
    case FilterBy(f) =>
    case FilterHop(id) =>
    case Shrink => ShrunkDelivers(c, s);
    case SetLimit(l) =>
    case Terminate =>
  }

  lemma {:induction false} ArrivalSends(c: Params, s: QState, p: Pkt)
    requires !s.blocked ==> s.q == []
    ensures var s', sent := Received(c, s, p), !s.blocked && FindsRoom(c, s, Arrive(p));
            && s'.delivered == (if sent then s.delivered + [p] else s.delivered)
            && s'.blocked == (s.blocked || sent)
  {
    if c.prefer && (p.ptype in {DSR, MESSAGE, TORA, AODV, AOMDV, MDART} || (p.ptype == ANT && p.up)) {
      PreferredArrival(c, s, p);
    } else {
      assert !c.prefer || p.ptype == OTHER || (p.ptype == ANT && !p.up);
      OrdinaryArrival(c, s, p);
    }
    hide Received, Bytes;
  }

  /** How often a busy link became free. */
  function BusyServices(c: Params, qlim: int, events: seq<Event>): nat {
    if events == [] then 0
    else
      var rest := events[..|events| - 1];
      BusyServices(c, qlim, rest) + if events[|events| - 1].Resume? && Run(c, qlim, rest).blocked then 1 else 0
  }

  /** Over any run the packets given to the link are exactly as many as it has sent, plus the one it is sending. */
  lemma {:induction false} DeliveriesAreServices(c: Params, qlim: int, events: seq<Event>)
    ensures var s := Run(c, qlim, events);
            |s.delivered| == BusyServices(c, qlim, events) + if s.blocked then 1 else 0
  {
    if events != [] {
      var rest, e := events[..|events| - 1], events[|events| - 1];
      DeliveriesAreServices(c, qlim, rest);
      RunInv(c, qlim, rest);
      StepSendsExactly(c, Run(c, qlim, rest), e);
      assert Run(c, qlim, events) == Step(c, Run(c, qlim, rest), e);
      hide Run, Step, Shape, Tally;
    }
  }

  // ---------------------------------------------------------------- first in, first out

  /** Data packets and forward ants, and everything with preference off. */
  predicate Ordinary(c: Params, p: Pkt) { !c.prefer || p.ptype == OTHER || (p.ptype == ANT && !p.up) }

  /** Among the ordinary packets delivered, and then those queued, the stamps increase. */
  predicate InOrder(c: Params, s: QState) {
    && (forall i, j :: 0 <= i < j < |s.delivered| && Ordinary(c, s.delivered[i]) && Ordinary(c, s.delivered[j]) ==>
          s.delivered[i].stamp < s.delivered[j].stamp)
    && (forall i, p :: 0 <= i < |s.delivered| && p in s.q && Ordinary(c, s.delivered[i]) && Ordinary(c, p) ==>
          s.delivered[i].stamp < p.stamp)
    && StampedBelow(s.delivered, |s.arrivals|)
  }

  lemma {:induction false} HeadIsFirst(c: Params, q: seq<Pkt>, p: Pkt)
    requires Shape(c, q) && q != [] && p in q[1..] && Ordinary(c, q[0]) && Ordinary(c, p)
    ensures q[0].stamp < p.stamp
  {
    var i :| 0 <= i < |q[1..]| && q[1..][i] == p;
    assert Before(c, q[0], q[i + 1]);
    HighIff(c, q[0]);
  }

  lemma {:induction false} ServedInOrder(c: Params, s: QState)
    requires Inv(c, s) && InOrder(c, s)
    ensures InOrder(c, Resumed(s))
  {
    if s.q != [] {
      var s' := Resumed(s);
      forall i, p | 0 <= i < |s'.delivered| && p in s'.q && Ordinary(c, s'.delivered[i]) && Ordinary(c, p)
        ensures s'.delivered[i].stamp < p.stamp
      {
        if i == |s.delivered| { HeadIsFirst(c, s.q, p); }
      }
    }
  }

  lemma {:induction false} ArrivalArrives(c: Params, s: QState, p: Pkt)
    requires !s.blocked ==> s.q == []
    ensures Received(c, s, p).arrivals == s.arrivals + [p]
    ensures !s.blocked ==> Received(c, s, p).q == []
  {
    ReceivedTally(c, s, p);
    if c.prefer && (p.ptype in {DSR, MESSAGE, TORA, AODV, AOMDV, MDART} || (p.ptype == ANT && p.up)) {
      PreferredArrival(c, s, p);
    } else {
      assert !c.prefer || p.ptype == OTHER || (p.ptype == ANT && !p.up);
      OrdinaryArrival(c, s, p);
    }
    hide Received, Bytes, Tally;
  }

  lemma {:induction false} StepKeepsOrder(c: Params, s: QState, e: Event)
    requires Inv(c, s) && InOrder(c, s)
    ensures InOrder(c, Step(c, s, e))
  {
    hide Shape, Tally, Ordinary, Received, FindsRoom, FilteredBy, FilteredHop, Shrunk, High;
    if e.Resume? {
      ServedInOrder(c, s);
    } else if e.Arrive? {
      ArrivalInOrder(c, s, e.p);
    } else {
      StepDelivers(c, s, e);
      StepSendsExactly(c, s, e);
    }
  }

  lemma {:induction false} ArrivalInOrder(c: Params, s: QState, p: Pkt)
    requires Inv(c, s) && InOrder(c, s)
    ensures InOrder(c, Step(c, s, Arrive(p)))
  {
    StepDelivers(c, s, Arrive(p));
    StepSendsExactly(c, s, Arrive(p));
    ArrivalArrives(c, s, p.(stamp := |s.arrivals|));
    hide Shape, Tally, Ordinary, Received, FindsRoom, High, InOrder;
    LastInOrder(c, s, Step(c, s, Arrive(p)));
  }

  /** The latest arrival comes last, in the queue or on the link. */
  lemma {:induction false} LastInOrder(c: Params, s: QState, s': QState)
    requires InOrder(c, s) && |s'.arrivals| == |s.arrivals| + 1 && s.delivered <= s'.delivered
    requires s'.delivered == s.delivered ||
             (s'.q == [] && |s'.delivered| == |s.delivered| + 1 && s'.delivered[|s.delivered|].stamp == |s.arrivals|)
    requires forall x :: x in s'.q ==> x in s.q || x.stamp == |s.arrivals|
    ensures InOrder(c, s')
  {
    hide Ordinary;
  }

  /** Over any run, ordinary packets leave in the order in which they arrived; with preference off, all packets do. */
  lemma {:induction false} OrdinaryLeaveInOrder(c: Params, qlim: int, events: seq<Event>, i: nat, j: nat)
    requires i < j < |Run(c, qlim, events).delivered|
    ensures var d := Run(c, qlim, events).delivered;
            !c.prefer || ((d[i].ptype == OTHER || (d[i].ptype == ANT && !d[i].up)) &&
                          (d[j].ptype == OTHER || (d[j].ptype == ANT && !d[j].up))) ==>
              d[i].stamp < d[j].stamp
  {
    RunInOrder(c, qlim, events);
  }

  lemma {:induction false} RunInOrder(c: Params, qlim: int, events: seq<Event>)
    ensures InOrder(c, Run(c, qlim, events))
  {
    if events != [] {
      var rest, e := events[..|events| - 1], events[|events| - 1];
      RunInOrder(c, qlim, rest);
      RunInv(c, qlim, rest);
      StepKeepsOrder(c, Run(c, qlim, rest), e);
      assert Run(c, qlim, events) == Step(c, Run(c, qlim, rest), e);
      hide Run, Step, Inv, InOrder;
    }
  }

  // ---------------------------------------------------------------- taking packets out

  lemma {:induction false} SelectIs(q: seq<Pkt>, keep: Pkt -> bool, p: Pkt)
    ensures p in Select(q, keep) <==> p in q && keep(p)
  {
    if q != [] { SelectIs(q[1..], keep, p); }
  }

  /** The filter takes out exactly the packets it picks. */
  lemma {:induction false} FilterTakesThePicked(s: QState, filter: Pkt -> bool, p: Pkt)
    ensures var s' := FilteredBy(s, filter);
            && (p in s'.q <==> p in s.q && !filter(p))
            && s.filtered <= s'.filtered && (p in s'.filtered[|s.filtered|..] <==> p in s.q && filter(p))
  {
    SelectIs(s.q, filter, p);
    SelectIs(s.q, Failing(filter), p);
    assert FilteredBy(s, filter).filtered[|s.filtered|..] == Select(s.q, filter);
  }

  /** The filter for a next hop takes out the first packet for it, if there is one, and no other. */
  lemma {:induction false} FilterHopTakesTheFirst(s: QState, id: int, k: nat)
    requires k < |s.q| && s.q[k].nextHop == id && forall i :: 0 <= i < k ==> s.q[i].nextHop != id
    ensures FilteredHop(s, id).q == s.q[..k] + s.q[k + 1..]
    ensures FilteredHop(s, id).filtered == s.filtered + [s.q[k]]
  {
  }

  /** The end of the simulation leaves nothing queued: every arrival has been delivered, dropped or filtered out. */
  lemma {:induction false} TerminateSettlesAll(c: Params, qlim: int, events: seq<Event>)
    ensures var s := Run(c, qlim, events + [Terminate]);
            && s.q == [] && s.delivered == Run(c, qlim, events).delivered
            && multiset(s.arrivals) == multiset(s.dropped) + (multiset(s.delivered) + multiset(s.filtered))
  {
    RunSnoc(c, qlim, events, Terminate);
    RunInv(c, qlim, events + [Terminate]);
    hide Run, Shape;
  }
}

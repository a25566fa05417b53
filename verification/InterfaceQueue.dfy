/** The interface queue: `PriQueue` with what it inherits from `DropTail`, over one packet list. */
module InterfaceQueue {

  datatype PacketType = DSR | MESSAGE | TORA | AODV | AOMDV | MDART | ANT | OTHER

  /** A packet. Its stamp is the number of its arrival and stands for its identity. */
  datatype Pkt = Pkt(stamp: nat, ptype: PacketType, up: bool, size: nat, nextHop: int)

  /** Parameters bound once: drop from the front, count in bytes, mean packet size, prefer routing packets. */
  datatype Params = Params(dropFront: bool, inBytes: bool, meanSize: nat, prefer: bool)

  datatype QState = QState(
    q: seq<Pkt>,
    qlim: int,
    blocked: bool,
    arrivals: seq<Pkt>,
    delivered: seq<Pkt>,
    dropped: seq<Pkt>,
    filtered: seq<Pkt>)

  function Bytes(q: seq<Pkt>): nat { if q == [] then 0 else q[0].size + Bytes(q[1..]) }

  /** Backward ants and the packets of the routing protocols go to the front. */
  predicate High(c: Params, p: Pkt) {
    c.prefer && match p.ptype
                case OTHER => false
                case ANT => p.up
                case _ => true
  }

  /** The queue would reach its limit with one more packet p. */
  predicate Full(c: Params, s: QState, p: Pkt) {
    if c.inBytes then Bytes(s.q) + p.size >= s.qlim * c.meanSize else |s.q| + 1 >= s.qlim
  }

  /** `DropTail::enque`. */
  function Enqueued(c: Params, s: QState, p: Pkt): QState {
    if !Full(c, s, p) then s.(q := s.q + [p])
    else if c.dropFront then s.(q := (s.q + [p])[1..], dropped := s.dropped + [(s.q + [p])[0]])
    else s.(dropped := s.dropped + [p])
  }

  /** Send the head if the link is idle. */
  function SentIfIdle(s: QState): QState {
    if s.blocked || s.q == [] then s else s.(q := s.q[1..], blocked := true, delivered := s.delivered + [s.q[0]])
  }

  /** Insertion at the head, at the cost of the last packet when the limit is reached. */
  function PushedFront(s: QState, p: Pkt): QState {
    var q := [p] + s.q;
    if |q| >= s.qlim then s.(q := q[..|q| - 1], dropped := s.dropped + [q[|q| - 1]]) else s.(q := q)
  }

  /** `PriQueue::recv`. */
  function Received(c: Params, s: QState, p: Pkt): QState {
    var s := s.(arrivals := s.arrivals + [p]);
    SentIfIdle(if High(c, p) then PushedFront(s, p) else Enqueued(c, s, p))
  }

  /** The link is free again: the next packet leaves, or the link is idle. */
  function Resumed(s: QState): QState {
    if s.q == [] then s.(blocked := false) else s.(q := s.q[1..], delivered := s.delivered + [s.q[0]])
  }

  /** The packets of q that pass, in order. */
  function Select(q: seq<Pkt>, keep: Pkt -> bool): (out: seq<Pkt>) {
    if q == [] then [] else (if keep(q[0]) then [q[0]] else []) + Select(q[1..], keep)
  }

  function Failing(filter: Pkt -> bool): Pkt -> bool { p => !filter(p) }

  function FilteredBy(s: QState, filter: Pkt -> bool): QState {
    s.(q := Select(s.q, Failing(filter)), filtered := s.filtered + Select(s.q, filter))
  }

  /** Position of the first packet for the given next hop, or |q|. */
  function FirstFor(q: seq<Pkt>, id: int): (k: nat)
    ensures k <= |q|
    ensures k < |q| ==> q[k].nextHop == id
    ensures forall i :: 0 <= i < k ==> q[i].nextHop != id
  {
    if q == [] || q[0].nextHop == id then 0 else 1 + FirstFor(q[1..], id)
  }

  function FilteredHop(s: QState, id: int): QState {
    var k := FirstFor(s.q, id);
    if k == |s.q| then s else s.(q := s.q[..k] + s.q[k + 1..], filtered := s.filtered + [s.q[k]])
  }

  predicate Fits(c: Params, q: seq<Pkt>, qlim: int) {
    if c.inBytes then Bytes(q) <= qlim * c.meanSize else |q| <= qlim
  }

  function DropOne(c: Params, s: QState): QState
    requires s.q != []
  {
    if c.dropFront then s.(q := s.q[1..], dropped := s.dropped + [s.q[0]])
    else s.(q := s.q[..|s.q| - 1], dropped := s.dropped + [s.q[|s.q| - 1]])
  }

  /** `shrink_queue`: packets are dropped from one end until the rest fits. */
  function Shrunk(c: Params, s: QState): QState
    decreases |s.q|
  {
    if s.q == [] || Fits(c, s.q, s.qlim) then s else Shrunk(c, DropOne(c, s))
  }

  function Terminated(s: QState): QState { s.(q := [], dropped := s.dropped + s.q) }

  datatype Event =
    | Arrive(p: Pkt)
    | Resume
    | FilterBy(filter: Pkt -> bool)
    | FilterHop(id: int)
    | Shrink
    | SetLimit(qlim: int)
    | Terminate

  function Step(c: Params, s: QState, e: Event): QState {
    match e
    case Arrive(p) => Received(c, s, p.(stamp := |s.arrivals|))
    case Resume => Resumed(s)
    case FilterBy(f) => FilteredBy(s, f)
    case FilterHop(id) => FilteredHop(s, id)
    case Shrink => Shrunk(c, s)
    case SetLimit(l) => s.(qlim := l)
    case Terminate => Terminated(s)
  }

  function Run(c: Params, qlim: int, events: seq<Event>): QState {
    if events == [] then QState([], qlim, false, [], [], [], [])
    else Step(c, Run(c, qlim, events[..|events| - 1]), events[|events| - 1])
  }

  // ---------------------------------------------------------------- shape

  /** a may stand before b: high before low, later high before earlier high, earlier low before later low. */
  predicate Before(c: Params, a: Pkt, b: Pkt) {
    if High(c, a) then !High(c, b) || a.stamp > b.stamp else !High(c, b) && a.stamp < b.stamp
  }

  predicate Shape(c: Params, q: seq<Pkt>) { forall i, j :: 0 <= i < j < |q| ==> Before(c, q[i], q[j]) }

  predicate StampedBelow(q: seq<Pkt>, n: nat) { forall i :: 0 <= i < |q| ==> q[i].stamp < n }

  /** Every packet that arrived is queued, delivered, dropped or filtered out, once. */
  ghost predicate Conserved(s: QState) { multiset(s.arrivals) == Tally(s) }

  ghost function Tally(s: QState): multiset<Pkt> {
    (multiset(s.q) + multiset(s.dropped)) + (multiset(s.delivered) + multiset(s.filtered))
  }

  ghost predicate Inv(c: Params, s: QState) {
    && Shape(c, s.q) && StampedBelow(s.q, |s.arrivals|)
    && Conserved(s)
    && (!s.blocked ==> s.q == [])
  }

  /** Taking packets out anywhere keeps the shape. */
  lemma {:induction false} SelectKeepsShape(c: Params, q: seq<Pkt>, keep: Pkt -> bool, n: nat)
    requires Shape(c, q) && StampedBelow(q, n)
    ensures Shape(c, Select(q, keep)) && StampedBelow(Select(q, keep), n)
  {
    if q != [] {
      SelectKeepsShape(c, q[1..], keep, n);
      SelectIsSubset(q[1..], keep);
    }
  }

  lemma {:induction false} SelectCons(q: seq<Pkt>, keep: Pkt -> bool)
    requires q != []
    ensures Select(q, keep) == (if keep(q[0]) then [q[0]] else []) + Select(q[1..], keep)
  {
  }

  /** One packet further: it moves from what is still to be selected to what has been selected, or is left out. */
  lemma {:induction false} SelectStep(done: seq<Pkt>, rest: seq<Pkt>, keep: Pkt -> bool)
    requires rest != []
    ensures done + Select(rest, keep) == (if keep(rest[0]) then done + [rest[0]] else done) + Select(rest[1..], keep)
  {
    SelectCons(rest, keep);
    hide Select;
  }

  lemma {:induction false} SplitOff(front: seq<Pkt>, rest: seq<Pkt>)
    requires rest != []
    ensures (front + rest)[..|front|] + (front + rest)[|front| + 1..] == front + rest[1..]
    ensures front + rest == front + [rest[0]] + rest[1..]
  {
  }

  lemma {:induction false} SelectIsSubset(q: seq<Pkt>, keep: Pkt -> bool)
    ensures forall i :: 0 <= i < |Select(q, keep)| ==> keep(Select(q, keep)[i]) && Select(q, keep)[i] in q
  {
    if q != [] { SelectIsSubset(q[1..], keep); }
  }

  lemma {:induction false} SelectSplits(q: seq<Pkt>, filter: Pkt -> bool)
    ensures multiset(q) == multiset(Select(q, Failing(filter))) + multiset(Select(q, filter))
  {
    if q != [] {
      SelectSplits(q[1..], filter);
      HeadOf(q);
    }
  }

  lemma {:induction false} HeadOf(q: seq<Pkt>)
    requires q != []
    ensures multiset(q) == multiset{q[0]} + multiset(q[1..])
  {
    assert q == [q[0]] + q[1..];
  }

  lemma {:induction false} LastOf(q: seq<Pkt>)
    requires q != []
    ensures multiset(q) == multiset(q[..|q| - 1]) + multiset{q[|q| - 1]}
  {
    assert q == q[..|q| - 1] + [q[|q| - 1]];
  }

  lemma {:induction false} AddedTo(q: seq<Pkt>, p: Pkt)
    ensures multiset(q + [p]) == multiset(q) + multiset{p}
  {
  }

  lemma {:induction false} SendTally(s: QState)
    ensures Tally(SentIfIdle(s)) == Tally(s) == Tally(Resumed(s))
  {
    if s.q != [] { HeadOf(s.q); }
  }

  lemma {:induction false} PushTally(s: QState, p: Pkt)
    ensures Tally(PushedFront(s, p)) == Tally(s) + multiset{p}
  {
    var q, s' := [p] + s.q, PushedFront(s, p);
    assert multiset(q) == multiset(s.q) + multiset{p};
    if |q| >= s.qlim {
      LastOf(q);
      AddedTo(s.dropped, q[|q| - 1]);
      assert multiset(s'.q) + multiset(s'.dropped) == multiset(s.q) + multiset{p} + multiset(s.dropped);
    }
  }

  lemma {:induction false} EnqueTally(c: Params, s: QState, p: Pkt)
    ensures Tally(Enqueued(c, s, p)) == Tally(s) + multiset{p}
  {
    var q, s' := s.q + [p], Enqueued(c, s, p);
    assert multiset(q) == multiset(s.q) + multiset{p};
    if Full(c, s, p) {
      HeadOf(q);
      AddedTo(s.dropped, q[0]);
      AddedTo(s.dropped, p);
      assert multiset(s'.q) + multiset(s'.dropped) == multiset(s.q) + multiset{p} + multiset(s.dropped);
    }
  }

  lemma {:induction false} DropTally(c: Params, s: QState)
    requires s.q != []
    ensures Tally(DropOne(c, s)) == Tally(s)
  {
    HeadOf(s.q);
    LastOf(s.q);
  }

  lemma {:induction false} FilterTally(s: QState, filter: Pkt -> bool)
    ensures Tally(FilteredBy(s, filter)) == Tally(s)
  {
    SelectSplits(s.q, filter);
  }

  lemma {:induction false} FilterHopTally(s: QState, id: int)
    ensures Tally(FilteredHop(s, id)) == Tally(s)
  {
    var k := FirstFor(s.q, id);
    if k < |s.q| {
      assert s.q == s.q[..k] + [s.q[k]] + s.q[k + 1..];
      assert multiset(s.q) == multiset(s.q[..k] + s.q[k + 1..]) + multiset{s.q[k]};
    }
  }

  lemma {:induction false} ArrivalShape(c: Params, s: QState, p: Pkt)
    requires Shape(c, s.q) && StampedBelow(s.q, p.stamp)
    ensures var s' := if High(c, p) then PushedFront(s, p) else Enqueued(c, s, p);
            Shape(c, s'.q) && StampedBelow(s'.q, p.stamp + 1)
  {
  }

  lemma {:induction false} SentShape(c: Params, s: QState, n: nat)
    requires Shape(c, s.q) && StampedBelow(s.q, n)
    ensures Shape(c, SentIfIdle(s).q) && StampedBelow(SentIfIdle(s).q, n)
  {
  }

  lemma {:induction false} ReceivedShape(c: Params, s: QState, p: Pkt)
    requires Shape(c, s.q) && StampedBelow(s.q, p.stamp)
    ensures Shape(c, Received(c, s, p).q) && StampedBelow(Received(c, s, p).q, p.stamp + 1)
  {
    var s1 := s.(arrivals := s.arrivals + [p]);
    ArrivalShape(c, s1, p);
    SentShape(c, if High(c, p) then PushedFront(s1, p) else Enqueued(c, s1, p), p.stamp + 1);
  }

  lemma {:induction false} ReceivedTally(c: Params, s: QState, p: Pkt)
    ensures Tally(Received(c, s, p)) == Tally(s) + multiset{p}
    ensures Received(c, s, p).arrivals == s.arrivals + [p]
  {
    var s1 := s.(arrivals := s.arrivals + [p]);
    PushTally(s1, p);
    EnqueTally(c, s1, p);
    SendTally(if High(c, p) then PushedFront(s1, p) else Enqueued(c, s1, p));
    assert Tally(s1) == Tally(s);
    hide Tally;
  }

  lemma {:induction false} ReceivedInv(c: Params, s: QState, p: Pkt)
    requires Inv(c, s) && p.stamp == |s.arrivals|
    ensures Inv(c, Received(c, s, p))
  {
    ReceivedShape(c, s, p);
    ReceivedTally(c, s, p);
    AddedTo(s.arrivals, p);
    hide Shape, StampedBelow, High, Tally;
  }

  lemma {:induction false} DropOneInv(c: Params, s: QState)
    requires Inv(c, s) && s.q != []
    ensures Inv(c, DropOne(c, s))
  {
    DropTally(c, s);
  }

  lemma {:induction false} ShrunkInv(c: Params, s: QState)
    requires Inv(c, s)
    ensures Inv(c, Shrunk(c, s))
    decreases |s.q|
  {
    if s.q != [] && !Fits(c, s.q, s.qlim) {
      DropOneInv(c, s);
      ShrunkInv(c, DropOne(c, s));
    }
  }

  lemma {:induction false} FilteredByInv(c: Params, s: QState, filter: Pkt -> bool)
    requires Inv(c, s)
    ensures Inv(c, FilteredBy(s, filter))
  {
    SelectKeepsShape(c, s.q, Failing(filter), |s.arrivals|);
    FilterTally(s, filter);
    hide Shape, Tally;
  }

  lemma {:induction false} FilteredHopInv(c: Params, s: QState, id: int)
    requires Inv(c, s)
    ensures Inv(c, FilteredHop(s, id))
  {
    FilterHopTally(s, id);
    hide Tally;
  }

  lemma {:induction false} ResumedInv(c: Params, s: QState)
    requires Inv(c, s)
    ensures Inv(c, Resumed(s))
  {
    SendTally(s);
    hide Tally;
  }

  lemma {:induction false} StepInv(c: Params, s: QState, e: Event)
    requires Inv(c, s)
    ensures Inv(c, Step(c, s, e))
  {
    match e
    case Arrive(p) => ReceivedInv(c, s, p.(stamp := |s.arrivals|));
    case Resume => ResumedInv(c, s);
    case FilterBy(f) => FilteredByInv(c, s, f);
    case FilterHop(id) => FilteredHopInv(c, s, id);
    case Shrink => ShrunkInv(c, s);
    case SetLimit(l) =>
    case Terminate =>
  }

  /** Over any run, with any parameters, arrivals, services, filters, limits and shrinks: the queue keeps its shape, no
      packet is lost or duplicated, and nothing waits while the link is idle. */
  lemma {:induction false} RunInv(c: Params, qlim: int, events: seq<Event>)
    ensures Inv(c, Run(c, qlim, events))
  {
    if events != [] {
      RunInv(c, qlim, events[..|events| - 1]);
      StepInv(c, Run(c, qlim, events[..|events| - 1]), events[|events| - 1]);
    }
  }

  /** Where the low segment of a well-shaped queue begins. */
  lemma {:induction false} Segments(c: Params, q: seq<Pkt>) returns (k: nat)
    requires Shape(c, q)
    ensures k <= |q|
    ensures forall i :: 0 <= i < |q| ==> (High(c, q[i]) <==> i < k)
    ensures forall i, j :: 0 <= i < j < k ==> q[i].stamp > q[j].stamp
    ensures forall i, j :: k <= i < j < |q| ==> q[i].stamp < q[j].stamp
  {
    k := 0;
    while k < |q| && High(c, q[k])
      invariant k <= |q| && forall i :: 0 <= i < k ==> High(c, q[i])
    {
      k := k + 1;
    }
    forall i | k <= i < |q| ensures !High(c, q[i]) {
      if i > k { assert Before(c, q[k], q[i]); }
    }
    forall i, j | 0 <= i < j < |q| && (j < k || k <= i)
      ensures if j < k then q[i].stamp > q[j].stamp else q[i].stamp < q[j].stamp
    {
      assert Before(c, q[i], q[j]);
    }
  }

  /** So the queue is a segment of high packets, latest first, and then a segment of low packets, earliest first. */
  lemma {:induction false} QueueShape(c: Params, qlim: int, events: seq<Event>) returns (k: nat)
    ensures var q := Run(c, qlim, events).q;
            && k <= |q|
            && (forall i :: 0 <= i < |q| ==> (High(c, q[i]) <==> i < k))
            && (forall i, j :: 0 <= i < j < k ==> q[i].stamp > q[j].stamp)
            && (forall i, j :: k <= i < j < |q| ==> q[i].stamp < q[j].stamp)
    ensures var q := Run(c, qlim, events).q;
            (exists i :: 0 <= i < |q| && High(c, q[i])) ==> High(c, q[0])
  {
    RunInv(c, qlim, events);
    hide Run, Tally;
    k := Segments(c, Run(c, qlim, events).q);
  }

  // ---------------------------------------------------------------- order of delivery

  /** Every packet given to the link from the n-th on is high. */
  predicate HighFrom(c: Params, delivered: seq<Pkt>, n: nat) {
    forall i :: n <= i < |delivered| ==> High(c, delivered[i])
  }

  lemma {:induction false} ShrunkDelivers(c: Params, s: QState)
    ensures Shrunk(c, s).delivered == s.delivered && Shrunk(c, s).blocked == s.blocked
    ensures forall p :: p in Shrunk(c, s).q ==> p in s.q
    decreases |s.q|
  {
    if s.q != [] && !Fits(c, s.q, s.qlim) { ShrunkDelivers(c, DropOne(c, s)); }
  }

  lemma {:induction false} FilterDelivers(s: QState, filter: Pkt -> bool)
    ensures FilteredBy(s, filter).delivered == s.delivered
    ensures forall p :: p in FilteredBy(s, filter).q ==> p in s.q
  {
    SelectIsSubset(s.q, Failing(filter));
  }

  /** One event: deliveries are only added to; while a high packet is queued only high packets are delivered; and the
      queue gets no packet that was not in it, but for the one that arrives. */
  lemma {:induction false} StepDelivers(c: Params, s: QState, e: Event)
    requires Inv(c, s)
    ensures var s' := Step(c, s, e);
            && s.delivered <= s'.delivered && |s.arrivals| <= |s'.arrivals|
            && ((exists p :: p in s.q && High(c, p)) ==> HighFrom(c, s'.delivered, |s.delivered|))
            && (forall p :: p in s'.q ==> p in s.q || p.stamp == |s.arrivals|)
  {
    if p :| p in s.q && High(c, p) {
      var i :| 0 <= i < |s.q| && s.q[i] == p;
      assert i > 0 ==> Before(c, s.q[0], s.q[i]);
      assert High(c, s.q[0]);
    }
    hide Shape, Tally, High;
    match e
    case Arrive(p) => ArrivalDelivers(c, s, p.(stamp := |s.arrivals|));
    case Resume =>
    case FilterBy(f) => FilterDelivers(s, f);
    case FilterHop(id) =>
    case Shrink => ShrunkKeepsArrivals(c, s); ShrunkDelivers(c, s);
    case SetLimit(l) =>
    case Terminate =>
  }

  lemma {:induction false} ShrunkKeepsArrivals(c: Params, s: QState)
    ensures Shrunk(c, s).arrivals == s.arrivals
    decreases |s.q|
  {
    if s.q != [] && !Fits(c, s.q, s.qlim) { ShrunkKeepsArrivals(c, DropOne(c, s)); }
  }

  /** An arriving packet is the only one that can be delivered at once, and only to an idle link with nothing queued. */
  lemma {:induction false} ArrivalDelivers(c: Params, s: QState, p: Pkt)
    requires !s.blocked ==> s.q == []
    ensures var s' := Received(c, s, p);
            && s.delivered <= s'.delivered && |s'.arrivals| == |s.arrivals| + 1
            && (s.q != [] ==> s'.delivered == s.delivered)
            && (forall x :: x in s'.q ==> x in s.q || x == p)
  {
  }

  /** A packet that is queued now, and had arrived by then, was queued all the time since. */
  lemma {:induction false} QueuedThroughout(c: Params, qlim: int, events: seq<Event>, i: nat, j: nat, p: Pkt)
    requires i <= j <= |events| && p in Run(c, qlim, events[..j]).q && p.stamp < |Run(c, qlim, events[..i]).arrivals|
    ensures p in Run(c, qlim, events[..i]).q
  {
    hide Run, Step, Inv, High;
    if i < j {
      RunTo(c, qlim, events, j - 1);
      RunInv(c, qlim, events[..j - 1]);
      ArrivalsGrow(c, qlim, events, i, j - 1);
      StepDelivers(c, Run(c, qlim, events[..j - 1]), events[j - 1]);
      QueuedThroughout(c, qlim, events, i, j - 1, p);
    }
  }

  lemma {:induction false} RunTo(c: Params, qlim: int, events: seq<Event>, i: nat)
    requires i < |events|
    ensures Run(c, qlim, events[..i + 1]) == Step(c, Run(c, qlim, events[..i]), events[i])
  {
    assert events[..i + 1][..i] == events[..i];
  }

  lemma {:induction false} ArrivalsGrow(c: Params, qlim: int, events: seq<Event>, i: nat, j: nat)
    requires i <= j <= |events|
    ensures |Run(c, qlim, events[..i]).arrivals| <= |Run(c, qlim, events[..j]).arrivals|
  {
    hide Run, Step, Inv, High;
    if i < j {
      ArrivalsGrow(c, qlim, events, i, j - 1);
      RunTo(c, qlim, events, j - 1);
      RunInv(c, qlim, events[..j - 1]);
      StepDelivers(c, Run(c, qlim, events[..j - 1]), events[j - 1]);
    }
  }

  lemma {:induction false} QueuedHasArrived(c: Params, qlim: int, events: seq<Event>, p: Pkt)
    requires p in Run(c, qlim, events).q
    ensures p.stamp < |Run(c, qlim, events).arrivals|
  {
    RunInv(c, qlim, events);
    hide Run, Tally, Shape;
  }

  /** No overtaking: while a high packet waits, from the moment it is queued until it is gone, only high packets are
      delivered. */
  lemma {:induction false} HighIsNotOvertaken(c: Params, qlim: int, events: seq<Event>, i: nat, j: nat, p: Pkt)
    requires i <= j < |events| && High(c, p)
    requires p in Run(c, qlim, events[..i]).q && p in Run(c, qlim, events[..j]).q
    ensures var before, after := Run(c, qlim, events[..i]).delivered, Run(c, qlim, events[..j + 1]).delivered;
            before <= after && HighFrom(c, after, |before|)
  {
    hide Run, Step, Inv, High;
    RunTo(c, qlim, events, j);
    RunInv(c, qlim, events[..j]);
    StepDelivers(c, Run(c, qlim, events[..j]), events[j]);
    if i < j {
      QueuedHasArrived(c, qlim, events[..i], p);
      ArrivalsGrow(c, qlim, events, i, j - 1);
      QueuedThroughout(c, qlim, events, j - 1, j, p);
      HighIsNotOvertaken(c, qlim, events, i, j - 1, p);
    }
  }

  /** How often the link became free. */
  function Services(events: seq<Event>): nat {
    if events == [] then 0
    else Services(events[..|events| - 1]) + if events[|events| - 1].Resume? then 1 else 0
  }

  /** The link is never given a packet while it is busy: at most one more than the times it became free, and no more
      than those while it is idle. */
  lemma {:induction false} OnePacketPerService(c: Params, qlim: int, events: seq<Event>)
    ensures var s := Run(c, qlim, events); |s.delivered| <= Services(events) + if s.blocked then 1 else 0
  {
    if events != [] {
      var rest, e := events[..|events| - 1], events[|events| - 1];
      OnePacketPerService(c, qlim, rest);
      StepSends(c, Run(c, qlim, rest), e);
    }
  }

  lemma {:induction false} StepSends(c: Params, s: QState, e: Event)
    ensures var s' := Step(c, s, e);
            |s'.delivered| - (if s'.blocked then 1 else 0)
            <= |s.delivered| - (if s.blocked then 1 else 0) + if e.Resume? then 1 else 0
  {
    match e
    case Arrive(p) =>
    case Resume =>
    case FilterBy(f) =>
    case FilterHop(id) =>
    case Shrink => ShrunkDelivers(c, s);
    case SetLimit(l) =>
    case Terminate =>
  }

  // ---------------------------------------------------------------- capacity

  predicate KeepsLimit(e: Event) { !e.SetLimit? }

  lemma {:induction false} SelectLength(q: seq<Pkt>, keep: Pkt -> bool)
    ensures |Select(q, keep)| <= |q|
  {
    if q != [] { SelectLength(q[1..], keep); }
  }

  lemma {:induction false} ShrunkLength(c: Params, s: QState)
    ensures |Shrunk(c, s).q| <= |s.q| && Shrunk(c, s).qlim == s.qlim
    decreases |s.q|
  {
    if s.q != [] && !Fits(c, s.q, s.qlim) { ShrunkLength(c, DropOne(c, s)); }
  }

  /** Counting packets, no event makes the queue longer than the larger of what it was and qlim-1, whatever the limit
      was before or is set to. */
  lemma {:induction false} StepNeverGrowsPastLimit(c: Params, s: QState, e: Event)
    requires !c.inBytes
    ensures |Step(c, s, e).q| <= |s.q| || |Step(c, s, e).q| <= s.qlim - 1
    ensures Step(c, s, e).qlim == if e.SetLimit? then e.qlim else s.qlim
  {
    match e
    case Arrive(p) =>
    case Resume =>
    case FilterBy(f) => SelectLength(s.q, Failing(f));
    case FilterHop(id) =>
    case Shrink => ShrunkLength(c, s);
    case SetLimit(l) =>
    case Terminate =>
  }

  /** So with limits that change, the queue stays below the largest of them. */
  lemma {:induction false} CapacityUnderChangingLimits(c: Params, qlim: int, events: seq<Event>, top: int)
    requires !c.inBytes && 1 <= top && qlim <= top
    requires forall i :: 0 <= i < |events| && events[i].SetLimit? ==> events[i].qlim <= top
    ensures Run(c, qlim, events).qlim <= top && |Run(c, qlim, events).q| <= top - 1
  {
    if events != [] {
      CapacityUnderChangingLimits(c, qlim, events[..|events| - 1], top);
      StepNeverGrowsPastLimit(c, Run(c, qlim, events[..|events| - 1]), events[|events| - 1]);
    }
  }

  /** Counting packets, with a fixed limit of at least one, at most qlim-1 packets are queued between operations. */
  lemma {:induction false} CapacityBound(c: Params, qlim: int, events: seq<Event>)
    requires !c.inBytes && qlim >= 1 && forall i :: 0 <= i < |events| ==> KeepsLimit(events[i])
    ensures Run(c, qlim, events).qlim == qlim && |Run(c, qlim, events).q| <= qlim - 1
  {
    forall i | 0 <= i < |events| ensures !events[i].SetLimit? { assert KeepsLimit(events[i]); }
    CapacityUnderChangingLimits(c, qlim, events, qlim);
    LimitKept(c, qlim, events);
  }

  lemma {:induction false} LimitKept(c: Params, qlim: int, events: seq<Event>)
    requires !c.inBytes && forall i :: 0 <= i < |events| ==> KeepsLimit(events[i])
    ensures Run(c, qlim, events).qlim == qlim
  {
    if events != [] {
      LimitKept(c, qlim, events[..|events| - 1]);
      assert KeepsLimit(events[|events| - 1]);
      StepNeverGrowsPastLimit(c, Run(c, qlim, events[..|events| - 1]), events[|events| - 1]);
    }
  }

  /** Counting packets, shrink_queue leaves as many packets as the limit, one more than enque would let in: it restores
      the bound of qlim-1 exactly when it was not broken before. */
  lemma {:induction false} ShrinkMeetsCapacityIff(c: Params, s: QState)
    requires !c.inBytes && s.qlim >= 0
    ensures |Shrunk(c, s).q| == if |s.q| <= s.qlim then |s.q| else s.qlim
    ensures |Shrunk(c, s).q| <= s.qlim - 1 <==> |s.q| <= s.qlim - 1
    decreases |s.q|
  {
    if |s.q| > s.qlim { ShrinkMeetsCapacityIff(c, DropOne(c, s)); }
  }

  /** The queue after the first n events obeys the limit in force then. */
  predicate WithinLimit(c: Params, qlim: int, events: seq<Event>, n: nat)
    requires n <= |events|
  {
    var s := Run(c, qlim, events[..n]); |s.q| <= s.qlim - 1
  }

  /** If event n sets a limit, the packets then queued are fewer than it. */
  predicate SetAboveLength(c: Params, qlim: int, events: seq<Event>, n: nat)
    requires n < |events|
  {
    events[n].SetLimit? ==> |Run(c, qlim, events[..n]).q| <= events[n].qlim - 1
  }

  lemma {:induction false} WithinLimitTo(c: Params, qlim: int, events: seq<Event>, n: nat)
    requires !c.inBytes && qlim >= 1 && n <= |events|
    requires forall m :: 0 <= m < n ==> SetAboveLength(c, qlim, events, m)
    ensures WithinLimit(c, qlim, events, n)
  {
    if n > 0 {
      WithinLimitTo(c, qlim, events, n - 1);
      RunTo(c, qlim, events, n - 1);
      StepNeverGrowsPastLimit(c, Run(c, qlim, events[..n - 1]), events[n - 1]);
      LimitSetKeepsQueue(c, Run(c, qlim, events[..n - 1]), events[n - 1]);
      assert SetAboveLength(c, qlim, events, n - 1);
      hide Run, Step;
    }
  }

  lemma {:induction false} LimitSetKeepsQueue(c: Params, s: QState, e: Event)
    ensures e.SetLimit? ==> Step(c, s, e).q == s.q && Step(c, s, e).qlim == e.qlim
  {
  }

  /** Counting packets, a run obeys the limit in force after each of its events exactly if no event sets a limit that
      the packets then queued have reached. */
  lemma {:induction false} CapacityIff(c: Params, qlim: int, events: seq<Event>)
    requires !c.inBytes && qlim >= 1
    ensures (forall n :: 0 <= n <= |events| ==> WithinLimit(c, qlim, events, n))
            <==> (forall n :: 0 <= n < |events| ==> SetAboveLength(c, qlim, events, n))
  {
    hide Run, Step;
    if forall n :: 0 <= n < |events| ==> SetAboveLength(c, qlim, events, n) {
      forall n | 0 <= n <= |events| ensures WithinLimit(c, qlim, events, n) {
        WithinLimitTo(c, qlim, events, n);
      }
    }
    if forall n :: 0 <= n <= |events| ==> WithinLimit(c, qlim, events, n) {
      forall n | 0 <= n < |events| ensures SetAboveLength(c, qlim, events, n) {
        assert WithinLimit(c, qlim, events, n + 1);
        RunTo(c, qlim, events, n);
        LimitSetKeepsQueue(c, Run(c, qlim, events[..n]), events[n]);
      }
    }
  }

  // ---------------------------------------------------------------- capacity in bytes

  lemma {:induction false} BytesAppend(a: seq<Pkt>, b: seq<Pkt>)
    ensures Bytes(a + b) == Bytes(a) + Bytes(b)
  {
    if a == [] {
      assert a + b == b;
    } else {
      BytesAppend(a[1..], b);
      assert (a + b)[1..] == a[1..] + b;
    }
  }

  lemma {:induction false} BytesOfPart(q: seq<Pkt>, i: nat, j: nat)
    requires i <= j <= |q|
    ensures Bytes(q[..i] + q[j..]) <= Bytes(q)
  {
    assert q == (q[..i] + q[i..j]) + q[j..];
    BytesAppend(q[..i] + q[i..j], q[j..]);
    BytesAppend(q[..i], q[i..j]);
    BytesAppend(q[..i], q[j..]);
  }

  lemma {:induction false} SelectBytes(q: seq<Pkt>, keep: Pkt -> bool)
    ensures Bytes(Select(q, keep)) <= Bytes(q)
  {
    if q != [] {
      SelectBytes(q[1..], keep);
      BytesAppend(if keep(q[0]) then [q[0]] else [], Select(q[1..], keep));
    }
  }

  lemma {:induction false} ShrunkBytes(c: Params, s: QState)
    ensures Bytes(Shrunk(c, s).q) <= Bytes(s.q) && Shrunk(c, s).qlim == s.qlim
    decreases |s.q|
  {
    if s.q != [] && !Fits(c, s.q, s.qlim) {
      BytesOfPart(s.q, 0, 1);
      BytesOfPart(s.q, |s.q| - 1, |s.q|);
      assert s.q[..0] + s.q[1..] == s.q[1..];
      assert s.q[..|s.q| - 1] + s.q[|s.q|..] == s.q[..|s.q| - 1];
      ShrunkBytes(c, DropOne(c, s));
    }
  }

  lemma {:induction false} ReceivedBytes(c: Params, s: QState, p: Pkt)
    requires c.inBytes && !c.dropFront && !c.prefer
    ensures Bytes(Received(c, s, p).q) <= Bytes(s.q) || Bytes(Received(c, s, p).q) < s.qlim * c.meanSize
    ensures Received(c, s, p).qlim == s.qlim
  {
    BytesAppend(s.q, [p]);
  }

  /** Counting bytes, and dropping the arriving packet, no event takes the queue past the larger of its old size and one
      byte less than the limit. */
  lemma {:induction false} StepNeverGrowsPastByteLimit(c: Params, s: QState, e: Event)
    requires c.inBytes && !c.dropFront && !c.prefer
    ensures var s' := Step(c, s, e);
            && (Bytes(s'.q) <= Bytes(s.q) || Bytes(s'.q) < s.qlim * c.meanSize)
            && s'.qlim == if e.SetLimit? then e.qlim else s.qlim
  {
    match e
    case Arrive(p) => ReceivedBytes(c, s, p.(stamp := |s.arrivals|));
    case Resume =>
    case FilterBy(f) => SelectBytes(s.q, Failing(f));
    case FilterHop(id) => if FirstFor(s.q, id) < |s.q| { BytesOfPart(s.q, FirstFor(s.q, id), FirstFor(s.q, id) + 1); }
    case Shrink => ShrunkBytes(c, s);
    case SetLimit(l) =>
    case Terminate =>
  }

  /** So in any run whose limits are at most `top` packets of the mean size, fewer bytes than that are queued. */
  lemma {:induction false} ByteCapacityUnderChangingLimits(c: Params, qlim: int, events: seq<Event>, top: int)
    requires c.inBytes && !c.dropFront && !c.prefer && top * c.meanSize > 0 && qlim <= top
    requires forall i :: 0 <= i < |events| && events[i].SetLimit? ==> events[i].qlim <= top
    ensures Run(c, qlim, events).qlim <= top && Bytes(Run(c, qlim, events).q) < top * c.meanSize
  {
    if events != [] {
      var s := Run(c, qlim, events[..|events| - 1]);
      ByteCapacityUnderChangingLimits(c, qlim, events[..|events| - 1], top);
      StepNeverGrowsPastByteLimit(c, s, events[|events| - 1]);
      AtMostTimes(s.qlim, top, c.meanSize);
      hide Step, Bytes;
    }
  }

  lemma {:induction false} AtMostTimes(a: int, b: int, m: nat)
    requires a <= b
    ensures a * m <= b * m
  {
  }

  /** Counting bytes, every run obeys the limit it was started with. */
  ghost predicate ObeysByteLimit(c: Params) {
    forall qlim: int, events: seq<Event> ::
      qlim >= 1 && (forall i :: 0 <= i < |events| ==> KeepsLimit(events[i])) ==> UnderByteLimit(c, qlim, events)
  }

  predicate UnderByteLimit(c: Params, qlim: int, events: seq<Event>) {
    Bytes(Run(c, qlim, events).q) < qlim * c.meanSize
  }

  /** A large packet that preference puts in front stays, whatever its size. */
  lemma {:induction false} PreferenceIgnoresBytes(c: Params)
    requires c.inBytes && c.prefer
    ensures !ObeysByteLimit(c)
  {
    var p := Pkt(0, DSR, false, 3 * c.meanSize, 0);
    var one := [] + [Arrive(p)];
    var two := one + [Arrive(p)];
    RunSnoc(c, 3, [], Arrive(p));
    RunSnoc(c, 3, one, Arrive(p));
    assert Run(c, 3, one).blocked && Run(c, 3, one).q == [];
    assert Run(c, 3, two).q == [p.(stamp := 1)];
    assert !UnderByteLimit(c, 3, two);
  }

  /** A large packet that drops a small one from the front stays. */
  lemma {:induction false} FrontDropIgnoresBytes(c: Params)
    requires c.inBytes && c.dropFront && !c.prefer && c.meanSize > 0
    ensures !ObeysByteLimit(c)
  {
    var z, p := Pkt(0, OTHER, false, 0, 0), Pkt(0, OTHER, false, c.meanSize, 0);
    var one := [] + [Arrive(z)];
    var two := one + [Arrive(z)];
    var three := two + [Arrive(p)];
    RunSnoc(c, 1, [], Arrive(z));
    RunSnoc(c, 1, one, Arrive(z));
    RunSnoc(c, 1, two, Arrive(p));
    assert Run(c, 1, one).blocked && Run(c, 1, one).q == [];
    assert Run(c, 1, two).q == [z.(stamp := 1)] && Run(c, 1, two).blocked;
    assert Run(c, 1, three).q == [p.(stamp := 2)];
    assert !UnderByteLimit(c, 1, three);
  }

  /** So a limit in bytes is obeyed by all runs exactly for a queue that drops from the tail and prefers nothing. */
  lemma {:induction false} ByteLimitIff(c: Params)
    requires c.inBytes && c.meanSize > 0
    ensures ObeysByteLimit(c) <==> !c.dropFront && !c.prefer
  {
    if c.prefer {
      PreferenceIgnoresBytes(c);
    } else if c.dropFront {
      FrontDropIgnoresBytes(c);
    } else {
      forall qlim: int, events: seq<Event> |
        qlim >= 1 && forall i :: 0 <= i < |events| ==> KeepsLimit(events[i])
        ensures UnderByteLimit(c, qlim, events)
      {
        forall i | 0 <= i < |events| ensures !events[i].SetLimit? { assert KeepsLimit(events[i]); }
        ByteCapacityFixed(c, qlim, events);
      }
    }
  }

  lemma {:induction false} ByteCapacityFixed(c: Params, qlim: int, events: seq<Event>)
    requires c.inBytes && !c.dropFront && !c.prefer && c.meanSize > 0 && qlim >= 1
    requires forall i :: 0 <= i < |events| ==> !events[i].SetLimit?
    ensures UnderByteLimit(c, qlim, events)
  {
    assert qlim * c.meanSize > 0;
    ByteCapacityUnderChangingLimits(c, qlim, events, qlim);
  }

  // ---------------------------------------------------------------- a shrink that leaves one more

  lemma {:induction false} RunSnoc(c: Params, qlim: int, events: seq<Event>, e: Event)
    ensures Run(c, qlim, events + [e]) == Step(c, Run(c, qlim, events), e)
  {
    assert (events + [e])[..|events|] == events;
  }

  /** One packet on the link and one waiting, the limit set to one, and a shrink: the waiting packet stays. */
  lemma {:induction false} ShrinkLeavesOneMore()
    ensures exists c: Params, qlim: int, events: seq<Event> ::
              !c.inBytes && Run(c, qlim, events).qlim == 1 && |Run(c, qlim, events).q| == 1 && events != [] &&
              events[|events| - 1] == Shrink
  {
    var c, p := Params(false, false, 1, false), Pkt(0, OTHER, false, 1, 0);
    var one := [] + [Arrive(p)];
    var two := one + [Arrive(p)];
    var three := two + [SetLimit(1)];
    RunSnoc(c, 10, [], Arrive(p));
    RunSnoc(c, 10, one, Arrive(p));
    RunSnoc(c, 10, two, SetLimit(1));
    RunSnoc(c, 10, three, Shrink);
    assert |Run(c, 10, one).q| == 0 && Run(c, 10, one).blocked;
    assert |Run(c, 10, two).q| == 1;
    ShrinkMeetsCapacityIff(c, Run(c, 10, three));
    ShrunkLength(c, Run(c, 10, three));
    var events := three + [Shrink];
    hide *;
    assert |Run(c, 10, events).q| == 1;
  }

  // ---------------------------------------------------------------- shrink and filter

  function LastOnes(q: seq<Pkt>, n: nat): seq<Pkt>
    requires n <= |q|
  {
    q[|q| - n..]
  }

  /** Dropping from the tail, shrink_queue leaves exactly the longest prefix that fits. */
  lemma {:induction false} ShrinkTailIsLongestFit(c: Params, s: QState)
    requires s.qlim >= 0 && !c.dropFront
    ensures var out := Shrunk(c, s).q;
            && |out| <= |s.q| && out == s.q[..|out|]
            && (!c.inBytes ==> |out| == if |s.q| <= s.qlim then |s.q| else s.qlim)
            && (c.inBytes ==> Bytes(out) <= s.qlim * c.meanSize)
            && (c.inBytes ==> forall n :: |out| < n <= |s.q| ==> Bytes(s.q[..n]) > s.qlim * c.meanSize)
  {
    ShrinkTailIsLongestFitting(c, s);
    if !c.inBytes { ShrinkMeetsCapacityIff(c, s); }
    var out := Shrunk(c, s).q;
    hide Shrunk;
    forall n | c.inBytes && |out| < n <= |s.q| ensures Bytes(s.q[..n]) > s.qlim * c.meanSize {
      assert !Fits(c, s.q[..n], s.qlim);
    }
  }

  lemma {:induction false} ShrinkTailIsLongestFitting(c: Params, s: QState)
    requires s.qlim >= 0 && !c.dropFront
    ensures var out := Shrunk(c, s).q;
            && |out| <= |s.q| && out == s.q[..|out|] && Fits(c, out, s.qlim)
            && forall n :: |out| < n <= |s.q| ==> !Fits(c, s.q[..n], s.qlim)
    decreases |s.q|
  {
    assert s.q[..|s.q|] == s.q;
    if s.q != [] && !Fits(c, s.q, s.qlim) {
      var s' := DropOne(c, s);
      assert s'.q == s.q[..|s.q| - 1] && Shrunk(c, s) == Shrunk(c, s');
      ShrinkTailIsLongestFitting(c, s');
      hide Fits, Shrunk, DropOne;
      forall n | |Shrunk(c, s).q| < n <= |s.q| ensures !Fits(c, s.q[..n], s.qlim) {
        if n < |s.q| { assert s'.q[..n] == s.q[..n]; }
      }
    }
  }

  lemma {:induction false} LastOnesOfTail(q: seq<Pkt>, n: nat)
    requires n < |q|
    ensures LastOnes(q[1..], n) == LastOnes(q, n)
  {
  }

  /** Dropping from the front, it leaves exactly the longest suffix that fits. */
  lemma {:induction false} ShrinkFrontIsLongestFit(c: Params, s: QState)
    requires s.qlim >= 0 && c.dropFront
    ensures var out := Shrunk(c, s).q;
            && |out| <= |s.q| && out == LastOnes(s.q, |out|)
            && (!c.inBytes ==> |out| == if |s.q| <= s.qlim then |s.q| else s.qlim)
            && (c.inBytes ==> Bytes(out) <= s.qlim * c.meanSize)
            && (c.inBytes ==> forall n :: |out| < n <= |s.q| ==> Bytes(LastOnes(s.q, n)) > s.qlim * c.meanSize)
  {
    ShrinkFrontIsLongestFitting(c, s);
    if !c.inBytes { ShrinkMeetsCapacityIff(c, s); }
    var out := Shrunk(c, s).q;
    hide Shrunk;
    forall n | c.inBytes && |out| < n <= |s.q| ensures Bytes(LastOnes(s.q, n)) > s.qlim * c.meanSize {
      assert !Fits(c, LastOnes(s.q, n), s.qlim);
    }
  }

  lemma {:induction false} ShrinkFrontIsLongestFitting(c: Params, s: QState)
    requires s.qlim >= 0 && c.dropFront
    ensures var out := Shrunk(c, s).q;
            && |out| <= |s.q| && out == LastOnes(s.q, |out|) && Fits(c, out, s.qlim)
            && forall n :: |out| < n <= |s.q| ==> !Fits(c, LastOnes(s.q, n), s.qlim)
    decreases |s.q|
  {
    assert LastOnes(s.q, |s.q|) == s.q;
    if s.q != [] && !Fits(c, s.q, s.qlim) {
      var s' := DropOne(c, s);
      ShrinkFrontIsLongestFitting(c, s');
      hide Fits;
      forall n | |Shrunk(c, s).q| < n <= |s.q| ensures !Fits(c, LastOnes(s.q, n), s.qlim) {
        if n < |s.q| { LastOnesOfTail(s.q, n); }
      }
      LastOnesOfTail(s.q, |Shrunk(c, s).q|);
    }
  }

  // ---------------------------------------------------------------- the code

  class PriQueue {
    const c: Params
    var q: seq<Pkt>
    var qlim: int
    var blocked: bool
    var delivered: seq<Pkt>
    var dropped: seq<Pkt>
    var filtered: seq<Pkt>
    ghost var arrivals: seq<Pkt>

    /** A list linked through the packets holds none of them twice. */
    ghost predicate Valid()
      reads this`q
    {
      forall i, j :: 0 <= i < j < |q| ==> q[i] != q[j]
    }

    ghost function View(): QState
      reads this
    {
      QState(q, qlim, blocked, arrivals, delivered, dropped, filtered)
    }

    constructor (c: Params, qlim: int)
      ensures this.c == c && Valid() && View() == Run(c, qlim, [])
    {
      this.c, this.qlim, q, blocked := c, qlim, [], false;
      delivered, dropped, filtered, arrivals := [], [], [], [];
    }

    method GetLength() returns (n: nat)
      ensures n == |q|
    {
      n := |q|;
    }

    method ByteLength() returns (n: nat)
      ensures n == Bytes(q)
    {
      n := 0;
      var i := 0;
      while i < |q|
        invariant i <= |q| && n + Bytes(q[i..]) == Bytes(q)
      {
        n := n + q[i].size;
        i := i + 1;
      }
    }

    /** `PacketQueue::remove`: takes out the given packet, wherever it is. */
    method Remove(p: Pkt, ghost k: nat)
      requires Valid() && k < |q| && q[k] == p
      modifies `q
      ensures q == old(q)[..k] + old(q)[k + 1..] && Valid()
    {
      var i := 0;
      while q[i] != p
        invariant i <= k
        decreases k - i
      {
        i := i + 1;
      }
      q := q[..i] + q[i + 1..];
    }

    method Deque() returns (p: seq<Pkt>)
      modifies `q
      ensures if old(q) == [] then p == [] && q == [] else p == [old(q)[0]] && q == old(q)[1..]
    {
      if q == [] {
        p := [];
      } else {
        p := [q[0]];
        q := q[1..];
      }
    }

    method Enque(p: Pkt)
      requires Valid() && p !in q
      modifies `q, `dropped
      ensures Valid() && View() == Enqueued(c, old(View()), p)
    {
      var bytes := ByteLength();
      if (!c.inBytes && |q| + 1 >= qlim) || (c.inBytes && bytes + p.size >= qlim * c.meanSize) {
        if c.dropFront {
          q := q + [p];
          var pp := Deque();
          dropped := dropped + pp;
        } else {
          dropped := dropped + [p];
        }
      } else {
        q := q + [p];
      }
    }

    /** The end of both ways of receiving. */
    method SendIfIdle()
      requires Valid()
      modifies `q, `blocked, `delivered
      ensures Valid() && View() == SentIfIdle(old(View()))
    {
      if !blocked {
        var p := Deque();
        if p != [] {
          blocked := true;
          delivered := delivered + p;
        }
      }
    }

    /** The first half of recvHighPriority. */
    method PushFront(p: Pkt)
      requires Valid() && p !in q
      modifies `q, `dropped
      ensures Valid() && View() == PushedFront(old(View()), p)
    {
      q := [p] + q;
      if |q| >= qlim {
        var toDrop := q[|q| - 1];
        ghost var all := q;
        Remove(toDrop, |q| - 1);
        assert q == all[..|all| - 1];
        dropped := dropped + [toDrop];
      }
    }

    method RecvHighPriority(p: Pkt)
      requires Valid() && p !in q
      modifies `q, `dropped, `blocked, `delivered
      ensures Valid() && View() == SentIfIdle(PushedFront(old(View()), p))
    {
      PushFront(p);
      SendIfIdle();
    }

    method Recv(p: Pkt)
      requires Valid() && p !in q
      modifies `q, `dropped, `blocked, `delivered, `arrivals
      ensures Valid() && View() == Received(c, old(View()), p)
    {
      arrivals := arrivals + [p];
      var high := false;
      if c.prefer {
        match p.ptype {
          case DSR | MESSAGE | TORA | AODV | AOMDV | MDART => high := true;
          case ANT => high := p.up;
          case OTHER =>
        }
      }
      hide Valid, PushedFront, Enqueued, SentIfIdle;
      if high {
        RecvHighPriority(p);
      } else {
        Enque(p);
        SendIfIdle();
      }
    }

    /** The body of the loop of filter: the i-th packet is kept or taken out. */
    method FilterOne(filter: Pkt -> bool, i: nat) returns (kept: bool)
      requires Valid() && i < |q|
      modifies `q, `filtered
      ensures Valid() && kept == !filter(old(q)[i])
      ensures kept ==> q == old(q) && filtered == old(filtered)
      ensures !kept ==> q == old(q)[..i] + old(q)[i + 1..] && filtered == old(filtered) + [old(q)[i]]
    {
      var p := q[i];
      kept := !filter(p);
      if filter(p) {
        Remove(p, i);
        filtered := filtered + [p];
      }
    }

    /** Removes every packet the filter picks, in place. */
    method Filter(filter: Pkt -> bool)
      requires Valid()
      modifies `q, `filtered
      ensures Valid() && q == Select(old(q), Failing(filter)) && filtered == old(filtered) + Select(old(q), filter)
      ensures View() == FilteredBy(old(View()), filter)
    {
      ghost var front, rest := [], q;
      var i := 0;
      while i < |q|
        invariant Valid() && i == |front| && q == front + rest
        invariant front + Select(rest, Failing(filter)) == Select(old(q), Failing(filter))
        invariant filtered + Select(rest, filter) == old(filtered) + Select(old(q), filter)
        decreases |q| - i
      {
        assert rest[0] == q[i];
        SelectStep(filtered, rest, filter);
        SelectStep(front, rest, Failing(filter));
        SplitOff(front, rest);
        assert Failing(filter)(rest[0]) == !filter(rest[0]);
        hide *;
        var kept := FilterOne(filter, i);
        if kept {
          front := front + [rest[0]];
          i := i + 1;
        }
        rest := rest[1..];
      }
      assert rest == [] && q == front;
    }

    /** Removes and returns the first packet for a next hop. */
    method FilterForHop(id: int) returns (out: seq<Pkt>)
      requires Valid()
      modifies `q, `filtered
      ensures Valid() && View() == FilteredHop(old(View()), id)
      ensures out == if FirstFor(old(q), id) < |old(q)| then [old(q)[FirstFor(old(q), id)]] else []
    {
      var i := 0;
      while i < |q| && q[i].nextHop != id
        invariant i <= FirstFor(q, id)
      {
        i := i + 1;
      }
      if i < |q| {
        out := [q[i]];
        Remove(q[i], i);
        filtered := filtered + out;
      } else {
        out := [];
      }
    }

    /** The body of the loop of shrink_queue. */
    method DropOnePacket()
      requires Valid() && q != []
      modifies `q, `dropped
      ensures Valid() && View() == DropOne(c, old(View()))
    {
      if c.dropFront {
        var pp := Deque();
        dropped := dropped + pp;
      } else {
        var pp := q[|q| - 1];
        ghost var all := q;
        Remove(pp, |q| - 1);
        assert q == all[..|all| - 1];
        dropped := dropped + [pp];
      }
    }

    method ShrinkQueue()
      requires Valid() && qlim >= 0
      modifies `q, `dropped
      ensures Valid() && View() == Shrunk(c, old(View()))
    {
      var bytes := ByteLength();
      while (!c.inBytes && |q| > qlim) || (c.inBytes && bytes > qlim * c.meanSize)
        invariant Valid() && bytes == Bytes(q) && Shrunk(c, View()) == Shrunk(c, old(View()))
        decreases |q|
      {
        DropOnePacket();
        bytes := ByteLength();
      }
    }

    method Terminate()
      modifies `q, `dropped
      ensures View() == Terminated(old(View()))
    {
      var p := Deque();
      while p != []
        invariant dropped + p + q == old(dropped) + old(q) && (p == [] ==> q == [])
        decreases |q|, |p|
      {
        dropped := dropped + p;
        p := Deque();
      }
    }
  }
}

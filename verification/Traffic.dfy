/** The local traffic model: `update_traffic` and `get_win_size`. The protocol defines them but never calls them. */
module Traffic {
  import opened AntTypes
  import opened AntHandlers
  import opened Pheromones
  import opened RealArith

  const VARSIGMA := 0.005
  const C1 := 0.7
  const C2 := 0.3
  const ZEE := 1.7

  datatype Stat = Stat(mean: real, variance: real, best: real)

  /** One trip time to one destination, as an ant reports it. */
  datatype Sample = Sample(dest: int, tt: real)

  type Window = map<int, seq<real>>

  function MinOf(xs: seq<real>): (m: real)
    requires xs != []
    ensures m in xs && forall i :: 0 <= i < |xs| ==> m <= xs[i]
  {
    var n := |xs| - 1;
    if n == 0 then xs[0] else var m := MinOf(xs[..n]); if xs[n] < m then xs[n] else m
  }

  function MaxOf(xs: seq<real>): (m: real)
    requires xs != []
    ensures m in xs && forall i :: 0 <= i < |xs| ==> xs[i] <= m
  {
    var n := |xs| - 1;
    if n == 0 then xs[0] else var m := MaxOf(xs[..n]); if xs[n] > m then xs[n] else m
  }

  /** What an ant's memory reports from position i on, seen from a node it reached at time `initialtt`. */
  function Samples(mem: seq<Memory>, i: nat, initialtt: real): (ss: seq<Sample>)
    requires i <= |mem|
    ensures |ss| == |mem| - i
  {
    seq(|mem| - i, k requires 0 <= k < |mem| - i => Sample(mem[i + k].nodeAddr, mem[i + k].tripTime - initialtt))
  }

  function Pushed(w: Window, s: Sample): Window { w[s.dest := (if s.dest in w then w[s.dest] else []) + [s.tt]] }

  function PushAll(w: Window, ss: seq<Sample>): Window {
    if ss == [] then w else Pushed(PushAll(w, ss[..|ss| - 1]), ss[|ss| - 1])
  }

  function NewMean(m: real, tt: real): real { m + VARSIGMA * (tt - m) }

  /** The new variance from the old one and the deviation of the sample: the old variance enters squared. */
  function NewVariance(v: real, e: real): real { Times(v, v) + VARSIGMA * (Times(e, e) - Times(v, v)) }

  /** The statistics of one destination after one sample, its window being xs. */
  function Refreshed(st: map<int, Stat>, s: Sample, xs: seq<real>): Stat
    requires xs != []
  {
    if s.dest in st then
      var m, v := st[s.dest].mean, st[s.dest].variance;
      Stat(NewMean(m, s.tt), NewVariance(v, s.tt - m), MinOf(xs))
    else Stat(s.tt, s.tt, MinOf(xs))
  }

  predicate Covers(w: Window, ss: seq<Sample>) {
    forall i :: 0 <= i < |ss| ==> ss[i].dest in w && ss[i].tt in w[ss[i].dest]
  }

  function UpdateAll(st: map<int, Stat>, w: Window, ss: seq<Sample>): map<int, Stat>
    requires Covers(w, ss)
  {
    if ss == [] then st
    else
      var s := ss[|ss| - 1];
      var st' := UpdateAll(st, w, ss[..|ss| - 1]);
      st'[s.dest := Refreshed(st', s, w[s.dest])]
  }

  /** A square root on the non-negative reals. */
  ghost predicate IsSqrt(sqrt: real -> real) {
    forall x :: x >= 0.0 ==> sqrt(x) >= 0.0 && sqrt(x) * sqrt(x) == x
  }

  function ISup(st: Stat, count: nat, sqrt: real -> real): real
    requires sqrt(count as real) != 0.0
  {
    st.mean + ZEE * (sqrt(st.variance) / sqrt(count as real))
  }

  /** The branch that sets r to zero. */
  predicate Degenerate(sup: real, best: real, tt: real) { sup == best && best == tt }

  /** No division of the other branch is by zero. */
  predicate Divides(sup: real, best: real, tt: real) { tt != 0.0 && (sup - best) + (tt - best) != 0.0 }

  function Factor(sup: real, best: real, tt: real): real
    requires Degenerate(sup, best, tt) || Divides(sup, best, tt)
  {
    if Degenerate(sup, best, tt) then 0.0
    else C1 * (best / tt) + C2 * ((sup - best) / ((sup - best) + (tt - best)))
  }

  // ---------------------------------------------------------------- the invariant

  predicate AllPositive(xs: seq<real>) { forall x :: x in xs ==> x > 0.0 }

  /** The mean lies among the samples and the variance is positive. */
  predicate StatBounded(st: Stat, xs: seq<real>) {
    xs != [] && AllPositive(xs) && MinOf(xs) <= st.mean <= MaxOf(xs) && st.variance > 0.0
  }

  predicate StatOK(st: Stat, xs: seq<real>) { StatBounded(st, xs) && st.best == MinOf(xs) }

  predicate ModelOK(w: Window, st: map<int, Stat>) {
    w.Keys == st.Keys && forall d :: d in st ==> d in w && StatOK(st[d], w[d])
  }

  predicate PositiveSamples(ss: seq<Sample>) { forall i :: 0 <= i < |ss| ==> ss[i].tt > 0.0 }

  predicate Mentions(ss: seq<Sample>, d: int) { exists i :: 0 <= i < |ss| && ss[i].dest == d }

  /** The samples for one destination, in order. */
  function SamplesFor(ss: seq<Sample>, d: int): seq<real> {
    if ss == [] then []
    else SamplesFor(ss[..|ss| - 1], d) + if ss[|ss| - 1].dest == d then [ss[|ss| - 1].tt] else []
  }

  /** A window holds its old samples and then the new ones for its destination. */
  lemma {:induction false} PushAllContents(w: Window, ss: seq<Sample>, d: int)
    ensures d in PushAll(w, ss) <==> d in w || SamplesFor(ss, d) != []
    ensures d in PushAll(w, ss) ==> PushAll(w, ss)[d] == (if d in w then w[d] else []) + SamplesFor(ss, d)
  {
    if ss != [] {
      PushAllContents(w, ss[..|ss| - 1], d);
    }
  }

  lemma {:induction false} SamplesForContents(ss: seq<Sample>, d: int)
    ensures PositiveSamples(ss) ==> AllPositive(SamplesFor(ss, d))
    ensures SamplesFor(ss, d) != [] <==> Mentions(ss, d)
    ensures forall i :: 0 <= i < |ss| && ss[i].dest == d ==> ss[i].tt in SamplesFor(ss, d)
  {
    if ss != [] {
      var rest := ss[..|ss| - 1];
      SamplesForContents(rest, d);
      MentionsLast(ss, d);
    }
  }

  lemma {:induction false} PushedCovers(w: Window, ss: seq<Sample>)
    ensures Covers(PushAll(w, ss), ss)
  {
    forall i | 0 <= i < |ss| ensures ss[i].dest in PushAll(w, ss) && ss[i].tt in PushAll(w, ss)[ss[i].dest] {
      PushAllContents(w, ss, ss[i].dest);
      SamplesForContents(ss, ss[i].dest);
    }
  }

  lemma {:induction false} MoreSamples(st: Stat, xs: seq<real>, ys: seq<real>)
    requires StatBounded(st, xs) && AllPositive(ys)
    ensures StatBounded(st, xs + ys)
  {
    assert MinOf(xs) in xs + ys && MaxOf(xs) in xs + ys;
  }

  lemma {:induction false} VarianceStaysPositive(v: real, e: real)
    requires v > 0.0
    ensures NewVariance(v, e) > 0.0
  {
    TimesOrder(v, 0.0, v);
    SquareNonNegative(e);
  }

  /** Because the old variance enters squared, samples that never deviate from the mean still make it grow, exactly when
      it is above 1/(1-VARSIGMA). */
  lemma {:induction false} VarianceGrowsWithoutDeviation(v: real)
    requires v > 0.0
    ensures NewVariance(v, 0.0) > v <==> (1.0 - VARSIGMA) * v > 1.0
  {
    var x := (1.0 - VARSIGMA) * v;
    TimesOrder(v, x, 1.0);
    TimesOrder(v, 1.0, x);
    assert Times(0.0, 0.0) == 0.0;
    assert Times(v, x) == NewVariance(v, 0.0);
  }

  lemma {:induction false} SquareNonNegative(e: real)
    ensures Times(e, e) >= 0.0
  {
  }

  lemma {:induction false} RefreshedOK(st: map<int, Stat>, s: Sample, xs: seq<real>)
    requires s.tt in xs && AllPositive(xs)
    requires s.dest in st ==> StatBounded(st[s.dest], xs)
    ensures StatOK(Refreshed(st, s, xs), xs)
  {
    hide NewVariance;
    if s.dest in st {
      VarianceStaysPositive(st[s.dest].variance, s.tt - st[s.dest].mean);
    }
  }

  /** Progress of the second loop: destinations updated so far are right, the others still bounded. */
  lemma {:induction false} UpdateAllOK(st: map<int, Stat>, w: Window, ss: seq<Sample>, d: int)
    requires Covers(w, ss)
    requires forall d :: d in st ==> d in w && StatBounded(st[d], w[d])
    requires forall d :: d in w ==> AllPositive(w[d])
    ensures d in UpdateAll(st, w, ss) <==> d in st || Mentions(ss, d)
    ensures d in UpdateAll(st, w, ss) ==> d in w && StatBounded(UpdateAll(st, w, ss)[d], w[d])
    ensures Mentions(ss, d) ==> StatOK(UpdateAll(st, w, ss)[d], w[d])
    ensures d in st && !Mentions(ss, d) ==> UpdateAll(st, w, ss)[d] == st[d]
  {
    if ss != [] {
      var rest, s := ss[..|ss| - 1], ss[|ss| - 1];
      UpdateAllOK(st, w, rest, d);
      UpdateAllOK(st, w, rest, s.dest);
      RefreshedOK(UpdateAll(st, w, rest), s, w[s.dest]);
      MentionsLast(ss, d);
    }
  }

  lemma {:induction false} MentionsLast(ss: seq<Sample>, d: int)
    requires ss != []
    ensures Mentions(ss, d) <==> Mentions(ss[..|ss| - 1], d) || ss[|ss| - 1].dest == d
  {
    var rest := ss[..|ss| - 1];
    if i :| 0 <= i < |rest| && rest[i].dest == d { assert ss[i].dest == d; }
    if i :| 0 <= i < |ss| && ss[i].dest == d { assert i == |ss| - 1 || rest[i].dest == d; }
  }

  /** One report keeps the model right, whatever it contains. */
  lemma {:induction false} ReportKeepsModel(w: Window, st: map<int, Stat>, ss: seq<Sample>)
    requires ModelOK(w, st) && PositiveSamples(ss)
    ensures Covers(PushAll(w, ss), ss) && ModelOK(PushAll(w, ss), UpdateAll(st, PushAll(w, ss), ss))
  {
    PushedCovers(w, ss);
    var w' := PushAll(w, ss);
    forall d | d in w' ensures AllPositive(w'[d]) && (d in st ==> StatBounded(st[d], w'[d])) {
      PushAllContents(w, ss, d);
      SamplesForContents(ss, d);
      if d in st { MoreSamples(st[d], w[d], SamplesFor(ss, d)); }
    }
    forall d | d in st ensures d in w' { PushAllContents(w, ss, d); }
    var st' := UpdateAll(st, w', ss);
    forall d ensures (d in st' <==> d in w') && (d in st' ==> StatOK(st'[d], w'[d])) {
      UpdateAllOK(st, w', ss, d);
      PushAllContents(w, ss, d);
      SamplesForContents(ss, d);
      if d in st && !Mentions(ss, d) { assert w'[d] == w[d]; }
    }
  }

  // ---------------------------------------------------------------- the reinforcement factor

  lemma {:induction false} SqrtPositive(sqrt: real -> real, x: real)
    requires IsSqrt(sqrt) && x > 0.0
    ensures sqrt(x) > 0.0
  {
  }

  lemma {:induction false} ISupAboveMean(st: Stat, count: nat, sqrt: real -> real)
    requires IsSqrt(sqrt) && st.variance > 0.0 && count > 0
    ensures sqrt(count as real) > 0.0 && ISup(st, count, sqrt) > st.mean
  {
    SqrtPositive(sqrt, st.variance);
    SqrtPositive(sqrt, count as real);
    assert sqrt(st.variance) / sqrt(count as real) > 0.0;
  }

  lemma {:induction false} Fraction(a: real, b: real)
    requires a > 0.0 && b >= 0.0
    ensures 0.0 < a / (a + b) <= 1.0 && (a / (a + b) == 1.0 <==> b == 0.0)
  {
    var q := a / (a + b);
    assert q * (a + b) == a;
  }

  /** With the upper limit above the best time and the sample not below it, r is in (0,1], and it is one exactly when
      the sample is the best there is. */
  lemma {:induction false} FactorRange(sup: real, best: real, tt: real)
    requires sup > best > 0.0 && tt >= best
    ensures !Degenerate(sup, best, tt) && Divides(sup, best, tt)
    ensures 0.0 < Factor(sup, best, tt) <= 1.0
    ensures Factor(sup, best, tt) == 1.0 <==> tt == best
  {
    Fraction(best, tt - best);
    Fraction(sup - best, tt - best);
  }

  /** For a model that is right, after any history, the factor computed for a sample of a window is defined, in (0,1],
      and one exactly for a best sample: the branch for equal limits is never taken. */
  lemma {:induction false} ReinforcementBound(st: Stat, xs: seq<real>, tt: real, sqrt: real -> real)
    requires StatOK(st, xs) && tt in xs && IsSqrt(sqrt)
    ensures sqrt(|xs| as real) > 0.0
    ensures var sup := ISup(st, |xs|, sqrt);
            && !Degenerate(sup, st.best, tt) && Divides(sup, st.best, tt)
            && 0.0 < Factor(sup, st.best, tt) <= 1.0
            && (Factor(sup, st.best, tt) == 1.0 <==> tt == MinOf(xs))
  {
    ISupAboveMean(st, |xs|, sqrt);
    FactorRange(ISup(st, |xs|, sqrt), st.best, tt);
  }

  /** Were the factor used by the routing table, a best sample would wipe out every other neighbour of the row. */
  lemma {:induction false} BestSampleCollapsesRow(
      st: Stat, xs: seq<real>, tt: real, sqrt: real -> real, row: Row, next: int, k: nat)
    requires StatOK(st, xs) && tt in xs && IsSqrt(sqrt) && sqrt(|xs| as real) != 0.0 && k < |row|
    requires tt == MinOf(xs)
    ensures Divides(ISup(st, |xs|, sqrt), st.best, tt)
    ensures Reinforced(row, next, Factor(ISup(st, |xs|, sqrt), st.best, tt))[k].phvalue
            == if row[k].neighbor == next then 1.0 else 0.0
  {
    ReinforcementBound(st, xs, tt, sqrt);
    var f := Factor(ISup(st, |xs|, sqrt), st.best, tt);
    hide Factor, ISup, IsSqrt, StatOK;
    assert f == 1.0;
  }

  // ---------------------------------------------------------------- histories

  function Flatten(reports: seq<seq<Sample>>): seq<Sample> {
    if reports == [] then [] else Flatten(reports[..|reports| - 1]) + reports[|reports| - 1]
  }

  /** Windows and statistics after a history of reports. */
  function After(reports: seq<seq<Sample>>): (m: (Window, map<int, Stat>)) {
    if reports == [] then (map[], map[])
    else
      var (w, st) := After(reports[..|reports| - 1]);
      var ss := reports[|reports| - 1];
      var w' := PushAll(w, ss);
      PushedCovers(w, ss);
      (w', UpdateAll(st, w', ss))
  }

  lemma {:induction false} SamplesForAppend(a: seq<Sample>, b: seq<Sample>, d: int)
    ensures SamplesFor(a + b, d) == SamplesFor(a, d) + SamplesFor(b, d)
  {
    if b == [] {
      assert a + b == a;
    } else {
      SamplesForAppend(a, b[..|b| - 1], d);
      assert (a + b)[..|a + b| - 1] == a + b[..|b| - 1];
    }
  }

  /** After any history of reports the statistics of a destination are about all its samples: best is their minimum, the
      mean lies between their minimum and maximum, and the variance is positive. */
  lemma {:induction false} HistoryBound(reports: seq<seq<Sample>>, d: int)
    requires forall i :: 0 <= i < |reports| ==> PositiveSamples(reports[i])
    ensures ModelOK(After(reports).0, After(reports).1)
    ensures var all, st := SamplesFor(Flatten(reports), d), After(reports).1;
            && (d in st <==> all != [])
            && (all != [] ==>
                  st[d].best == MinOf(all) && MinOf(all) <= st[d].mean <= MaxOf(all) && st[d].variance > 0.0)
    ensures d in After(reports).0 ==> After(reports).0[d] == SamplesFor(Flatten(reports), d)
  {
    if reports != [] {
      var n := |reports| - 1;
      HistoryBound(reports[..n], d);
      var (w, st) := After(reports[..n]);
      ReportKeepsModel(w, st, reports[n]);
      PushAllContents(w, reports[n], d);
      SamplesForAppend(Flatten(reports[..n]), reports[n], d);
    }
  }

  /** The first report of a destination, whatever the trip time, gives exactly one. */
  lemma {:induction false} FirstReportGivesOne(
      w: Window, st: map<int, Stat>, ss: seq<Sample>, d: int, tt: real, sqrt: real -> real)
    requires ModelOK(w, st) && PositiveSamples(ss) && IsSqrt(sqrt)
    requires d !in w && SamplesFor(ss, d) == [tt]
    ensures Covers(PushAll(w, ss), ss) && d in UpdateAll(st, PushAll(w, ss), ss) && sqrt(1.0) > 0.0
    ensures var now := UpdateAll(st, PushAll(w, ss), ss)[d];
            Divides(ISup(now, 1, sqrt), now.best, tt) && Factor(ISup(now, 1, sqrt), now.best, tt) == 1.0
  {
    ReportKeepsModel(w, st, ss);
    PushAllContents(w, ss, d);
    var xs := PushAll(w, ss)[d];
    assert xs == [tt];
    ReinforcementBound(UpdateAll(st, PushAll(w, ss), ss)[d], xs, tt, sqrt);
  }

  /** An ant that went from node 0 to node 1 in two units of time reports one sample at node 0. */
  const TWO_UNITS: seq<Memory> := [Memory(0, 0.0), Memory(1, 2.0)]

  lemma {:induction false} TwoUnitsReport()
    ensures Samples(TWO_UNITS, 1, 0.0) == [Sample(1, 2.0)]
  {
  }

  /** One step of a history of reports. */
  lemma {:induction false} AfterOneMore(reports: seq<seq<Sample>>, s: Sample, w: Window, st: map<int, Stat>)
    requires After(reports) == (w, st)
    ensures After(reports + [[s]]) == (Pushed(w, s), st[s.dest := Refreshed(st, s, Pushed(w, s)[s.dest])])
  {
    assert (reports + [[s]])[..|reports|] == reports;
    assert PushAll(w, []) == w;
    assert PushAll(w, [s]) == Pushed(w, s);
    var w' := Pushed(w, s);
    assert UpdateAll(st, w', []) == st;
    assert [s][..0] == [];
  }

  lemma {:induction false} RefreshedTwos()
    ensures Refreshed(map[], Sample(1, 2.0), [2.0]) == Stat(2.0, 2.0, 2.0)
    ensures Refreshed(map[1 := Stat(2.0, 2.0, 2.0)], Sample(1, 2.0), [2.0, 2.0])
            == Stat(NewMean(2.0, 2.0), NewVariance(2.0, 0.0), 2.0)
  {
    MinOfTwos();
    hide NewMean, NewVariance, MinOf;
  }

  lemma {:induction false} OneReportState()
    ensures After([[Sample(1, 2.0)]]) == (map[1 := [2.0]], map[1 := Stat(2.0, 2.0, 2.0)])
  {
    var s := Sample(1, 2.0);
    PushedTwos();
    RefreshedTwos();
    assert After([]) == (map[], map[]);
    AfterOneMore([], s, map[], map[]);
    assert [] + [[s]] == [[s]];
    hide *;
    var none: map<int, Stat> := map[];
    assert none[1 := Stat(2.0, 2.0, 2.0)] == map[1 := Stat(2.0, 2.0, 2.0)];
  }

  /** The samples and statistics of node 1 after two equal reports. */
  lemma {:induction false} TwoReportsState()
    ensures var report := Samples(TWO_UNITS, 1, 0.0);
            && After([report]) == (map[1 := [2.0]], map[1 := Stat(2.0, 2.0, 2.0)])
            && After([report, report])
               == (map[1 := [2.0, 2.0]], map[1 := Stat(NewMean(2.0, 2.0), NewVariance(2.0, 0.0), 2.0)])
  {
    hide *;
    var s, st := Sample(1, 2.0), map[1 := Stat(2.0, 2.0, 2.0)];
    TwoUnitsReport();
    OneReportState();
    PushedTwos();
    RefreshedTwos();
    AfterOneMore([[s]], s, map[1 := [2.0]], st);
    assert [[s]] + [[s]] == [[s], [s]];
    var now := Stat(NewMean(2.0, 2.0), NewVariance(2.0, 0.0), 2.0);
    assert st[1 := now] == map[1 := now];
  }

  lemma {:induction false} PushedTwos()
    ensures Pushed(map[], Sample(1, 2.0)) == map[1 := [2.0]]
    ensures Pushed(map[1 := [2.0]], Sample(1, 2.0)) == map[1 := [2.0, 2.0]]
  {
    assert [] + [2.0] == [2.0] && [2.0] + [2.0] == [2.0, 2.0];
  }

  /** Two ants with exactly that trip time: both times the factor is one, and although no sample deviates from the mean
      the variance rises from the first report to the second. */
  lemma {:induction false} TwoEqualReports(sqrt: real -> real)
    requires IsSqrt(sqrt)
    ensures var report := Samples(TWO_UNITS, 1, 0.0);
            var (w1, st1) := After([report]);
            var (w2, st2) := After([report, report]);
            && w1 == map[1 := [2.0]] && st1 == map[1 := Stat(2.0, 2.0, 2.0)]
            && w2 == map[1 := [2.0, 2.0]] && st2.Keys == {1} && st2[1].mean == 2.0 && st2[1].best == 2.0
            && st2[1].variance > st1[1].variance
            && sqrt(1.0) > 0.0 && sqrt(2.0) > 0.0
            && Divides(ISup(st1[1], 1, sqrt), 2.0, 2.0) && Factor(ISup(st1[1], 1, sqrt), 2.0, 2.0) == 1.0
            && Divides(ISup(st2[1], 2, sqrt), 2.0, 2.0) && Factor(ISup(st2[1], 2, sqrt), 2.0, 2.0) == 1.0
  {
    TwoReportsState();
    VarianceGrowsWithoutDeviation(2.0);
    assert NewMean(2.0, 2.0) == 2.0;
    hide After, NewVariance, NewMean, Samples;
    MinOfTwos();
    ReinforcementBound(Stat(2.0, 2.0, 2.0), [2.0], 2.0, sqrt);
    ReinforcementBound(Stat(2.0, NewVariance(2.0, 0.0), 2.0), [2.0, 2.0], 2.0, sqrt);
  }

  lemma {:induction false} MinOfTwos()
    ensures MinOf([2.0]) == MaxOf([2.0]) == MinOf([2.0, 2.0]) == MaxOf([2.0, 2.0]) == 2.0
  {
    assert MinOf([2.0, 2.0]) in [2.0, 2.0] && MaxOf([2.0, 2.0]) in [2.0, 2.0];
  }

  // ---------------------------------------------------------------- the code

  class TrafficModel {
    const addr: int
    var window: Window
    var state: map<int, Stat>
    var r: real

    ghost predicate Valid()
      reads this
    {
      ModelOK(window, state)
    }

    constructor (addr: int, r: real)
      ensures this.addr == addr && this.r == r && window == map[] && state == map[] && Valid()
    {
      this.addr, this.r, window, state := addr, r, map[], map[];
    }

    method GetWinSize(dest: int) returns (count: nat)
      requires dest in window
      ensures count == |window[dest]|
    {
      var tts := window[dest];
      count := 0;
      while count < |tts|
        invariant count <= |tts|
      {
        count := count + 1;
      }
    }

    /** Smallest entry of the window of `dest`. */
    method BestTripTime(dest: int) returns (mintt: real)
      requires dest in window && window[dest] != []
      ensures mintt == MinOf(window[dest])
    {
      var tts := window[dest];
      mintt := tts[0];
      var i := 0;
      while i < |tts|
        invariant i <= |tts| && mintt in tts && forall k :: 0 <= k < i ==> mintt <= tts[k]
      {
        if tts[i] < mintt { mintt := tts[i]; }
        i := i + 1;
      }
    }

    /** First loop: every sample goes to the window of its destination. */
    method PushSamples(mem: seq<Memory>, i: nat, initialtt: real)
      requires i <= |mem|
      modifies `window
      ensures window == PushAll(old(window), Samples(mem, i, initialtt))
    {
      ghost var ss := Samples(mem, i, initialtt);
      var index := i;
      while index < |mem|
        invariant i <= index <= |mem|
        invariant window == PushAll(old(window), ss[..index - i])
      {
        var dest, tt := mem[index].nodeAddr, mem[index].tripTime - initialtt;
        if dest in window {
          window := window[dest := window[dest] + [tt]];
        } else {
          assert [] + [tt] == [tt];
          window := window[dest := [tt]];
        }
        assert ss[..index + 1 - i][..index - i] == ss[..index - i];
        index := index + 1;
      }
      assert ss[..|ss|] == ss;
    }

    /** The body of the second loop. */
    method RefreshStat(dest: int, tt: real)
      requires dest in window && window[dest] != []
      modifies `state
      ensures state == old(state)[dest := Refreshed(old(state), Sample(dest, tt), window[dest])]
    {
      var mintt := BestTripTime(dest);
      if dest in state {
        var oldtt := state[dest].mean;
        var mean := oldtt + VARSIGMA * (tt - oldtt);
        var oldvar := state[dest].variance;
        var variance := oldvar * oldvar + VARSIGMA * ((tt - oldtt) * (tt - oldtt) - oldvar * oldvar);
        assert mean == NewMean(oldtt, tt) && variance == NewVariance(oldvar, tt - oldtt);
        hide NewMean, NewVariance;
        state := state[dest := Stat(mean, variance, mintt)];
      } else {
        state := state[dest := Stat(tt, tt, mintt)];
      }
    }

    /** Second loop: mean, variance and best of every sample's destination. */
    method RefreshStats(mem: seq<Memory>, i: nat, initialtt: real)
      requires i <= |mem| && Covers(window, Samples(mem, i, initialtt))
      modifies `state
      ensures state == UpdateAll(old(state), window, Samples(mem, i, initialtt))
    {
      hide Refreshed;
      ghost var ss := Samples(mem, i, initialtt);
      var index := i;
      while index < |mem|
        invariant i <= index <= |mem|
        invariant state == UpdateAll(old(state), window, ss[..index - i])
      {
        var dest, tt := mem[index].nodeAddr, mem[index].tripTime - initialtt;
        assert ss[index - i] == Sample(dest, tt);
        RefreshStat(dest, tt);
        assert ss[..index + 1 - i][..index - i] == ss[..index - i];
        index := index + 1;
      }
      assert ss[..|ss|] == ss;
    }

    /** The factor of one sample: neither the division by the window size nor the two others are by zero. */
    method FactorOf(dest: int, tt: real, sqrt: real -> real) returns (f: real)
      requires dest in window && dest in state && StatOK(state[dest], window[dest])
      requires tt in window[dest] && IsSqrt(sqrt)
      ensures sqrt(|window[dest]| as real) > 0.0
      ensures var sup := ISup(state[dest], |window[dest]|, sqrt);
              Divides(sup, state[dest].best, tt) && f == Factor(sup, state[dest].best, tt)
      ensures 0.0 < f <= 1.0 && (f == 1.0 <==> tt == MinOf(window[dest]))
    {
      ReinforcementBound(state[dest], window[dest], tt, sqrt);
      hide StatOK, IsSqrt;
      var wBest := state[dest].best;
      var mu := state[dest].mean;
      var sigma := sqrt(state[dest].variance);
      var w := GetWinSize(dest);
      var iSup := mu + ZEE * (sigma / sqrt(w as real));
      if iSup == wBest && wBest == tt {
        f := 0.0;
      } else {
        f := C1 * (wBest / tt) + C2 * ((iSup - wBest) / ((iSup - wBest) + (tt - wBest)));
      }
    }

    /** Third loop: r is computed for every sample, and the last one stays. */
    method ComputeR(mem: seq<Memory>, i: nat, initialtt: real, sqrt: real -> real)
      requires i < |mem| && Valid() && IsSqrt(sqrt) && Covers(window, Samples(mem, i, initialtt))
      modifies `r
      ensures RIsFor(Samples(mem, i, initialtt)[|mem| - i - 1], sqrt)
    {
      ghost var ss := Samples(mem, i, initialtt);
      var index := i;
      while index < |mem|
        invariant i <= index <= |mem|
        invariant index > i ==> RIsFor(ss[index - i - 1], sqrt)
      {
        var dest, tt := mem[index].nodeAddr, mem[index].tripTime - initialtt;
        assert ss[index - i] == Sample(dest, tt);
        SampleIsCovered(ss, index - i);
        hide *;
        ComputeROnce(dest, tt, sqrt);
        index := index + 1;
      }
    }

    /** r is the factor of a sample under the statistics and the window of its destination: it is defined, in (0,1], and
        one exactly for a best sample. */
    ghost predicate RIsFor(s: Sample, sqrt: real -> real)
      reads this
    {
      && s.dest in window && s.dest in state && window[s.dest] != [] && sqrt(|window[s.dest]| as real) > 0.0
      && var sup, best := ISup(state[s.dest], |window[s.dest]|, sqrt), state[s.dest].best;
      && Divides(sup, best, s.tt) && r == Factor(sup, best, s.tt)
      && 0.0 < r <= 1.0 && (r == 1.0 <==> s.tt == MinOf(window[s.dest]))
    }

    /** The body of the third loop. */
    method ComputeROnce(dest: int, tt: real, sqrt: real -> real)
      requires dest in window && window[dest] != [] && dest in state && StatOK(state[dest], window[dest])
      requires tt in window[dest] && IsSqrt(sqrt)
      modifies `r
      ensures RIsFor(Sample(dest, tt), sqrt)
    {
      hide StatOK, IsSqrt, Factor, ISup, Divides, MinOf;
      r := FactorOf(dest, tt, sqrt);
    }

    lemma {:induction false} SampleIsCovered(ss: seq<Sample>, k: nat)
      requires Valid() && Covers(window, ss) && k < |ss|
      ensures var s := ss[k];
              && s.dest in window && s.dest in state && s.tt in window[s.dest]
              && StatOK(state[s.dest], window[s.dest]) && window[s.dest] != []
    {
    }

    /** The unguarded front search. */
    method FindSelf(mem: seq<Memory>) returns (i: nat)
      requires Find(mem, addr) < |mem|
      ensures i == Find(mem, addr)
    {
      i := 0;
      while mem[i].nodeAddr != addr
        invariant i <= Find(mem, addr)
        decreases |mem| - i
      {
        i := i + 1;
      }
    }

    /** Takes in the trip times of a backward ant from this node to the nodes it visited after it. */
    method UpdateTraffic(mem: seq<Memory>, sqrt: real -> real)
      requires Valid() && IsSqrt(sqrt) && CanUpdate(mem, addr)
      requires forall j :: Find(mem, addr) < j < |mem| ==> mem[j].tripTime > mem[Find(mem, addr)].tripTime
      modifies this
      ensures Valid()
      ensures var i := Find(mem, addr);
              var ss := Samples(mem, i + 1, mem[i].tripTime);
              && window == PushAll(old(window), ss) && Covers(window, ss)
              && state == UpdateAll(old(state), window, ss)
              && RIsFor(ss[|ss| - 1], sqrt)
    {
      var i := FindSelf(mem);
      var initialtt := mem[i].tripTime;
      i := i + 1;
      ReportKeepsModel(window, state, Samples(mem, i, initialtt));
      hide *;
      PushSamples(mem, i, initialtt);
      RefreshStats(mem, i, initialtt);
      ModelIsValid();
      ComputeR(mem, i, initialtt, sqrt);
    }

    lemma {:induction false} ModelIsValid()
      requires ModelOK(window, state)
      ensures Valid()
    {
    }
  }
}

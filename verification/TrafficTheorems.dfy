/** The traffic statistics of a node as functions of all samples it was ever sent, and how its factor moves. */
module TrafficTheorems {
  import opened AntTypes
  import opened LoopErasure
  import opened RealArith
  import opened Traffic

  // ---------------------------------------------------------------- statistics of all samples

  /** The exponential mean of the samples: the first, and then a two-hundredth of each later one. */
  function MeanOf(xs: seq<real>): real
    requires xs != []
  {
    var n := |xs| - 1;
    if n == 0 then xs[0] else 0.995 * MeanOf(xs[..n]) + 0.005 * xs[n]
  }

  /** The variance as the code keeps it: the first sample, and then the squares of itself and of the deviation. */
  function VarianceOf(xs: seq<real>): real
    requires xs != []
  {
    var n := |xs| - 1;
    if n == 0 then xs[0]
    else
      var v, e := VarianceOf(xs[..n]), xs[n] - MeanOf(xs[..n]);
      0.995 * Times(v, v) + 0.005 * Times(e, e)
  }

  /** The statistics are those of the samples. */
  predicate IsOf(st: map<int, Stat>, d: int, xs: seq<real>) {
    && (d in st <==> xs != [])
    && (xs != [] ==> st[d].mean == MeanOf(xs) && st[d].variance == VarianceOf(xs))
  }

  lemma {:induction false} MeanOfMore(xs: seq<real>, x: real)
    ensures MeanOf(xs + [x]) == if xs == [] then x else NewMean(MeanOf(xs), x)
    ensures VarianceOf(xs + [x]) == if xs == [] then x else NewVariance(VarianceOf(xs), x - MeanOf(xs))
  {
    assert (xs + [x])[..|xs|] == xs;
    hide Times;
  }

  lemma {:induction false} RefreshedIsOf(st: map<int, Stat>, s: Sample, xs: seq<real>, w: seq<real>)
    requires IsOf(st, s.dest, xs) && w != []
    ensures IsOf(st[s.dest := Refreshed(st, s, w)], s.dest, xs + [s.tt])
  {
    MeanOfMore(xs, s.tt);
    hide MeanOf, VarianceOf, NewMean, NewVariance;
  }

  lemma {:induction false} UpdateAllIsOf(st: map<int, Stat>, w: Window, ss: seq<Sample>, d: int, xs: seq<real>)
    requires Covers(w, ss) && IsOf(st, d, xs)
    ensures IsOf(UpdateAll(st, w, ss), d, xs + SamplesFor(ss, d))
  {
    if ss == [] {
      assert xs + [] == xs;
    } else {
      var rest, s := ss[..|ss| - 1], ss[|ss| - 1];
      UpdateAllIsOf(st, w, rest, d, xs);
      hide MeanOf, VarianceOf, Refreshed;
      if s.dest == d {
        RefreshedIsOf(UpdateAll(st, w, rest), s, xs + SamplesFor(rest, d), w[d]);
        assert xs + SamplesFor(ss, d) == xs + SamplesFor(rest, d) + [s.tt];
      } else {
        assert SamplesFor(ss, d) == SamplesFor(rest, d);
      }
    }
  }

  /** After any history of reports, mean and variance of a destination are those of all its samples in their order,
      however they were spread over the reports. */
  lemma {:induction false} StatisticsAreOfAllSamples(reports: seq<seq<Sample>>, d: int)
    ensures IsOf(After(reports).1, d, SamplesFor(Flatten(reports), d))
  {
    if reports != [] {
      var n := |reports| - 1;
      StatisticsAreOfAllSamples(reports[..n], d);
      var (w, st) := After(reports[..n]);
      PushedCovers(w, reports[n]);
      UpdateAllIsOf(st, PushAll(w, reports[n]), reports[n], d, SamplesFor(Flatten(reports[..n]), d));
      SamplesForAppend(Flatten(reports[..n]), reports[n], d);
      hide IsOf, UpdateAll;
    }
  }

  /** A new sample moves the mean towards it: a two-hundredth of the way. */
  lemma {:induction false} MeanMovesToSample(m: real, tt: real)
    ensures tt - NewMean(m, tt) == 0.995 * (tt - m)
    ensures m < tt ==> m < NewMean(m, tt) < tt
    ensures tt < m ==> tt < NewMean(m, tt) < m
  {
  }

  // ---------------------------------------------------------------- samples of an ant

  /** What an ant reports at the i-th node of its memory about a later node is the time it travelled between the two,
      whatever loops it went through. */
  lemma {:induction false} SamplesAreTravelTimes(mem: seq<Memory>, w: Walk, start: real, i: nat, k: nat)
    requires Tracks(mem, w, start) && i + 1 + k < |mem|
    ensures |Exits(w, 0)| == |mem|
    ensures Samples(mem, i + 1, mem[i].tripTime)[k]
            == Sample(mem[i + 1 + k].nodeAddr, TravelTime(w, Exits(w, 0), i, i + 1 + k))
  {
    TripTimesAreTravelTimes(mem, w, start, i, i + 1 + k);
    hide Tracks, Exits, TravelTime;
  }

  // ---------------------------------------------------------------- the factor

  lemma {:induction false} QuotientTimes(a: real, b: real)
    requires b != 0.0
    ensures (a / b) * b == a
  {
  }

  lemma {:induction false} SquareOfQuotient(a: real, b: real)
    requires b != 0.0
    ensures Times(Times(a / b, a / b), Times(b, b)) == Times(a, a)
  {
    var q := a / b;
    QuotientTimes(a, b);
    assert (q * q) * (b * b) == (q * b) * (q * b);
  }

  lemma {:induction false} ScaledSquare(x: real)
    ensures Times(1.7 * x, 1.7 * x) == 2.89 * Times(x, x)
  {
  }

  /** The upper limit lies above the mean, by 1.7 standard errors: its square times the window size is 2.89 times the
      variance. */
  lemma {:induction false} UpperLimitWidth(st: Stat, count: nat, sqrt: real -> real)
    requires IsSqrt(sqrt) && st.variance > 0.0 && count > 0
    ensures sqrt(count as real) > 0.0 && ISup(st, count, sqrt) > st.mean
    ensures var width := ISup(st, count, sqrt) - st.mean;
            Times(Times(width, width), count as real) == 2.89 * st.variance
  {
    ISupAboveMean(st, count, sqrt);
    var a, b := sqrt(st.variance), sqrt(count as real);
    var width := ISup(st, count, sqrt) - st.mean;
    assert Times(a, a) == st.variance && Times(b, b) == count as real;
    assert width == 1.7 * (a / b);
    ScaledSquare(a / b);
    SquareOfQuotient(a, b);
    hide *;
    TimesScale(2.89, Times(a / b, a / b), count as real);
  }

  lemma {:induction false} TimesScale(k: real, x: real, y: real)
    ensures Times(k * x, y) == k * Times(x, y)
  {
  }

  /** A sample at the upper limit gets seven tenths of the ratio of the best time to it, and half of three tenths. */
  lemma {:induction false} FactorAtUpperLimit(sup: real, best: real)
    requires sup > best > 0.0
    ensures Divides(sup, best, sup) && Factor(sup, best, sup) == 0.7 * (best / sup) + 0.15
  {
    var a := sup - best;
    assert a / (a + a) == 0.5;
  }

  lemma {:induction false} FallingQuotient(a: real, x: real, y: real)
    requires a > 0.0 && 0.0 < x < y
    ensures a / x > a / y
  {
    QuotientTimes(a, x);
    QuotientTimes(a, y);
    if a / x <= a / y { TimesBothWays(a / x, a / y, x, y); }
  }

  lemma {:induction false} TimesBothWays(p: real, q: real, x: real, y: real)
    requires 0.0 < p <= q && 0.0 < x < y
    ensures p * x < q * y
  {
    assert p * x < p * y;
    assert p * y <= q * y;
  }

  /** The slower a sample, the smaller its factor. */
  lemma {:induction false} FactorFalls(sup: real, best: real, tt: real, tt': real)
    requires sup > best > 0.0 && best <= tt < tt'
    ensures Divides(sup, best, tt) && Divides(sup, best, tt')
    ensures Factor(sup, best, tt') < Factor(sup, best, tt)
  {
    var a := sup - best;
    FallingQuotient(best, tt, tt');
    FallingQuotient(a, a + (tt - best), a + (tt' - best));
  }
}

/** The timing and size statistics emitted with a flow, computed from running sums. */
module FlowStatistics {
  import opened SerialNumbers
  import opened TcpConnection

  function InterArrivalTime(s: Stats): real {
    if s.count > 1 then s.interArrivalSum / ((s.count - 1) as real) else 0.0
  }

  function LengthVariance(s: Stats): real
    requires s.count > 0
  {
    var n := s.count as real;
    var mean := s.lengthSum as real / n;
    s.lengthSqSum as real / n - mean * mean
  }

  // ---------------------------------------------------------------- the definitions they stand for

  /** The payload length the IP header reports, whether or not all of it was captured. */
  function Length(p: Packet): real {
    (if p.payload.Captured? then |p.payload.bytes| else p.payload.length) as real
  }

  function SumOfLengths(ps: seq<Packet>): real {
    if ps == [] then 0.0 else SumOfLengths(ps[..|ps| - 1]) + Length(ps[|ps| - 1])
  }

  function Square(d: real): real {
    d * d
  }

  function SumOfSquaredDeviations(ps: seq<Packet>, mean: real): real {
    if ps == [] then 0.0
    else
      SumOfSquaredDeviations(ps[..|ps| - 1], mean) + Square(Length(ps[|ps| - 1]) - mean)
  }

  /** The population variance of the packets' payload lengths, from the deviations themselves. */
  function PopulationVariance(ps: seq<Packet>): real
    requires ps != []
  {
    var n := |ps| as real;
    SumOfSquaredDeviations(ps, SumOfLengths(ps) / n) / n
  }

  // ---------------------------------------------------------------- agreement

  lemma {:induction false} SquareBound(n: nat, bound: nat)
    requires n <= bound
    ensures n * n <= bound * bound
  {
    assert n * n <= bound * n;
    assert bound * n <= bound * bound;
  }

  /** The 32-bit product of a payload length with itself never wraps. */
  lemma SquareFits(n: nat)
    requires n <= MAX_SEGMENT
    ensures Square32(n) == n * n
  {
    SquareBound(n, MAX_SEGMENT);
    var square := n * n;
    assert square < MODULUS;
    assert square % MODULUS == square;
  }

  lemma {:induction false} SquareAsReal(n: nat)
    ensures (n * n) as real == n as real * n as real
  {
    if n > 0 {
      SquareAsReal(n - 1);
      var m := n - 1;
      assert n * n == m * m + 2 * m + 1;
      assert n as real == m as real + 1.0;
      assert n as real * n as real == m as real * m as real + 2.0 * m as real + 1.0;
    }
  }

  lemma StatsOfRun(ps: seq<Packet>)
    requires ps != []
    ensures var n := |ps| - 1;
            Run(FRESH, ps).stats == CountPacket(Run(FRESH, ps[..n]).stats, ps[n].payload.Length(), ps[n].time)
  {
  }

  lemma {:induction false} RunningTotals(ps: seq<Packet>)
    ensures var s := Run(FRESH, ps).stats;
            s.count == |ps| && s.lengthSum as real == SumOfLengths(ps)
  {
    if ps != [] {
      RunningTotals(ps[..|ps| - 1]);
      StatsOfRun(ps);
    }
  }

  lemma DeviationSquare(x: real, mean: real)
    ensures (x - mean) * (x - mean) == x * x - 2.0 * mean * x + mean * mean
  {
  }

  /** Sum of squared deviations from any value, in terms of the running sums. */
  function Expanded(s: Stats, mean: real): real {
    s.lengthSqSum as real - 2.0 * mean * (s.lengthSum as real) + s.count as real * (mean * mean)
  }

  lemma ExpandedStep(s: Stats, length: nat, now: real, mean: real)
    requires length <= MAX_SEGMENT
    ensures Expanded(CountPacket(s, length, now), mean) == Expanded(s, mean) + Square(length as real - mean)
  {
    SquareFits(length);
    SquareAsReal(length);
    hide Square32;
    var x := length as real;
    DeviationSquare(x, mean);
    var t := CountPacket(s, length, now);
    assert t.lengthSqSum as real == s.lengthSqSum as real + x * x;
    assert 2.0 * mean * (t.lengthSum as real) == 2.0 * mean * (s.lengthSum as real) + 2.0 * mean * x;
    assert t.count as real * (mean * mean) == s.count as real * (mean * mean) + mean * mean;
  }

  lemma NothingExpanded(mean: real)
    ensures Expanded(FRESH.stats, mean) == 0.0
  {
  }

  lemma {:induction false} RunningSums(ps: seq<Packet>, mean: real)
    ensures SumOfSquaredDeviations(ps, mean) == Expanded(Run(FRESH, ps).stats, mean)
  {
    if ps == [] {
      NothingExpanded(mean);
    } else {
      var n := |ps| - 1;
      StatsOfRun(ps);
      hide Expanded, CountPacket, Run, Square;
      RunningSums(ps[..n], mean);
      ExpandedStep(Run(FRESH, ps[..n]).stats, ps[n].payload.Length(), ps[n].time, mean);
    }
  }

  lemma SquareNonNegative(d: real)
    ensures Square(d) >= 0.0
  {
  }

  lemma {:induction false} DeviationsNonNegative(ps: seq<Packet>, mean: real)
    ensures SumOfSquaredDeviations(ps, mean) >= 0.0
  {
    if ps != [] {
      DeviationsNonNegative(ps[..|ps| - 1], mean);
      SquareNonNegative(Length(ps[|ps| - 1]) - mean);
    }
  }

  lemma DivideThrough(n: real, s1: real, s2: real, mean: real)
    requires n > 0.0 && mean == s1 / n
    ensures (s2 - 2.0 * mean * s1 + n * (mean * mean)) / n == s2 / n - mean * mean
  {
    assert n * mean == s1;
    assert n * (mean * mean) == (n * mean) * mean;
    assert 2.0 * mean * s1 == 2.0 * (n * (mean * mean));
    DivideDifference(n, s2, mean * mean);
  }

  lemma DivideDifference(n: real, a: real, b: real)
    requires n > 0.0
    ensures (a - n * b) / n == a / n - b
  {
  }

  lemma DivideNonNegative(a: real, n: real)
    requires a >= 0.0 && n > 0.0
    ensures a / n >= 0.0
  {
  }

  /** Over every packet history the variance emitted from the running sums is the population
      variance of the payload lengths; in particular it is never negative. */
  lemma EmittedVarianceIsVariance(ps: seq<Packet>)
    requires ps != []
    ensures Run(FRESH, ps).stats.count > 0
    ensures LengthVariance(Run(FRESH, ps).stats) == PopulationVariance(ps) >= 0.0
  {
    RunningTotals(ps);
    hide Run, Square, Length;
    var s := Run(FRESH, ps).stats;
    var n := |ps| as real;
    var mean := SumOfLengths(ps) / n;
    RunningSums(ps, mean);
    DeviationsNonNegative(ps, mean);
    hide SumOfSquaredDeviations, SumOfLengths;
    DivideThrough(n, s.lengthSum as real, s.lengthSqSum as real, mean);
    DivideNonNegative(SumOfSquaredDeviations(ps, mean), n);
  }

  /** The inter-arrival sum telescopes: the emitted mean gap times the number of gaps is the time
      from the first packet to the last; a lone packet has no gap. */
  lemma {:induction false} InterArrivalTelescopes(ps: seq<Packet>)
    requires ps != []
    ensures var s := Run(FRESH, ps).stats;
            && s.count == |ps|
            && s.lastTime == ps[|ps| - 1].time
            && s.interArrivalSum == ps[|ps| - 1].time - ps[0].time
            && InterArrivalTime(s) * ((|ps| - 1) as real) == ps[|ps| - 1].time - ps[0].time
            && (|ps| == 1 ==> InterArrivalTime(s) == 0.0)
  {
    var n := |ps| - 1;
    StatsOfRun(ps);
    if n > 0 {
      InterArrivalTelescopes(ps[..n]);
      hide Run;
      DivideAndMultiply(Run(FRESH, ps).stats.interArrivalSum, n as real);
    } else {
      assert ps[..0] == [];
      assert Run(FRESH, []) == FRESH;
    }
  }

  lemma DivideAndMultiply(a: real, n: real)
    requires n > 0.0
    ensures a / n * n == a
  {
  }
}

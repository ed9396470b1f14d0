/** The modified moving average of a server's latency (src/dns/server.cpp:332-339). */
module Latency {
  /** `stats.Latency` and `stats.MMA`. */
  datatype Average = Average(latency: int, sum: int)

  const START := Average(0, 0)

  /** Division of C++: toward zero. */
  function Quotient(x: int): int {
    if x >= 0 then x / 128 else -((-x) / 128)
  }

  function Next(a: Average, sample: int): Average {
    var sum := if a.latency == 0 then sample * 128 else a.sum + sample - a.latency;
    Average(Quotient(sum), sum)
  }

  function Run(samples: seq<int>): Average {
    if samples == [] then START else Next(Run(samples[..|samples| - 1]), samples[|samples| - 1])
  }

  /** The accumulator of an average between `lo` and `hi`: the remainder that division drops
      has the sign of the accumulator. */
  predicate Between(a: Average, lo: int, hi: int) {
    && lo <= a.latency <= hi
    && a.latency == Quotient(a.sum)
    && 128 * lo - (if lo < 0 then 127 else 0) <= a.sum <= 128 * hi + (if hi > 0 then 127 else 0)
  }

  lemma {:induction false} NextBetween(a: Average, sample: int, lo: int, hi: int)
    requires Between(a, lo, hi) && lo <= sample <= hi
    ensures Between(Next(a, sample), lo, hi)
  {
    var rest := a.sum - 128 * a.latency;
    assert if a.sum >= 0 then 0 <= rest < 128 else -128 < rest <= 0;
    assert a.latency != 0 ==> Next(a, sample).sum == 127 * a.latency + rest + sample;
  }

  /** The first sample is the average. Any later one adds its distance from the average to the
      accumulator, and the average is a 128th of that, truncated. */
  lemma {:induction false} NextLaw(a: Average, sample: int)
    ensures var n := Next(a, sample);
            && (a.latency == 0 ==> n.sum == 128 * sample && n.latency == sample)
            && (a.latency != 0 ==> n.sum - a.sum == sample - a.latency)
            && (n.sum >= 0 ==> 0 <= n.sum - 128 * n.latency < 128)
            && (n.sum <= 0 ==> 0 <= 128 * n.latency - n.sum < 128)
  {
  }

  /** So one sample moves the average toward it, by a 128th of the distance rounded up at most. */
  lemma {:induction false} OneSampleMoves(a: Average, sample: int)
    requires a.latency == Quotient(a.sum) && a.latency != 0
    ensures var n := Next(a, sample);
            && (sample >= a.latency ==> a.latency <= n.latency && 128 * (n.latency - a.latency) <= sample - a.latency + 127)
            && (sample <= a.latency ==> n.latency <= a.latency && 128 * (a.latency - n.latency) <= a.latency - sample + 127)
  {
    hide Next;
    NextLaw(a, sample);
    var rest := a.sum - 128 * a.latency;
    assert if a.latency > 0 then 0 <= rest < 128 else -128 < rest <= 0;
  }

  /** For every sequence of samples, of either sign, the average lies between the bounds of
      the samples, and the accumulator within 128 times those bounds and a remainder. */
  lemma {:induction false} RunBetween(samples: seq<int>, lo: int, hi: int)
    requires samples != [] && forall k :: 0 <= k < |samples| ==> lo <= samples[k] <= hi
    ensures Between(Run(samples), lo, hi)
    decreases |samples|
  {
    var n := |samples| - 1;
    assert lo <= samples[n] <= hi;
    if n > 0 {
      RunBetween(samples[..n], lo, hi);
      NextBetween(Run(samples[..n]), samples[n], lo, hi);
    } else {
      assert Run(samples[..0]) == START;
    }
  }

  /** With no negative sample the accumulator stays in [128 lo, 128 hi + 127]. */
  lemma {:induction false} NonNegativeRun(samples: seq<int>, lo: nat, hi: nat)
    requires samples != [] && forall k :: 0 <= k < |samples| ==> lo <= samples[k] <= hi
    ensures lo <= Run(samples).latency <= hi
    ensures 128 * lo <= Run(samples).sum <= 128 * hi + 127
  {
    RunBetween(samples, lo, hi);
  }
}

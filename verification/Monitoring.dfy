// Monitoring rounds drain a node that stays unreachable and take it back.
module Monitoring {
  import opened Options

  const HEALTHY_SCORE := 80
  const AUTO_PAUSE_AFTER: nat := 4

  type Target = string
  type NodeId = string
  type Time = int

  datatype Probe = Probe(target: Target, attempts: int, successes: int, latency: real, checkedAt: Time)

  predicate IsValid(p: Probe) {
    && p.target != "" && 1 <= p.attempts <= 10 && 0 <= p.successes <= p.attempts && 0.0 <= p.latency <= 60000.0
    && (p.successes == 0 <==> p.latency == 0.0)
  }

  // ---------- the score of a round ----------

  function Attempts(probes: seq<Probe>, n: nat): int
    requires n <= |probes|
  {
    if n == 0 then 0 else Attempts(probes, n - 1) + probes[n - 1].attempts
  }

  function Successes(probes: seq<Probe>, n: nat): int
    requires n <= |probes|
  {
    if n == 0 then 0 else Successes(probes, n - 1) + probes[n - 1].successes
  }

  function Weighted(probes: seq<Probe>, n: nat): real
    requires n <= |probes|
  {
    if n == 0 then 0.0 else Weighted(probes, n - 1) + probes[n - 1].latency * probes[n - 1].successes as real
  }

  function LatencyScore(average: real): (s: real)
    requires average >= 0.0
    ensures 0.0 <= s <= 100.0
  {
    if average <= 100.0 then 100.0
    else if average >= 1000.0 then 0.0
    else 100.0 - (average - 100.0) / 9.0
  }

  function Rounded(x: real): int {
    (x + 0.5).Floor
  }

  function ScoreOf(attempts: int, successes: int, weighted: real): int
    requires attempts > 0 && 0 <= successes && weighted >= 0.0
  {
    var rate := 100.0 * successes as real / attempts as real;
    Rounded(rate * 0.7 + (if successes > 0 then LatencyScore(Average(weighted, successes)) else 0.0) * 0.3)
  }

  function Average(weighted: real, successes: int): (a: real)
    requires successes > 0 && weighted >= 0.0
    ensures a >= 0.0
  {
    QuotientBound(weighted, successes as real, 0.0);
    weighted / successes as real
  }

  lemma QuotientBound(a: real, b: real, low: real)
    requires b > 0.0 && a >= low * b
    ensures a / b >= low
  {
    assert b * (a / b) == a;
    if a / b < low {
      ProductGrows(b, a / b, low);
    }
  }

  lemma ProductGrows(b: real, x: real, y: real)
    requires b > 0.0 && x < y
    ensures b * x < b * y
  {
    assert b * (y - x) > 0.0;
  }

  lemma ProductIsNonNegative(x: real, y: real)
    requires x >= 0.0 && y >= 0.0
    ensures x * y >= 0.0
  {
  }

  lemma {:induction false} TotalsAreValid(probes: seq<Probe>, n: nat)
    requires n <= |probes| && AllValid(probes)
    ensures Attempts(probes, n) >= n && 0 <= Successes(probes, n) <= Attempts(probes, n) && Weighted(probes, n) >= 0.0
  {
    if n > 0 {
      TotalsAreValid(probes, n - 1);
      assert IsValid(probes[n - 1]);
      ProductIsNonNegative(probes[n - 1].latency, probes[n - 1].successes as real);
    }
  }

  // A round is scored from 0 to 100; with at most 70 of 100 attempts
  // successful it is abnormal however fast they were.
  lemma ScoreBounds(attempts: int, successes: int, weighted: real)
    requires attempts > 0 && 0 <= successes <= attempts && weighted >= 0.0
    ensures 0 <= ScoreOf(attempts, successes, weighted) <= 100
    ensures 100 * successes <= 70 * attempts ==> ScoreOf(attempts, successes, weighted) < HEALTHY_SCORE
  {
    var rate := 100.0 * successes as real / attempts as real;
    QuotientBound(100.0 * successes as real, attempts as real, 0.0);
    UpperBound(100.0 * successes as real, attempts as real, 100.0);
    if 100 * successes <= 70 * attempts {
      UpperBound(100.0 * successes as real, attempts as real, 70.0);
    }
  }

  lemma UpperBound(a: real, b: real, high: real)
    requires b > 0.0 && a <= high * b
    ensures a / b <= high
  {
    assert b * (a / b) == a;
    if a / b > high {
      ProductGrows(b, high, a / b);
    }
  }

  // With no failed attempt and 700 ms on average it is healthy.
  lemma FullSuccessIsHealthy(attempts: int, weighted: real)
    requires attempts > 0 && 0.0 <= weighted <= 700.0 * attempts as real
    ensures ScoreOf(attempts, attempts, weighted) >= HEALTHY_SCORE
  {
    UpperBound(weighted, attempts as real, 700.0);
    QuotientBound(100.0 * attempts as real, attempts as real, 100.0);
  }

  predicate AllValid(probes: seq<Probe>) {
    forall i :: 0 <= i < |probes| ==> IsValid(probes[i])
  }

  predicate IsAbnormal(probes: seq<Probe>)
    requires probes != [] && AllValid(probes)
  {
    TotalsAreValid(probes, |probes|);
    ScoreOf(Attempts(probes, |probes|), Successes(probes, |probes|), Weighted(probes, |probes|)) < HEALTHY_SCORE
  }

  predicate IsLatest(time: Time, probes: seq<Probe>) {
    (forall p :: p in probes ==> p.checkedAt <= time) && exists p :: p in probes && p.checkedAt == time
  }

  method ScoreRound(probes: seq<Probe>) returns (score: int, checkedAt: Time)
    requires probes != [] && AllValid(probes)
    ensures score < HEALTHY_SCORE <==> IsAbnormal(probes)
    ensures IsLatest(checkedAt, probes)
  {
    var attempts, successes, weighted := 0, 0, 0.0;
    checkedAt := probes[0].checkedAt;
    for i := 0 to |probes|
      invariant attempts == Attempts(probes, i) && successes == Successes(probes, i) && weighted == Weighted(probes, i)
      invariant forall j :: 0 <= j < i ==> probes[j].checkedAt <= checkedAt
      invariant exists p :: p in probes && p.checkedAt == checkedAt
    {
      var p := probes[i];
      attempts, successes, weighted :=
        attempts + p.attempts, successes + p.successes, weighted + p.latency * p.successes as real;
      if p.checkedAt > checkedAt {
        checkedAt := p.checkedAt;
      }
    }
    TotalsAreValid(probes, |probes|);
    score := ScoreOf(attempts, successes, weighted);
  }
}

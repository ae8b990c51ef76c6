/** The settings of a simulation that the modelled code reads (config/config.go). */
module Parameters {

  datatype Config = Config(
    nodesCount: nat,
    nodesTotalWeight: nat,
    confirmationThreshold: real,
    confirmationThresholdAbsolute: bool,
    icca: bool, // SchedulerType is "ICCA+"
    maxBuffer: nat,
    confEligible: bool,
    maxDeficit: real,
    slowdownFactor: int,
    slotTime: int,
    minCommittableAge: int,
    rmcTime: int,
    initialRMC: real,
    rmcMin: real,
    rmcMax: real,
    rmcIncrease: real,
    rmcDecrease: real,
    rmcPeriodUpdate: int,
    lowerRMCThreshold: real,
    upperRMCThreshold: real)
  {
    ghost predicate Sensible() {
      0 < nodesCount && 0 < slowdownFactor && 0 < slotTime && 0 <= minCommittableAge && 0 < rmcPeriodUpdate
    }
  }

  /** Integer division that drops the fraction, also of negative numbers. */
  function Truncate(a: int, b: int): int
    requires b > 0
  {
    if a >= 0 then a / b else -(-a / b)
  }

  function TruncateReal(x: real): int {
    if x >= 0.0 then x.Floor else -(-x).Floor
  }

  lemma Multiples(b: int, x: int, y: int)
    requires b > 0 && x < y
    ensures x * b + b <= y * b
  {
    assert (y - x - 1) * b >= 0;
    assert (y - x - 1) * b == y * b - x * b - b;
  }

  /** What is cut off has the sign of the number and is less than the divisor. */
  lemma TruncatedIff(a: int, b: int, k: int)
    requires b > 0
    ensures Truncate(a, b) == k <==>
      if k > 0 then k * b <= a < k * b + b else if k < 0 then k * b - b < a <= k * b else -b < a < b
  {
    var q := Truncate(a, b);
    CutOff(a, b);
    if q < k {
      Multiples(b, q, k);
    } else if k < q {
      Multiples(b, k, q);
    }
    assert k * b == b * k && q * b == b * q;
    Multiples(b, k - 1, k);
    Sign(a, b);
  }

  lemma Sign(a: int, b: int)
    requires b > 0
    ensures a >= 0 ==> Truncate(a, b) >= 0
    ensures a <= 0 ==> Truncate(a, b) <= 0
  {
  }

  lemma CutOff(a: int, b: int)
    requires b > 0
    ensures a >= 0 ==> b * Truncate(a, b) <= a < b * Truncate(a, b) + b
    ensures a <= 0 ==> b * Truncate(a, b) - b < a <= b * Truncate(a, b)
  {
    if a < 0 {
      assert -a == b * (-a / b) + -a % b;
      assert b * -(-a / b) == -(b * (-a / b));
    }
  }

  /** The same for real numbers. */
  lemma RealTruncatedIff(x: real, k: int)
    ensures TruncateReal(x) == k <==>
      if k > 0 then k as real <= x < k as real + 1.0
      else if k < 0 then k as real - 1.0 < x <= k as real else -1.0 < x < 1.0
  {
  }
}

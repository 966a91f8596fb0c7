/**
 * The categorical judgments of `generate_insights`: demand level from the
 * flight count, cancellation risk from the cancelled share, and the on-time
 * share. Shares are exact counts over the total; the thresholds become
 * integer comparisons.
 */
module Judgments {

  datatype Demand = High | Moderate | Low {
    /** The label the report shows. */
    function Label(): string {
      match this
      case High => "high"
      case Moderate => "moderate"
      case Low => "low"
    }

    /** Position on the low-to-high scale. */
    function Rank(): nat {
      match this
      case Low => 0
      case Moderate => 1
      case High => 2
    }
  }

  datatype Risk = LowRisk | MediumRisk | HighRisk {
    function Label(): string {
      match this
      case LowRisk => "low"
      case MediumRisk => "medium"
      case HighRisk => "high"
    }

    function Rank(): nat {
      match this
      case LowRisk => 0
      case MediumRisk => 1
      case HighRisk => 2
    }
  }

  /** `demand_level`: more than 15 flights is high, more than 8 moderate. */
  function DemandLevel(total: nat): (d: Demand)
    ensures d == High <==> total > 15
    ensures d == Moderate <==> 8 < total <= 15
    ensures d == Low <==> total <= 8
  {
    if total > 15 then High else if total > 8 then Moderate else Low
  }

  /**
   * `cancellation_risk`: a cancelled share below 0.1 is low, below 0.2 medium,
   * else high. Compared here as `10 * c < n` and `5 * c < n`.
   */
  function CancellationRisk(cancelled: nat, total: nat): (r: Risk)
    requires total > 0
    ensures r == LowRisk <==> (cancelled as real) / (total as real) < 0.1
    ensures r == MediumRisk <==> 0.1 <= (cancelled as real) / (total as real) < 0.2
    ensures r == HighRisk <==> (cancelled as real) / (total as real) >= 0.2
  {
    ShareThresholds(cancelled, total);
    if 10 * cancelled < total then LowRisk
    else if 5 * cancelled < total then MediumRisk
    else HighRisk
  }

  /** A share compared with a threshold is its numerator compared with the scaled total. */
  lemma ShareBelow(c: real, n: real, t: real)
    requires n > 0.0
    ensures c / n < t <==> c < t * n
  {
    var s := c / n;
    assert s * n == c;
    if s < t {
      assert s * n < t * n;
    }
    if c < t * n {
      assert s * n < t * n;
    }
  }

  lemma ShareThresholds(c: nat, n: nat)
    requires n > 0
    ensures (c as real) / (n as real) < 0.1 <==> 10 * c < n
    ensures (c as real) / (n as real) < 0.2 <==> 5 * c < n
  {
    ShareBelow(c as real, n as real, 0.1);
    ShareBelow(c as real, n as real, 0.2);
  }

  /** More flights never lower the demand level. */
  lemma DemandMonotone(n1: nat, n2: nat)
    requires n1 <= n2
    ensures DemandLevel(n1).Rank() <= DemandLevel(n2).Rank()
  {
  }

  /** More cancellations out of the same total never lower the risk. */
  lemma RiskMonotone(c1: nat, c2: nat, n: nat)
    requires n > 0 && c1 <= c2
    ensures CancellationRisk(c1, n).Rank() <= CancellationRisk(c2, n).Rank()
  {
  }

  /** Exactly 0.2 is already high: 2 cancellations in 10 flights. */
  lemma TwoInTenIsHigh()
    ensures CancellationRisk(2, 10) == HighRisk
    ensures DemandLevel(10) == Moderate
  {
  }

  /**
   * The labels the report shows are the strings the source compares: the
   * demand label from the flight count, the risk label from the cancelled
   * share, and the insurance tip's test on the risk label.
   */
  lemma LabelsAsInSource(cancelled: nat, total: nat)
    requires total > 0
    ensures DemandLevel(total).Label() == "high" <==> total > 15
    ensures DemandLevel(total).Label() == "moderate" <==> 8 < total <= 15
    ensures DemandLevel(total).Label() == "low" <==> total <= 8
    ensures CancellationRisk(cancelled, total).Label() == "low" <==> (cancelled as real) / (total as real) < 0.1
    ensures CancellationRisk(cancelled, total).Label() == "high" <==> (cancelled as real) / (total as real) >= 0.2
    ensures CancellationRisk(cancelled, total).Label() in ["medium", "high"]
        <==> CancellationRisk(cancelled, total) != LowRisk
  {
  }

  /**
   * `on_time_performance = 1 - delayed share - cancelled share`, kept as the
   * numerator over the total.
   */
  function OnTimeNumerator(delayed: nat, cancelled: nat, total: nat): (r: int)
    requires total > 0
    ensures (r as real) / (total as real)
         == 1.0 - (delayed as real) / (total as real) - (cancelled as real) / (total as real)
  {
    var n := total as real;
    SplitQuotient(n, delayed as real, cancelled as real, n);
    total - delayed - cancelled
  }

  /** A quotient of a difference is the difference of the quotients, and `n / n` is one. */
  lemma SplitQuotient(a: real, b: real, c: real, n: real)
    requires n > 0.0 && a == n
    ensures (a - b - c) / n == 1.0 - b / n - c / n
  {
    var x, y, z := a / n, b / n, c / n;
    assert x * n == a && y * n == b && z * n == c;
    assert x == 1.0;
    var w := (a - b - c) / n;
    assert w * n == a - b - c;
    assert (x - y - z) * n == a - b - c;
    DivUnique(w, x - y - z, n);
  }

  /** Two reals with equal products by a positive factor are equal. */
  lemma DivUnique(w: real, v: real, n: real)
    requires n > 0.0 && w * n == v * n
    ensures w == v
  {
    assert (w - v) * n == 0.0;
    ZeroProduct(w - v, n);
  }

  lemma ZeroProduct(u: real, n: real)
    requires n > 0.0 && u * n == 0.0
    ensures u == 0.0
  {
  }
}

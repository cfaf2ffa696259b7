/**
  The three-valued health verdict of a monitored service. The `HealthStatus`
  enumeration's own definition is not part of this model; the rank below is
  the severity order the scan relies on.
 */
module Health {

  datatype HealthStatus = Healthy | Degraded | Unhealthy {
    /** Severity rank: Healthy < Degraded < Unhealthy. */
    function Rank(): nat {
      match this
      case Healthy => 0
      case Degraded => 1
      case Unhealthy => 2
    }
  }

  /** The more severe of two verdicts. */
  function Worse(a: HealthStatus, b: HealthStatus): (r: HealthStatus)
    ensures r == a || r == b
    ensures r.Rank() >= a.Rank() && r.Rank() >= b.Rank()
  {
    if a.Rank() >= b.Rank() then a else b
  }
}


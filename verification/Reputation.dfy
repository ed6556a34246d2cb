/** Scoring a tenant's deliverability, and deciding what the platform does about it. */
module Reputation {
  import opened Prelude

  datatype Level = Ok | Warned | Throttled | Paused

  datatype Sample = Sample(verdicts: nat, bounceRate: real, complaintRate: real)

  datatype Metric = Bounce | Complaint

  datatype Crossing = Crossing(metric: Metric, rate: real, threshold: real)

  datatype Decision = Decision(level: Level, changed: bool, crossed: Option<Crossing>)

  const MIN_VERDICTS := 20

  /** Outcomes of a tenant's sends over the window, and how many of its domains are not verified. */
  datatype Outcomes = Outcomes(delivered: nat, bounced: nat, complained: nat, failed: nat, unverifiedDomains: nat)

  function Rate(part: nat, whole: nat): (r: real)
    requires part <= whole
    ensures 0.0 <= r <= 1.0
  {
    if whole == 0 then 0.0 else part as real / whole as real
  }

  function SampleFromCounts(o: Outcomes): Sample {
    var verdicts := o.delivered + o.bounced + o.complained;
    Sample(verdicts, Rate(o.bounced, verdicts), Rate(o.complained, o.delivered + o.complained))
  }

  // ----- Enforcement --------------------------------------------------------------------------------

  /** The first metric over its limit, bounces first. */
  function Crossed(s: Sample, bounce: real, complaint: real): Option<Crossing> {
    if s.bounceRate > bounce then Some(Crossing(Bounce, s.bounceRate, bounce))
    else if s.complaintRate > complaint then Some(Crossing(Complaint, s.complaintRate, complaint))
    else None
  }

  function Evaluate(s: Sample, current: Level): Decision {
    if current == Paused then Decision(Paused, false, None)
    else if s.verdicts < MIN_VERDICTS then Decision(current, false, None)
    else
      var pause, throttle, warn := Crossed(s, 0.1, 0.005), Crossed(s, 0.08, 0.003), Crossed(s, 0.05, 0.001);
      if pause.Some? then Decision(Paused, Paused != current, pause)
      else if throttle.Some? then Decision(Throttled, Throttled != current, throttle)
      else if warn.Some? then Decision(Warned, Warned != current, warn)
      else Decision(Ok, current != Ok, None)
  }

  function Severity(l: Level): nat {
    match l
    case Ok => 0
    case Warned => 1
    case Throttled => 2
    case Paused => 3
  }

  /** Only a pause holds on its own; otherwise worse numbers never lead to a milder level. */
  lemma EvaluateMonotone(a: Sample, b: Sample, current: Level)
    requires a.verdicts >= MIN_VERDICTS && b.verdicts >= MIN_VERDICTS
    requires a.bounceRate <= b.bounceRate && a.complaintRate <= b.complaintRate
    ensures Severity(Evaluate(a, current).level) <= Severity(Evaluate(b, current).level)
  {
  }

  // ----- The score ------------------------------------------------------------------------------------

  datatype Factor = BounceBand | ComplaintBand | FailureBand | UnverifiedDomains | Healthy | LowVolume

  datatype Scored = Scored(score: Option<nat>, factors: seq<Factor>)

  function BouncePenalty(rate: real): real {
    if rate > 0.1 then 50.0 else if rate > 0.05 then 30.0 else if rate > 0.02 then 15.0 else 0.0
  }

  function ComplaintPenalty(rate: real): real {
    if rate > 0.005 then 40.0 else if rate > 0.003 then 25.0 else if rate > 0.001 then 12.0 else 0.0
  }

  function FailurePenalty(rate: real): real {
    if rate > 0.05 then 15.0 else if rate > 0.01 then 7.0 else 0.0
  }

  function DomainPenalty(unverified: nat): real {
    if unverified * 5 > 15 then 15.0 else (unverified * 5) as real
  }

  function Verdicts(o: Outcomes): nat {
    o.delivered + o.bounced + o.complained
  }

  /** What is left of 100 once every penalty is taken; bounces and complaints count half at low volume. */
  function Remaining(o: Outcomes): real {
    var s := SampleFromCounts(o);
    var damp := if s.verdicts < MIN_VERDICTS then 0.5 else 1.0;
    100.0 - BouncePenalty(s.bounceRate) * damp - ComplaintPenalty(s.complaintRate) * damp
    - FailurePenalty(Rate(o.failed, s.verdicts + o.failed)) - DomainPenalty(o.unverifiedDomains)
  }

  function Clamp(x: int): nat {
    if x < 0 then 0 else if x > 100 then 100 else x
  }

  function Score(o: Outcomes): Option<nat> {
    if Verdicts(o) == 0 && o.failed == 0 then None else Some(Clamp((Remaining(o) + 0.5).Floor))
  }

  function When(holds: bool, factor: Factor): seq<Factor> {
    if holds then [factor] else []
  }

  /** What the provider's verdicts cost: bounces first, then complaints. */
  method JudgeVerdicts(bounceRate: real, complaintRate: real, damp: real) returns (score: real, factors: seq<Factor>)
    ensures score == 100.0 - BouncePenalty(bounceRate) * damp - ComplaintPenalty(complaintRate) * damp
    ensures factors == When(bounceRate > 0.02, BounceBand) + When(complaintRate > 0.001, ComplaintBand)
  {
    score, factors := 100.0, [];
    if bounceRate > 0.1 {
      score := score - 50.0 * damp;
    } else if bounceRate > 0.05 {
      score := score - 30.0 * damp;
    } else if bounceRate > 0.02 {
      score := score - 15.0 * damp;
    }
    if bounceRate > 0.02 {
      factors := factors + [BounceBand];
    }
    if complaintRate > 0.005 {
      score := score - 40.0 * damp;
    } else if complaintRate > 0.003 {
      score := score - 25.0 * damp;
    } else if complaintRate > 0.001 {
      score := score - 12.0 * damp;
    }
    if complaintRate > 0.001 {
      factors := factors + [ComplaintBand];
    }
  }

  /** What hurts the score, in the order it is reported. */
  function Problems(o: Outcomes): seq<Factor> {
    var s := SampleFromCounts(o);
    When(s.bounceRate > 0.02, BounceBand) + When(s.complaintRate > 0.001, ComplaintBand)
    + When(Rate(o.failed, s.verdicts + o.failed) > 0.01, FailureBand)
    + When(o.unverifiedDomains > 0, UnverifiedDomains)
  }

  function Factors(o: Outcomes): seq<Factor> {
    if Verdicts(o) == 0 && o.failed == 0 then When(o.unverifiedDomains > 0, UnverifiedDomains)
    else (if Problems(o) == [] then [Healthy] else Problems(o)) + When(Verdicts(o) < MIN_VERDICTS, LowVolume)
  }

  method ComputeDeliverability(o: Outcomes) returns (r: Scored)
    ensures r == Scored(Score(o), Factors(o))
  {
    var verdicts, inbox := o.delivered + o.bounced + o.complained, o.delivered + o.complained;
    var processed := verdicts + o.failed;
    var bounceRate, complaintRate := Rate(o.bounced, verdicts), Rate(o.complained, inbox);
    var failureRate := Rate(o.failed, processed);
    if verdicts == 0 && o.failed == 0 {
      return Scored(None, if o.unverifiedDomains > 0 then [UnverifiedDomains] else []);
    }
    var damp := if verdicts < MIN_VERDICTS then 0.5 else 1.0;
    var score, factors := JudgeVerdicts(bounceRate, complaintRate, damp);
    if failureRate > 0.05 {
      score := score - 15.0;
      factors := factors + [FailureBand];
    } else if failureRate > 0.01 {
      score := score - 7.0;
      factors := factors + [FailureBand];
    }
    if o.unverifiedDomains > 0 {
      score := score - if o.unverifiedDomains * 5 > 15 then 15.0 else (o.unverifiedDomains * 5) as real;
      factors := factors + [UnverifiedDomains];
    }
    assert score == Remaining(o);
    assert factors == Problems(o);
    var rounded := Clamp((score + 0.5).Floor);
    if |factors| == 0 {
      factors := factors + [Healthy];
    }
    if verdicts < MIN_VERDICTS {
      factors := factors + [LowVolume];
    }
    r := Scored(Some(rounded), factors);
  }

  /** A perfect score and an empty list of problems are the same thing. */
  lemma HealthyIffPerfect(o: Outcomes)
    requires Verdicts(o) > 0 || o.failed > 0
    ensures Healthy in Factors(o) <==> Score(o) == Some(100)
  {
    var s := SampleFromCounts(o);
    var damp := if s.verdicts < MIN_VERDICTS then 0.5 else 1.0;
    var f := Rate(o.failed, s.verdicts + o.failed);
    assert Remaining(o) == 100.0 - BouncePenalty(s.bounceRate) * damp - ComplaintPenalty(s.complaintRate) * damp
                           - FailurePenalty(f) - DomainPenalty(o.unverifiedDomains);
    if Problems(o) == [] {
      assert Remaining(o) == 100.0;
      assert Factors(o)[0] == Healthy;
    } else {
      assert Remaining(o) <= 95.0;
      assert Healthy !in Problems(o);
    }
  }

  // ----- Score and enforcement agree ----------------------------------------------------------------------

  /** With enough verdicts, what enforcement says bounds what the dashboard shows. */
  lemma ScoreAgreesWithEnforcement(o: Outcomes, current: Level)
    requires Verdicts(o) >= MIN_VERDICTS && current != Paused
    ensures Score(o).Some?
    ensures var level := Evaluate(SampleFromCounts(o), current).level;
            && (level == Paused ==> Score(o).value <= 60)
            && (Severity(level) >= 2 ==> Score(o).value <= 75)
            && (Severity(level) >= 1 ==> Score(o).value <= 88)
            && (level == Ok ==> 55 <= Score(o).value)
  {
    var s := SampleFromCounts(o);
    var f := Rate(o.failed, s.verdicts + o.failed);
    assert 0.0 <= FailurePenalty(f) <= 15.0 && 0.0 <= DomainPenalty(o.unverifiedDomains) <= 15.0;
    var rest := FailurePenalty(f) + DomainPenalty(o.unverifiedDomains);
    assert Remaining(o) == 100.0 - BouncePenalty(s.bounceRate) - ComplaintPenalty(s.complaintRate) - rest;
  }

  /** More bounces or complaints among the same verdicts never raise the score. */
  lemma ScoreFallsWithRates(a: Outcomes, b: Outcomes)
    requires Verdicts(a) == Verdicts(b) && Verdicts(a) >= MIN_VERDICTS
    requires a.failed == b.failed && a.unverifiedDomains == b.unverifiedDomains
    requires SampleFromCounts(a).bounceRate <= SampleFromCounts(b).bounceRate
    requires SampleFromCounts(a).complaintRate <= SampleFromCounts(b).complaintRate
    ensures Score(b).value <= Score(a).value
  {
    assert Remaining(b) <= Remaining(a);
  }
}

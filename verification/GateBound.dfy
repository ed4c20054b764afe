/** Across the health endpoint and the deploy gate: which backlogs can pass. */
module GateBound {
  import opened Prelude
  import opened HealthScore
  import DeployGate

  /** The score the endpoint would return. */
  function ScoreNow(t: Tables, now: int): int { Overall(Components(t, now)) }

  /** Main result, both ways: the score reaches the gate's threshold exactly when
      open escalations and reviews, plus what the optional components fall short
      of, stay within 10.5 per unit of weight that is present. */
  lemma ThresholdIff(t: Tables, now: int)
    ensures ScoreNow(t, now) >= 90 <==>
      0.3 * Min(100.0, Backlog(t.events) as real) + 0.2 * Min(100.0, 5.0 * Depth(t.queue) as real) + OptionalShortfall(t, now)
      <= 10.5 * (0.5 + OptionalWeight(t, now))
  {
    ComponentSums(t, now);
    ReachesThresholdIff(Components(t, now));
  }

  lemma OptionalRange(t: Tables, now: int)
    requires ConfidencesAreScores(t.decisions)
    ensures 0.0 <= OptionalWeight(t, now) <= 0.5 && OptionalShortfall(t, now) >= 0.0
  {
    ScoresArePercentages(t, now, AgentConfidence);
    ScoresArePercentages(t, now, ResolutionRate);
    ScoresArePercentages(t, now, ValidationHealth);
  }

  /** Whichever optional components are present and whatever they are worth, a
      score that reaches the threshold bounds the backlog. */
  lemma BacklogBound(t: Tables, now: int)
    requires ConfidencesAreScores(t.decisions)
    requires ScoreNow(t, now) >= 90
    ensures 0.3 * Backlog(t.events) as real + Depth(t.queue) as real <= 10.5
  {
    ThresholdIff(t, now);
    OptionalRange(t, now);
  }

  /** The bound is sharp: with every optional component present and perfect it is
      all that matters. */
  lemma BacklogBoundIsSharp(t: Tables, now: int)
    requires Score(t, now, AgentConfidence) == Some(100.0)
    requires Score(t, now, ResolutionRate) == Some(100.0)
    requires Score(t, now, ValidationHealth) == Some(100.0)
    ensures ScoreNow(t, now) >= 90 <==>
      0.3 * Backlog(t.events) as real + Depth(t.queue) as real <= 10.5
  {
    ThresholdIff(t, now);
  }

  /** Two open P0 escalations, or eleven waiting reviews, block every deploy,
      whatever the validation history and the journeys look like. */
  lemma BacklogBlocksDeploy(t: Tables, now: int, h: DeployGate.Health, today: int)
    requires ConfidencesAreScores(t.decisions)
    requires OpenAt(t.events, 0) >= 2 || Depth(t.queue) >= 11
    ensures !DeployGate.Passes(Some(ScoreNow(t, now)), h, today)
  {
    DeployGate.PassesIff(Some(ScoreNow(t, now)), h, today);
    if ScoreNow(t, now) >= 90 {
      BacklogBound(t, now);
      assert false;
    }
  }
}

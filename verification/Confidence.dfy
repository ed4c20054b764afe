/** Confidence scores shared by the agents: clamping, blending a heuristic with a
    reply of the language model, and the action tiers. */
module Confidence {
  import opened Prelude

  const HEURISTIC_WEIGHT: real := 0.4
  const LLM_WEIGHT: real := 0.6

  datatype Tier = AutoAdvance | HumanReview | Escalate

  function Unit(x: real): real { Clamp(0.0, 1.0, x) }

  function Blend(heuristic: real, llm: Option<real>): real {
    if llm.None? then Unit(heuristic)
    else Unit(Unit(heuristic) * HEURISTIC_WEIGHT + Unit(llm.value) * LLM_WEIGHT)
  }

  function TierOf(score: real): Tier {
    if score >= 0.95 then AutoAdvance
    else if score >= 0.85 then HumanReview
    else Escalate
  }

  /** A number between 0 and 1, or the nearer end. */
  ghost function Clamped(x: real): real { if x < 0.0 then 0.0 else if 1.0 < x then 1.0 else x }

  /** A reply weighs six tenths, the heuristic four; without a reply it is all. */
  lemma BlendMeaning(heuristic: real, llm: Option<real>)
    ensures Blend(heuristic, llm) ==
      match llm
      case None => Clamped(heuristic)
      case Some(x) => 0.4 * Clamped(heuristic) + 0.6 * Clamped(x)
  {
  }

  /** The tiers that the replies can reach, exactly: no reply, some reply, every reply. */
  lemma TiersReachable(heuristic: real)
    ensures TierOf(Blend(heuristic, None)) == AutoAdvance <==> heuristic >= 0.95
    ensures TierOf(Blend(heuristic, None)) == Escalate <==> heuristic < 0.85
    ensures (exists x: real :: TierOf(Blend(heuristic, Some(x))) == AutoAdvance) <==> heuristic >= 0.875
    ensures (forall x: real :: TierOf(Blend(heuristic, Some(x))) == Escalate) <==> heuristic < 0.625
  {
    BlendMeaning(heuristic, None);
    forall x: real
      ensures Blend(heuristic, Some(x)) == 0.4 * Clamped(heuristic) + 0.6 * Clamped(x)
    {
      BlendMeaning(heuristic, Some(x));
    }
    var best := Blend(heuristic, Some(1.0));
    assert best == 0.4 * Clamped(heuristic) + 0.6;
    assert TierOf(Blend(heuristic, Some(1.0))) == AutoAdvance <==> heuristic >= 0.875;
    assert TierOf(Blend(heuristic, Some(1.0))) == Escalate <==> heuristic < 0.625;
  }

  /** A blend lies between its clamped parts, so it is a score itself. */
  lemma BlendBetween(heuristic: real, llm: Option<real>)
    ensures var h, b := Unit(heuristic), Blend(heuristic, llm);
      0.0 <= b <= 1.0
      && (llm.None? ==> b == h)
      && (llm.Some? ==> Min(h, Unit(llm.value)) <= b <= Max(h, Unit(llm.value)))
  {
  }

  lemma BlendMonotone(h: real, h': real, llm: Option<real>, llm': Option<real>)
    requires h <= h' && llm.Some? == llm'.Some? && (llm.Some? ==> llm.value <= llm'.value)
    ensures Blend(h, llm) <= Blend(h', llm')
  {
  }

  /** Some reply lifts the blend to a threshold exactly when the heuristic is
      within the model's weight of it; no reply at all asks for the threshold. */
  lemma ReachableByReply(heuristic: real, threshold: real)
    ensures (exists llm: real :: Blend(heuristic, Some(llm)) >= threshold) <==> 0.4 * Unit(heuristic) + 0.6 >= threshold
    ensures Blend(heuristic, None) >= threshold <==> Unit(heuristic) >= threshold
  {
    assert Blend(heuristic, Some(1.0)) == 0.4 * Unit(heuristic) + 0.6;
    forall llm: real
      ensures Blend(heuristic, Some(llm)) <= Blend(heuristic, Some(1.0))
    {
      BlendMonotone(heuristic, heuristic, Some(Min(llm, 1.0)), Some(1.0));
    }
  }

  /** A heuristic below 0.875 never advances on its own, whatever the model says. */
  lemma AutoAdvanceNeedsHeuristic(heuristic: real, llm: Option<real>)
    ensures TierOf(Blend(heuristic, llm)) == AutoAdvance ==> heuristic >= 0.875
  {
    if llm.Some? {
      BlendMonotone(heuristic, heuristic, Some(Min(llm.value, 1.0)), Some(1.0));
    }
  }
}

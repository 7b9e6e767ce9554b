/**
 Combining two routing signals into a model tier (app/core/routing_policy.py). A tier is its rank in a finite
 chain, `local` being 0; the source's chain has three.
 */
module Routing {
  import opened Wrappers

  type Tier = nat

  const LOCAL: Tier := 0

  datatype DecidedBy = Nobody | Rules | Label | Both

  datatype LimitedBy = Ceiling | Unconfigured

  datatype Decision = Decision(tier: Tier, asked: Tier, decidedBy: DecidedBy, limitedBy: Option<LimitedBy>)

  function Max(a: Tier, b: Tier): Tier {
    if a < b then b else a
  }

  function Min(a: Tier, b: Tier): Tier {
    if b < a then b else a
  }

  /** `r` is the best tier that may be used at or below `bound`: `local` can always be used. */
  ghost predicate IsBest(bound: Tier, configured: set<Tier>, r: Tier) {
    r <= bound && (r == LOCAL || r in configured) && forall t :: t in configured && t <= bound ==> t <= r
  }

  function HighestAtOrBelow(tier: Tier, configured: set<Tier>): (r: Tier)
    ensures IsBest(tier, configured, r)
  {
    if tier in configured || tier == LOCAL then tier else HighestAtOrBelow(tier - 1, configured)
  }

  /** The source's loop from the tier downwards. */
  method FindHighest(tier: Tier, configured: set<Tier>) returns (r: Tier)
    ensures r == HighestAtOrBelow(tier, configured)
  {
    var candidate: int := tier;
    while candidate >= 0
      invariant -1 <= candidate <= tier
      invariant candidate >= 0 ==> HighestAtOrBelow(tier, configured) == HighestAtOrBelow(candidate, configured)
      invariant candidate < 0 ==> HighestAtOrBelow(tier, configured) == LOCAL
    {
      if candidate in configured {
        return candidate;
      }
      candidate := candidate - 1;
    }
    return LOCAL;
  }

  function StepDown(tier: Tier, configured: set<Tier>): Tier {
    if tier == 0 then LOCAL else HighestAtOrBelow(tier - 1, configured)
  }

  function Decide(ruleTier: Tier, labelTier: Tier, ceiling: Tier, configured: set<Tier>): Decision {
    var asked := Max(ruleTier, labelTier);
    var capped := Min(asked, ceiling);
    var tier := HighestAtOrBelow(capped, configured);
    Decision(tier, asked,
             if asked == 0 then Nobody
             else if ruleTier == labelTier then Both
             else if ruleTier > labelTier then Rules
             else Label,
             if tier < capped then Some(Unconfigured) else if capped < asked then Some(Ceiling) else None)
  }

  predicate Usable(tier: Tier, configured: set<Tier>) {
    tier == LOCAL || tier in configured
  }

  /** The tier may be used, is within the ceiling, and some signal asks for at least as much. */
  predicate Permitted(rule: Tier, topic: Tier, ceiling: Tier, configured: set<Tier>, tier: Tier) {
    Usable(tier, configured) && tier <= ceiling && (tier <= rule || tier <= topic)
  }

  /**
   The decision is the highest permitted tier; it was asked for by whichever signal was higher, and it is less
   than that because of the ceiling alone when the ceiling is low and usable, and because of what is not
   configured when what would otherwise be used is not usable.
   */
  lemma DecideIsBest(rule: Tier, topic: Tier, ceiling: Tier, configured: set<Tier>)
    ensures var d := Decide(rule, topic, ceiling, configured);
            && Permitted(rule, topic, ceiling, configured, d.tier)
            && (forall t: Tier :: Permitted(rule, topic, ceiling, configured, t) ==> t <= d.tier)
            && d.asked in {rule, topic} && rule <= d.asked && topic <= d.asked
            && (d.decidedBy.Nobody? <==> rule == LOCAL && topic == LOCAL)
            && (d.decidedBy.Both? <==> rule == topic > LOCAL)
            && (d.decidedBy.Rules? <==> rule > topic)
            && (d.decidedBy.Label? <==> topic > rule)
            && (d.limitedBy == None <==> d.asked <= ceiling && Usable(d.asked, configured))
            && (d.limitedBy == Some(Ceiling) <==> ceiling < d.asked && Usable(ceiling, configured))
            && (d.limitedBy == Some(Unconfigured) <==>
                  !Usable(if d.asked <= ceiling then d.asked else ceiling, configured))
  {
    var d := Decide(rule, topic, ceiling, configured);
    var bound := if d.asked <= ceiling then d.asked else ceiling;
    assert IsBest(bound, configured, d.tier);
  }

  /**
   Raising the ceiling or a signal, or configuring more tiers, never lowers the decision; what the decision is
   limited by is empty exactly when it is what was asked for.
   */
  lemma DecideIsMonotone(
      rule: Tier, topic: Tier, ceiling: Tier, configured: set<Tier>,
      rule': Tier, topic': Tier, ceiling': Tier, configured': set<Tier>)
    requires rule <= rule' && topic <= topic' && ceiling <= ceiling' && configured <= configured'
    ensures Decide(rule, topic, ceiling, configured).tier <= Decide(rule', topic', ceiling', configured').tier
    ensures Decide(rule, topic, ceiling, configured).limitedBy.None? <==>
            Decide(rule, topic, ceiling, configured).tier == Decide(rule, topic, ceiling, configured).asked
  {
    var d, d' := Decide(rule, topic, ceiling, configured), Decide(rule', topic', ceiling', configured');
    assert d.tier == LOCAL || d.tier in configured';
  }

  function StepDownTimes(tier: Tier, configured: set<Tier>, n: nat): Tier {
    if n == 0 then tier else StepDown(StepDownTimes(tier, configured, n - 1), configured)
  }

  /** Stepping down strictly descends until `local`, through usable tiers, skipping none of the configured ones. */
  lemma {:induction false} StepDownReachesLocal(tier: Tier, configured: set<Tier>, n: nat)
    ensures n >= tier ==> StepDownTimes(tier, configured, n) == LOCAL
    ensures StepDownTimes(tier, configured, n) == LOCAL || StepDownTimes(tier, configured, n) + n <= tier
    ensures forall t :: t in configured && t < StepDownTimes(tier, configured, n) ==>
                          t <= StepDownTimes(tier, configured, n + 1) < StepDownTimes(tier, configured, n)
  {
    if n > 0 {
      StepDownReachesLocal(tier, configured, n - 1);
    }
  }
}

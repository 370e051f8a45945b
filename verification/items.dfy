/** One purchased membership and what it costs (class `Item` in models.py). */
module Items {
  import opened Wrappers
  import opened Dicts
  import opened Catalogs

  datatype Item = Item(
    planName: string,
    additionalFeatures: seq<string>,          // ordinary add-ons, in the order chosen
    premiumMembershipFeatures: seq<string>    // premium add-ons, in the order chosen
  )

  /** `Item.get_plan_cost`: the catalog cost of the plan, 0 when the plan is unknown. */
  function PlanCost(cat: Catalog, item: Item): (cost: real)
    ensures item.planName in Keys(cat.plans) ==> (item.planName, cost) in cat.plans
    ensures item.planName !in Keys(cat.plans) ==> cost == 0.0
  {
    ValueOr(Get(cat.plans, item.planName), 0.0)
  }

  /**
   `Item.get_feature_cost`: a name is priced from the ordinary table when it is listed there,
   otherwise from the premium table, otherwise at 0.
   */
  function FeatureCost(cat: Catalog, feature: string): (cost: real)
    ensures feature in Keys(cat.ordinary) ==> (feature, cost) in cat.ordinary
    ensures feature !in Keys(cat.ordinary) && feature in Keys(cat.premium) ==> (feature, cost) in cat.premium
    ensures feature !in Keys(cat.ordinary) && feature !in Keys(cat.premium) ==> cost == 0.0
  {
    match Get(cat.ordinary, feature)
    case Some(c) => c
    case None => ValueOr(Get(cat.premium, feature), 0.0)
  }

  /** Feature costs added up one occurrence at a time, in list order. */
  function SumFeatureCosts(cat: Catalog, features: seq<string>): real {
    if features == [] then 0.0
    else SumFeatureCosts(cat, features[..|features| - 1]) + FeatureCost(cat, features[|features| - 1])
  }

  /**
   `Item.get_features_cost`: the ordinary list, then the premium list, with no deduplication; the
   same as pricing the two lists laid end to end as one.
   */
  function FeaturesCost(cat: Catalog, item: Item): (cost: real)
    ensures cost == SumFeatureCosts(cat, item.additionalFeatures + item.premiumMembershipFeatures)
  {
    SumFeatureCostsAppend(cat, item.additionalFeatures, item.premiumMembershipFeatures);
    SumFeatureCosts(cat, item.additionalFeatures) + SumFeatureCosts(cat, item.premiumMembershipFeatures)
  }

  /** `Item.calculate_total_membership_cost` */
  function TotalMembershipCost(cat: Catalog, item: Item): real {
    FeaturesCost(cat, item) + PlanCost(cat, item)
  }

  /**
   Feature pricing is additive over list concatenation: every occurrence is charged, so the
   price of both lists together is the price of each list summed.
   */
  lemma {:induction false} SumFeatureCostsAppend(cat: Catalog, a: seq<string>, b: seq<string>)
    ensures SumFeatureCosts(cat, a + b) == SumFeatureCosts(cat, a) + SumFeatureCosts(cat, b)
  {
    if b != [] {
      assert (a + b)[..|a + b| - 1] == a + b[..|b| - 1];
      SumFeatureCostsAppend(cat, a, b[..|b| - 1]);
    } else {
      assert a + b == a;
    }
  }

  /** The item total is the plan cost plus the cost of the two feature lists laid end to end. */
  lemma TotalIsPlanPlusAllFeatures(cat: Catalog, item: Item)
    ensures TotalMembershipCost(cat, item)
         == PlanCost(cat, item) + SumFeatureCosts(cat, item.additionalFeatures + item.premiumMembershipFeatures)
  {
    SumFeatureCostsAppend(cat, item.additionalFeatures, item.premiumMembershipFeatures);
  }

  /**
   Both lists are priced from the same tables, so moving a feature from anywhere in the ordinary
   list to anywhere in the premium list never changes the price.
   */
  lemma MovingFeatureKeepsTotal(cat: Catalog, plan: string, o1: seq<string>, f: string, o2: seq<string>,
                                q1: seq<string>, q2: seq<string>)
    ensures TotalMembershipCost(cat, Item(plan, o1 + [f] + o2, q1 + q2))
         == TotalMembershipCost(cat, Item(plan, o1 + o2, q1 + [f] + q2))
  {
    SumFeatureCostsAppend(cat, o1 + [f], o2);
    SumFeatureCostsAppend(cat, o1, [f]);
    SumFeatureCostsAppend(cat, o1, o2);
    SumFeatureCostsAppend(cat, q1 + [f], q2);
    SumFeatureCostsAppend(cat, q1, [f]);
    SumFeatureCostsAppend(cat, q1, q2);
  }

  /** A name listed twice is charged twice: there is no deduplication. */
  lemma RepeatedFeatureChargedTwice(cat: Catalog, f: string)
    ensures SumFeatureCosts(cat, [f, f]) == 2.0 * FeatureCost(cat, f)
  {
    assert [f, f][..1] == [f];
    assert [f][..0] == [];
    assert SumFeatureCosts(cat, [f]) == FeatureCost(cat, f);
    assert SumFeatureCosts(cat, [f, f]) == SumFeatureCosts(cat, [f]) + FeatureCost(cat, f);
  }

  /** With a catalog of non-negative prices, no feature list costs less than nothing. */
  lemma {:induction false} SumFeatureCostsNonNegative(cat: Catalog, features: seq<string>)
    requires CostsNonNegative(cat)
    ensures SumFeatureCosts(cat, features) >= 0.0
  {
    if features != [] {
      SumFeatureCostsNonNegative(cat, features[..|features| - 1]);
      FeatureCostNonNegative(cat, features[|features| - 1]);
    }
  }

  lemma FeatureCostNonNegative(cat: Catalog, feature: string)
    requires CostsNonNegative(cat)
    ensures FeatureCost(cat, feature) >= 0.0
  {
    var c := FeatureCost(cat, feature);
    if feature in Keys(cat.ordinary) {
      var i :| 0 <= i < |cat.ordinary| && cat.ordinary[i] == (feature, c);
    } else if feature in Keys(cat.premium) {
      var i :| 0 <= i < |cat.premium| && cat.premium[i] == (feature, c);
    }
  }

  /** With a catalog of non-negative prices every membership costs at least its plan. */
  lemma TotalMembershipCostNonNegative(cat: Catalog, item: Item)
    requires CostsNonNegative(cat)
    ensures TotalMembershipCost(cat, item) >= PlanCost(cat, item) >= 0.0
  {
    SumFeatureCostsNonNegative(cat, item.additionalFeatures);
    SumFeatureCostsNonNegative(cat, item.premiumMembershipFeatures);
    var c := PlanCost(cat, item);
    if item.planName in Keys(cat.plans) {
      var i :| 0 <= i < |cat.plans| && cat.plans[i] == (item.planName, c);
    }
  }
}

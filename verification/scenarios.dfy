/**
 The worked examples of the program's unit tests, proved from the general contracts. Each is
 stated either over the built-in catalog `Default` or, to keep the proofs small, over every
 catalog with the built-in prices it uses (`BuiltInPrices`); `DefaultHasBuiltInPrices` shows that
 `Default` is one of those.
 */
module Scenarios {
  import opened Wrappers
  import opened Dicts
  import opened Text
  import opened Catalogs
  import opened Items
  import opened Buyers
  import opened Validation

  /** Family (40) with Group Classes (20) and Exclusive Gym Facilities (100) costs 160. */
  lemma ItemCostExample()
    ensures var item := Item("Family", ["Group Classes"], ["Exclusive Gym Facilities"]);
            && PlanCost(Default, item) == 40.0
            && FeatureCost(Default, "Group Classes") == 20.0
            && FeatureCost(Default, "Exclusive Gym Facilities") == 100.0
            && FeatureCost(Default, "Feature Inexistente") == 0.0
            && TotalMembershipCost(Default, item) == 160.0
  {
    DefaultPlanPrices();
    DefaultFeaturePrices();
    DefaultPremiumPrices();
    ItemCostParts(Default, Item("Family", ["Group Classes"], ["Exclusive Gym Facilities"]));
  }

  /** The built-in plan prices the examples use. */
  lemma DefaultPlanPrices()
    ensures Get(Default.plans, "Basic") == Some(25.0)
    ensures Get(Default.plans, "Premium") == Some(30.0)
    ensures Get(Default.plans, "Family") == Some(40.0)
  {
  }

  /** The built-in feature prices the examples use; an unlisted name costs nothing. */
  lemma DefaultFeaturePrices()
    ensures FeatureCost(Default, "Personal Training") == 30.0
    ensures FeatureCost(Default, "Group Classes") == 20.0
    ensures FeatureCost(Default, "Feature Inexistente") == 0.0
  {
  }

  lemma DefaultPremiumPrices()
    ensures FeatureCost(Default, "Exclusive Gym Facilities") == 100.0
    ensures FeatureCost(Default, "Specialized Training Programs") == 80.0
  {
  }

  /** A one-name feature list costs that name's price. */
  lemma SingleFeatureCost(cat: Catalog, f: string)
    ensures SumFeatureCosts(cat, [f]) == FeatureCost(cat, f)
  {
    assert [f][..0] == [];
  }

  /** The tiered discount of the tests: 250 pays 230 and 450 pays 400. */
  lemma SpecialDiscountExamples()
    ensures ApplySpecialDiscount(250.0) == Discounted(230.0, 20.0)
    ensures ApplySpecialDiscount(450.0) == Discounted(400.0, 50.0)
  {
  }

  /** Both thresholds are strict: 200 earns nothing, 400 earns 20, and just above 400 earns 50. */
  lemma SpecialDiscountBoundaries()
    ensures ApplySpecialDiscount(200.0) == Discounted(200.0, 0.0)
    ensures ApplySpecialDiscount(400.0) == Discounted(380.0, 20.0)
    ensures ApplySpecialDiscount(400.01) == Discounted(350.01, 50.0)
  {
  }

  /**
   The built-in prices of the names the cart examples use. The cart examples hold for every
   catalog that prices these names as the built-in one does, and `Default` is such a catalog.
   */
  ghost predicate BuiltInPrices(cat: Catalog) {
    && Get(cat.plans, "Basic") == Some(25.0)
    && Get(cat.plans, "Premium") == Some(30.0)
    && Get(cat.plans, "Family") == Some(40.0)
    && FeatureCost(cat, "Personal Training") == 30.0
    && FeatureCost(cat, "Exclusive Gym Facilities") == 100.0
    && FeatureCost(cat, "Specialized Training Programs") == 80.0
    && "Exclusive Gym Facilities" in Keys(cat.premium)
    && "Specialized Training Programs" in Keys(cat.premium)
  }

  lemma DefaultHasBuiltInPrices()
    ensures BuiltInPrices(Default)
  {
    DefaultPlanPrices();
    DefaultFeaturePrices();
    DefaultPremiumPrices();
    assert Get(Default.premium, "Exclusive Gym Facilities").Some?;
    assert Get(Default.premium, "Specialized Training Programs").Some?;
  }

  /** Two Basic memberships (25 each) cost 45 after the group discount. */
  lemma GroupDiscountExample(cat: Catalog)
    requires BuiltInPrices(cat)
    ensures Get(CalculateCosts(cat, [Item("Basic", [], []), Item("Basic", [], [])]), "Basic") == Some(45.0)
  {
    var b := Item("Basic", [], []);
    ItemCostParts(cat, b);
    TwoItemSubtotal(cat, b, b, "Basic");
  }

  /** One Basic and one Premium: no group discount, so 25 and 30 stay as they are. */
  lemma MixedCartExample(cat: Catalog)
    requires BuiltInPrices(cat)
    ensures var costs := CalculateCosts(cat, [Item("Basic", [], []), Item("Premium", [], [])]);
            Get(costs, "Basic") == Some(25.0) && Get(costs, "Premium") == Some(30.0)
  {
    var b := Item("Basic", [], []);
    var p := Item("Premium", [], []);
    ItemCostParts(cat, b);
    ItemCostParts(cat, p);
    TwoItemSubtotal(cat, b, p, "Basic");
    TwoItemSubtotal(cat, b, p, "Premium");
  }

  /** An item with at most one feature in each list costs its plan plus those features. */
  lemma ItemCostParts(cat: Catalog, item: Item)
    requires |item.additionalFeatures| <= 1 && |item.premiumMembershipFeatures| <= 1
    ensures TotalMembershipCost(cat, item)
         == PlanCost(cat, item)
          + (if item.additionalFeatures == [] then 0.0 else FeatureCost(cat, item.additionalFeatures[0]))
          + (if item.premiumMembershipFeatures == [] then 0.0 else FeatureCost(cat, item.premiumMembershipFeatures[0]))
  {
    if item.additionalFeatures != [] {
      assert item.additionalFeatures == [item.additionalFeatures[0]];
      SingleFeatureCost(cat, item.additionalFeatures[0]);
    }
    if item.premiumMembershipFeatures != [] {
      assert item.premiumMembershipFeatures == [item.premiumMembershipFeatures[0]];
      SingleFeatureCost(cat, item.premiumMembershipFeatures[0]);
    }
  }

  /** Two Basic and one Student: the counts are 2 and 1, and only Basic qualifies as a group. */
  lemma CountExample()
    ensures var items := [Item("Basic", [], []), Item("Basic", [], []), Item("Student", [], [])];
            var counts := CountMembership(items);
            && Get(counts, "Basic") == Some(2)
            && Get(counts, "Student") == Some(1)
            && "Basic" in ValidateDiscountMembershipGroup(counts)
            && "Student" !in ValidateDiscountMembershipGroup(counts)
  {
    var b := Item("Basic", [], []);
    var s := Item("Student", [], []);
    var items := [b, b, s];
    assert Plans(items) == ["Basic", "Basic", "Student"];
    assert multiset(Plans(items))["Basic"] == 2;
    assert multiset(Plans(items))["Student"] == 1;
    EligibleIffRepeated(items, "Basic");
    EligibleIffRepeated(items, "Student");
  }

  /** An item without premium features is not premium; one with Specialized Training Programs is. */
  lemma PremiumDetectionExample(cat: Catalog)
    requires BuiltInPrices(cat)
    ensures !HasPremiumFeatures(cat, [Item("Basic", ["Pool Access"], [])])
    ensures HasPremiumFeatures(cat, [Item("Basic", [], ["Specialized Training Programs"])])
  {
    var items := [Item("Basic", [], ["Specialized Training Programs"])];
    assert items[0].premiumMembershipFeatures[0] in Keys(cat.premium);
  }

  /** A single-item cart: its breakdown sums to the item's total. */
  lemma SingleItemSum(cat: Catalog, item: Item)
    requires item.planName in BreakdownPlans
    ensures SumValues(CalculateCosts(cat, [item])) == TotalMembershipCost(cat, item)
  {
    BreakdownSum(cat, [item]);
    SingleItemSubtotal(cat, item, "Basic");
    SingleItemSubtotal(cat, item, "Premium");
    SingleItemSubtotal(cat, item, "Student");
    SingleItemSubtotal(cat, item, "Family");
  }

  /**
   A cart whose only item is on a plan outside the four fixed names sums to 0, whatever the plan
   costs in the catalog.
   */
  lemma UnlistedPlanPricedZero(cat: Catalog, item: Item)
    requires item.planName !in BreakdownPlans
    ensures SumValues(CalculateCosts(cat, [item])) == 0.0
  {
    BreakdownSum(cat, [item]);
    SingleItemSubtotal(cat, item, "Basic");
    SingleItemSubtotal(cat, item, "Premium");
    SingleItemSubtotal(cat, item, "Student");
    SingleItemSubtotal(cat, item, "Family");
  }

  lemma SingleItemSubtotal(cat: Catalog, item: Item, p: string)
    ensures GroupSubtotal(cat, [item], p) == if item.planName == p then TotalMembershipCost(cat, item) else 0.0
  {
    assert [item][..0] == [];
    assert PlanSubtotal(cat, [item], p) == if item.planName == p then TotalMembershipCost(cat, item) else 0.0;
    assert Plans([item]) == [item.planName];
    assert multiset(Plans([item]))[p] <= 1;
  }

  /** Basic (25) with Exclusive Gym Facilities (100): 125 plus a 15% surcharge of 18.75 is 143.75. */
  lemma SurchargeExample(cat: Catalog)
    requires BuiltInPrices(cat)
    ensures var items := [Item("Basic", [], ["Exclusive Gym Facilities"])];
            var r := SumCosts(cat, NewBuyer(items), CalculateCosts(cat, items));
            r.surcharge == 18.75 && r.total == 143.75
  {
    var item := Item("Basic", [], ["Exclusive Gym Facilities"]);
    ItemCostParts(cat, item);
    SingleItemSum(cat, item);
    assert HasPremiumFeatures(cat, [item]) by {
      assert [item][0].premiumMembershipFeatures[0] in Keys(cat.premium);
    }
    var r := SumCosts(cat, NewBuyer([item]), CalculateCosts(cat, [item]));
    assert r.surcharge == 125.0 * 0.15;
    assert Discounted(r.total, r.discount) == ApplySpecialDiscount(125.0 * 1.15);
  }

  /** Basic (25) with Personal Training (30) and no premium feature pays 55, with no surcharge. */
  lemma NoSurchargeExample(cat: Catalog)
    requires BuiltInPrices(cat)
    ensures var items := [Item("Basic", ["Personal Training"], [])];
            var r := SumCosts(cat, NewBuyer(items), CalculateCosts(cat, items));
            r.surcharge == 0.0 && r.total == 55.0
  {
    var item := Item("Basic", ["Personal Training"], []);
    ItemCostParts(cat, item);
    SingleItemSum(cat, item);
    assert !HasPremiumFeatures(cat, [item]);
  }

  /**
   Two Family memberships each with Specialized Training Programs (40 + 80 each): the group
   discount brings 240 down to 216, the surcharge adds 32.4, and 248.4 earns the 20 tier, for
   228.4 in all.
   */
  lemma IntegrationExample(cat: Catalog)
    requires BuiltInPrices(cat)
    ensures var f := Item("Family", [], ["Specialized Training Programs"]);
            var costs := CalculateCosts(cat, [f, f]);
            var r := SumCosts(cat, NewBuyer([f, f]), costs);
            && Get(costs, "Family") == Some(216.0)
            && r.surcharge == 32.4 && r.discount == 20.0 && r.total == 228.4
  {
    var f := Item("Family", [], ["Specialized Training Programs"]);
    var items := [f, f];
    FamilyPairBreakdown(cat);
    var costs := CalculateCosts(cat, items);
    assert HasPremiumFeatures(cat, items) by {
      assert items[0].premiumMembershipFeatures[0] in Keys(cat.premium);
    }
    var r := SumCosts(cat, NewBuyer(items), costs);
    assert r.surcharge == 216.0 * 0.15;
    assert Discounted(r.total, r.discount) == ApplySpecialDiscount(216.0 * 1.15);
  }

  /** The breakdown of two Family memberships with Specialized Training Programs: 216, all on Family. */
  lemma FamilyPairBreakdown(cat: Catalog)
    requires BuiltInPrices(cat)
    ensures var f := Item("Family", [], ["Specialized Training Programs"]);
            var costs := CalculateCosts(cat, [f, f]);
            Get(costs, "Family") == Some(216.0) && SumValues(costs) == 216.0
  {
    var f := Item("Family", [], ["Specialized Training Programs"]);
    ItemCostParts(cat, f);
    TwoItemSubtotal(cat, f, f, "Basic");
    TwoItemSubtotal(cat, f, f, "Premium");
    TwoItemSubtotal(cat, f, f, "Student");
    TwoItemSubtotal(cat, f, f, "Family");
    BreakdownSum(cat, [f, f]);
  }

  /** The group subtotal of a two-item cart, for any catalog. */
  lemma TwoItemSubtotal(cat: Catalog, x: Item, y: Item, p: string)
    ensures var sx := if x.planName == p then TotalMembershipCost(cat, x) else 0.0;
            var sy := if y.planName == p then TotalMembershipCost(cat, y) else 0.0;
            GroupSubtotal(cat, [x, y], p) == if x.planName == p && y.planName == p then (sx + sy) * 0.9 else sx + sy
  {
    assert [x, y][..1] == [x];
    assert [x][..0] == [];
    assert Plans([x, y]) == [x.planName, y.planName];
    assert multiset(Plans([x, y])) == multiset{x.planName, y.planName};
    assert PlanSubtotal(cat, [x], p) == if x.planName == p then TotalMembershipCost(cat, x) else 0.0;
  }

  /** A canonical plan name and its lower-case spelling both validate to the canonical name. */
  lemma ValidatePlanBasicExamples()
    ensures ValidatePlan(Default, "Basic") == Some("Basic")
    ensures ValidatePlan(Default, "basic") == Some("Basic")
  {
    BasicNormalises();
    assert Keys(Default.plans)[0] == "Basic";
  }

  lemma BasicNormalises()
    ensures Capitalize(Strip("Basic")) == "Basic"
    ensures Capitalize(Strip("basic")) == "Basic"
  {
    StrippedFixed("Basic");
    StrippedFixed("basic");
    CapitalizeUnique("Basic", "Basic");
    CapitalizeUnique("basic", "Basic");
  }

  /** Every built-in plan name validates to itself. */
  lemma DefaultPlanNamesValidate()
    ensures forall k :: k in Keys(Default.plans) ==> ValidatePlan(Default, k) == Some(k)
  {
    DefaultPlanKeys();
    CanonicalPlanNames();
    ValidatePlanAcceptsCanonicalName(Default, "Basic");
    ValidatePlanAcceptsCanonicalName(Default, "Premium");
    ValidatePlanAcceptsCanonicalName(Default, "Student");
    ValidatePlanAcceptsCanonicalName(Default, "Family");
  }

  /** The built-in plans are Basic, Premium, Student and Family. */
  lemma DefaultPlanKeys()
    ensures forall k :: k in Keys(Default.plans) <==> k == "Basic" || k == "Premium" || k == "Student" || k == "Family"
  {
    assert Keys(Default.plans) == ["Basic", "Premium", "Student", "Family"];
  }

  /** The built-in plan names are already in the form `str.capitalize()` produces. */
  lemma CanonicalPlanNames()
    ensures Capitalize("Basic") == "Basic"
    ensures Capitalize("Premium") == "Premium"
    ensures Capitalize("Student") == "Student"
    ensures Capitalize("Family") == "Family"
  {
    CapitalizeUnique("Basic", "Basic");
    CapitalizeUnique("Premium", "Premium");
    CapitalizeUnique("Student", "Student");
    CapitalizeUnique("Family", "Family");
  }

  /** Surrounding whitespace is removed before the lookup. */
  lemma ValidatePlanPaddedExample()
    ensures ValidatePlan(Default, "  premium ") == Some("Premium")
  {
    PaddedPremiumNormalises();
    assert Keys(Default.plans)[1] == "Premium";
  }

  lemma PaddedPremiumNormalises()
    ensures Capitalize(Strip("  premium ")) == "Premium"
  {
    PaddedPremiumStrips();
    PremiumCapitalizes();
  }

  lemma PremiumCapitalizes()
    ensures Capitalize("premium") == "Premium"
  {
    CapitalizeUnique("premium", "Premium");
  }

  lemma PaddedPremiumStrips()
    ensures Strip("  premium ") == "premium"
  {
    assert AllSpace("  ") && AllSpace(" ") && Stripped("premium");
    assert "  " + "premium" + " " == "  premium ";
    StripCore("  ", "premium", " ");
  }

  /** The empty input and an unknown name are rejected. */
  lemma ValidatePlanRejectExamples()
    ensures ValidatePlan(Default, "") == None
    ensures ValidatePlan(Default, "unknown") == None
  {
    UnknownPlanNormalises();
  }

  lemma UnknownPlanNormalises()
    ensures Capitalize(Strip("unknown")) == "Unknown"
  {
    UnknownStrips();
    UnknownCapitalizes();
  }

  lemma UnknownCapitalizes()
    ensures Capitalize("unknown") == "Unknown"
  {
    CapitalizeUnique("unknown", "Unknown");
  }

  lemma UnknownStrips()
    ensures Strip("unknown") == "unknown"
  {
    assert [] + "unknown" + [] == "unknown";
    StripCore([], "unknown", []);
  }

  /** The built-in feature names have six different lengths, so no two share a lower-case form. */
  lemma DefaultLowerCaseUnique()
    ensures LowerCaseUnique(Default)
  {
    var names := FeatureNames(Default);
    assert names == ["Personal Training", "Group Classes", "Access to Pool", "Specialized Program",
                     "Exclusive Gym Facilities", "Specialized Training Programs"];
    forall i, j | 0 <= i < |names| && 0 <= j < |names| && LowerStr(names[i]) == LowerStr(names[j])
      ensures names[i] == names[j]
    {
      assert |names[i]| == |names[j]|;
    }
  }

  /** A name matching no feature, even up to case, is reported back as invalid. */
  lemma UnknownFeatureRejected()
    ensures SelectFeatures(Default, ["unknown"]) == ([], ["unknown"])
  {
    UnknownStrips();
    var names := FeatureNames(Default);
    assert names == ["Personal Training", "Group Classes", "Access to Pool", "Specialized Program",
                     "Exclusive Gym Facilities", "Specialized Training Programs"];
    assert forall j :: 0 <= j < |names| ==> |LowerStr(names[j])| != |LowerStr("unknown")|;
    SelectRejectsUnmatched(Default, "unknown");
  }

  /** A canonical feature name selects itself. */
  lemma CanonicalFeatureSelected()
    ensures SelectFeatures(Default, ["Personal Training"]) == (["Personal Training"], [])
  {
    DefaultLowerCaseUnique();
    assert FeatureNames(Default)[0] == "Personal Training";
    assert Strip("Personal Training") == "Personal Training" by {
      assert [] + "Personal Training" + [] == "Personal Training";
      StripCore([], "Personal Training", []);
    }
    SelectRecognisesName(Default, "Personal Training", "Personal Training");
  }

  /** A padded, lower-case spelling selects the canonical feature name. */
  lemma PaddedFeatureSelected()
    ensures SelectFeatures(Default, ["  access to pool  "]) == (["Access to Pool"], [])
  {
    DefaultLowerCaseUnique();
    assert FeatureNames(Default)[2] == "Access to Pool";
    PaddedPoolNormalises();
    SelectRecognisesName(Default, "Access to Pool", "  access to pool  ");
  }

  lemma PaddedPoolNormalises()
    ensures LowerStr(Strip("  access to pool  ")) == LowerStr("Access to Pool")
  {
    PaddedPoolStrips();
    PoolLowerCase();
  }

  lemma PaddedPoolStrips()
    ensures Strip("  access to pool  ") == "access to pool"
  {
    assert AllSpace("  ") && Stripped("access to pool");
    assert "  " + "access to pool" + "  " == "  access to pool  ";
    StripCore("  ", "access to pool", "  ");
  }

  lemma PoolLowerCase()
    ensures LowerStr("access to pool") == LowerStr("Access to Pool")
  {
    var lower, mixed := "access to pool", "Access to Pool";
    forall i | 0 <= i < |lower| ensures Lower(lower[i]) == Lower(mixed[i]) {
    }
  }

  /**
   The selection test's three inputs together: the two recognised names come back canonical and
   in input order, the unknown one comes back stripped as invalid.
   */
  lemma SelectFeaturesExample()
    ensures SelectFeatures(Default, ["Personal Training", "unknown", "  access to pool  "])
         == (["Personal Training", "Access to Pool"], ["unknown"])
  {
    CanonicalFeatureSelected();
    UnknownFeatureRejected();
    PaddedFeatureSelected();
    ThreeInputs(Default, "Personal Training", "unknown", "  access to pool  ", "Personal Training", "unknown", "Access to Pool");
  }

  /** Three inputs are selected as the three one-element selections laid end to end. */
  lemma ThreeInputs(cat: Catalog, x: string, y: string, z: string, vx: string, iy: string, vz: string)
    requires SelectFeatures(cat, [x]) == ([vx], [])
    requires SelectFeatures(cat, [y]) == ([], [iy])
    requires SelectFeatures(cat, [z]) == ([vz], [])
    ensures SelectFeatures(cat, [x, y, z]) == ([vx, vz], [iy])
  {
    assert [x, y, z] == [x] + [y] + [z];
    SelectFeaturesAppend(cat, [x], [y]);
    SelectFeaturesAppend(cat, [x] + [y], [z]);
    assert [vx] + [] + [vz] == [vx, vz];
    assert [] + [iy] + [] == [iy];
  }

  /** The stand-alone plan-cost lookup: Basic costs 25, an unknown name 0. */
  lemma GetPlanCostExamples()
    ensures GetPlanCost(Default, "Basic") == 25.0
    ensures GetPlanCost(Default, "Nope") == 0.0
  {
    DefaultPlanPrices();
    assert Get(Default.plans, "Nope") == None;
  }

  /**
   With the built-in catalog nothing is marked unavailable: every known name is available, and
   an empty or unknown name gets its reason.
   */
  lemma AvailabilityExamples()
    ensures CheckPlanAvailability(Default, "Basic") == Availability(true, None)
    ensures CheckPlanAvailability(Default, "") == Availability(false, Some(PlanNameEmpty))
    ensures CheckPlanAvailability(Default, "Gold") == Availability(false, Some(PlanMissing))
  {
    assert Get(Default.plans, "Basic").Some?;
    assert Get(Default.plans, "Gold") == None;
  }

  /** The same for features: a premium name is available, an unlisted one does not exist. */
  lemma FeatureAvailabilityExamples()
    ensures CheckFeatureAvailability(Default, "Exclusive Gym Facilities") == Availability(true, None)
    ensures CheckFeatureAvailability(Default, "Sauna") == Availability(false, Some(FeatureMissing))
  {
    assert Get(Default.premium, "Exclusive Gym Facilities").Some?;
    assert Get(Default.ordinary, "Sauna") == None && Get(Default.premium, "Sauna") == None;
  }
}

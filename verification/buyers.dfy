/**
 The pricing engine (class `Buyer` in models.py): it counts the cart's plans, sums item totals
 into a fixed four-plan breakdown, takes 10% off every plan bought more than once, adds a 15%
 surcharge when a premium feature is present, and finally subtracts a tiered special discount.
 */
module Buyers {
  import opened Wrappers
  import opened Dicts
  import opened Catalogs
  import opened Items

  /**
   A buyer's cart together with the two amounts `sum_costs` records as a side effect; the model
   returns those amounts from `SumCosts` and `Record` stores them, instead of mutating fields.
   */
  datatype Buyer = Buyer(items: seq<Item>, specialDiscountAmount: real, premiumSurchargeAmount: real)

  /** `Buyer.__init__`: both recorded amounts start at 0. */
  function NewBuyer(items: seq<Item>): Buyer {
    Buyer(items, 0.0, 0.0)
  }

  /** `Buyer.DISCOUNT_GROUP_MEMBERSHIP`, read as the exact rational 1/10. */
  const DiscountGroupMembership: real := 0.10

  /** The premium surcharge rate, read as the exact rational 15/100. */
  const PremiumSurchargeRate: real := 0.15

  /** The plans `calculate_costs` always reports, in its order, whatever the catalog holds. */
  const BreakdownPlans: seq<string> := ["Basic", "Premium", "Student", "Family"]

  const ZeroCosts: Dict<real> := [("Basic", 0.0), ("Premium", 0.0), ("Student", 0.0), ("Family", 0.0)]

  /** The cart's plan names, in cart order. */
  function Plans(items: seq<Item>): (ps: seq<string>)
    ensures |ps| == |items|
    ensures forall i :: 0 <= i < |items| ==> ps[i] == items[i].planName
  {
    seq(|items|, i requires 0 <= i < |items| => items[i].planName)
  }

  /** `apply_discount`: the amount the group discount takes off a subtotal, leaving 90% of it. */
  function ApplyDiscount(cost: real): (amount: real)
    ensures cost - amount == cost * 0.9
    ensures cost >= 0.0 ==> 0.0 <= amount <= cost
  {
    cost * DiscountGroupMembership
  }

  // ---------------------------------------------------------------------------------------
  // count_membership and validate_discount_membership_group

  /**
   `count_membership`: each plan name of the cart mapped to how often it occurs, keys in
   order of first occurrence.
   */
  function CountMembership(items: seq<Item>): (planCounts: Dict<nat>)
    ensures DistinctKeys(planCounts)
    ensures forall p :: Get(planCounts, p) == Occurrences(items, p)
  {
    if items == [] then []
    else
      var prefix := items[..|items| - 1];
      var p := items[|items| - 1].planName;
      var counts := CountMembership(prefix);
      var n := match Get(counts, p) case Some(n) => n + 1 case None => 1;
      CountStep(items, counts, n);
      Put(counts, p, n)
  }

  /** How often p occurs among the cart's plan names, None when it does not occur at all. */
  function Occurrences(items: seq<Item>, p: string): Option<nat> {
    if p in Plans(items) then Some(multiset(Plans(items))[p]) else None
  }

  /** One iteration of the counting loop keeps the counts exact. */
  lemma CountStep(items: seq<Item>, counts: Dict<nat>, n: nat)
    requires items != []
    requires DistinctKeys(counts)
    requires forall q :: Get(counts, q) == Occurrences(items[..|items| - 1], q)
    requires n == match Get(counts, items[|items| - 1].planName) case Some(m) => m + 1 case None => 1
    ensures DistinctKeys(Put(counts, items[|items| - 1].planName, n))
    ensures forall q :: Get(Put(counts, items[|items| - 1].planName, n), q) == Occurrences(items, q)
  {
    var prefix := items[..|items| - 1];
    var p := items[|items| - 1].planName;
    PutDistinct(counts, p, n);
    assert Plans(items) == Plans(prefix) + [p];
    assert multiset(Plans(items)) == multiset(Plans(prefix)) + multiset{p};
    assert p in Plans(items);
    assert n == multiset(Plans(items))[p] by {
      assert Get(counts, p) == Occurrences(prefix, p);
      if p !in Plans(prefix) {
        assert multiset(Plans(prefix))[p] == 0;
      }
    }
    forall q ensures Get(Put(counts, p, n), q) == Occurrences(items, q) {
      if q == p {
        assert Get(Put(counts, p, n), q) == Some(n);
      } else {
        assert Get(Put(counts, p, n), q) == Get(counts, q) == Occurrences(prefix, q);
        assert q in Plans(items) <==> q in Plans(prefix);
        assert multiset(Plans(items))[q] == multiset(Plans(prefix))[q];
      }
    }
  }

  /** The counts of a count dict added up. */
  function TotalCount(counts: Dict<nat>): nat {
    if counts == [] then 0 else counts[0].1 + TotalCount(counts[1..])
  }

  lemma {:induction false} TotalCountPut(d: Dict<nat>, k: string, v: nat)
    ensures TotalCount(Put(d, k, v)) == TotalCount(d) - ValueOr(Get(d, k), 0) + v
  {
    if d != [] && d[0].0 != k {
      var r := Put(d, k, v);
      assert r[1..] == Put(d[1..], k, v);
      TotalCountPut(d[1..], k, v);
    } else if d != [] {
      assert Put(d, k, v)[1..] == d[1..];
    }
  }

  /** The plan counts add up to the number of items in the cart. */
  lemma {:induction false} CountsSumToCartSize(items: seq<Item>)
    ensures TotalCount(CountMembership(items)) == |items|
  {
    if items != [] {
      var prefix := items[..|items| - 1];
      var p := items[|items| - 1].planName;
      CountsSumToCartSize(prefix);
      var counts := CountMembership(prefix);
      match Get(counts, p)
      case Some(n) => TotalCountPut(counts, p, n + 1);
      case None => TotalCountPut(counts, p, 1);
    }
  }

  /** The names of a sequence, each once, in the order they first appear. */
  function FirstOccurrences(s: seq<string>): seq<string> {
    if s == [] then []
    else
      var rest := FirstOccurrences(s[..|s| - 1]);
      if s[|s| - 1] in s[..|s| - 1] then rest else rest + [s[|s| - 1]]
  }

  /** The counts list the plans in the order they first appear in the cart. */
  lemma {:induction false} CountKeysInOrder(items: seq<Item>)
    ensures Keys(CountMembership(items)) == FirstOccurrences(Plans(items))
  {
    if items != [] {
      var prefix := items[..|items| - 1];
      var p := items[|items| - 1].planName;
      var counts := CountMembership(prefix);
      var n := match Get(counts, p) case Some(m) => m + 1 case None => 1;
      CountKeysInOrder(prefix);
      CountKeysArePlans(prefix);
      PutKeys(counts, p, n);
      assert Plans(items)[..|items| - 1] == Plans(prefix);
      assert CountMembership(items) == Put(counts, p, n);
    }
  }

  /** Every key of the counts is a plan name of the cart, and every plan name is a key. */
  lemma CountKeysArePlans(items: seq<Item>)
    ensures forall p :: p in Keys(CountMembership(items)) <==> p in Plans(items)
  {
    var counts := CountMembership(items);
    forall p ensures p in Keys(counts) <==> p in Plans(items) {
      assert Get(counts, p).Some? <==> p in Keys(counts);
    }
  }

  /**
   `validate_discount_membership_group`: the names whose count exceeds 1. Given a real dict (no
   repeated keys) a name is listed exactly when its count exceeds 1, and no name is listed twice.
   */
  function ValidateDiscountMembershipGroup(planCounts: Dict<nat>): (eligible: seq<string>)
    ensures forall p :: p in eligible ==> p in Keys(planCounts)
    ensures DistinctKeys(planCounts) ==> Distinct(eligible)
    ensures DistinctKeys(planCounts) ==>
              forall p :: p in eligible <==> Get(planCounts, p).Some? && Get(planCounts, p).value > 1
  {
    if planCounts == [] then []
    else
      var rest := ValidateDiscountMembershipGroup(planCounts[1..]);
      KeysCons(planCounts);
      DistinctTail(planCounts);
      (if planCounts[0].1 > 1 then [planCounts[0].0] else []) + rest
  }

  /** A name earns the group discount exactly when the cart holds it more than once. */
  lemma EligibleIffRepeated(items: seq<Item>, p: string)
    ensures p in ValidateDiscountMembershipGroup(CountMembership(items)) <==> multiset(Plans(items))[p] > 1
    ensures Distinct(ValidateDiscountMembershipGroup(CountMembership(items)))
  {
    var counts := CountMembership(items);
    var eligible := ValidateDiscountMembershipGroup(counts);
    assert p in eligible <==> Get(counts, p).Some? && Get(counts, p).value > 1;
    assert Get(counts, p) == Occurrences(items, p);
    if p !in Plans(items) {
      assert multiset(Plans(items))[p] == 0;
    }
  }

  // ---------------------------------------------------------------------------------------
  // calculate_costs

  /** What the cart's items on plan p cost together before any discount (the reference sum). */
  function PlanSubtotal(cat: Catalog, items: seq<Item>, p: string): real {
    if items == [] then 0.0
    else
      var last := items[|items| - 1];
      PlanSubtotal(cat, items[..|items| - 1], p) + (if last.planName == p then TotalMembershipCost(cat, last) else 0.0)
  }

  /** A plan's subtotal after the group discount: 90% of it when the cart holds the plan twice or more. */
  function GroupSubtotal(cat: Catalog, items: seq<Item>, p: string): real {
    var s := PlanSubtotal(cat, items, p);
    if multiset(Plans(items))[p] > 1 then s * 0.9 else s
  }

  /**
   First loop of `calculate_costs`: each item's total added to its plan's entry of the
   four-plan breakdown; an item whose plan is not one of the four is dropped.
   */
  function AddItemCosts(cat: Catalog, items: seq<Item>): (costs: Dict<real>)
    ensures Keys(costs) == BreakdownPlans
    ensures forall p :: p in BreakdownPlans ==> Get(costs, p) == Some(PlanSubtotal(cat, items, p))
  {
    if items == [] then
      ZeroCostsFacts();
      ZeroCosts
    else
      var costs := AddItemCosts(cat, items[..|items| - 1]);
      AddItemStep(cat, items, costs);
      AddItem(cat, costs, items[|items| - 1])
  }

  /** The body of the first loop: an item's total goes to its plan's entry, if there is one. */
  function AddItem(cat: Catalog, costs: Dict<real>, item: Item): Dict<real> {
    match Get(costs, item.planName)
    case Some(c) => Put(costs, item.planName, c + TotalMembershipCost(cat, item))
    case None => costs
  }

  lemma ZeroCostsFacts()
    ensures Keys(ZeroCosts) == BreakdownPlans
    ensures forall p :: p in BreakdownPlans ==> Get(ZeroCosts, p) == Some(0.0)
  {
    assert ZeroCosts[1..][1..][1..][1..] == [];
  }

  /** What the first loop's body does to one entry, and that it keeps the keys. */
  lemma AddItemEntries(cat: Catalog, costs: Dict<real>, item: Item, p: string)
    ensures Keys(AddItem(cat, costs, item)) == Keys(costs)
    ensures Get(AddItem(cat, costs, item), p)
         == if p == item.planName && Get(costs, p).Some?
            then Some(Get(costs, p).value + TotalMembershipCost(cat, item))
            else Get(costs, p)
  {
    var g := Get(costs, item.planName);
    if g.Some? {
      var v := g.value + TotalMembershipCost(cat, item);
      assert AddItem(cat, costs, item) == Put(costs, item.planName, v);
      AddPresentPlan(costs, item.planName, v, p);
    }
  }

  /** Overwriting an existing entry keeps the keys and changes only that entry. */
  lemma AddPresentPlan(costs: Dict<real>, k: string, v: real, p: string)
    requires k in Keys(costs)
    ensures Keys(Put(costs, k, v)) == Keys(costs)
    ensures Get(Put(costs, k, v), p) == if p == k then Some(v) else Get(costs, p)
  {
    PutKeys(costs, k, v);
  }

  /** One iteration of the first loop keeps every breakdown entry equal to its plan's subtotal. */
  lemma AddItemStep(cat: Catalog, items: seq<Item>, costs: Dict<real>)
    requires items != []
    requires Keys(costs) == BreakdownPlans
    requires forall p :: p in BreakdownPlans ==> Get(costs, p) == Some(PlanSubtotal(cat, items[..|items| - 1], p))
    ensures Keys(AddItem(cat, costs, items[|items| - 1])) == BreakdownPlans
    ensures forall p :: p in BreakdownPlans ==>
              Get(AddItem(cat, costs, items[|items| - 1]), p) == Some(PlanSubtotal(cat, items, p))
  {
    var item := items[|items| - 1];
    var prefix := items[..|items| - 1];
    AddItemEntries(cat, costs, item, item.planName);
    forall p | p in BreakdownPlans
      ensures Get(AddItem(cat, costs, item), p) == Some(PlanSubtotal(cat, items, p))
    {
      AddItemEntries(cat, costs, item, p);
      assert Get(costs, p) == Some(PlanSubtotal(cat, prefix, p));
    }
  }

  /**
   Second loop of `calculate_costs`: every listed plan present in the breakdown loses
   `apply_discount` of its subtotal, once. Plans not listed keep their amount.
   */
  function ApplyGroupDiscounts(costs: Dict<real>, eligible: seq<string>): (r: Dict<real>)
    decreases |eligible|
    ensures Keys(r) == Keys(costs)
    ensures forall p :: p !in eligible ==> Get(r, p) == Get(costs, p)
    ensures Distinct(eligible) ==> forall p :: p in eligible ==> Get(r, p) == NinetyPercent(Get(costs, p))
  {
    if eligible == [] then costs
    else
      var next := DiscountPlan(costs, eligible[0]);
      var r := ApplyGroupDiscounts(next, eligible[1..]);
      DiscountPlanStep(costs, eligible, r);
      r
  }

  /** An amount, if there is one, reduced to 90%. */
  function NinetyPercent(amount: Option<real>): Option<real> {
    match amount
    case Some(c) => Some(c * 0.9)
    case None => None
  }

  /** The body of the second loop: a plan present in the breakdown loses `apply_discount` of its amount. */
  function DiscountPlan(costs: Dict<real>, p: string): Dict<real> {
    match Get(costs, p)
    case Some(c) => Put(costs, p, c - ApplyDiscount(c))
    case None => costs
  }

  /** The second loop's body keeps the breakdown's keys and touches only the discounted plan. */
  lemma DiscountPlanEntries(costs: Dict<real>, p: string)
    ensures Keys(DiscountPlan(costs, p)) == Keys(costs)
    ensures Get(DiscountPlan(costs, p), p) == NinetyPercent(Get(costs, p))
    ensures forall q :: q != p ==> Get(DiscountPlan(costs, p), q) == Get(costs, q)
  {
    var g := Get(costs, p);
    if g.Some? {
      DiscountPresentPlan(costs, p, g.value);
    } else {
      assert DiscountPlan(costs, p) == costs;
    }
  }

  lemma DiscountPresentPlan(costs: Dict<real>, p: string, c: real)
    requires Get(costs, p) == Some(c)
    ensures Keys(DiscountPlan(costs, p)) == Keys(costs)
    ensures Get(DiscountPlan(costs, p), p) == Some(c * 0.9)
    ensures forall q :: q != p ==> Get(DiscountPlan(costs, p), q) == Get(costs, q)
  {
    PutKeys(costs, p, c - ApplyDiscount(c));
  }

  /** Discounting the first listed plan and then the rest discounts every listed plan once. */
  lemma DiscountPlanStep(costs: Dict<real>, eligible: seq<string>, r: Dict<real>)
    requires eligible != []
    requires Keys(r) == Keys(DiscountPlan(costs, eligible[0]))
    requires forall q :: q !in eligible[1..] ==> Get(r, q) == Get(DiscountPlan(costs, eligible[0]), q)
    requires Distinct(eligible[1..]) ==>
               forall q :: q in eligible[1..] ==> Get(r, q) == NinetyPercent(Get(DiscountPlan(costs, eligible[0]), q))
    ensures Keys(r) == Keys(costs)
    ensures forall q :: q !in eligible ==> Get(r, q) == Get(costs, q)
    ensures Distinct(eligible) ==> forall q :: q in eligible ==> Get(r, q) == NinetyPercent(Get(costs, q))
  {
    var p := eligible[0];
    DiscountPlanEntries(costs, p);
    assert forall q :: q in eligible <==> q == p || q in eligible[1..] by {
      assert eligible == [p] + eligible[1..];
    }
    if Distinct(eligible) {
      assert Distinct(eligible[1..]);
      assert p !in eligible[1..];
    }
  }

  /**
   `calculate_costs`: the breakdown has exactly the keys Basic, Premium, Student and Family, in
   that order; each holds the summed totals of the cart's items on that plan, reduced to 90%
   when the cart holds that plan more than once.
   */
  function CalculateCosts(cat: Catalog, items: seq<Item>): (costs: Dict<real>)
    ensures Keys(costs) == BreakdownPlans
    ensures forall p :: p in BreakdownPlans ==>
              Get(costs, p) == Some(GroupSubtotal(cat, items, p))
  {
    var planCounts := CountMembership(items);
    var validPlans := ValidateDiscountMembershipGroup(planCounts);
    var costs := AddItemCosts(cat, items);
    CalculateCostsEntries(cat, items, validPlans, costs);
    ApplyGroupDiscounts(costs, validPlans)
  }

  /** The two loops of `calculate_costs` together give every plan its group subtotal. */
  lemma CalculateCostsEntries(cat: Catalog, items: seq<Item>, validPlans: seq<string>, costs: Dict<real>)
    requires validPlans == ValidateDiscountMembershipGroup(CountMembership(items))
    requires costs == AddItemCosts(cat, items)
    ensures Keys(ApplyGroupDiscounts(costs, validPlans)) == BreakdownPlans
    ensures forall p :: p in BreakdownPlans ==>
              Get(ApplyGroupDiscounts(costs, validPlans), p) == Some(GroupSubtotal(cat, items, p))
  {
    var r := ApplyGroupDiscounts(costs, validPlans);
    EligibleIffRepeated(items, "");
    assert Distinct(validPlans);
    forall p | p in BreakdownPlans ensures Get(r, p) == Some(GroupSubtotal(cat, items, p)) {
      EligibleIffRepeated(items, p);
      GroupSubtotalEntry(cat, items, validPlans, costs, r, p);
    }
  }

  lemma GroupSubtotalEntry(cat: Catalog, items: seq<Item>, validPlans: seq<string>, costs: Dict<real>, r: Dict<real>, p: string)
    requires p in validPlans <==> multiset(Plans(items))[p] > 1
    requires Get(costs, p) == Some(PlanSubtotal(cat, items, p))
    requires p in validPlans ==> Get(r, p) == NinetyPercent(Get(costs, p))
    requires p !in validPlans ==> Get(r, p) == Get(costs, p)
    ensures Get(r, p) == Some(GroupSubtotal(cat, items, p))
  {
  }

  // ---------------------------------------------------------------------------------------
  // has_premium_features, apply_special_discount, sum_costs

  /** Some name of the list is a key of the premium table. */
  function AnyPremium(cat: Catalog, features: seq<string>): (b: bool)
    ensures b <==> exists j :: 0 <= j < |features| && features[j] in Keys(cat.premium)
  {
    if features == [] then false
    else
      features[0] in Keys(cat.premium) || (assert forall j :: 0 <= j < |features| - 1 ==> features[1..][j] == features[j + 1];
                                          AnyPremium(cat, features[1..]))
  }

  /** `has_premium_features`: some item lists a name that is a key of the premium table. */
  function HasPremiumFeatures(cat: Catalog, items: seq<Item>): (b: bool)
    ensures b <==> exists i, j :: 0 <= i < |items| && 0 <= j < |items[i].premiumMembershipFeatures|
                                  && items[i].premiumMembershipFeatures[j] in Keys(cat.premium)
  {
    if items == [] then false
    else
      AnyPremium(cat, items[0].premiumMembershipFeatures) || (assert forall i :: 0 <= i < |items| - 1 ==> items[1..][i] == items[i + 1];
                                                             HasPremiumFeatures(cat, items[1..]))
  }

  /** The result of `apply_special_discount`: the discounted total and the discount recorded. */
  datatype Discounted = Discounted(total: real, discount: real)

  /**
   `apply_special_discount`: 50 off a total above 400, 20 off a total above 200 up to 400,
   nothing otherwise (both boundaries exclusive), never going below 0. On a non-negative total
   the floor at 0 never takes effect.
   */
  function ApplySpecialDiscount(total: real): (r: Discounted)
    ensures r.discount == 50.0 <==> total > 400.0
    ensures r.discount == 20.0 <==> 200.0 < total <= 400.0
    ensures r.discount == 0.0 <==> total <= 200.0
    ensures r.total >= 0.0 && r.total >= total - r.discount
    ensures r.total == 0.0 || r.total == total - r.discount
    ensures total >= 0.0 ==> r.total == total - r.discount
  {
    var discount := if total > 400.0 then 50.0 else if total > 200.0 then 20.0 else 0.0;
    Discounted(if 0.0 >= total - discount then 0.0 else total - discount, discount)
  }

  /** The result of `sum_costs` together with the two amounts it records on the buyer. */
  datatype Priced = Priced(total: real, surcharge: real, discount: real)

  /**
   `sum_costs`: the breakdown is summed; when the cart has a premium feature the sum grows by
   15% and that surcharge is recorded, otherwise the recorded surcharge keeps its previous
   value; the special discount is then taken from the (possibly surcharged) sum.
   */
  function SumCosts(cat: Catalog, buyer: Buyer, costs: Dict<real>): (r: Priced)
    ensures HasPremiumFeatures(cat, buyer.items) ==> r.surcharge == SumValues(costs) * 0.15
    ensures !HasPremiumFeatures(cat, buyer.items) ==> r.surcharge == buyer.premiumSurchargeAmount
    ensures var t := if HasPremiumFeatures(cat, buyer.items) then SumValues(costs) * 1.15 else SumValues(costs);
            Discounted(r.total, r.discount) == ApplySpecialDiscount(t)
  {
    var total := SumValues(costs);
    if HasPremiumFeatures(cat, buyer.items) then
      var surcharge := total * PremiumSurchargeRate;
      var discounted := ApplySpecialDiscount(total + surcharge);
      Priced(discounted.total, surcharge, discounted.discount)
    else
      var discounted := ApplySpecialDiscount(total);
      Priced(discounted.total, buyer.premiumSurchargeAmount, discounted.discount)
  }

  /** The buyer after a `sum_costs` call: the discount is always overwritten, the surcharge too. */
  function Record(buyer: Buyer, r: Priced): Buyer {
    buyer.(specialDiscountAmount := r.discount, premiumSurchargeAmount := r.surcharge)
  }

  // ---------------------------------------------------------------------------------------
  // Properties of the whole engine

  /**
   Calling `sum_costs` a second time on the same breakdown returns the same total and leaves the
   same recorded amounts.
   */
  lemma SumCostsIdempotent(cat: Catalog, buyer: Buyer, costs: Dict<real>)
    ensures var r := SumCosts(cat, buyer, costs);
            SumCosts(cat, Record(buyer, r), costs) == r && Record(Record(buyer, r), r) == Record(buyer, r)
  {
  }

  /**
   What the purchase summary prints as the subtotal — a second `sum_costs` result, plus the
   recorded discount, minus the recorded surcharge — is the plain sum of the breakdown whenever
   that sum is non-negative.
   */
  lemma SubtotalRecovered(cat: Catalog, items: seq<Item>, costs: Dict<real>)
    requires SumValues(costs) >= 0.0
    ensures var first := SumCosts(cat, NewBuyer(items), costs);
            var second := SumCosts(cat, Record(NewBuyer(items), first), costs);
            second.total + second.discount - second.surcharge == SumValues(costs)
  {
  }

  /** The breakdown's sum is the four plans' group subtotals added up. */
  lemma BreakdownSum(cat: Catalog, items: seq<Item>)
    ensures SumValues(CalculateCosts(cat, items))
         == GroupSubtotal(cat, items, "Basic") + GroupSubtotal(cat, items, "Premium")
          + GroupSubtotal(cat, items, "Student") + GroupSubtotal(cat, items, "Family")
  {
    SumByPlan(CalculateCosts(cat, items));
  }

  /** A dict keyed by the four breakdown plans sums to its four entries, read by key. */
  lemma SumByPlan(d: Dict<real>)
    requires Keys(d) == BreakdownPlans
    ensures SumValues(d) == Get(d, "Basic").value + Get(d, "Premium").value
                          + Get(d, "Student").value + Get(d, "Family").value
  {
    assert |d| == 4;
    assert d[0].0 == Keys(d)[0] && d[1].0 == Keys(d)[1] && d[2].0 == Keys(d)[2] && d[3].0 == Keys(d)[3];
    assert Get(d, "Basic") == Some(d[0].1);
    assert Get(d[3..], "Family") == Some(d[3].1);
    assert Get(d[2..], "Family") == Some(d[3].1) by {
      assert d[2..][1..] == d[3..];
    }
    assert Get(d[2..], "Student") == Some(d[2].1);
    assert Get(d[1..], "Student") == Some(d[2].1) by {
      assert d[1..][1..] == d[2..];
    }
    assert Get(d[1..], "Family") == Some(d[3].1) by {
      assert d[1..][1..] == d[2..];
    }
    assert Get(d[1..], "Premium") == Some(d[1].1);
    SumOfFour(d);
  }

  lemma SumOfFour(d: Dict<real>)
    requires |d| == 4
    ensures SumValues(d) == d[0].1 + d[1].1 + d[2].1 + d[3].1
  {
    assert SumValues(d) == d[0].1 + SumValues(d[1..]);
    assert SumValues(d[1..]) == d[1].1 + SumValues(d[2..]);
    assert SumValues(d[2..]) == d[2].1 + SumValues(d[3..]);
    assert SumValues(d[3..]) == d[3].1 + SumValues(d[4..]);
  }

  /** With a catalog of non-negative prices the cart's plan subtotals are non-negative too. */
  lemma {:induction false} PlanSubtotalNonNegative(cat: Catalog, items: seq<Item>, p: string)
    requires CostsNonNegative(cat)
    ensures PlanSubtotal(cat, items, p) >= 0.0
  {
    if items != [] {
      PlanSubtotalNonNegative(cat, items[..|items| - 1], p);
      TotalMembershipCostNonNegative(cat, items[|items| - 1]);
    }
  }

  /**
   The full purchase on a fresh buyer, with non-negative catalog prices: the payable total is the
   (surcharged) breakdown sum minus the special discount, with no clamping, and the recorded
   surcharge is 15% of the breakdown sum or 0.
   */
  lemma CheckoutTotal(cat: Catalog, items: seq<Item>)
    requires CostsNonNegative(cat)
    ensures var costs := CalculateCosts(cat, items);
            var s := SumValues(costs);
            var r := SumCosts(cat, NewBuyer(items), costs);
            && s >= 0.0
            && r.surcharge == (if HasPremiumFeatures(cat, items) then s * 0.15 else 0.0)
            && r.total == s + r.surcharge - r.discount
  {
    PlanSubtotalNonNegative(cat, items, "Basic");
    PlanSubtotalNonNegative(cat, items, "Premium");
    PlanSubtotalNonNegative(cat, items, "Student");
    PlanSubtotalNonNegative(cat, items, "Family");
    BreakdownSum(cat, items);
  }

  /** An item whose plan is none of the four leaves every breakdown entry as it was. */
  lemma UnlistedPlanIgnored(cat: Catalog, items: seq<Item>, extra: Item, p: string)
    requires extra.planName !in BreakdownPlans
    requires p in BreakdownPlans
    ensures Get(CalculateCosts(cat, items + [extra]), p) == Get(CalculateCosts(cat, items), p)
  {
    var all := items + [extra];
    assert all[..|all| - 1] == items;
    assert PlanSubtotal(cat, all, p) == PlanSubtotal(cat, items, p);
    assert Plans(all) == Plans(items) + [extra.planName];
    assert multiset(Plans(all))[p] == multiset(Plans(items))[p];
  }

  /** An empty cart yields an all-zero breakdown and a total of 0, without surcharge or discount. */
  lemma EmptyCart(cat: Catalog)
    ensures CalculateCosts(cat, []) == ZeroCosts
    ensures SumCosts(cat, NewBuyer([]), ZeroCosts) == Priced(0.0, 0.0, 0.0)
  {
  }
}

# Gym membership pricing, modelled in Dafny

This project models the pricing engine of a command-line gym membership system and proves
properties about it.

- An `Item` is one membership: a plan name, a list of ordinary add-on features and a list of
  premium add-on features.
- Its price is the plan cost plus the cost of every listed feature.
- A `Buyer` holds a cart of items. The engine prices the cart per plan as follows:
  - Every item's total is added to the entry of its plan in the four-plan breakdown.
  - A plan bought more than once gets 10% off its entry.
  - If any item carries a premium feature, the sum of the breakdown is raised by 15%.
  - A special discount follows: 20 above 200 and 50 above 400, with the result floored at 0.
- The input helpers turn typed text into catalog names:
  - `validar_plan` strips a plan name and puts it in `str.capitalize()` form.
  - `select_features` matches features case-insensitively and splits them into valid and invalid.
  - Availability checks give a reason (a Spanish message) when a name is not available.

The model is split into these modules:

- `Wrappers`: `Option`.
- `Dicts`: Python dicts as insertion-ordered association lists.
- `Text`: ASCII `str.strip`, `str.lower` and `str.capitalize`.
- `Catalogs`: the price and availability tables, with the built-in ones as `Catalogs.Default`.
- `Items`: `Item` in models.py.
- `Buyers`: `Buyer` in models.py.
- `Validation`: the helpers in utils.py.
- `Scenarios`: the worked examples of tests/test_gym_membership.py, proved from the general contracts.

Design choices:

- **Price tables as a parameter.** In the program the tables are mutable class attributes of
  `Item`. The configuration tests expect them to be replaceable, although nothing in models.py or
  utils.py loads a configuration. Here every operation takes the tables as an explicit `Catalog`
  value, so every property holds for any tables, not just the built-in ones.
- **Exact money.** Amounts are exact `real`s.
- **Buyer state as data.** The two amounts a `Buyer` records are fields of an immutable `Buyer`
  value. `Buyers.Record` gives the buyer after a `sum_costs` call.

## Model

| member | source | states |
|---|---|---|
| Dicts.Get | models.py:54-55 | A dict lookup finds a value exactly when the key is present, and the value found is one stored under that key. |
| Dicts.Put | models.py:117-120 | Assigning `d[k] = v` makes `k` map to `v` and leaves every other key's value as it was. |
| Dicts.PutKeys | models.py:117-120 | Assigning to an existing key keeps the key order; a new key is appended at the end. |
| Dicts.GetMember | models.py:54-55 | With distinct keys, looking up `k` gives `v` if and only if the pair `(k, v)` is stored. |
| Dicts.KeysMember | models.py:54 | A string is a key of a dict exactly when some entry carries it, which is what `in` tests. |
| Dicts.PutDistinct | models.py:117-120 | Assigning a key never makes a key appear twice. |
| Dicts.SumValuesNonNegative | models.py:152-154 | Summing a dict's values gives at least 0 when every value is at least 0. |
| Text.Strip | utils.py:17 | `str.strip()` returns a string with no surrounding whitespace and no longer than its input. |
| Text.StripCore | utils.py:17 | Whatever whitespace surrounds a stripped core, stripping returns exactly that core. |
| Text.StrippedFixed | utils.py:17 | A name with no surrounding whitespace is left as it is by stripping. |
| Text.StripIdempotent | utils.py:41 | Stripping a second time changes nothing. |
| Text.LowerStr | utils.py:38 | `str.lower()` keeps the length, leaves no capital letter, and changes each character at most in case. |
| Text.LowerStrUnique | utils.py:38 | Those properties determine the result: any string with them is the lower-case form. |
| Text.LowerCharUnique | utils.py:41 | The same for one character: a non-capital with the same upper-case form is the lower-case form. |
| Text.Capitalize | utils.py:17 | `str.capitalize()` on ASCII: the same length, no small letter first, no capital after, and each character changed at most in case. |
| Text.CapitalizeUnique | utils.py:17 | Those properties pin the result: any string that has them is the capitalized form. |
| Text.UpperCharUnique | utils.py:17 | A character that is no small letter and agrees with c up to case is the upper-case form of c. |
| Text.CapitalizeStripped | utils.py:17 | Capitalizing a stripped name leaves it stripped. |
| Text.CapitalizeIdempotent | utils.py:17 | Capitalizing a second time changes nothing. |
| Items.PlanCost | models.py:48-56 | A known plan costs its catalog entry; an unknown plan costs 0. |
| Items.FeatureCost | models.py:69-75 | A name listed as ordinary is priced from the ordinary table. Otherwise a premium name is priced from the premium table. Any other name costs 0. |
| Items.FeaturesCost | models.py:58-67 | Pricing the ordinary list and then the premium list costs the same as pricing the two lists laid end to end, every occurrence charged. |
| Items.TotalMembershipCost | models.py:77-82 | Defines `calculate_total_membership_cost` as plan cost plus features cost; its properties are stated by Items.TotalIsPlanPlusAllFeatures, Items.MovingFeatureKeepsTotal and Items.TotalMembershipCostNonNegative. |
| Items.SumFeatureCostsAppend | models.py:58-67 | Feature pricing is additive over concatenation: each occurrence is charged once. |
| Items.TotalIsPlanPlusAllFeatures | models.py:77-82 | An item's total is its plan cost plus the cost of the ordinary and premium lists laid end to end. |
| Items.MovingFeatureKeepsTotal | models.py:58-75 | Both lists are priced from the same tables: moving a feature from any position in the ordinary list to any position in the premium list never changes the item's total. |
| Items.RepeatedFeatureChargedTwice | models.py:62-66 | A feature listed twice is charged twice; there is no deduplication. |
| Items.SumFeatureCostsNonNegative | models.py:58-67 | With non-negative prices, no feature list costs less than 0. |
| Items.FeatureCostNonNegative | models.py:69-75 | With non-negative prices, every feature costs at least 0. |
| Items.TotalMembershipCostNonNegative | models.py:77-82 | With non-negative prices, an item costs at least its plan, which costs at least 0. |
| Buyers.ApplyDiscount | models.py:99-101 | The group discount leaves exactly 90% of the cost. For a non-negative cost the amount lies between 0 and the cost. |
| Buyers.CountMembership | models.py:107-122 | The counts have distinct keys. A plan's count is its number of occurrences in the cart, and a plan that does not occur has no entry. |
| Buyers.CountStep | models.py:114-120 | One loop step keeps the counts correct for the longer prefix of the cart. |
| Buyers.TotalCountPut | models.py:117-120 | Overwriting one count changes the total by the difference. |
| Buyers.CountsSumToCartSize | models.py:107-122 | The counts add up to the number of items in the cart. |
| Buyers.CountKeysArePlans | models.py:107-122 | A plan is counted if and only if some item has that plan. |
| Buyers.CountKeysInOrder | models.py:114-122 | The counts list the plan names in the order they first appear in the cart, each once. |
| Buyers.ValidateDiscountMembershipGroup | models.py:124-131 | The eligible plans are counted plans without repeats. With distinct keys, a plan is eligible if and only if its count exceeds 1. |
| Buyers.EligibleIffRepeated | models.py:124-131 | A plan qualifies for the group discount if and only if more than one item in the cart has it. |
| Buyers.AddItemCosts | models.py:137-142 | The first loop yields the four plans in fixed order. Each entry is the total of the items on that plan; items on other plans are dropped. |
| Buyers.AddItem | models.py:140-142 | Defines one pass of the first loop; its effect is stated by Buyers.AddItemEntries. |
| Buyers.ZeroCostsFacts | models.py:137 | The breakdown starts with the four plans at 0. |
| Buyers.AddItemEntries | models.py:139-142 | Adding an item raises only its own plan's entry, and only when that plan is listed. |
| Buyers.AddPresentPlan | models.py:141-142 | Overwriting a listed plan keeps the key order and changes only that plan. |
| Buyers.AddItemStep | models.py:139-142 | One step of the first loop keeps every entry equal to the subtotal of the prefix. |
| Buyers.ApplyGroupDiscounts | models.py:144-147 | The discount loop keeps the keys. When no plan is listed twice, an eligible plan's entry becomes 90% of itself, and every other entry is unchanged. |
| Buyers.DiscountPlanEntries | models.py:145-147 | Discounting one plan changes only that plan's entry; a plan absent from the breakdown stays absent. |
| Buyers.DiscountPlan | models.py:145-147 | Defines one pass of the discount loop; its effect is stated by Buyers.DiscountPlanEntries and Buyers.DiscountPresentPlan. |
| Buyers.DiscountPresentPlan | models.py:145-147 | Discounting a listed plan leaves 90% of its entry and nothing else changes. |
| Buyers.DiscountPlanStep | models.py:144-147 | One step of the discount loop preserves the loop's contract. |
| Buyers.CalculateCosts | models.py:133-148 | The breakdown lists Basic, Premium, Student and Family in that order. Each plan's entry is its items' total, reduced to 90% when the plan occurs more than once. |
| Buyers.CalculateCostsEntries | models.py:133-148 | The two loops together give each plan its group subtotal. |
| Buyers.GroupSubtotalEntry | models.py:144-147 | A plan's final entry is its discounted subtotal when eligible, and its plain subtotal otherwise. |
| Buyers.AnyPremium | models.py:185-187 | A feature list counts as premium if and only if one of its names is in the premium table. |
| Buyers.HasPremiumFeatures | models.py:182-188 | A cart is premium if and only if some item lists some name from the premium table among its premium features. |
| Buyers.ApplySpecialDiscount | models.py:165-180 | The discount is 50 above 400, 20 above 200 up to 400, and 0 otherwise. The total is the larger of 0 and the amount minus the discount. |
| Buyers.SumCosts | models.py:150-163 | A premium cart is surcharged 15% of the breakdown's sum and the surcharge is recorded; otherwise the recorded surcharge is kept. The special discount then applies to the surcharged sum. |
| Buyers.NewBuyer | models.py:94-97 | Defines `Buyer.__init__`, a buyer with both recorded amounts at 0; Buyers.CheckoutTotal and Buyers.SubtotalRecovered price carts from it. |
| Buyers.Record | models.py:156-178 | Defines the buyer after `sum_costs` has stored the surcharge and the special discount; Buyers.SumCostsIdempotent states that storing them a second time changes nothing. |
| Buyers.SumCostsIdempotent | models.py:150-180 | Calling `sum_costs` again on the same breakdown returns the same result and records the same amounts. |
| Buyers.SubtotalRecovered | menu.py:128-132 | The printed subtotal is a second `sum_costs` result plus the recorded discount minus the recorded surcharge. It equals the breakdown's plain sum whenever that sum is non-negative. |
| Buyers.BreakdownSum | models.py:152-154 | The breakdown's sum is the four plans' group subtotals added together. |
| Buyers.SumByPlan | models.py:152-154 | A four-plan breakdown sums to its four entries. |
| Buyers.SumOfFour | models.py:152-154 | A four-entry dict sums to its four values. |
| Buyers.PlanSubtotalNonNegative | models.py:139-142 | With non-negative prices, every plan's subtotal is at least 0. |
| Buyers.CheckoutTotal | menu.py:101-103 | With non-negative prices, pricing a cart end to end gives a breakdown sum that is at least 0. The surcharge is 15% of that sum exactly for premium carts, and 0 otherwise. The total is sum plus surcharge minus discount. |
| Buyers.UnlistedPlanIgnored | models.py:141-142 | An item whose plan is not one of the four changes no entry of the breakdown. |
| Buyers.EmptyCart | models.py:137-163 | An empty cart has four zero entries and is priced at 0, with no surcharge and no discount. |
| Validation.ValidatePlan | utils.py:5-21 | Empty input is rejected. Otherwise the answer is the capitalized stripped input, exactly when that is a plan name; any answer is a stripped plan name. |
| Validation.ValidatePlanIdempotent | utils.py:17-21 | Validating an accepted, non-empty name again returns the same name. |
| Validation.ValidatePlanAcceptsCanonicalName | utils.py:17-21 | A plan name that is stripped, non-empty and already capitalized is accepted as itself. |
| Validation.ValidatePlanReachable | utils.py:17-21 | A plan name can be produced by some input if and only if it is stripped and already capitalized. |
| Validation.AcceptedIsCanonical | utils.py:17-21 | Any accepted plan name is already in capitalized form. |
| Validation.BlankInputAcceptsEmptyName | utils.py:14-21 | A blank but non-empty input passes the emptiness check and is looked up as the empty name. |
| Validation.ValidatePlanIgnoresPadding | utils.py:17 | Whitespace around a non-blank input does not change the verdict. |
| Validation.IndexByLowerFacts | utils.py:37-38 | The lower-cased index maps each key to a listed name whose lower-case form is that key. Every listed name's lower-case form is indexed. |
| Validation.FeatureIndexFacts | utils.py:37-38 | The index built from the ordinary and premium names covers every feature name and maps only to feature names. |
| Validation.FeatureIndex | utils.py:37-38 | Defines the lower-case lookup table; its properties are stated by Validation.FeatureIndexFacts, Validation.IndexByLowerLatest and Validation.IndexByLowerUntouched. |
| Validation.IndexByLower | utils.py:37-38 | Defines one dict comprehension merged into the table; its properties are stated by Validation.IndexByLowerFacts. |
| Validation.SelectFeatures | utils.py:24-47 | Valid answers are catalog feature names. Invalid answers are non-blank stripped inputs whose lower-case form matches no feature. There are never more answers than inputs, and exactly as many when no input is blank. |
| Validation.SelectFromFacts | utils.py:40-45 | The selection loop keeps the selection's contract for every prefix of the input. |
| Validation.SelectFrom | utils.py:40-45 | Defines the selection loop over the inputs; its properties are stated by Validation.SelectFromFacts and Validation.SelectFromAppend. |
| Validation.Classify | utils.py:41-45 | Defines one pass of the selection loop; its cases are stated by Validation.SelectMatchesInput, Validation.SelectRejectsUnmatched and Validation.SelectSkipsBlank. |
| Validation.SelectFromAppend | utils.py:40-45 | Selection keeps input order: selecting from two lists laid end to end gives the two selections laid end to end. |
| Validation.SelectFeaturesAppend | utils.py:24-47 | The same end-to-end property for the whole `select_features` operation. |
| Validation.SelectRecognisesName | utils.py:37-43 | If no two feature names share a lower-case form, an input matching a name up to case and padding selects that name. |
| Validation.IndexByLowerUntouched | utils.py:37-38 | Indexing names leaves alone any key that none of them lowers to. |
| Validation.IndexByLowerLatest | utils.py:37-38 | After indexing, each indexed name's lower-case form maps to one of those names, so a later table overwrites an earlier one. |
| Validation.SelectMatchesInput | utils.py:37-43 | For any catalog, an input that matches a feature name up to case and padding selects one feature name with the input's lower-case form, and reports nothing invalid. The chosen name is a premium one exactly when some premium name matches. |
| Validation.SelectSkipsBlank | utils.py:41-45 | An input that is blank after stripping contributes nothing, when no feature has an empty name. |
| Validation.SelectRejectsUnmatched | utils.py:41-45 | A non-blank input matching no feature, even up to case, is reported back stripped as invalid. |
| Validation.GetPlanCost | utils.py:66-70 | A known plan gives its catalog cost; an unknown name gives 0. |
| Validation.GetPlanCostAgreesWithItem | utils.py:66-70 | The stand-alone plan-cost lookup agrees with `Item.get_plan_cost` for every item on that plan. |
| Validation.ValidatePlanAvailability | utils.py:73-82 | A name is valid exactly when some entry of the plan table carries it. |
| Validation.CheckPlanAvailability | utils.py:85-99 | A plan is available if and only if its name is non-empty, it exists and it is not marked unavailable. Available if and only if there is no reason; each reason message is given exactly in its own case. |
| Validation.ValidateFeatureAvailability | utils.py:102-112 | A name is valid exactly when some entry of the ordinary or the premium table carries it. |
| Validation.CheckFeatureAvailability | utils.py:115-132 | The same decision table for features, where existing means ordinary or premium. |
| Scenarios.ItemCostExample | tests/test_gym_membership.py:80-89 | Family with Group Classes and Exclusive Gym Facilities costs 40 + 20 + 100 = 160. An unknown feature costs 0. |
| Scenarios.DefaultPlanPrices | models.py:7-24 | The built-in prices of Basic, Premium and Family are 25, 30 and 40. |
| Scenarios.DefaultFeaturePrices | models.py:26-31 | Personal Training costs 30 and Group Classes 20; an unlisted feature costs 0. |
| Scenarios.DefaultPremiumPrices | models.py:33-36 | The two premium features cost 100 and 80. |
| Scenarios.SingleFeatureCost | models.py:58-67 | A one-feature list costs that feature. |
| Scenarios.SpecialDiscountExamples | tests/test_gym_membership.py:39-51 | 250 earns 20 and pays 230; 450 earns 50 and pays 400. |
| Scenarios.SpecialDiscountBoundaries | models.py:175-180 | Both thresholds are strict: 200 earns nothing, 400 earns 20, and 400.01 earns 50. |
| Scenarios.DefaultHasBuiltInPrices | models.py:7-36 | The built-in tables have the prices the cart examples rely on. |
| Scenarios.GroupDiscountExample | tests/test_gym_membership.py:91-100 | Two Basic memberships cost 45 after the group discount. |
| Scenarios.MixedCartExample | tests/test_gym_membership.py:102-108 | One Basic and one Premium keep 25 and 30. |
| Scenarios.ItemCostParts | models.py:77-82 | An item with at most one feature per list costs its plan plus those features. |
| Scenarios.CountExample | tests/test_gym_membership.py:111-124 | Two Basic and one Student give counts 2 and 1, and only Basic qualifies as a group. |
| Scenarios.PremiumDetectionExample | tests/test_gym_membership.py:127-136 | A cart with no premium feature is not premium; one with Specialized Training Programs is. |
| Scenarios.SingleItemSum | models.py:133-154 | A one-item cart on a listed plan sums to that item's total. |
| Scenarios.UnlistedPlanPricedZero | models.py:137-142 | A one-item cart on a plan outside Basic, Premium, Student and Family sums to 0, whatever that plan costs. |
| Scenarios.SingleItemSubtotal | models.py:139-147 | In a one-item cart, the item's own plan gets its total and every other plan gets 0. |
| Scenarios.SurchargeExample | tests/test_gym_membership.py:54-67 | Basic with Exclusive Gym Facilities totals 125 + 18.75 = 143.75. |
| Scenarios.NoSurchargeExample | tests/test_gym_membership.py:69-78 | Basic with Personal Training pays 55, with no surcharge. |
| Scenarios.FamilyPairBreakdown | models.py:133-148 | Two Family memberships at 40 + 80 each: their breakdown holds 216 under Family, and that is all it sums to. |
| Scenarios.IntegrationExample | tests/test_gym_membership.py:139-167 | Two Family memberships with a premium feature: 216 after the group discount, a surcharge of 32.4, a discount of 20, and 228.4 in all. |
| Scenarios.TwoItemSubtotal | models.py:139-147 | The group subtotal of any two-item cart. |
| Scenarios.ValidatePlanBasicExamples | tests/test_gym_membership.py:10-11 | "Basic" and "basic" both validate to "Basic". |
| Scenarios.BasicNormalises | utils.py:17 | Stripping and capitalizing "Basic" or "basic" gives "Basic". |
| Scenarios.DefaultPlanNamesValidate | utils.py:17-21 | Every built-in plan name validates to itself. |
| Scenarios.DefaultPlanKeys | models.py:7-24 | The built-in plans are exactly Basic, Premium, Student and Family. |
| Scenarios.CanonicalPlanNames | models.py:7-24 | The built-in plan names are already in capitalized form. |
| Scenarios.ValidatePlanPaddedExample | tests/test_gym_membership.py:12 | "  premium " validates to "Premium". |
| Scenarios.PaddedPremiumNormalises | utils.py:17 | Stripping and capitalizing "  premium " gives "Premium". |
| Scenarios.PremiumCapitalizes | utils.py:17 | Capitalizing "premium" gives "Premium". |
| Scenarios.PaddedPremiumStrips | utils.py:17 | Stripping "  premium " gives "premium". |
| Scenarios.ValidatePlanRejectExamples | tests/test_gym_membership.py:13-14 | The empty input and "unknown" are rejected. |
| Scenarios.UnknownPlanNormalises | utils.py:17 | Stripping and capitalizing "unknown" gives "Unknown", which is no plan. |
| Scenarios.UnknownCapitalizes | utils.py:17 | Capitalizing "unknown" gives "Unknown". |
| Scenarios.UnknownStrips | utils.py:17 | "unknown" has no whitespace to strip. |
| Scenarios.DefaultLowerCaseUnique | models.py:26-36 | No two built-in feature names share a lower-case form. |
| Scenarios.UnknownFeatureRejected | tests/test_gym_membership.py:22 | "unknown" is returned as invalid. |
| Scenarios.CanonicalFeatureSelected | tests/test_gym_membership.py:20 | "Personal Training" is selected as itself. |
| Scenarios.PaddedFeatureSelected | tests/test_gym_membership.py:21 | "  access to pool  " selects "Access to Pool". |
| Scenarios.PaddedPoolNormalises | utils.py:41-42 | "  access to pool  " matches "Access to Pool" after stripping and lower-casing. |
| Scenarios.PaddedPoolStrips | utils.py:41 | Stripping "  access to pool  " gives "access to pool". |
| Scenarios.PoolLowerCase | utils.py:38 | "access to pool" and "Access to Pool" share a lower-case form. |
| Scenarios.SelectFeaturesExample | tests/test_gym_membership.py:17-22 | The test's three inputs give the two canonical names in input order, and "unknown" as invalid. |
| Scenarios.ThreeInputs | utils.py:40-45 | Three inputs are selected as the three one-input selections laid end to end. |
| Scenarios.GetPlanCostExamples | tests/test_gym_membership.py:25-28 | Basic costs 25 and "Nope" costs 0. |
| Scenarios.AvailabilityExamples | utils.py:85-99 | With the built-in tables, "Basic" is available. The empty name and "Gold" get their reasons. |
| Scenarios.FeatureAvailabilityExamples | utils.py:115-132 | With the built-in tables, a premium feature is available and "Sauna" does not exist. |

## Left out

- Console input, printing and menus (menu.py, main.py, `show_options`, `notify_discount`) are
  not modelled. They only read, print and sequence calls.
  The calls the menu makes in sequence appear as `Buyers.CheckoutTotal` and `Buyers.SubtotalRecovered`.
- config_manager.py is not modelled. It only reads a JSON file into a dict, and nothing in
  models.py or utils.py applies that dict to the tables.
- The plans' benefit texts are only printed by `show_options` and are not part of `Catalog`.
- The re-export module gym_membership.py is not modelled. It adds no logic.
- Floating-point rounding is not modelled; money is an exact `real`. The program's Python floats
  can differ in the last digits; its tests round, for example to 2 places for 228.4.
- `str.strip`, `str.lower` and `str.capitalize` are modelled for ASCII only. Non-ASCII whitespace
  and non-ASCII case mapping are left out.
- `getattr(Item, 'PLAN_AVAILABLE', {})` falls back to an empty map when the attribute is missing.
  The attribute always exists in the program, so the model always reads the map.
- Scenarios.GroupDiscountExample, Scenarios.MixedCartExample, Scenarios.PremiumDetectionExample,
  Scenarios.SurchargeExample, Scenarios.NoSurchargeExample and Scenarios.IntegrationExample are
  each stated for every catalog with the built-in prices the example uses (`BuiltInPrices`).
  They are not stated for the built-in catalog literally; `Scenarios.DefaultHasBuiltInPrices`
  connects the two.
- Validation.ValidatePlanIdempotent: excludes an accepted empty name. An empty name is rejected
  before lookup, so it would fail on a catalog that lists "" as a plan.
- Buyers.SubtotalRecovered: requires a non-negative breakdown sum. When the sum is negative,
  the floor at 0 makes the printed subtotal differ from the sum.
- Buyers.CalculateCosts: keeps the four plan names fixed at models.py:137, as the source does.
  A catalog with a fifth plan would have that plan accepted by `validar_plan` and then priced 0
  (`Scenarios.UnlistedPlanPricedZero`). The built-in catalog has only the four plans, so this
  is recorded as a limit of the source rather than corrected.

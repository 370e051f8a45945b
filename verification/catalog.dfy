/**
 The price tables the pricing code reads. In the program they are mutable class attributes of
 `Item`; here they are one immutable value handed to every operation, so that every property
 holds for any tables. The built-in tables are `Default`.
 */
module Catalogs {
  import opened Dicts

  datatype Catalog = Catalog(
    plans: Dict<real>,            // plan name -> plan cost (`Item.plan[name]['cost']`)
    ordinary: Dict<real>,         // `Item.ADDITIONAL_FEATURES`
    premium: Dict<real>,          // `Item.PREMIUM_FEATURES`
    planAvailable: Dict<bool>,    // `Item.PLAN_AVAILABLE`
    featureAvailable: Dict<bool>  // `Item.FEATURE_AVAILABLE`
  )

  /** The tables built into models.py; both availability maps start empty. */
  const Default: Catalog := Catalog(
    [("Basic", 25.0), ("Premium", 30.0), ("Student", 20.0), ("Family", 40.0)],
    [("Personal Training", 30.0), ("Group Classes", 20.0), ("Access to Pool", 15.0),
     ("Specialized Program", 40.0)],
    [("Exclusive Gym Facilities", 100.0), ("Specialized Training Programs", 80.0)],
    [],
    []
  )

  /** Every cost in the three price tables is non-negative. */
  predicate CostsNonNegative(cat: Catalog) {
    && (forall i :: 0 <= i < |cat.plans| ==> cat.plans[i].1 >= 0.0)
    && (forall i :: 0 <= i < |cat.ordinary| ==> cat.ordinary[i].1 >= 0.0)
    && (forall i :: 0 <= i < |cat.premium| ==> cat.premium[i].1 >= 0.0)
  }
}

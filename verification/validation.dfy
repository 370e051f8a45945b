/**
 The input validators of utils.py that feed the pricing engine: plan-name normalisation,
 feature selection, the plan-cost lookup and the availability decision tables.
 */
module Validation {
  import opened Wrappers
  import opened Dicts
  import opened Text
  import opened Catalogs
  import opened Items

  // ---------------------------------------------------------------------------------------
  // validar_plan

  /**
   `validar_plan`: an empty input is rejected; otherwise the input is stripped and capitalized,
   and the result is accepted exactly when it names a plan of the catalog.
   */
  function ValidatePlan(cat: Catalog, planInput: string): (r: Option<string>)
    ensures r.Some? ==> r.value in Keys(cat.plans) && Stripped(r.value)
    ensures r.Some? <==> planInput != [] && Capitalize(Strip(planInput)) in Keys(cat.plans)
    ensures r.Some? ==> r.value == Capitalize(Strip(planInput))
  {
    if planInput == [] then None
    else
      var normalizedPlan := Capitalize(Strip(planInput));
      CapitalizeStripped(Strip(planInput));
      if normalizedPlan in Keys(cat.plans) then Some(normalizedPlan) else None
  }

  /**
   Validating an accepted name again accepts it unchanged. (The one exception is a catalog with
   an empty plan name: a blank input normalises to it, but the empty string itself is rejected.)
   */
  lemma ValidatePlanIdempotent(cat: Catalog, planInput: string)
    requires ValidatePlan(cat, planInput).Some?
    requires ValidatePlan(cat, planInput).value != []
    ensures ValidatePlan(cat, ValidatePlan(cat, planInput).value) == ValidatePlan(cat, planInput)
  {
    var y := ValidatePlan(cat, planInput).value;
    assert [] + y + [] == y;
    StripCore([], y, []);
    CapitalizeIdempotent(Strip(planInput));
  }

  /** A plan name that is already stripped and capitalized is accepted as itself. */
  lemma ValidatePlanAcceptsCanonicalName(cat: Catalog, name: string)
    requires name in Keys(cat.plans) && name != []
    requires Stripped(name) && Capitalize(name) == name
    ensures ValidatePlan(cat, name) == Some(name)
  {
    StrippedFixed(name);
  }

  /**
   Which plan names can be chosen at all: exactly the catalog's names that are stripped and
   already in the form `str.capitalize()` produces. A catalog name with a second capital letter
   (say "Premium Plus") can never be chosen.
   */
  lemma ValidatePlanReachable(cat: Catalog, name: string)
    ensures (exists input :: ValidatePlan(cat, input) == Some(name))
        <==> name in Keys(cat.plans) && Stripped(name) && Capitalize(name) == name
  {
    if exists input :: ValidatePlan(cat, input) == Some(name) {
      var input :| ValidatePlan(cat, input) == Some(name);
      AcceptedIsCanonical(cat, input);
    }
    if name in Keys(cat.plans) && Stripped(name) && Capitalize(name) == name {
      if name == [] {
        BlankInputAcceptsEmptyName(cat);
      } else {
        ValidatePlanAcceptsCanonicalName(cat, name);
      }
    }
  }

  lemma AcceptedIsCanonical(cat: Catalog, input: string)
    ensures ValidatePlan(cat, input).Some? ==> Capitalize(ValidatePlan(cat, input).value) == ValidatePlan(cat, input).value
  {
    CapitalizeIdempotent(Strip(input));
  }

  /** A blank but non-empty input strips to the empty name, which a catalog may list. */
  lemma BlankInputAcceptsEmptyName(cat: Catalog)
    requires [] in Keys(cat.plans)
    ensures ValidatePlan(cat, " ") == Some([])
  {
    assert " " == [' '] + [] + [];
    StripCore([' '], [], []);
  }

  /** Whitespace around a non-blank input does not change the verdict. */
  lemma ValidatePlanIgnoresPadding(cat: Catalog, before: string, core: string, after: string)
    requires AllSpace(before) && AllSpace(after)
    requires Stripped(core) && core != []
    ensures ValidatePlan(cat, before + core + after) == ValidatePlan(cat, core)
  {
    StripCore(before, core, after);
    assert [] + core + [] == core;
    StripCore([], core, []);
  }

  // ---------------------------------------------------------------------------------------
  // select_features

  /**
   The lookup table `select_features` builds: each name's lower-case form mapped to the name,
   the ordinary table's names first and the premium table's after, a later name overwriting an
   earlier one with the same lower-case form.
   */
  function FeatureIndex(cat: Catalog): Dict<string> {
    IndexByLower(IndexByLower([], Keys(cat.ordinary)), Keys(cat.premium))
  }

  function IndexByLower(index: Dict<string>, names: seq<string>): Dict<string>
    decreases |names|
  {
    if names == [] then index
    else IndexByLower(Put(index, LowerStr(names[0]), names[0]), names[1..])
  }

  /** Every entry maps a name's lower-case form to one of the given names. */
  ghost predicate IndexOf(index: Dict<string>, names: seq<string>) {
    forall k :: Get(index, k).Some? ==> Get(index, k).value in names && LowerStr(Get(index, k).value) == k
  }

  /** Indexing more names keeps the index sound and covers every name added. */
  lemma {:induction false} IndexByLowerFacts(index: Dict<string>, known: seq<string>, names: seq<string>)
    requires IndexOf(index, known)
    ensures IndexOf(IndexByLower(index, names), known + names)
    ensures forall k :: k in Keys(index) ==> k in Keys(IndexByLower(index, names))
    ensures forall j :: 0 <= j < |names| ==> LowerStr(names[j]) in Keys(IndexByLower(index, names))
    decreases |names|
  {
    if names != [] {
      var next := Put(index, LowerStr(names[0]), names[0]);
      assert IndexOf(next, known + [names[0]]) by {
        forall k | Get(next, k).Some?
          ensures Get(next, k).value in known + [names[0]] && LowerStr(Get(next, k).value) == k
        {
          if k != LowerStr(names[0]) {
            assert Get(next, k) == Get(index, k);
          }
        }
      }
      assert known + [names[0]] + names[1..] == known + names;
      IndexByLowerFacts(next, known + [names[0]], names[1..]);
      forall j | 0 <= j < |names| ensures LowerStr(names[j]) in Keys(IndexByLower(index, names)) {
        if j > 0 {
          assert names[j] == names[1..][j - 1];
        } else {
          assert Get(next, LowerStr(names[0])).Some?;
        }
      }
      forall k | k in Keys(index) ensures k in Keys(IndexByLower(index, names)) {
        assert Get(index, k).Some?;
        if k != LowerStr(names[0]) {
          assert Get(next, k) == Get(index, k);
        }
      }
    }
  }

  /** All feature names of the catalog: the ordinary table's, then the premium table's. */
  function FeatureNames(cat: Catalog): seq<string> {
    Keys(cat.ordinary) + Keys(cat.premium)
  }

  /** The index maps exactly the lower-case forms of the catalog's feature names, to such names. */
  lemma FeatureIndexFacts(cat: Catalog)
    ensures IndexOf(FeatureIndex(cat), FeatureNames(cat))
    ensures forall j :: 0 <= j < |FeatureNames(cat)| ==> LowerStr(FeatureNames(cat)[j]) in Keys(FeatureIndex(cat))
  {
    var o := Keys(cat.ordinary);
    var first := IndexByLower([], o);
    IndexByLowerFacts([], [], o);
    assert [] + o == o;
    IndexByLowerFacts(first, o, Keys(cat.premium));
    forall j | 0 <= j < |FeatureNames(cat)| ensures LowerStr(FeatureNames(cat)[j]) in Keys(FeatureIndex(cat)) {
      if j < |o| {
        assert LowerStr(o[j]) in Keys(first);
      } else {
        assert FeatureNames(cat)[j] == Keys(cat.premium)[j - |o|];
      }
    }
  }

  /** How `select_features` treats one raw input. */
  datatype Choice = Valid(name: string) | Invalid(text: string) | Blank

  /**
   One iteration of `select_features`: the stripped, lower-cased input is looked up; a hit yields
   the canonical name, a non-empty miss yields the stripped input, an empty miss yields nothing.
   */
  function Classify(index: Dict<string>, raw: string): Choice {
    var cleanItem := LowerStr(Strip(raw));
    match Get(index, cleanItem)
    case Some(name) => Valid(name)
    case None => if cleanItem != [] then Invalid(Strip(raw)) else Blank
  }

  /** The selection loop over the inputs, in order. */
  function SelectFrom(index: Dict<string>, inputs: seq<string>): (seq<string>, seq<string>) {
    if inputs == [] then ([], [])
    else
      var (valid, invalid) := SelectFrom(index, inputs[..|inputs| - 1]);
      match Classify(index, inputs[|inputs| - 1])
      case Valid(name) => (valid + [name], invalid)
      case Invalid(text) => (valid, invalid + [text])
      case Blank => (valid, invalid)
  }

  /**
   `select_features`: returns the canonical feature names recognised (each a key of the ordinary
   or the premium table) and the stripped texts of the non-blank inputs not recognised. Every
   input contributes to at most one list, and an input that is not blank after stripping to
   exactly one.
   */
  function SelectFeatures(cat: Catalog, featuresInput: seq<string>): (r: (seq<string>, seq<string>))
    ensures forall f :: f in r.0 ==> f in Keys(cat.ordinary) || f in Keys(cat.premium)
    ensures forall t :: t in r.1 ==> t != [] && Stripped(t) && LowerStr(t) !in Keys(FeatureIndex(cat))
    ensures forall t :: t in r.1 ==> exists i :: 0 <= i < |featuresInput| && t == Strip(featuresInput[i])
    ensures |r.0| + |r.1| <= |featuresInput|
    ensures (forall i :: 0 <= i < |featuresInput| ==> Strip(featuresInput[i]) != []) ==>
              |r.0| + |r.1| == |featuresInput|
  {
    FeatureIndexFacts(cat);
    SelectFromFacts(cat, featuresInput);
    SelectFrom(FeatureIndex(cat), featuresInput)
  }

  lemma {:induction false} SelectFromFacts(cat: Catalog, inputs: seq<string>)
    requires IndexOf(FeatureIndex(cat), FeatureNames(cat))
    ensures var r := SelectFrom(FeatureIndex(cat), inputs);
            && (forall f :: f in r.0 ==> f in Keys(cat.ordinary) || f in Keys(cat.premium))
            && (forall t :: t in r.1 ==> t != [] && Stripped(t) && LowerStr(t) !in Keys(FeatureIndex(cat)))
            && (forall t :: t in r.1 ==> exists i :: 0 <= i < |inputs| && t == Strip(inputs[i]))
            && |r.0| + |r.1| <= |inputs|
            && ((forall i :: 0 <= i < |inputs| ==> Strip(inputs[i]) != []) ==> |r.0| + |r.1| == |inputs|)
  {
    if inputs != [] {
      var index := FeatureIndex(cat);
      var prefix := inputs[..|inputs| - 1];
      var raw := inputs[|inputs| - 1];
      SelectFromFacts(cat, prefix);
      var (valid, invalid) := SelectFrom(index, prefix);
      forall t | t in invalid ensures exists i :: 0 <= i < |inputs| && t == Strip(inputs[i]) {
        var i :| 0 <= i < |prefix| && t == Strip(prefix[i]);
        assert inputs[i] == prefix[i];
      }
      var cleanItem := LowerStr(Strip(raw));
      match Get(index, cleanItem)
      case Some(name) =>
        assert name in FeatureNames(cat);
      case None =>
        if cleanItem != [] {
          assert Strip(raw) == Strip(inputs[|inputs| - 1]);
        } else {
          assert |Strip(raw)| == |cleanItem| == 0;
        }
    }
  }

  /**
   Selection keeps the inputs' relative order: selecting from two lists one after the other
   gives the two results concatenated, list by list.
   */
  lemma {:induction false} SelectFromAppend(index: Dict<string>, a: seq<string>, b: seq<string>)
    ensures SelectFrom(index, a + b).0 == SelectFrom(index, a).0 + SelectFrom(index, b).0
    ensures SelectFrom(index, a + b).1 == SelectFrom(index, a).1 + SelectFrom(index, b).1
  {
    if b == [] {
      assert a + b == a;
    } else {
      var b' := b[..|b| - 1];
      assert (a + b)[..|a + b| - 1] == a + b';
      assert (a + b)[|a + b| - 1] == b[|b| - 1];
      SelectFromAppend(index, a, b');
      var ra := SelectFrom(index, a);
      var rb := SelectFrom(index, b');
      match Classify(index, b[|b| - 1])
      case Valid(name) =>
        assert ra.0 + rb.0 + [name] == ra.0 + (rb.0 + [name]);
      case Invalid(text) =>
        assert ra.1 + rb.1 + [text] == ra.1 + (rb.1 + [text]);
      case Blank =>
    }
  }

  /** No two distinct feature names of the catalog share a lower-case form. */
  ghost predicate LowerCaseUnique(cat: Catalog) {
    forall i, j :: 0 <= i < |FeatureNames(cat)| && 0 <= j < |FeatureNames(cat)| ==>
      LowerStr(FeatureNames(cat)[i]) == LowerStr(FeatureNames(cat)[j]) ==> FeatureNames(cat)[i] == FeatureNames(cat)[j]
  }

  /**
   When the catalog's feature names differ in more than case, an input that matches a feature
   name up to case and surrounding whitespace selects exactly that name.
   */
  lemma SelectRecognisesName(cat: Catalog, name: string, raw: string)
    requires LowerCaseUnique(cat)
    requires name in FeatureNames(cat)
    requires LowerStr(Strip(raw)) == LowerStr(name)
    ensures SelectFeatures(cat, [raw]) == ([name], [])
  {
    FeatureIndexFacts(cat);
    var index := FeatureIndex(cat);
    var j :| 0 <= j < |FeatureNames(cat)| && FeatureNames(cat)[j] == name;
    assert LowerStr(name) in Keys(index);
    var found := Get(index, LowerStr(name)).value;
    var i :| 0 <= i < |FeatureNames(cat)| && FeatureNames(cat)[i] == found;
    assert found == name;
    assert Classify(index, raw) == Valid(name);
    assert [raw][..0] == [];
    assert SelectFrom(index, []) == ([], []);
    assert SelectFrom(index, [raw]) == ([] + [name], []);
    assert [] + [name] == [name];
    assert SelectFeatures(cat, [raw]) == SelectFrom(index, [raw]);
  }

  /**
   An input whose stripped text matches no feature name up to case is reported back, stripped,
   as invalid.
   */
  lemma SelectRejectsUnmatched(cat: Catalog, raw: string)
    requires Strip(raw) != []
    requires forall j :: 0 <= j < |FeatureNames(cat)| ==> LowerStr(FeatureNames(cat)[j]) != LowerStr(Strip(raw))
    ensures SelectFeatures(cat, [raw]) == ([], [Strip(raw)])
  {
    FeatureIndexFacts(cat);
    var index := FeatureIndex(cat);
    var cleanItem := LowerStr(Strip(raw));
    forall v | v in FeatureNames(cat) ensures LowerStr(v) != cleanItem {
      var i :| 0 <= i < |FeatureNames(cat)| && FeatureNames(cat)[i] == v;
    }
    assert Get(index, cleanItem) == None;
    assert Classify(index, raw) == Invalid(Strip(raw));
    assert [raw][..0] == [];
    assert SelectFrom(index, []) == ([], []);
    assert SelectFrom(index, [raw]) == ([], [] + [Strip(raw)]);
    assert [] + [Strip(raw)] == [Strip(raw)];
    assert SelectFeatures(cat, [raw]) == SelectFrom(index, [raw]);
  }

  /** Indexing names never touches a key that none of them lowers to. */
  lemma {:induction false} IndexByLowerUntouched(index: Dict<string>, names: seq<string>, k: string)
    requires forall j :: 0 <= j < |names| ==> LowerStr(names[j]) != k
    ensures Get(IndexByLower(index, names), k) == Get(index, k)
    decreases |names|
  {
    if names != [] {
      var next := Put(index, LowerStr(names[0]), names[0]);
      assert Get(next, k) == Get(index, k);
      forall j | 0 <= j < |names[1..]| ensures LowerStr(names[1..][j]) != k {
        assert names[1..][j] == names[j + 1];
      }
      IndexByLowerUntouched(next, names[1..], k);
    }
  }

  /**
   After indexing names, the lower-case form of each of them maps to one of them: a later name
   wins over anything indexed before.
   */
  lemma {:induction false} IndexByLowerLatest(index: Dict<string>, names: seq<string>, j: nat)
    requires j < |names|
    ensures Get(IndexByLower(index, names), LowerStr(names[j])).Some?
    ensures Get(IndexByLower(index, names), LowerStr(names[j])).value in names
    decreases |names|
  {
    var next := Put(index, LowerStr(names[0]), names[0]);
    var k := LowerStr(names[j]);
    var rest := names[1..];
    if j > 0 {
      assert rest[j - 1] == names[j];
      IndexByLowerLatest(next, rest, j - 1);
    } else if j' :| 0 <= j' < |rest| && LowerStr(rest[j']) == k {
      IndexByLowerLatest(next, rest, j');
    } else {
      IndexByLowerUntouched(next, rest, k);
    }
  }

  /**
   An input that matches some feature name up to case and surrounding whitespace selects one
   feature name with that lower-case form, for any catalog. When names differ only in case the
   premium table decides: the premium table is indexed second and overwrites the ordinary one.
   */
  lemma SelectMatchesInput(cat: Catalog, raw: string)
    requires exists j :: 0 <= j < |FeatureNames(cat)| && LowerStr(FeatureNames(cat)[j]) == LowerStr(Strip(raw))
    ensures var r := SelectFeatures(cat, [raw]);
            && r.1 == [] && |r.0| == 1
            && r.0[0] in FeatureNames(cat) && LowerStr(r.0[0]) == LowerStr(Strip(raw))
            && (r.0[0] in Keys(cat.premium) <==>
                  exists j :: 0 <= j < |Keys(cat.premium)| && LowerStr(Keys(cat.premium)[j]) == LowerStr(Strip(raw)))
  {
    FeatureIndexFacts(cat);
    var index := FeatureIndex(cat);
    var cleanItem := LowerStr(Strip(raw));
    var j :| 0 <= j < |FeatureNames(cat)| && LowerStr(FeatureNames(cat)[j]) == cleanItem;
    assert Get(index, cleanItem).Some?;
    var name := Get(index, cleanItem).value;
    assert Classify(index, raw) == Valid(name);
    assert [raw][..0] == [];
    assert SelectFrom(index, []) == ([], []);
    assert SelectFrom(index, [raw]) == ([] + [name], []);
    assert [] + [name] == [name];
    assert SelectFeatures(cat, [raw]) == SelectFrom(index, [raw]);
    var premium := Keys(cat.premium);
    if p :| 0 <= p < |premium| && LowerStr(premium[p]) == cleanItem {
      IndexByLowerLatest(IndexByLower([], Keys(cat.ordinary)), premium, p);
    }
  }

  /**
   An input that is blank after stripping contributes nothing, unless the catalog lists a
   feature whose name is empty.
   */
  lemma SelectSkipsBlank(cat: Catalog, raw: string)
    requires Strip(raw) == []
    requires forall j :: 0 <= j < |FeatureNames(cat)| ==> FeatureNames(cat)[j] != []
    ensures SelectFeatures(cat, [raw]) == ([], [])
  {
    FeatureIndexFacts(cat);
    var index := FeatureIndex(cat);
    forall v | v in FeatureNames(cat) ensures LowerStr(v) != [] {
      var i :| 0 <= i < |FeatureNames(cat)| && FeatureNames(cat)[i] == v;
    }
    assert Get(index, LowerStr(Strip(raw))) == None;
    assert Classify(index, raw) == Blank;
    assert [raw][..0] == [];
    assert SelectFrom(index, []) == ([], []);
    assert SelectFeatures(cat, [raw]) == SelectFrom(index, [raw]);
  }

  /** `SelectFromAppend` for the catalog's own index. */
  lemma SelectFeaturesAppend(cat: Catalog, a: seq<string>, b: seq<string>)
    ensures SelectFeatures(cat, a + b).0 == SelectFeatures(cat, a).0 + SelectFeatures(cat, b).0
    ensures SelectFeatures(cat, a + b).1 == SelectFeatures(cat, a).1 + SelectFeatures(cat, b).1
  {
    SelectFromAppend(FeatureIndex(cat), a, b);
  }

  // ---------------------------------------------------------------------------------------
  // get_plan_cost and the availability checks

  /** `get_plan_cost` in utils.py: the catalog cost of a plan name, 0 when it is unknown. */
  function GetPlanCost(cat: Catalog, planName: string): (cost: real)
    ensures planName in Keys(cat.plans) ==> (planName, cost) in cat.plans
    ensures planName !in Keys(cat.plans) ==> cost == 0.0
  {
    if planName in Keys(cat.plans) then Get(cat.plans, planName).value else 0.0
  }

  /** The stand-alone lookup and `Item.get_plan_cost` agree on every name. */
  lemma GetPlanCostAgreesWithItem(cat: Catalog, planName: string, additional: seq<string>, premium: seq<string>)
    ensures GetPlanCost(cat, planName) == PlanCost(cat, Item(planName, additional, premium))
  {
  }

  /** The verdict of an availability check: a flag and, when unavailable, the reason. */
  datatype Availability = Availability(available: bool, reason: Option<string>)

  const PlanNameEmpty: string := "Nombre de plan vacío"
  const PlanMarkedUnavailable: string := "El plan está marcado como no disponible"
  const PlanMissing: string := "El plan no existe"

  const FeatureNameEmpty: string := "Nombre de característica vacío"
  const FeatureMarkedUnavailable: string := "La característica está marcada como no disponible"
  const FeatureMissing: string := "La característica no existe"

  /** `validate_plan_availability`: some entry of the plan table carries the name. */
  function ValidatePlanAvailability(cat: Catalog, planName: string): (r: bool)
    ensures r <==> exists i :: 0 <= i < |cat.plans| && cat.plans[i].0 == planName
  {
    KeysMember(cat.plans, planName);
    planName in Keys(cat.plans)
  }

  /**
   `check_plan_availability`: an empty name, an unknown plan, and a plan marked unavailable each
   get their own reason; a known plan not marked unavailable is available, without a reason.
   */
  function CheckPlanAvailability(cat: Catalog, planName: string): (r: Availability)
    ensures r.available <==> planName != [] && ValidatePlanAvailability(cat, planName)
                             && Get(cat.planAvailable, planName) != Some(false)
    ensures r.available <==> r.reason == None
    ensures r.reason == Some(PlanNameEmpty) <==> planName == []
    ensures r.reason == Some(PlanMissing) <==> planName != [] && !ValidatePlanAvailability(cat, planName)
    ensures r.reason == Some(PlanMarkedUnavailable)
        <==> planName != [] && ValidatePlanAvailability(cat, planName) && Get(cat.planAvailable, planName) == Some(false)
  {
    if planName == [] then Availability(false, Some(PlanNameEmpty))
    else if planName in Keys(cat.plans) then
      if ValueOr(Get(cat.planAvailable, planName), true) then Availability(true, None)
      else Availability(false, Some(PlanMarkedUnavailable))
    else Availability(false, Some(PlanMissing))
  }

  /** `validate_feature_availability`: some entry of the ordinary or the premium table carries the name. */
  function ValidateFeatureAvailability(cat: Catalog, featureName: string): (r: bool)
    ensures r <==> ((exists i :: 0 <= i < |cat.ordinary| && cat.ordinary[i].0 == featureName)
                    || (exists i :: 0 <= i < |cat.premium| && cat.premium[i].0 == featureName))
  {
    KeysMember(cat.ordinary, featureName);
    KeysMember(cat.premium, featureName);
    featureName in Keys(cat.ordinary) || featureName in Keys(cat.premium)
  }

  /** `check_feature_availability`: the same decision table over both feature tables. */
  function CheckFeatureAvailability(cat: Catalog, featureName: string): (r: Availability)
    ensures r.available <==> featureName != [] && ValidateFeatureAvailability(cat, featureName)
                             && Get(cat.featureAvailable, featureName) != Some(false)
    ensures r.available <==> r.reason == None
    ensures r.reason == Some(FeatureNameEmpty) <==> featureName == []
    ensures r.reason == Some(FeatureMissing) <==> featureName != [] && !ValidateFeatureAvailability(cat, featureName)
    ensures r.reason == Some(FeatureMarkedUnavailable)
        <==> featureName != [] && ValidateFeatureAvailability(cat, featureName)
             && Get(cat.featureAvailable, featureName) == Some(false)
  {
    if featureName == [] then Availability(false, Some(FeatureNameEmpty))
    else if featureName in Keys(cat.ordinary) || featureName in Keys(cat.premium) then
      if ValueOr(Get(cat.featureAvailable, featureName), true) then Availability(true, None)
      else Availability(false, Some(FeatureMarkedUnavailable))
    else Availability(false, Some(FeatureMissing))
  }
}

/** The matcher table of assets/all-products.js (`filterStrategies`) and the
    substring-precedence rule that picks a matcher for a filter name
    (`strategyPrecedence`). */
module Matchers {
  import opened JsStrings
  import opened Products

  /** The matchers of the table. The two availability entries of the table
      (`availability` and `filter.v.availability`) are one and the same matcher. */
  datatype Strategy = ProductTypeMatch | VendorMatch | TagMatch | AvailabilityMatch | DefaultMatch

  /** The precedence list: the first key contained in a filter name picks its matcher. */
  const Precedence: seq<(string, Strategy)> := [
    ("filter.v.availability", AvailabilityMatch),
    ("availability", AvailabilityMatch),
    ("product_type", ProductTypeMatch),
    ("vendor", VendorMatch),
    ("tag", TagMatch)
  ]

  /** Value spellings the availability matcher reads as "in stock" and "out of stock". */
  const InStockValues: seq<string> := ["1", "true", "available", "in stock", "in_stock"]
  const OutOfStockValues: seq<string> := ["0", "false", "sold out", "out of stock"]

  /** Key `i` of the precedence list occurs in `name`. */
  ghost predicate KeyIn(name: string, i: int)
    requires 0 <= i < |Precedence|
  {
    IsSubstring(Precedence[i].0, name)
  }

  /** The matcher chosen by the first key at or after position `from` that `name` contains. */
  function SelectFrom(name: string, from: nat): (s: Strategy)
    requires from <= |Precedence|
    ensures s == DefaultMatch <==> forall i :: from <= i < |Precedence| ==> !KeyIn(name, i)
    ensures s != DefaultMatch ==>
      exists i :: from <= i < |Precedence| && KeyIn(name, i) && s == Precedence[i].1
        && forall j :: from <= j < i ==> !KeyIn(name, j)
    decreases |Precedence| - from
  {
    if from == |Precedence| then DefaultMatch
    else if Includes(name, Precedence[from].0) then
      assert Precedence[from].1 != DefaultMatch;
      assert KeyIn(name, from);
      Precedence[from].1
    else SelectFrom(name, from + 1)
  }

  /** The matcher for a filter name: that of the first precedence key the name
      contains, or the default matcher when it contains none. */
  function Select(name: string): (s: Strategy)
    ensures s == DefaultMatch <==> forall i :: 0 <= i < |Precedence| ==> !KeyIn(name, i)
    ensures s != DefaultMatch ==>
      exists i :: 0 <= i < |Precedence| && KeyIn(name, i) && s == Precedence[i].1
        && forall j :: 0 <= j < i ==> !KeyIn(name, j)
  {
    SelectFrom(name, 0)
  }

  /** The availability matcher: a recognised "in stock" value matches available
      products, a recognised "out of stock" value matches the others, and any other
      value matches nothing. */
  function AvailabilityMatches(available: bool, value: string): (b: bool)
    ensures b ==> value in InStockValues || value in OutOfStockValues
  {
    if value in InStockValues then available
    else if value in OutOfStockValues then !available
    else false
  }

  /** The broad matcher used for any name no key picks out. */
  function DefaultMatches(p: Product, value: string): (b: bool)
    ensures value in p.tags || p.productType == value || p.vendor == value ==> b
    ensures value == "" ==> b
  {
    value in p.tags || p.productType == value || p.vendor == value || Includes(p.title, value)
  }

  /** Each matcher of the table applied to a record and a (lower-cased) value. */
  function Matches(s: Strategy, p: Product, value: string): (b: bool)
    ensures b && s in {ProductTypeMatch, VendorMatch, TagMatch} ==> DefaultMatches(p, value)
    ensures b && s == AvailabilityMatch ==> value in InStockValues || value in OutOfStockValues
    ensures s == DefaultMatch && value == "" ==> b
  {
    match s
    case ProductTypeMatch => p.productType == value
    case VendorMatch => p.vendor == value
    case TagMatch => value in p.tags
    case AvailabilityMatch => AvailabilityMatches(p.available, value)
    case DefaultMatch => DefaultMatches(p, value)
  }

  // ---------------------------------------------------------------------------
  // properties of the table

  /** The default matcher is exactly the disjunction of tag membership, product
      type, vendor and title containment. */
  lemma DefaultIsDisjunction(p: Product, value: string)
    ensures Matches(DefaultMatch, p, value) <==>
      (Matches(TagMatch, p, value) || Matches(ProductTypeMatch, p, value)
       || Matches(VendorMatch, p, value) || IsSubstring(value, p.title))
  {
  }

  /** Each exact-match matcher is subsumed by the default matcher. */
  lemma SpecificImpliesDefault(s: Strategy, p: Product, value: string)
    requires s in {ProductTypeMatch, VendorMatch, TagMatch}
    ensures Matches(s, p, value) ==> Matches(DefaultMatch, p, value)
  {
  }

  /** The availability matcher is tri-state: for a recognised value exactly one of an
      available and an unavailable product matches; an unrecognised value matches
      neither. */
  lemma AvailabilityTriState(value: string)
    ensures value in InStockValues ==>
      AvailabilityMatches(true, value) && !AvailabilityMatches(false, value)
    ensures value in OutOfStockValues ==>
      !AvailabilityMatches(true, value) && AvailabilityMatches(false, value)
    ensures value !in InStockValues && value !in OutOfStockValues ==>
      !AvailabilityMatches(true, value) && !AvailabilityMatches(false, value)
  {
  }

  /** Because the first key contains the second, a name resolves to the availability
      matcher exactly when it contains "availability". */
  lemma {:induction false} AvailabilityIffMentioned(name: string)
    ensures Select(name) == AvailabilityMatch <==> IsSubstring("availability", name)
  {
    var key0 := Precedence[0].0;
    assert OccursAt("availability", key0, 9) by {
      assert key0[9..21] == "availability";
    }
    if IsSubstring(key0, name) {
      SubstringTransitive("availability", key0, name);
    }
    if IsSubstring("availability", name) {
      assert KeyIn(name, 1);
      assert Select(name) != DefaultMatch;
      var i :| 0 <= i < |Precedence| && KeyIn(name, i) && Select(name) == Precedence[i].1
        && forall j :: 0 <= j < i ==> !KeyIn(name, j);
      assert i <= 1;
    } else {
      assert !KeyIn(name, 0) && !KeyIn(name, 1);
    }
  }

  /** A prefixed availability filter name resolves to the availability matcher. */
  lemma ExamplePrefixedAvailability()
    ensures Select("my_availability") == AvailabilityMatch
  {
    var name := "my_availability";
    assert name[3..15] == "availability";
    assert OccursAt("availability", name, 3);
    AvailabilityIffMentioned(name);
  }

  /** A filter name that mentions none of the keys falls back to the default matcher. */
  lemma ExampleUnrelatedName()
    ensures Select("size") == DefaultMatch
  {
    forall k | 0 <= k <= 1 ensures !OccursAt("tag", "size", k) {
      assert "size"[k..k + 3][0] == "size"[k];
    }
  }
}

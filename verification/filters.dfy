/** The filter pass of assets/all-products.js: reading the active filters from the
    checked facet inputs and the price inputs (`getActiveFilters`), deciding which
    products stay (`filterProducts`), showing them (`updateProductDisplay`) and
    resetting everything (`clearAllFilters`). */
module Filters {
  import opened Options
  import opened JsStrings
  import opened Products
  import opened Matchers
  import opened Entries

  /** An inclusive whole-number price range. */
  datatype PriceRange = PriceRange(min: int, max: int)

  /** The filters of one pass: an optional price range and, per normalised filter
      name, the selected values in the order their inputs appear. */
  datatype ActiveFilters = ActiveFilters(price: Option<PriceRange>, list: map<string, seq<string>>)

  /** A facet input: its name, its value and whether it is ticked. */
  datatype Checkbox = Checkbox(name: string, value: string, checked: bool)

  /** A price input element: missing from the page, or present with its value as
      `parseInt` reads it (`None` standing for NaN). */
  datatype PriceInput = Absent | Present(parsed: Option<int>)

  /** `parseInt(v) || fallback`: NaN and zero are both falsy. */
  function IntOr(parsed: Option<int>, fallback: int): (n: int)
    ensures parsed.Some? && parsed.value != 0 ==> n == parsed.value
    ensures parsed.None? || parsed.value == 0 ==> n == fallback
    ensures n == 0 ==> fallback == 0
  {
    match parsed
    case Some(n) => if n != 0 then n else fallback
    case None => fallback
  }

  /** `filter` followed by `map`: `f` applied to the elements `keep` accepts, in
      their original order. Picking the kept positions out of `xs` and mapping them
      gives the result, so it is an order-preserving subsequence of the images, one
      per accepted element. */
  function MapFilter<A, B(!new)>(xs: seq<A>, keep: A -> bool, f: A -> B): (r: seq<B>)
    ensures |r| == |KeptPositions(xs, keep)| <= |xs|
    ensures forall j :: 0 <= j < |r| ==> r[j] == f(xs[KeptPositions(xs, keep)[j]])
    ensures forall y :: y in r <==> exists i :: 0 <= i < |xs| && keep(xs[i]) && f(xs[i]) == y
    ensures (forall i :: 0 <= i < |xs| ==> !keep(xs[i])) ==> r == []
  {
    if |xs| == 0 then []
    else
      var n := |xs| - 1;
      var init := xs[..n];
      var r0 := MapFilter(init, keep, f);
      var idx0 := KeptPositions(init, keep);
      assert KeptPositions(xs, keep) == idx0 + (if keep(xs[n]) then [n] else []);
      assert forall j :: 0 <= j < |idx0| ==> xs[idx0[j]] == init[idx0[j]];
      var r := r0 + (if keep(xs[n]) then [f(xs[n])] else []);
      PickedImages(xs, keep, f, r);
      r
  }

  /** A list of the kept positions' images holds exactly the images of the accepted
      elements, and nothing when no element is accepted. */
  lemma PickedImages<A, B(!new)>(xs: seq<A>, keep: A -> bool, f: A -> B, r: seq<B>)
    requires |r| == |KeptPositions(xs, keep)|
    requires forall j :: 0 <= j < |r| ==> r[j] == f(xs[KeptPositions(xs, keep)[j]])
    ensures |r| <= |xs|
    ensures forall y :: y in r <==> exists i :: 0 <= i < |xs| && keep(xs[i]) && f(xs[i]) == y
    ensures (forall i :: 0 <= i < |xs| ==> !keep(xs[i])) ==> r == []
  {
    var idx := KeptPositions(xs, keep);
    KeptPositionsFit(xs, keep);
    forall y ensures y in r <==> exists i :: 0 <= i < |xs| && keep(xs[i]) && f(xs[i]) == y {
      if y in r {
        var j :| 0 <= j < |r| && r[j] == y;
        assert keep(xs[idx[j]]);
      }
      if i :| 0 <= i < |xs| && keep(xs[i]) && f(xs[i]) == y {
        var j :| 0 <= j < |idx| && idx[j] == i;
        assert r[j] == y;
      }
    }
    if |r| > 0 {
      assert keep(xs[idx[0]]);
    }
  }

  /** The (name, value) pairs of the ticked inputs, each trimmed and lower-cased:
      the j-th pair comes from the j-th ticked input in page order, a pair is listed
      exactly when some ticked input normalises to it, and nothing is listed when no
      input is ticked. */
  function Ticked(boxes: seq<Checkbox>): (pairs: seq<(string, string)>)
    ensures |pairs| <= |boxes|
    ensures forall q :: q in pairs <==>
      exists i :: 0 <= i < |boxes| && boxes[i].checked && Normalise(boxes[i]) == q
    ensures forall q :: q in pairs ==> NormalPair(q)
    ensures (forall i :: 0 <= i < |boxes| ==> !boxes[i].checked) ==> pairs == []
    ensures |pairs| == |KeptPositions(boxes, IsTicked)|
    ensures forall j :: 0 <= j < |pairs| ==> pairs[j] == Normalise(boxes[KeptPositions(boxes, IsTicked)[j]])
  {
    MapFilter(boxes, IsTicked, Normalise)
  }

  predicate IsTicked(b: Checkbox)
  {
    b.checked
  }

  /** Both halves of a pair are trimmed and lower-case. */
  predicate NormalPair(q: (string, string))
  {
    IsTrimmed(q.0) && IsLowered(q.0) && IsTrimmed(q.1) && IsLowered(q.1)
  }

  /** An input's name and value, trimmed and lower-cased. */
  function Normalise(b: Checkbox): (q: (string, string))
    ensures q == (Lower(Trim(b.name)), Lower(Trim(b.value)))
    ensures NormalPair(q)
  {
    LowerKeepsTrimmed(Trim(b.name));
    LowerKeepsTrimmed(Trim(b.value));
    (Lower(Trim(b.name)), Lower(Trim(b.value)))
  }

  /** The grouping loop over the ticked inputs: the keys are the names that have
      values, and each key lists its values in input order. */
  function Group(pairs: seq<(string, string)>): (m: map<string, seq<string>>)
    ensures forall k :: k in m <==> ValuesOf(pairs, k) != []
    ensures forall k :: k in m ==> m[k] == ValuesOf(pairs, k)
  {
    if |pairs| == 0 then map[]
    else
      var m0 := Group(pairs[..|pairs| - 1]);
      var q := pairs[|pairs| - 1];
      m0[q.0 := (if q.0 in m0 then m0[q.0] else []) + [q.1]]
  }

  /** Reads the active filters. There is a price range exactly when both price
      inputs exist; a falsy lower bound reads as 0 and a falsy upper bound as the
      slider maximum. */
  function GetActiveFilters(boxes: seq<Checkbox>, minIn: PriceInput, maxIn: PriceInput, maxPrice: int)
    : (f: ActiveFilters)
    ensures f.price.Some? <==> minIn.Present? && maxIn.Present?
    ensures f.price.Some? ==>
      (if minIn.parsed.Some? && minIn.parsed.value != 0 then f.price.value.min == minIn.parsed.value
       else f.price.value.min == 0)
    ensures f.price.Some? ==>
      (if maxIn.parsed.Some? && maxIn.parsed.value != 0 then f.price.value.max == maxIn.parsed.value
       else f.price.value.max == maxPrice)
    ensures forall k :: k in f.list <==> ValuesOf(Ticked(boxes), k) != []
    ensures forall k :: k in f.list ==> f.list[k] == ValuesOf(Ticked(boxes), k)
  {
    var price :=
      if minIn.Present? && maxIn.Present?
      then Some(PriceRange(IntOr(minIn.parsed, 0), IntOr(maxIn.parsed, maxPrice)))
      else None;
    ActiveFilters(price, Group(Ticked(boxes)))
  }

  /** Every grouped value is trimmed and lower-cased. */
  lemma {:induction false} GroupedValuesAreNormal(pairs: seq<(string, string)>, name: string)
    requires forall i :: 0 <= i < |pairs| ==> IsLowered(pairs[i].1)
    ensures forall i :: 0 <= i < |ValuesOf(pairs, name)| ==> IsLowered(ValuesOf(pairs, name)[i])
  {
    if |pairs| > 0 {
      var init := pairs[..|pairs| - 1];
      assert forall i :: 0 <= i < |init| ==> init[i] == pairs[i];
      GroupedValuesAreNormal(init, name);
    }
  }

  // ---------------------------------------------------------------------------
  // the keep predicate

  predicate InPriceRange(p: Product, price: Option<PriceRange>)
  {
    match price
    case None => true
    case Some(r) => !(p.price < r.min as real || p.price > r.max as real)
  }

  /** `values.some(v => strategy(product, v.toLowerCase()))`, tried in order. */
  function AnyValueMatches(s: Strategy, p: Product, values: seq<string>): (b: bool)
    ensures b <==> exists i :: 0 <= i < |values| && Matches(s, p, Lower(values[i]))
  {
    if |values| == 0 then false
    else if Matches(s, p, Lower(values[0])) then true
    else
      var b := AnyValueMatches(s, p, values[1..]);
      assert forall i :: 1 <= i < |values| ==> values[i] == values[1..][i - 1];
      b
  }

  /** One group of the list filters: skipped when it holds no value, otherwise some
      value must match under the matcher the group's name selects. */
  predicate GroupPasses(p: Product, name: string, values: seq<string>)
  {
    |values| == 0 || AnyValueMatches(Select(name), p, values)
  }

  /** The test `filterProducts` applies to each product. */
  predicate Keep(p: Product, f: ActiveFilters)
  {
    InPriceRange(p, f.price) && forall name :: name in f.list ==> GroupPasses(p, name, f.list[name])
  }

  /** A product is kept exactly when it lies in the inclusive price range (when there
      is one) and every non-empty group has a value it matches. */
  lemma KeepIff(p: Product, f: ActiveFilters)
    ensures Keep(p, f) <==>
      (f.price.Some? ==> f.price.value.min as real <= p.price <= f.price.value.max as real)
      && forall name :: name in f.list && |f.list[name]| > 0 ==>
           exists i :: 0 <= i < |f.list[name]| && Matches(Select(name), p, Lower(f.list[name][i]))
  {
  }

  /** The values reach the matchers lower-cased once more, which changes nothing for
      grouped values: they were lower-cased when grouped. */
  lemma RelowerIsHarmless(s: Strategy, p: Product, values: seq<string>)
    requires forall i :: 0 <= i < |values| ==> IsLowered(values[i])
    ensures AnyValueMatches(s, p, values) <==> exists i :: 0 <= i < |values| && Matches(s, p, values[i])
  {
    forall i | 0 <= i < |values| ensures Lower(values[i]) == values[i] {
      LowerOfLowered(values[i]);
    }
  }

  // ---------------------------------------------------------------------------
  // filtering

  /** The positions `filter` keeps: strictly increasing, and exactly the positions
      whose element passes. */
  function KeptPositions<T>(xs: seq<T>, keep: T -> bool): (idx: seq<nat>)
    ensures forall j :: 0 <= j < |idx| ==> idx[j] < |xs|
    ensures forall j, k :: 0 <= j < k < |idx| ==> idx[j] < idx[k]
    ensures forall i :: 0 <= i < |xs| ==> (keep(xs[i]) <==> i in idx)
  {
    if |xs| == 0 then []
    else
      var n := |xs| - 1;
      var init := xs[..n];
      var idx0 := KeptPositions(init, keep);
      assert forall i :: 0 <= i < n ==> xs[i] == init[i];
      assert forall j :: 0 <= j < |idx0| ==> idx0[j] < n;
      var idx := idx0 + (if keep(xs[n]) then [n] else []);
      assert forall i :: i in idx <==> i in idx0 || (keep(xs[n]) && i == n);
      idx
  }

  /** There are no more kept positions than elements. */
  lemma {:induction false} KeptPositionsFit<T>(xs: seq<T>, keep: T -> bool)
    ensures |KeptPositions(xs, keep)| <= |xs|
  {
    if |xs| > 0 {
      KeptPositionsFit(xs[..|xs| - 1], keep);
    }
  }

  /** When every element passes, every position is kept, in order. */
  lemma {:induction false} KeptAll<T>(xs: seq<T>, keep: T -> bool)
    requires forall i :: 0 <= i < |xs| ==> keep(xs[i])
    ensures |KeptPositions(xs, keep)| == |xs|
    ensures forall j :: 0 <= j < |xs| ==> KeptPositions(xs, keep)[j] == j
  {
    if |xs| > 0 {
      var init := xs[..|xs| - 1];
      assert forall i :: 0 <= i < |init| ==> keep(init[i]) by {
        forall i | 0 <= i < |init| ensures keep(init[i]) { assert init[i] == xs[i]; }
      }
      KeptAll(init, keep);
      KeptAllStep(xs, init, keep);
    }
  }

  /** The step of `KeptAll`: one more kept element extends the identity positions. */
  lemma KeptAllStep<T>(xs: seq<T>, init: seq<T>, keep: T -> bool)
    requires |xs| > 0 && init == xs[..|xs| - 1] && keep(xs[|xs| - 1])
    requires |KeptPositions(init, keep)| == |init|
    requires forall j :: 0 <= j < |init| ==> KeptPositions(init, keep)[j] == j
    ensures |KeptPositions(xs, keep)| == |xs|
    ensures forall j :: 0 <= j < |xs| ==> KeptPositions(xs, keep)[j] == j
  {
    var n := |xs| - 1;
    var idx0 := KeptPositions(init, keep);
    var idx := KeptPositions(xs, keep);
    assert idx == idx0 + [n];
    forall j | 0 <= j < |xs| ensures idx[j] == j {
      if j < n { assert idx[j] == idx0[j]; }
    }
  }

  /** `filterProducts`: the products that pass the active filters, in page order. */
  function FilterProducts(ps: seq<Product>, f: ActiveFilters): (r: seq<Product>)
    ensures forall x :: x in r <==> x in ps && Keep(x, f)
    ensures |r| == |KeptPositions(ps, p => Keep(p, f))|
    ensures forall j :: 0 <= j < |r| ==> r[j] == ps[KeptPositions(ps, p => Keep(p, f))[j]]
  {
    MapFilter(ps, p => Keep(p, f), p => p)
  }

  /** With no price range and only empty groups, every product is kept. */
  lemma NoFiltersKeepAll(ps: seq<Product>, f: ActiveFilters)
    requires f.price.None?
    requires forall name :: name in f.list ==> f.list[name] == []
    ensures FilterProducts(ps, f) == ps
  {
    AllPassKeepsAll(ps, f);
  }

  /** When every product passes, filtering returns the list unchanged. */
  lemma AllPassKeepsAll(ps: seq<Product>, f: ActiveFilters)
    requires forall i :: 0 <= i < |ps| ==> Keep(ps[i], f)
    ensures FilterProducts(ps, f) == ps
  {
    KeptAll(ps, p => Keep(p, f));
    var r := FilterProducts(ps, f);
    assert |r| == |ps|;
    forall j | 0 <= j < |r| ensures r[j] == ps[j] { }
  }

  /** With one product-type group and no price range, exactly the products whose
      type equals one of the selected values are kept. */
  lemma SingleTypeGroup(ps: seq<Product>, name: string, values: seq<string>)
    requires Select(name) == ProductTypeMatch && |values| > 0
    ensures var f := ActiveFilters(None, map[name := values]);
      forall x :: x in FilterProducts(ps, f) <==>
        x in ps && exists i :: 0 <= i < |values| && x.productType == Lower(values[i])
  {
    var f := ActiveFilters(None, map[name := values]);
    forall x | x in ps
      ensures Keep(x, f) <==> exists i :: 0 <= i < |values| && x.productType == Lower(values[i])
    {
      assert f.list.Keys == {name};
      assert Keep(x, f) <==> AnyValueMatches(ProductTypeMatch, x, values);
    }
  }

  lemma ProductTypeNameSelects()
    ensures Select("product_type") == ProductTypeMatch
  {
    var name := "product_type";
    assert Precedence[2].0 == name;
    assert name[0..|name|] == name;
    assert OccursAt(name, name, 0);
    assert KeyIn(name, 2);
    assert !OccursAt("availability", name, 0) by { assert name[0..12][0] != "availability"[0]; }
    assert !KeyIn(name, 1);
  }

  /** Ticking one already lower-case value under a product-type facet keeps exactly
      the products of that type. */
  lemma SingleTypeValue(ps: seq<Product>, name: string, v: string)
    requires Select(name) == ProductTypeMatch && IsLowered(v)
    ensures var f := ActiveFilters(None, map[name := [v]]);
      forall x :: x in FilterProducts(ps, f) <==> x in ps && x.productType == v
  {
    LowerOfLowered(v);
    SingleTypeGroup(ps, name, [v]);
    var f := ActiveFilters(None, map[name := [v]]);
    var vs := [v];
    assert Lower(vs[0]) == v;
    forall x ensures x in FilterProducts(ps, f) <==> x in ps && x.productType == v {
      assert (exists i :: 0 <= i < |vs| && x.productType == Lower(vs[i])) <==> x.productType == v;
    }
  }

  /** Records built from a page's cards carry distinct element references, and the
      filtered list keeps them in strictly increasing page order. */
  lemma FilteredElementsIncrease(cards: seq<Card>, f: ActiveFilters)
    ensures var r := FilterProducts(InitializeProducts(cards), f);
      forall j, k :: 0 <= j < k < |r| ==> r[j].element < r[k].element
  {
    var ps := InitializeProducts(cards);
    var idx := KeptPositions(ps, p => Keep(p, f));
  }

  // ---------------------------------------------------------------------------
  // display

  /** `updateProductDisplay`: a card is shown exactly when its element is among the
      shown records, and the counter reads the number of shown records. */
  function UpdateProductDisplay(ps: seq<Product>, shown: seq<Product>): (d: (seq<bool>, nat))
    ensures |d.0| == |ps| && d.1 == |shown|
    ensures forall i :: 0 <= i < |ps| ==> (d.0[i] <==> exists x :: x in shown && x.element == ps[i].element)
  {
    var elements := set x | x in shown :: x.element;
    (seq(|ps|, i requires 0 <= i < |ps| => ps[i].element in elements), |shown|)
  }

  /** After a filter pass over a page's records, a card is visible exactly when its
      record passes the filters. */
  lemma {:induction false} VisibleIffKept(cards: seq<Card>, f: ActiveFilters)
    ensures var ps := InitializeProducts(cards);
      var d := UpdateProductDisplay(ps, FilterProducts(ps, f));
      forall i :: 0 <= i < |ps| ==> (d.0[i] <==> Keep(ps[i], f))
  {
    var ps := InitializeProducts(cards);
    ElementsArePositions(cards);
    var r := FilterProducts(ps, f);
    forall i | 0 <= i < |ps|
      ensures (exists x :: x in r && x.element == ps[i].element) <==> Keep(ps[i], f)
    {
      if x :| x in r && x.element == ps[i].element {
        var j :| 0 <= j < |ps| && ps[j] == x;
        assert j == i;
      }
      if Keep(ps[i], f) {
        assert ps[i] in r;
      }
    }
  }

  // ---------------------------------------------------------------------------
  // the page

  /** The filter state of the listing page: the records, the slider bounds, the facet
      inputs, the two price inputs and the records currently shown. */
  datatype Page = Page(
    products: seq<Product>,
    bounds: Bounds,
    boxes: seq<Checkbox>,
    minInput: PriceInput,
    maxInput: PriceInput,
    shown: seq<Product>)

  /** Page load: records from the cards, slider bounds from their prices, all shown. */
  function LoadPage(cards: seq<Card>, boxes: seq<Checkbox>, minIn: PriceInput, maxIn: PriceInput): (page: Page)
    ensures page.products == InitializeProducts(cards) && page.bounds == SliderBounds(page.products)
    ensures page.boxes == boxes && page.minInput == minIn && page.maxInput == maxIn
    ensures |page.products| == |cards| && page.shown == page.products
    ensures forall i :: 0 <= i < |page.products| ==>
      page.bounds.minPrice as real <= page.products[i].price <= page.bounds.maxPrice as real
  {
    var ps := InitializeProducts(cards);
    Page(ps, SliderBounds(ps), boxes, minIn, maxIn, ps)
  }

  /** One filter pass over the page. */
  function ApplyFilters(page: Page): (r: Page)
    ensures r.products == page.products && r.boxes == page.boxes && r.bounds == page.bounds
    ensures r.minInput == page.minInput && r.maxInput == page.maxInput
    ensures r.shown == FilterProducts(page.products,
      GetActiveFilters(page.boxes, page.minInput, page.maxInput, page.bounds.maxPrice))
    ensures forall x :: x in r.shown <==>
      x in page.products && Keep(x, GetActiveFilters(page.boxes, page.minInput, page.maxInput, page.bounds.maxPrice))
  {
    var f := GetActiveFilters(page.boxes, page.minInput, page.maxInput, page.bounds.maxPrice);
    page.(shown := FilterProducts(page.products, f))
  }

  /** `clearAllFilters`: every input is unticked, the slider (when the page has one)
      moves back to its bounds and writes them into the price inputs, and all records
      are shown again. */
  function ClearAllFilters(page: Page, hasSlider: bool): (r: Page)
    requires hasSlider ==> page.minInput.Present? && page.maxInput.Present?
    ensures r.products == page.products && r.bounds == page.bounds && r.shown == page.products
    ensures |r.boxes| == |page.boxes|
    ensures forall i :: 0 <= i < |r.boxes| ==>
      !r.boxes[i].checked && r.boxes[i].name == page.boxes[i].name && r.boxes[i].value == page.boxes[i].value
    ensures hasSlider ==>
      r.minInput == Present(Some(page.bounds.minPrice)) && r.maxInput == Present(Some(page.bounds.maxPrice))
    ensures !hasSlider ==> r.minInput == page.minInput && r.maxInput == page.maxInput
  {
    var boxes := seq(|page.boxes|, i requires 0 <= i < |page.boxes| => page.boxes[i].(checked := false));
    if hasSlider then
      page.(boxes := boxes, minInput := Present(Some(page.bounds.minPrice)),
            maxInput := Present(Some(page.bounds.maxPrice)), shown := page.products)
    else
      page.(boxes := boxes, shown := page.products)
  }

  /** On a page whose slider bounds came from its records, a filter pass right after
      clearing shows every record, so the reset agrees with filtering. */
  lemma {:induction false} ClearThenFilterShowsAll(page: Page)
    requires page.bounds == SliderBounds(page.products)
    requires page.minInput.Present? && page.maxInput.Present?
    ensures ApplyFilters(ClearAllFilters(page, true)).shown == page.products
  {
    var c := ClearAllFilters(page, true);
    var f := GetActiveFilters(c.boxes, c.minInput, c.maxInput, c.bounds.maxPrice);
    assert Ticked(c.boxes) == [];
    assert f.price == Some(PriceRange(page.bounds.minPrice, page.bounds.maxPrice));
    AllInBoundsKept(page.products, f);
  }

  /** Right after page load, clearing and filtering again shows every card's record:
      the bounds load computes are the ones the reset writes back. */
  lemma LoadClearFilterShowsAll(cards: seq<Card>, boxes: seq<Checkbox>, minIn: PriceInput, maxIn: PriceInput)
    requires minIn.Present? && maxIn.Present?
    ensures var page := LoadPage(cards, boxes, minIn, maxIn);
      ApplyFilters(ClearAllFilters(page, true)).shown == InitializeProducts(cards)
  {
    ClearThenFilterShowsAll(LoadPage(cards, boxes, minIn, maxIn));
  }

  lemma AllInBoundsKept(ps: seq<Product>, f: ActiveFilters)
    requires f.list == map[] && f.price.Some?
    requires forall i :: 0 <= i < |ps| ==>
      f.price.value.min as real <= ps[i].price <= f.price.value.max as real
    ensures FilterProducts(ps, f) == ps
  {
    forall i | 0 <= i < |ps| ensures Keep(ps[i], f) {
      assert InPriceRange(ps[i], f.price);
    }
    AllPassKeepsAll(ps, f);
  }
}

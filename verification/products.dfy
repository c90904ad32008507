/** Product records built once from the rendered product cards, and the price
    bounds the slider starts from (`initializeProducts` in assets/all-products.js). */
module Products {
  import opened Options
  import opened JsStrings

  /** The data a product card carries. A missing data attribute reads as the empty
      string, which the script treats exactly like an empty attribute. The price is
      taken as already parsed; `titleText` is the text of the card's title element,
      when the card has one. */
  datatype Card = Card(
    price: real,
    tags: string,
    vendor: string,
    productType: string,
    titleData: string,
    titleText: Option<string>,
    available: string)

  /** One product record. `element` identifies the card the record was built from
      (its position on the page), standing for the script's element reference. */
  datatype Product = Product(
    element: nat,
    price: real,
    tags: seq<string>,
    vendor: string,
    productType: string,
    title: string,
    available: bool)

  /** The spellings of "in stock" a card's availability attribute may use. */
  const InStockSpellings: seq<string> := ["true", "instock", "in_stock", "available"]

  /** Every tag of a record is trimmed and lower-cased and holds no comma. */
  predicate NormalTag(t: string)
  {
    IsTrimmed(t) && IsLowered(t) && ',' !in t
  }

  /** `a || b` on strings: the first one unless it is empty. */
  function OrElse(a: string, b: string): (r: string)
    ensures r == a || r == b
    ensures r == "" <==> a == "" && b == ""
  {
    if a != "" then a else b
  }

  /** The title a card shows: the data attribute, else the title element's text,
      else nothing. */
  function CardTitle(c: Card): (r: string)
    ensures c.titleData != "" ==> r == c.titleData
    ensures c.titleData == "" && c.titleText.Some? ==> r == c.titleText.value
    ensures c.titleData == "" && c.titleText.None? ==> r == ""
  {
    OrElse(c.titleData, match c.titleText case Some(t) => t case None => "")
  }

  /** The tags of a tags attribute: its comma-separated pieces, each trimmed and
      lower-cased. */
  function NormaliseTags(raw: string): (tags: seq<string>)
    ensures |tags| == CountChar(raw, ',') + 1 == |Split(raw, ',')|
    ensures forall i :: 0 <= i < |tags| ==> NormalTag(tags[i])
    ensures forall i :: 0 <= i < |tags| ==> tags[i] == Lower(Trim(Split(raw, ',')[i]))
  {
    var pieces := Split(raw, ',');
    seq(|pieces|, i requires 0 <= i < |pieces| => TrimLower(pieces[i]))
  }

  /** `tag.trim().toLowerCase()` on a piece that holds no comma. */
  function TrimLower(piece: string): (t: string)
    requires ',' !in piece
    ensures NormalTag(t)
  {
    LowerKeepsTrimmed(Trim(piece));
    TrimLowerAvoids(piece, ',');
    Lower(Trim(piece))
  }

  /** Builds the record for the card at position `element`. */
  function MakeProduct(element: nat, c: Card): (p: Product)
    ensures p.element == element && p.price == c.price
    ensures |p.tags| == CountChar(c.tags, ',') + 1
    ensures forall i :: 0 <= i < |p.tags| ==> NormalTag(p.tags[i])
    ensures forall i :: 0 <= i < |p.tags| ==> p.tags[i] == Lower(Trim(Split(c.tags, ',')[i]))
    ensures p.vendor == Lower(c.vendor) && p.productType == Lower(c.productType)
    ensures p.title == Lower(CardTitle(c))
    ensures p.available <==> Lower(c.available) in InStockSpellings
  {
    Product(
      element,
      c.price,
      NormaliseTags(c.tags),
      Lower(c.vendor),
      Lower(c.productType),
      Lower(CardTitle(c)),
      Lower(c.available) in InStockSpellings)
  }

  /** The record list, one record per card, in page order. */
  function InitializeProducts(cards: seq<Card>): (ps: seq<Product>)
    ensures |ps| == |cards|
    ensures forall i :: 0 <= i < |ps| ==> ps[i] == MakeProduct(i, cards[i])
  {
    seq(|cards|, i requires 0 <= i < |cards| => MakeProduct(i, cards[i]))
  }

  /** Each record's element reference is its card's position, and it carries that
      card's price. */
  lemma ElementsArePositions(cards: seq<Card>)
    ensures forall i :: 0 <= i < |cards| ==>
      InitializeProducts(cards)[i].element == i && InitializeProducts(cards)[i].price == cards[i].price
  {
    var ps := InitializeProducts(cards);
    forall i | 0 <= i < |cards| ensures ps[i].element == i && ps[i].price == cards[i].price {
      assert ps[i] == MakeProduct(i, cards[i]);
    }
  }

  /** The tags of a card with no tags attribute are a single empty tag. */
  lemma EmptyTagsGiveOneEmptyTag(element: nat, c: Card)
    requires c.tags == ""
    ensures MakeProduct(element, c).tags == [""]
  {
    assert Split("", ',') == [""];
    assert Lower(Trim("")) == "";
  }

  /** A tag attribute whose pieces are already normal yields exactly those pieces. */
  lemma {:induction false} NormalTagsRoundTrip(parts: seq<string>)
    requires |parts| >= 1
    requires forall i :: 0 <= i < |parts| ==> NormalTag(parts[i])
    ensures NormaliseTags(Join(parts, ',')) == parts
  {
    SplitJoin(parts, ',');
    forall i | 0 <= i < |parts|
      ensures TrimLower(parts[i]) == parts[i]
    {
      TrimOfTrimmed(parts[i]);
      LowerOfLowered(parts[i]);
    }
  }

  // ---------------------------------------------------------------------------
  // slider bounds

  /** Records are ordered by price for `Math.min` / `Math.max`. */
  function MinPrice(ps: seq<Product>): (m: real)
    requires |ps| > 0
    ensures forall i :: 0 <= i < |ps| ==> m <= ps[i].price
    ensures exists i :: 0 <= i < |ps| && m == ps[i].price
  {
    if |ps| == 1 then ps[0].price
    else
      var rest := MinPrice(ps[1..]);
      assert forall i :: 1 <= i < |ps| ==> ps[i] == ps[1..][i - 1];
      if ps[0].price <= rest then ps[0].price else rest
  }

  function MaxPrice(ps: seq<Product>): (m: real)
    requires |ps| > 0
    ensures forall i :: 0 <= i < |ps| ==> ps[i].price <= m
    ensures exists i :: 0 <= i < |ps| && m == ps[i].price
  {
    if |ps| == 1 then ps[0].price
    else
      var rest := MaxPrice(ps[1..]);
      assert forall i :: 1 <= i < |ps| ==> ps[i] == ps[1..][i - 1];
      if ps[0].price >= rest then ps[0].price else rest
  }

  /** `Math.ceil`. */
  function Ceil(x: real): (n: int)
    ensures x <= n as real < x + 1.0
  {
    -((-x).Floor)
  }

  datatype Bounds = Bounds(minPrice: int, maxPrice: int)

  /** The slider bounds before any record exists. */
  const DefaultBounds: Bounds := Bounds(0, 1000)

  /** The whole-number bounds the price slider spans: floor of the cheapest price and
      ceiling of the dearest, or the defaults when the page shows no product. */
  function SliderBounds(ps: seq<Product>): (b: Bounds)
    ensures |ps| == 0 ==> b == DefaultBounds
    ensures forall i :: 0 <= i < |ps| ==> b.minPrice as real <= ps[i].price <= b.maxPrice as real
    ensures |ps| > 0 ==> exists i :: 0 <= i < |ps| && ps[i].price < b.minPrice as real + 1.0
    ensures |ps| > 0 ==> exists i :: 0 <= i < |ps| && b.maxPrice as real - 1.0 < ps[i].price
  {
    if |ps| == 0 then DefaultBounds
    else Bounds(MinPrice(ps).Floor, Ceil(MaxPrice(ps)))
  }
}

/** An optional value: a cell that is missing or does not parse, a saved cart that is absent. */
module Wrappers {
  datatype Option<T> = None | Some(value: T)
}

/**
 * `ProductManager`: the product records built from the catalogue sheet, the
 * category list offered as filter buttons, the category filter itself and the
 * stock badge each product card shows.
 */
module Catalog {
  import opened Wrappers
  import opened DriveUrl

  /** A product of the catalogue; `price` and `stock` as the sheet's numbers, not clamped. */
  datatype Product = Product(
    id: string,
    name: string,
    price: int,
    category: string,
    description: string,
    characteristics: string,
    image: string,
    stock: int)

  /**
   * One row of the catalogue sheet. A missing or empty text cell is "", and a
   * numeric cell that is missing, does not parse or parses to 0 is `None`
   * (the cases in which `parseFloat`/`parseInt` give a falsy value).
   */
  datatype Row = Row(
    name: string,
    price: Option<int>,
    category: string,
    description: string,
    characteristics: string,
    image: string,
    stock: Option<int>)

  const NoName := "Producto sin nombre"
  const DefaultCategory := "general"
  const NoDescription := "Sin descripción disponible"
  const NoImage := "https://via.placeholder.com/300x200?text=Sin+Imagen"

  /** `text || fallback` for a string. */
  function OrElse(text: string, fallback: string): string
  {
    if text == "" then fallback else text
  }

  /** `n || 0` for a parsed number. */
  function OrZero(n: Option<int>): int
  {
    match n
    case None => 0
    case Some(v) => v
  }

  /** The record `loadProducts` builds from one row, under the freshly generated `id`. */
  function FromRow(row: Row, id: string): (p: Product)
    ensures p.id == id
    ensures p.name != "" && p.category != "" && p.description != "" && p.image != ""
    ensures row.name != "" ==> p.name == row.name
    ensures row.name == "" ==> p.name == NoName
    ensures row.category != "" ==> p.category == row.category
    ensures row.category == "" ==> p.category == DefaultCategory
    ensures row.description != "" ==> p.description == row.description
    ensures row.description == "" ==> p.description == NoDescription
    ensures p.characteristics == row.characteristics
    ensures row.image == "" ==> p.image == NoImage
    ensures row.image != "" ==> p.image == ConvertGoogleDriveUrl(row.image)
    ensures row.price.Some? ==> p.price == row.price.value
    ensures row.price.None? ==> p.price == 0
    ensures row.stock.Some? ==> p.stock == row.stock.value
    ensures row.stock.None? ==> p.stock == 0
  {
    Product(
      id,
      OrElse(row.name, NoName),
      OrZero(row.price),
      OrElse(row.category, DefaultCategory),
      OrElse(row.description, NoDescription),
      row.characteristics,
      OrElse(ConvertGoogleDriveUrl(row.image), NoImage),
      OrZero(row.stock))
  }

  /** The row a product would have been read from, every cell filled in. */
  function RowOf(p: Product): Row
  {
    Row(p.name, Some(p.price), p.category, p.description, p.characteristics, p.image, Some(p.stock))
  }

  /**
   * Reading a loaded product back gives the same product: the defaults are
   * never applied twice, and an image already in display form stays as it is.
   */
  lemma FromRowOfProduct(p: Product)
    requires p.name != "" && p.category != "" && p.description != "" && p.image != ""
    requires ConvertGoogleDriveUrl(p.image) == p.image
    ensures FromRow(RowOf(p), p.id) == p
  {
  }

  /** A thumbnail image produced by the first load survives a second load unchanged. */
  lemma ReloadKeepsThumbnail(p: Product, fileId: string)
    requires p.name != "" && p.category != "" && p.description != ""
    requires p.image == Thumbnail(fileId)
    requires fileId != "" && '&' !in fileId && !Strings.Includes(fileId, "id=")
    ensures FromRow(RowOf(p), p.id) == p
  {
    ThumbnailIsFixedPoint(fileId);
    FromRowOfProduct(p);
  }

  /** `data.map(...)` in `loadProducts`, with the generated ids given in order. */
  function LoadProducts(rows: seq<Row>, ids: seq<string>): (ps: seq<Product>)
    requires |ids| == |rows|
    ensures |ps| == |rows|
    ensures forall k :: 0 <= k < |rows| ==> ps[k] == FromRow(rows[k], ids[k])
  {
    seq(|rows|, k requires 0 <= k < |rows| => FromRow(rows[k], ids[k]))
  }

  /** Every loaded product has a name, a category, a description and an image. */
  lemma LoadedProductsComplete(rows: seq<Row>, ids: seq<string>)
    requires |ids| == |rows|
    ensures forall p :: p in LoadProducts(rows, ids) ==>
      p.name != "" && p.category != "" && p.description != "" && p.image != ""
  {
  }

  /** No two positions of `xs` hold the same value. */
  predicate NoDuplicates(xs: seq<string>)
  {
    forall i, j :: 0 <= i < j < |xs| ==> xs[i] != xs[j]
  }

  /** The first position of `x` in `xs`. */
  function FirstIndex(xs: seq<string>, x: string): (i: int)
    requires x in xs
    ensures 0 <= i < |xs| && xs[i] == x
    ensures forall j :: 0 <= j < i ==> xs[j] != x
  {
    if xs[0] == x then 0 else 1 + FirstIndex(xs[1..], x)
  }

  /** `[...new Set(xs)]`: each value once, in order of first appearance. */
  function Distinct(xs: seq<string>): (ys: seq<string>)
    ensures NoDuplicates(ys)
    ensures forall x :: x in ys <==> x in xs
    ensures |ys| <= |xs|
  {
    if xs == [] then []
    else
      var d := Distinct(xs[..|xs| - 1]);
      var last := xs[|xs| - 1];
      assert xs == xs[..|xs| - 1] + [last];
      if last in d then d else d + [last]
  }

  /** Appending a value does not move the first position of one already present. */
  lemma FirstIndexAppend(xs: seq<string>, x: string, y: string)
    requires y in xs
    ensures FirstIndex(xs + [x], y) == FirstIndex(xs, y)
  {
    var i := FirstIndex(xs, y);
    var k := FirstIndex(xs + [x], y);
    assert (xs + [x])[i] == y;
    assert xs[k] == (xs + [x])[k];
  }

  /** `Distinct(xs)` lists its values in the order in which they first appear in `xs`. */
  lemma {:induction false} DistinctOrder(xs: seq<string>)
    ensures forall i, j :: 0 <= i < j < |Distinct(xs)| ==>
      FirstIndex(xs, Distinct(xs)[i]) < FirstIndex(xs, Distinct(xs)[j])
  {
    if xs != [] {
      var init := xs[..|xs| - 1];
      var last := xs[|xs| - 1];
      assert xs == init + [last];
      var d := Distinct(init);
      DistinctOrder(init);
      forall y | y in d
        ensures FirstIndex(xs, y) == FirstIndex(init, y)
      {
        FirstIndexAppend(init, last, y);
      }
      var ds := Distinct(xs);
      assert ds == if last in d then d else d + [last];
      forall i, j | 0 <= i < j < |ds|
        ensures FirstIndex(xs, ds[i]) < FirstIndex(xs, ds[j])
      {
        assert ds[i] == d[i];
        if j < |d| {
          assert ds[j] == d[j];
        } else {
          assert ds[j] == last && FirstIndex(xs, last) == |init|;
        }
      }
    }
  }

  /** `getCategories`: "all" followed by the distinct product categories. */
  function Categories(products: seq<Product>): (cs: seq<string>)
    ensures |cs| >= 1 && cs[0] == "all"
    ensures forall p :: p in products ==> p.category in cs[1..]
    ensures forall k :: 1 <= k < |cs| ==> exists p :: p in products && p.category == cs[k]
    ensures NoDuplicates(cs[1..])
  {
    var all := CategoryColumn(products);
    assert forall p :: p in products ==> p.category in all;
    assert forall k :: 0 <= k < |Distinct(all)| ==> Distinct(all)[k] in all;
    ["all"] + Distinct(all)
  }

  /** `products.map(product => product.category)`. */
  function CategoryColumn(products: seq<Product>): (cs: seq<string>)
    ensures |cs| == |products|
    ensures forall k :: 0 <= k < |products| ==> cs[k] == products[k].category
    ensures forall c :: c in cs ==> exists p :: p in products && p.category == c
  {
    if products == [] then [] else [products[0].category] + CategoryColumn(products[1..])
  }

  /** The categories after "all" appear in the order of the first product of each. */
  lemma CategoriesOrder(products: seq<Product>)
    ensures forall i, j :: 1 <= i < j < |Categories(products)| ==>
      FirstIndex(CategoryColumn(products), Categories(products)[i]) <
      FirstIndex(CategoryColumn(products), Categories(products)[j])
  {
    DistinctOrder(CategoryColumn(products));
    var cs := Categories(products);
    assert forall k :: 1 <= k < |cs| ==> cs[k] == Distinct(CategoryColumn(products))[k - 1];
  }

  /** `products.filter(product => product.category === category)`. */
  function OfCategory(products: seq<Product>, category: string): (r: seq<Product>)
    ensures forall p :: p in r <==> p in products && p.category == category
    ensures multiset(r) <= multiset(products)
    ensures |r| <= |products|
  {
    if products == [] then []
    else
      var rest := OfCategory(products[1..], category);
      assert products == [products[0]] + products[1..];
      if products[0].category == category then [products[0]] + rest else rest
  }

  /** Filtering keeps order: it distributes over concatenation. */
  lemma {:induction false} OfCategoryAppend(a: seq<Product>, b: seq<Product>, category: string)
    ensures OfCategory(a + b, category) == OfCategory(a, category) + OfCategory(b, category)
  {
    if a != [] {
      assert (a + b)[0] == a[0];
      assert (a + b)[1..] == a[1..] + b;
      OfCategoryAppend(a[1..], b, category);
      if a[0].category == category {
        assert OfCategory(a + b, category) == [a[0]] + OfCategory(a[1..] + b, category);
        assert OfCategory(a, category) == [a[0]] + OfCategory(a[1..], category);
      } else {
        assert OfCategory(a + b, category) == OfCategory(a[1..] + b, category);
        assert OfCategory(a, category) == OfCategory(a[1..], category);
      }
    } else {
      assert a + b == b;
    }
  }

  /** `getFilteredProducts`: every product for "all", otherwise those of the chosen category. */
  function FilteredProducts(products: seq<Product>, current: string): (r: seq<Product>)
    ensures current == "all" ==> r == products
    ensures current != "all" ==> forall p :: p in r <==> p in products && p.category == current
    ensures multiset(r) <= multiset(products)
  {
    if current == "all" then products else OfCategory(products, current)
  }

  /**
   * A category other than "all" shows at least one product exactly when it is
   * one of the offered filter buttons.
   */
  lemma OfferedCategoryNotEmpty(products: seq<Product>, category: string)
    requires category != "all"
    ensures category in Categories(products) <==> FilteredProducts(products, category) != []
  {
    var cs := Categories(products);
    if category in cs {
      var k :| 0 <= k < |cs| && cs[k] == category;
      var p :| p in products && p.category == cs[k];
      assert p in FilteredProducts(products, category);
    }
    if FilteredProducts(products, category) != [] {
      assert FilteredProducts(products, category)[0] in products;
    }
  }

  /** The stock badge of a product card. */
  datatype StockLevel = Out | Low | Medium | High

  /** The badge for `stock` units: none left, 1 to 3, 4 to 8, or more. */
  function Level(stock: int): (l: StockLevel)
    ensures l == Out <==> stock <= 0
    ensures l == Low <==> 1 <= stock <= 3
    ensures l == Medium <==> 4 <= stock <= 8
    ensures l == High <==> stock >= 9
  {
    if stock <= 0 then Out
    else if stock <= 3 then Low
    else if stock <= 8 then Medium
    else High
  }

  /** The badges in increasing order of stock. */
  function Rank(l: StockLevel): nat
  {
    match l
    case Out => 0
    case Low => 1
    case Medium => 2
    case High => 3
  }

  /** More stock never shows a lower badge. */
  lemma LevelMonotonic(s: int, t: int)
    requires s <= t
    ensures Rank(Level(s)) <= Rank(Level(t))
  {
  }
}

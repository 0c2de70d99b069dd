/**
 * The shopping cart of the storefront as values: its lines, the guarded
 * upsert of `addToCart`, removal and quantity updates, the two reductions
 * and the order summary `checkout` hands over. The class in `Store` changes
 * its cart exactly as these functions say.
 */
module Cart {
  import opened Wrappers
  import opened Catalog

  /** A cart line: a snapshot of the product when it was first added, and how many. */
  datatype Line = Line(
    id: string,
    name: string,
    price: int,
    category: string,
    image: string,
    quantity: int)

  /** The line `addToCart` appends for a product not yet in the cart. */
  function Snapshot(p: Product): (l: Line)
    ensures l.id == p.id && l.quantity == 1
    ensures Cost(l) == p.price
  {
    Line(p.id, p.name, p.price, p.category, p.image, 1)
  }

  /** `cart.findIndex(item => item.id === id)`: the first line with that id, or -1. */
  function Find(lines: seq<Line>, id: string): (i: int)
    ensures -1 <= i < |lines|
    ensures i >= 0 ==> lines[i].id == id
    ensures forall j :: 0 <= j < (if i < 0 then |lines| else i) ==> lines[j].id != id
  {
    if lines == [] then -1
    else if lines[0].id == id then 0
    else
      var k := Find(lines[1..], id);
      if k < 0 then -1 else k + 1
  }

  /** Some line has this id. */
  predicate Contains(lines: seq<Line>, id: string)
  {
    exists j :: 0 <= j < |lines| && lines[j].id == id
  }

  /** `Find` succeeds exactly when a line has the id. */
  lemma FindFound(lines: seq<Line>, id: string)
    ensures Find(lines, id) >= 0 <==> Contains(lines, id)
  {
    if Find(lines, id) >= 0 {
      assert lines[Find(lines, id)].id == id;
    }
  }

  /** How many units of `id` the cart holds, read from its first line: 0 without one. */
  function QuantityOf(lines: seq<Line>, id: string): int
  {
    var i := Find(lines, id);
    if i < 0 then 0 else lines[i].quantity
  }

  /** At most one line per product, and every line holds at least one unit. */
  predicate WellFormed(lines: seq<Line>)
  {
    (forall i, j :: 0 <= i < j < |lines| ==> lines[i].id != lines[j].id) &&
    (forall i :: 0 <= i < |lines| ==> lines[i].quantity >= 1)
  }

  /** Why `addToCart` refused, or that it added. */
  datatype AddOutcome = Added | OutOfStock | InsufficientStock(available: int)

  /** The cart after `addToCart`, and what the shopper is told. */
  datatype AddResult = AddResult(lines: seq<Line>, outcome: AddOutcome)

  /**
   * `addToCart(p)`: refused when `p` has no stock, refused when its line
   * already holds as many units as the stock, otherwise one more unit on its
   * line or a new line at the end.
   */
  function Add(lines: seq<Line>, p: Product): (r: AddResult)
    ensures p.stock <= 0 ==> r == AddResult(lines, OutOfStock)
    ensures r.outcome == Added <==>
      p.stock > 0 && (!Contains(lines, p.id) || QuantityOf(lines, p.id) < p.stock)
    ensures r.outcome != Added ==> r.lines == lines
    ensures p.stock > 0 && !Contains(lines, p.id) ==> r.lines == lines + [Snapshot(p)]
    ensures p.stock > 0 && Contains(lines, p.id) && QuantityOf(lines, p.id) >= p.stock ==>
      r.outcome == InsufficientStock(p.stock)
    ensures r.outcome == Added && Contains(lines, p.id) ==>
      var i := Find(lines, p.id);
      r.lines == lines[i := lines[i].(quantity := lines[i].quantity + 1)]
  {
    FindFound(lines, p.id);
    if p.stock <= 0 then AddResult(lines, OutOfStock)
    else
      var i := Find(lines, p.id);
      if i >= 0 then
        if lines[i].quantity >= p.stock then AddResult(lines, InsufficientStock(p.stock))
        else AddResult(lines[i := lines[i].(quantity := lines[i].quantity + 1)], Added)
      else AddResult(lines + [Snapshot(p)], Added)
  }

  /** A successful add puts exactly one more unit of the product in the cart, never more than its stock. */
  lemma AddQuantity(lines: seq<Line>, p: Product)
    requires Add(lines, p).outcome == Added
    ensures QuantityOf(Add(lines, p).lines, p.id) == QuantityOf(lines, p.id) + 1
    ensures QuantityOf(Add(lines, p).lines, p.id) <= p.stock
    ensures forall id :: id != p.id ==> QuantityOf(Add(lines, p).lines, id) == QuantityOf(lines, id)
  {
    var i := Find(lines, p.id);
    var r := Add(lines, p).lines;
    if i >= 0 {
      assert r == lines[i := lines[i].(quantity := lines[i].quantity + 1)];
      forall id
        ensures Find(r, id) == Find(lines, id)
      {
        FindSame(lines, r, id);
      }
    } else {
      assert r == lines + [Snapshot(p)];
      FindAfter(lines, Snapshot(p));
      forall id | id != p.id
        ensures Find(r, id) == Find(lines, id)
      {
        FindPast(lines, Snapshot(p), id);
      }
    }
  }

  /** A line with another id appended at the end does not change where an id is found, if it is. */
  lemma FindPast(lines: seq<Line>, l: Line, id: string)
    requires l.id != id
    ensures Find(lines + [l], id) == Find(lines, id)
  {
    var r := lines + [l];
    assert forall j :: 0 <= j < |lines| ==> r[j] == lines[j];
    var i := Find(r, id);
    if i >= 0 {
      assert lines[i].id == id;
    }
  }

  /** Adding keeps one line per product and at least one unit on every line. */
  lemma AddWellFormed(lines: seq<Line>, p: Product)
    requires WellFormed(lines)
    ensures WellFormed(Add(lines, p).lines)
  {
    FindFound(lines, p.id);
    var r := Add(lines, p).lines;
    var i := Find(lines, p.id);
    if Add(lines, p).outcome == Added && i < 0 {
      assert r == lines + [Snapshot(p)];
      assert forall j :: 0 <= j < |lines| ==> r[j] == lines[j];
    }
  }

  /** Two carts with the same ids in the same places find the same line. */
  lemma FindSame(a: seq<Line>, b: seq<Line>, id: string)
    requires |a| == |b| && forall j :: 0 <= j < |a| ==> a[j].id == b[j].id
    ensures Find(a, id) == Find(b, id)
  {
    var i, k := Find(a, id), Find(b, id);
    if i >= 0 {
      assert b[i].id == id;
    }
    if k >= 0 {
      assert a[k].id == id;
    }
  }

  /** Appending a line with a new id leaves it to be found at the end. */
  lemma FindAfter(lines: seq<Line>, l: Line)
    requires Find(lines, l.id) < 0
    ensures Find(lines + [l], l.id) == |lines|
  {
    var r := lines + [l];
    assert r[|lines|].id == l.id;
    assert forall j :: 0 <= j < |lines| ==> r[j] == lines[j];
  }

  /** `removeFromCart(id)`: the first line with that id is spliced out. */
  function Remove(lines: seq<Line>, id: string): (r: seq<Line>)
    ensures !Contains(lines, id) ==> r == lines
    ensures Contains(lines, id) ==>
      var i := Find(lines, id);
      |r| == |lines| - 1 && r == lines[..i] + lines[i + 1..]
  {
    FindFound(lines, id);
    var i := Find(lines, id);
    if i < 0 then lines else lines[..i] + lines[i + 1..]
  }

  /** Removal takes away the one line found and keeps every other line. */
  lemma RemoveMultiset(lines: seq<Line>, id: string)
    requires Contains(lines, id)
    ensures multiset(Remove(lines, id)) + multiset{lines[Find(lines, id)]} == multiset(lines)
  {
    FindFound(lines, id);
    SpliceMultiset(lines, Find(lines, id));
  }

  /** Splicing out position `i` leaves every line but that one. */
  lemma SpliceMultiset(lines: seq<Line>, i: int)
    requires 0 <= i < |lines|
    ensures multiset(lines[..i] + lines[i + 1..]) + multiset{lines[i]} == multiset(lines)
  {
    assert lines == lines[..i] + [lines[i]] + lines[i + 1..];
  }

  /** Removal keeps one line per product and at least one unit on every line. */
  lemma RemoveWellFormed(lines: seq<Line>, id: string)
    requires WellFormed(lines)
    ensures WellFormed(Remove(lines, id))
  {
    RemoveAt(lines, id);
    if Find(lines, id) >= 0 {
      SpliceWellFormed(lines, Find(lines, id));
    }
  }

  /** Splicing out one line keeps one line per product and at least one unit on every line. */
  lemma SpliceWellFormed(lines: seq<Line>, i: int)
    requires WellFormed(lines) && 0 <= i < |lines|
    ensures WellFormed(lines[..i] + lines[i + 1..])
  {
    var r := lines[..i] + lines[i + 1..];
    forall x, y | 0 <= x < y < |r|
      ensures r[x].id != r[y].id
    {
      SpliceIndex(lines, i, x);
      SpliceIndex(lines, i, y);
    }
    forall x | 0 <= x < |r|
      ensures r[x].quantity >= 1
    {
      SpliceIndex(lines, i, x);
    }
  }

  /** Position `x` after splicing out position `i` holds the line that was at `x`, or at `x + 1` past `i`. */
  lemma SpliceIndex(lines: seq<Line>, i: int, x: int)
    requires 0 <= i < |lines| && 0 <= x < |lines| - 1
    ensures (lines[..i] + lines[i + 1..])[x] == lines[if x < i then x else x + 1]
  {
  }

  /** The lines of other products, in order: an independent account of removal. */
  function Without(lines: seq<Line>, id: string): (r: seq<Line>)
    ensures forall l :: l in r <==> l in lines && l.id != id
  {
    if lines == [] then []
    else if lines[0].id == id then Without(lines[1..], id)
    else [lines[0]] + Without(lines[1..], id)
  }

  /** In a cart with one line per product, removing a product drops all of it and nothing else. */
  lemma {:induction false} RemoveIsWithout(lines: seq<Line>, id: string)
    requires WellFormed(lines)
    ensures Remove(lines, id) == Without(lines, id)
  {
    if lines != [] {
      var tail := lines[1..];
      assert WellFormed(tail);
      if lines[0].id == id {
        assert !Contains(tail, id);
        NoneWithout(tail, id);
        assert Remove(lines, id) == tail;
      } else {
        RemoveIsWithout(tail, id);
        RemoveCons(lines, id);
      }
    }
  }

  /** Without a line of that id there is nothing to filter out. */
  lemma {:induction false} NoneWithout(lines: seq<Line>, id: string)
    requires !Contains(lines, id)
    ensures Without(lines, id) == lines
  {
    if lines != [] {
      assert !Contains(lines[1..], id);
      NoneWithout(lines[1..], id);
    }
  }

  /** `Remove` in terms of the index `Find` returns. */
  lemma RemoveAt(lines: seq<Line>, id: string)
    ensures Find(lines, id) < 0 ==> Remove(lines, id) == lines
    ensures Find(lines, id) >= 0 ==>
      Remove(lines, id) == lines[..Find(lines, id)] + lines[Find(lines, id) + 1..]
  {
    FindFound(lines, id);
  }

  /** Splicing out position `k + 1` keeps the first line in front of the spliced tail. */
  lemma ConsSplice(lines: seq<Line>, k: int)
    requires 0 <= k < |lines| - 1
    ensures lines[..k + 1] + lines[k + 2..] == [lines[0]] + (lines[1..][..k] + lines[1..][k + 1..])
  {
    assert lines[..k + 1] == [lines[0]] + lines[1..][..k];
    assert lines[k + 2..] == lines[1..][k + 1..];
  }

  /** Removal past a first line of another product keeps that line in front. */
  lemma RemoveCons(lines: seq<Line>, id: string)
    requires lines != [] && lines[0].id != id
    ensures Remove(lines, id) == [lines[0]] + Remove(lines[1..], id)
  {
    var tail := lines[1..];
    var k := Find(tail, id);
    assert Find(lines, id) == if k < 0 then -1 else k + 1;
    RemoveAt(lines, id);
    RemoveAt(tail, id);
    if k >= 0 {
      ConsSplice(lines, k);
    } else {
      assert lines == [lines[0]] + tail;
    }
  }

  /**
   * `updateQuantity(id, n)`: nothing when no line has the id, removal when
   * `n <= 0`, otherwise the first such line holds exactly `n`; the stock is
   * not consulted.
   */
  function SetQuantity(lines: seq<Line>, id: string, n: int): (r: seq<Line>)
    ensures !Contains(lines, id) ==> r == lines
    ensures n <= 0 ==> r == Remove(lines, id)
    ensures n > 0 && Contains(lines, id) ==>
      var i := Find(lines, id);
      r == lines[i := lines[i].(quantity := n)]
  {
    FindFound(lines, id);
    var i := Find(lines, id);
    if i < 0 then lines
    else if n <= 0 then Remove(lines, id)
    else lines[i := lines[i].(quantity := n)]
  }

  /** After a positive update the cart holds exactly `n` units of the product. */
  lemma SetQuantityHolds(lines: seq<Line>, id: string, n: int)
    requires Contains(lines, id) && n > 0
    ensures QuantityOf(SetQuantity(lines, id, n), id) == n
  {
    FindFound(lines, id);
    var i := Find(lines, id);
    var r := lines[i := lines[i].(quantity := n)];
    assert SetQuantity(lines, id, n) == r;
    FindSame(lines, r, id);
  }

  /** Updating keeps one line per product and at least one unit on every line. */
  lemma SetQuantityWellFormed(lines: seq<Line>, id: string, n: int)
    requires WellFormed(lines)
    ensures WellFormed(SetQuantity(lines, id, n))
  {
    if n <= 0 {
      RemoveWellFormed(lines, id);
    }
  }

  /** The amount one line contributes: unit price times units. */
  function Cost(l: Line): int
  {
    l.price * l.quantity
  }

  /** No line has a negative price or a negative number of units. */
  predicate NonNegative(lines: seq<Line>)
  {
    forall k :: 0 <= k < |lines| ==> lines[k].price >= 0 && lines[k].quantity >= 0
  }

  /** `getCartTotal`: the left-to-right sum of every line's cost. */
  function Total(lines: seq<Line>): (t: int)
    ensures NonNegative(lines) ==> t >= 0
  {
    if lines == [] then 0 else Total(lines[..|lines| - 1]) + Cost(lines[|lines| - 1])
  }

  /** `getCartItemCount`: the left-to-right sum of every line's units. */
  function ItemCount(lines: seq<Line>): (n: int)
    ensures NonNegative(lines) ==> n >= 0
  {
    if lines == [] then 0 else ItemCount(lines[..|lines| - 1]) + lines[|lines| - 1].quantity
  }

  /** One more unit on a line costs one more unit price. */
  lemma CostIncrement(l: Line)
    ensures Cost(l.(quantity := l.quantity + 1)) == Cost(l) + l.price
  {
    assert l.price * (l.quantity + 1) == l.price * l.quantity + l.price;
  }

  /** The total of two carts laid end to end is the sum of their totals. */
  lemma {:induction false} TotalAppend(a: seq<Line>, b: seq<Line>)
    ensures Total(a + b) == Total(a) + Total(b)
    decreases |b|
  {
    if b == [] {
      assert a + b == a;
    } else {
      var init := b[..|b| - 1];
      assert (a + b)[..|a + b| - 1] == a + init;
      TotalAppend(a, init);
    }
  }

  /** The item count of two carts laid end to end is the sum of their counts. */
  lemma {:induction false} ItemCountAppend(a: seq<Line>, b: seq<Line>)
    ensures ItemCount(a + b) == ItemCount(a) + ItemCount(b)
    decreases |b|
  {
    if b == [] {
      assert a + b == a;
    } else {
      var init := b[..|b| - 1];
      assert (a + b)[..|a + b| - 1] == a + init;
      ItemCountAppend(a, init);
    }
  }

  /** In a well-formed cart every line counts, so there are at least as many units as lines. */
  lemma {:induction false} ItemCountAtLeastLines(lines: seq<Line>)
    requires WellFormed(lines)
    ensures ItemCount(lines) >= |lines|
  {
    if lines != [] {
      var init := lines[..|lines| - 1];
      assert WellFormed(init);
      ItemCountAtLeastLines(init);
    }
  }

  /** Replacing one line changes the total by the difference of the two lines' costs. */
  lemma TotalUpdate(lines: seq<Line>, i: int, l: Line)
    requires 0 <= i < |lines|
    ensures Total(lines[i := l]) == Total(lines) - Cost(lines[i]) + Cost(l)
    ensures ItemCount(lines[i := l]) == ItemCount(lines) - lines[i].quantity + l.quantity
  {
    var front, back := lines[..i], lines[i + 1..];
    assert lines == front + [lines[i]] + back;
    assert lines[i := l] == front + [l] + back;
    TotalAppend(front + [lines[i]], back);
    TotalAppend(front, [lines[i]]);
    TotalAppend(front + [l], back);
    TotalAppend(front, [l]);
    ItemCountAppend(front + [lines[i]], back);
    ItemCountAppend(front, [lines[i]]);
    ItemCountAppend(front + [l], back);
    ItemCountAppend(front, [l]);
    assert [lines[i]][..0] == [] && [l][..0] == [];
  }

  /** One more unit on line `i` adds one to the count and that line's price to the total. */
  lemma IncrementEffect(lines: seq<Line>, i: int)
    requires 0 <= i < |lines|
    ensures var r := lines[i := lines[i].(quantity := lines[i].quantity + 1)];
      ItemCount(r) == ItemCount(lines) + 1 && Total(r) == Total(lines) + lines[i].price
  {
    TotalUpdate(lines, i, lines[i].(quantity := lines[i].quantity + 1));
    CostIncrement(lines[i]);
  }

  /** A line appended at the end adds its units to the count and its cost to the total. */
  lemma AppendEffect(lines: seq<Line>, l: Line)
    ensures ItemCount(lines + [l]) == ItemCount(lines) + l.quantity
    ensures Total(lines + [l]) == Total(lines) + Cost(l)
  {
    TotalAppend(lines, [l]);
    ItemCountAppend(lines, [l]);
    assert [l][..0] == [];
  }

  /**
   * A successful add raises the count by one unit and the total by one unit
   * price: the price stored on the existing line, or the product's own for a
   * new line.
   */
  lemma AddEffect(lines: seq<Line>, p: Product)
    requires Add(lines, p).outcome == Added
    ensures ItemCount(Add(lines, p).lines) == ItemCount(lines) + 1
    ensures Total(Add(lines, p).lines) == Total(lines) +
      (if Contains(lines, p.id) then lines[Find(lines, p.id)].price else p.price)
  {
    FindFound(lines, p.id);
    var r := Add(lines, p).lines;
    if Contains(lines, p.id) {
      var i := Find(lines, p.id);
      assert r == lines[i := lines[i].(quantity := lines[i].quantity + 1)];
      IncrementEffect(lines, i);
    } else {
      assert r == lines + [Snapshot(p)];
      AppendEffect(lines, Snapshot(p));
    }
  }

  /** Removing a product takes its line's units and cost out of the count and the total. */
  lemma RemoveEffect(lines: seq<Line>, id: string)
    requires Contains(lines, id)
    ensures ItemCount(Remove(lines, id)) == ItemCount(lines) - lines[Find(lines, id)].quantity
    ensures Total(Remove(lines, id)) == Total(lines) - Cost(lines[Find(lines, id)])
  {
    FindFound(lines, id);
    RemoveAt(lines, id);
    SpliceEffect(lines, Find(lines, id));
  }

  /** Splicing out position `i` takes that line's units and cost out of the count and the total. */
  lemma SpliceEffect(lines: seq<Line>, i: int)
    requires 0 <= i < |lines|
    ensures ItemCount(lines[..i] + lines[i + 1..]) == ItemCount(lines) - lines[i].quantity
    ensures Total(lines[..i] + lines[i + 1..]) == Total(lines) - Cost(lines[i])
  {
    SpliceParts(lines, i);
    var front, back := lines[..i], lines[i + 1..];
    ThreeParts(front, lines[i], back);
    TotalAppend(front, back);
    ItemCountAppend(front, back);
  }

  /** A cart is the lines before position `i`, the line at `i`, and the lines after it. */
  lemma SpliceParts(lines: seq<Line>, i: int)
    requires 0 <= i < |lines|
    ensures lines == lines[..i] + [lines[i]] + lines[i + 1..]
  {
  }

  /** The count and the total of a cart with one line singled out. */
  lemma ThreeParts(front: seq<Line>, l: Line, back: seq<Line>)
    ensures ItemCount(front + [l] + back) == ItemCount(front) + l.quantity + ItemCount(back)
    ensures Total(front + [l] + back) == Total(front) + Cost(l) + Total(back)
  {
    TotalAppend(front + [l], back);
    ItemCountAppend(front + [l], back);
    assert (front + [l])[..|front|] == front;
  }

  /**
   * Setting a positive quantity moves the count by the change in units, and
   * the total by the change in the line's cost.
   */
  lemma SetQuantityEffect(lines: seq<Line>, id: string, n: int)
    requires Contains(lines, id) && n > 0
    ensures ItemCount(SetQuantity(lines, id, n)) == ItemCount(lines) - lines[Find(lines, id)].quantity + n
    ensures Total(SetQuantity(lines, id, n)) ==
      Total(lines) - Cost(lines[Find(lines, id)]) + Cost(lines[Find(lines, id)].(quantity := n))
  {
    FindFound(lines, id);
    var i := Find(lines, id);
    var l := lines[i].(quantity := n);
    assert SetQuantity(lines, id, n) == lines[i := l];
    TotalUpdate(lines, i, l);
  }

  /** Adding a product that is not in the cart and then removing it restores the cart. */
  lemma AddNewThenRemove(lines: seq<Line>, p: Product)
    requires p.stock > 0 && !Contains(lines, p.id)
    ensures Remove(Add(lines, p).lines, p.id) == lines
  {
    FindFound(lines, p.id);
    var r := lines + [Snapshot(p)];
    FindAfter(lines, Snapshot(p));
    assert r[..|lines|] == lines;
  }

  /** With one unit in stock, a second add of the same product is refused and changes nothing. */
  lemma AddTwiceStockOne(lines: seq<Line>, p: Product)
    requires p.stock == 1 && !Contains(lines, p.id)
    ensures Add(lines, p).outcome == Added
    ensures Add(Add(lines, p).lines, p) == AddResult(Add(lines, p).lines, InsufficientStock(1))
  {
    FindFound(lines, p.id);
    var r := Add(lines, p).lines;
    assert r[|lines|].id == p.id;
    assert Contains(r, p.id);
  }

  /** Adding is refused for lack of stock exactly when the product card shows the out-of-stock badge. */
  lemma OutOfStockMatchesBadge(lines: seq<Line>, p: Product)
    ensures Add(lines, p).outcome == OutOfStock <==> Level(p.stock) == Out
  {
    FindFound(lines, p.id);
  }

  /** One line of the order summary: the product, its units and what they cost. */
  datatype OrderLine = OrderLine(name: string, quantity: int, amount: int)

  /** What `checkout` hands over to the shop: a summary line per cart line, the units and the total. */
  datatype Order = Order(items: seq<OrderLine>, itemCount: int, total: int)

  /** The summary lines of a cart, in cart order. */
  function Summary(lines: seq<Line>): (items: seq<OrderLine>)
    ensures |items| == |lines|
    ensures forall k :: 0 <= k < |lines| ==>
      items[k] == OrderLine(lines[k].name, lines[k].quantity, Cost(lines[k]))
  {
    if lines == [] then []
    else Summary(lines[..|lines| - 1]) + [OrderLine(lines[|lines| - 1].name, lines[|lines| - 1].quantity, Cost(lines[|lines| - 1]))]
  }

  /** The sum of the summary's amounts. */
  function Amounts(items: seq<OrderLine>): int
  {
    if items == [] then 0 else Amounts(items[..|items| - 1]) + items[|items| - 1].amount
  }

  /** The summary's amounts add up to the cart total. */
  lemma {:induction false} SummaryAddsUp(lines: seq<Line>)
    ensures Amounts(Summary(lines)) == Total(lines)
  {
    if lines != [] {
      var init := lines[..|lines| - 1];
      SummaryAddsUp(init);
      assert Summary(lines)[..|lines| - 1] == Summary(init);
    }
  }

  /** `checkout`: nothing for an empty cart, otherwise the order built from its lines. */
  function Checkout(lines: seq<Line>): (o: Option<Order>)
    ensures o.None? <==> lines == []
    ensures o.Some? ==> |o.value.items| == |lines| && o.value.items == Summary(lines)
    ensures o.Some? ==> o.value.total == Total(lines) && o.value.itemCount == ItemCount(lines)
  {
    if lines == [] then None else Some(Order(Summary(lines), ItemCount(lines), Total(lines)))
  }

  /** The order's amounts add up to the total it announces. */
  lemma CheckoutAddsUp(lines: seq<Line>)
    requires lines != []
    ensures Amounts(Checkout(lines).value.items) == Checkout(lines).value.total
  {
    SummaryAddsUp(lines);
  }
}

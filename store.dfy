/**
 * `CartManager` as an object: the cart is a field that its operations
 * change in place, each one exactly as the matching function of `Cart`
 * describes, so every property proved there holds of the object.
 */
module Store {
  import opened Wrappers
  import opened Catalog
  import opened Cart

  class CartManager {
    /** `AppState.cart`. */
    var cart: seq<Line>

    /** The application starts with an empty cart. */
    constructor()
      ensures cart == []
    {
      cart := [];
    }

    /** `loadCart`: the saved cart when one was read back, otherwise an empty one. */
    method LoadCart(saved: Option<seq<Line>>)
      modifies this
      ensures saved.Some? ==> cart == saved.value
      ensures saved.None? ==> cart == []
    {
      match saved
      case Some(lines) => cart := lines;
      case None => cart := [];
    }

    /** `addToCart`: the guarded upsert; the outcome is what the shopper is told. */
    method AddToCart(product: Product) returns (outcome: AddOutcome)
      modifies this
      ensures AddResult(cart, outcome) == Add(old(cart), product)
      ensures outcome != Added ==> cart == old(cart)
      ensures WellFormed(old(cart)) ==> WellFormed(cart)
    {
      if WellFormed(cart) {
        AddWellFormed(cart, product);
      }
      if product.stock <= 0 {
        return OutOfStock;
      }
      var i := Find(cart, product.id);
      if i >= 0 {
        if cart[i].quantity >= product.stock {
          return InsufficientStock(product.stock);
        }
        cart := cart[i := cart[i].(quantity := cart[i].quantity + 1)];
      } else {
        cart := cart + [Snapshot(product)];
      }
      return Added;
    }

    /** `removeFromCart`: splices out the first line of the product, and gives it back. */
    method RemoveFromCart(id: string) returns (removed: Option<Line>)
      modifies this
      ensures cart == Remove(old(cart), id)
      ensures removed.Some? <==> Contains(old(cart), id)
      ensures removed.Some? ==> removed.value == old(cart)[Find(old(cart), id)]
      ensures WellFormed(old(cart)) ==> WellFormed(cart)
    {
      FindFound(cart, id);
      if WellFormed(cart) {
        RemoveWellFormed(cart, id);
      }
      var i := Find(cart, id);
      if i > -1 {
        removed := Some(cart[i]);
        cart := cart[..i] + cart[i + 1..];
      } else {
        removed := None;
      }
    }

    /** `updateQuantity`: removal for `n <= 0`, otherwise the line holds `n` units. */
    method UpdateQuantity(id: string, n: int)
      modifies this
      ensures cart == SetQuantity(old(cart), id, n)
      ensures WellFormed(old(cart)) ==> WellFormed(cart)
    {
      if WellFormed(cart) {
        SetQuantityWellFormed(cart, id, n);
      }
      var i := Find(cart, id);
      if i >= 0 {
        if n <= 0 {
          var _ := RemoveFromCart(id);
        } else {
          cart := cart[i := cart[i].(quantity := n)];
        }
      }
    }

    /** `clearCart`. */
    method ClearCart()
      modifies this
      ensures cart == []
      ensures ItemCount(cart) == 0 && Total(cart) == 0
    {
      cart := [];
    }

    /** `getCartTotal`: it equals the sum of the amounts the checkout message lists. */
    function CartTotal(): (t: int)
      reads this
      ensures t == Amounts(Summary(cart))
    {
      SummaryAddsUp(cart);
      Total(cart)
    }

    /** `getCartItemCount`: in a well-formed cart, at least one unit per line. */
    function CartItemCount(): (n: int)
      reads this
      ensures WellFormed(cart) ==> n >= |cart|
    {
      if WellFormed(cart) then
        ItemCountAtLeastLines(cart);
        ItemCount(cart)
      else
        ItemCount(cart)
    }
  }

  /**
   * A sequence of operations on one object: adding a product absent from
   * the cart and removing it again leaves the cart and its totals as they
   * were.
   */
  method AddThenRemove(m: CartManager, product: Product)
    requires product.stock > 0 && !Contains(m.cart, product.id)
    modifies m
    ensures m.cart == old(m.cart)
    ensures m.CartTotal() == old(m.CartTotal()) && m.CartItemCount() == old(m.CartItemCount())
  {
    var outcome := m.AddToCart(product);
    AddNewThenRemove(old(m.cart), product);
    var removed := m.RemoveFromCart(product.id);
  }
}

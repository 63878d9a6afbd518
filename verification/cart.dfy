/** The cart handlers of cartControllers.js, editing the signed-in user's cart (and, when
    an item is moved, the wishlist) in place. */
module Cart {
  import opened Wrappers
  import opened Constants
  import opened Users
  import Catalog
  import Http

  /** `addItemToCart`: 404 for a product missing or deleted, 409 when it is out of stock; an
      existing line is refused with 403 at 10 units or at the stock, and otherwise goes up
      by one in place; a new product gets a line of one at the end. The result is the
      line's new quantity. */
  method AddItemToCart(acct: Account, products: Catalog.Products, productId: ProductId) returns (r: Result<int, int>)
    requires acct.Valid()
    modifies acct
    ensures acct.Valid() && acct.wishlist == old(acct.wishlist)
    ensures !Catalog.Live(products, productId) ==> r == Err(Http.NotFound)
    ensures Catalog.Live(products, productId) && products[productId].stock == 0 ==> r == Err(Http.Conflict)
    ensures r.Err? ==> acct.cart == old(acct.cart)
    ensures r.Ok? ==> Catalog.Live(products, productId) && products[productId].stock != 0
    ensures Catalog.Live(products, productId) && products[productId].stock != 0 && FindLine(old(acct.cart), productId).None? ==>
      r == Ok(1) && acct.cart == old(acct.cart) + [CartItem(productId, 1)]
    ensures Catalog.Live(products, productId) && products[productId].stock != 0 && FindLine(old(acct.cart), productId).Some? ==>
      var i := FindLine(old(acct.cart), productId).value;
      var q := old(acct.cart)[i].quantity;
      (q >= QuantityMax || q >= products[productId].stock ==> r == Err(Http.Forbidden))
      && (q < QuantityMax && q < products[productId].stock ==>
            r == Ok(q + 1) && acct.cart == old(acct.cart)[i := CartItem(productId, q + 1)])
  {
    if !Catalog.Live(products, productId) {
      return Err(Http.NotFound);
    }
    var product := products[productId];
    if product.stock == 0 {
      return Err(Http.Conflict);
    }
    var found := FindLine(acct.cart, productId);
    if found.Some? {
      var i := found.value;
      var cartItem := acct.cart[i];
      if cartItem.quantity >= QuantityMax {
        return Err(Http.Forbidden);
      }
      if cartItem.quantity >= product.stock {
        return Err(Http.Forbidden);
      }
      acct.cart := acct.cart[i := cartItem.(quantity := cartItem.quantity + 1)];
      return Ok(cartItem.quantity + 1);
    }
    acct.cart := acct.cart + [CartItem(productId, 1)];
    return Ok(1);
  }

  /** `removeItemFromCart`: 404 when the product has no line; otherwise its lines go and the
      others stay in order. */
  method RemoveItemFromCart(acct: Account, productId: ProductId) returns (r: Result<ProductId, int>)
    requires acct.Valid()
    modifies acct
    ensures acct.Valid() && acct.wishlist == old(acct.wishlist)
    ensures FindLine(old(acct.cart), productId).None? ==> r == Err(Http.NotFound) && acct.cart == old(acct.cart)
    ensures FindLine(old(acct.cart), productId).Some? ==>
      r == Ok(productId) && acct.cart == RemoveLines(old(acct.cart), productId)
  {
    if FindLine(acct.cart, productId).None? {
      return Err(Http.NotFound);
    }
    RemoveLinesKeeps(acct.cart, productId);
    RemoveLinesMembers(acct.cart, productId);
    acct.cart := RemoveLines(acct.cart, productId);
    return Ok(productId);
  }

  /** `updateItemQuantity`: 404 for a product missing or deleted or without a line, 403 above
      10 units, 409 above the stock; otherwise only that line's quantity is set. */
  method UpdateItemQuantity(acct: Account, products: Catalog.Products, productId: ProductId, quantity: int)
    returns (r: Result<int, int>)
    requires acct.Valid()
    requires quantity >= QuantityMin
    modifies acct
    ensures acct.Valid() && acct.wishlist == old(acct.wishlist)
    ensures !Catalog.Live(products, productId) ==> r == Err(Http.NotFound)
    ensures Catalog.Live(products, productId) && FindLine(old(acct.cart), productId).None? ==> r == Err(Http.NotFound)
    ensures r.Err? ==> acct.cart == old(acct.cart)
    ensures Catalog.Live(products, productId) && FindLine(old(acct.cart), productId).Some? ==>
      var i := FindLine(old(acct.cart), productId).value;
      (quantity > QuantityMax ==> r == Err(Http.Forbidden))
      && (quantity <= QuantityMax && quantity > products[productId].stock ==> r == Err(Http.Conflict))
      && (quantity <= QuantityMax && quantity <= products[productId].stock ==>
            r == Ok(quantity) && acct.cart == old(acct.cart)[i := CartItem(productId, quantity)])
  {
    if !Catalog.Live(products, productId) {
      return Err(Http.NotFound);
    }
    var product := products[productId];
    var found := FindLine(acct.cart, productId);
    if found.None? {
      return Err(Http.NotFound);
    }
    if quantity > QuantityMax {
      return Err(Http.Forbidden);
    }
    if quantity > product.stock {
      return Err(Http.Conflict);
    }
    var i := found.value;
    acct.cart := acct.cart[i := acct.cart[i].(quantity := quantity)];
    return Ok(quantity);
  }

  /** `moveItemToWishlist`: 404 for a product missing or deleted or without a line;
      otherwise its lines leave the cart and the product joins the end of the wishlist
      unless it is already there. */
  method MoveItemToWishlist(acct: Account, products: Catalog.Products, productId: ProductId)
    returns (r: Result<ProductId, int>)
    requires acct.Valid()
    modifies acct
    ensures acct.Valid()
    ensures !Catalog.Live(products, productId) ==> r == Err(Http.NotFound)
    ensures Catalog.Live(products, productId) && FindLine(old(acct.cart), productId).None? ==> r == Err(Http.NotFound)
    ensures r.Err? ==> acct.cart == old(acct.cart) && acct.wishlist == old(acct.wishlist)
    ensures r.Ok? <==> Catalog.Live(products, productId) && FindLine(old(acct.cart), productId).Some?
    ensures r.Ok? ==> acct.cart == RemoveLines(old(acct.cart), productId)
    ensures r.Ok? ==> acct.wishlist == if productId in old(acct.wishlist) then old(acct.wishlist) else old(acct.wishlist) + [productId]
  {
    if !Catalog.Live(products, productId) {
      return Err(Http.NotFound);
    }
    if FindLine(acct.cart, productId).None? {
      return Err(Http.NotFound);
    }
    RemoveLinesKeeps(acct.cart, productId);
    RemoveLinesMembers(acct.cart, productId);
    acct.cart := RemoveLines(acct.cart, productId);
    if productId !in acct.wishlist {
      acct.wishlist := acct.wishlist + [productId];
    }
    return Ok(productId);
  }

  /** `clearCart`: the cart is empty and the wishlist untouched. */
  method ClearCart(acct: Account)
    requires acct.Valid()
    modifies acct
    ensures acct.Valid() && acct.cart == [] && acct.wishlist == old(acct.wishlist)
  {
    acct.cart := [];
  }
}

/** The wishlist handlers of wishlistControllers.js, editing the signed-in user's wishlist
    (and, when an item is moved, the cart) in place. */
module Wishlist {
  import opened Wrappers
  import opened Users
  import Catalog
  import Http

  /** `addItemToWishlist`: 404 for a product missing or deleted, 409 when it is already in
      the wishlist; otherwise it joins the end. */
  method AddItemToWishlist(acct: Account, products: Catalog.Products, productId: ProductId)
    returns (r: Result<ProductId, int>)
    requires acct.Valid()
    modifies acct
    ensures acct.Valid() && acct.cart == old(acct.cart)
    ensures !Catalog.Live(products, productId) ==> r == Err(Http.NotFound)
    ensures Catalog.Live(products, productId) && productId in old(acct.wishlist) ==> r == Err(Http.Conflict)
    ensures r.Err? ==> acct.wishlist == old(acct.wishlist)
    ensures r.Ok? <==> Catalog.Live(products, productId) && productId !in old(acct.wishlist)
    ensures r.Ok? ==> acct.wishlist == old(acct.wishlist) + [productId]
  {
    if !Catalog.Live(products, productId) {
      return Err(Http.NotFound);
    }
    if productId in acct.wishlist {
      return Err(Http.Conflict);
    }
    acct.wishlist := acct.wishlist + [productId];
    return Ok(productId);
  }

  /** `removeItemFromWishlist`: 404 when the product is not there; otherwise it goes and the
      rest stay in order. */
  method RemoveItemFromWishlist(acct: Account, productId: ProductId) returns (r: Result<ProductId, int>)
    requires acct.Valid()
    modifies acct
    ensures acct.Valid() && acct.cart == old(acct.cart)
    ensures productId !in old(acct.wishlist) ==> r == Err(Http.NotFound) && acct.wishlist == old(acct.wishlist)
    ensures productId in old(acct.wishlist) ==> r == Ok(productId) && acct.wishlist == Without(old(acct.wishlist), productId)
  {
    if productId !in acct.wishlist {
      return Err(Http.NotFound);
    }
    WithoutKeepsUnique(acct.wishlist, productId);
    acct.wishlist := Without(acct.wishlist, productId);
    return Ok(productId);
  }

  /** Adding a product that was not in the wishlist and then removing it gives back the
      wishlist as it was. */
  lemma AddThenRemove(ws: seq<ProductId>, pid: ProductId)
    requires pid !in ws
    ensures Without(ws + [pid], pid) == ws
  {
    WithoutConcat(ws, [pid], pid);
    WithoutAbsent(ws, pid);
    assert Without([pid], pid) == [];
  }

  /** `moveItemToCart`: 404 for a product missing or deleted, 404 when it is not in the
      wishlist, 409 when it is out of stock; otherwise it leaves the wishlist and gets a
      cart line of one unless the cart already has a line for it, which stays as it is. */
  method MoveItemToCart(acct: Account, products: Catalog.Products, productId: ProductId)
    returns (r: Result<ProductId, int>)
    requires acct.Valid()
    modifies acct
    ensures acct.Valid()
    ensures !Catalog.Live(products, productId) ==> r == Err(Http.NotFound)
    ensures Catalog.Live(products, productId) && productId !in old(acct.wishlist) ==> r == Err(Http.NotFound)
    ensures Catalog.Live(products, productId) && productId in old(acct.wishlist) && products[productId].stock == 0
      ==> r == Err(Http.Conflict)
    ensures r.Err? ==> acct.cart == old(acct.cart) && acct.wishlist == old(acct.wishlist)
    ensures r.Ok? <==> Catalog.Live(products, productId) && productId in old(acct.wishlist) && products[productId].stock != 0
    ensures r.Ok? ==> acct.wishlist == Without(old(acct.wishlist), productId)
    ensures r.Ok? && FindLine(old(acct.cart), productId).Some? ==> acct.cart == old(acct.cart)
    ensures r.Ok? && FindLine(old(acct.cart), productId).None? ==> acct.cart == old(acct.cart) + [CartItem(productId, 1)]
  {
    if !Catalog.Live(products, productId) {
      return Err(Http.NotFound);
    }
    if productId !in acct.wishlist {
      return Err(Http.NotFound);
    }
    if products[productId].stock == 0 {
      return Err(Http.Conflict);
    }
    WithoutKeepsUnique(acct.wishlist, productId);
    acct.wishlist := Without(acct.wishlist, productId);
    if FindLine(acct.cart, productId).None? {
      acct.cart := acct.cart + [CartItem(productId, 1)];
    }
    return Ok(productId);
  }

  /** `clearWishlist`: the wishlist is empty and the cart untouched. */
  method ClearWishlist(acct: Account)
    requires acct.Valid()
    modifies acct
    ensures acct.Valid() && acct.wishlist == [] && acct.cart == old(acct.cart)
  {
    acct.wishlist := [];
  }
}

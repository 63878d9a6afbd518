/** The method allow-list middleware of isHttpMethodAllowed.js, over the route table of
    expectedHttpActions.js. */
module HttpMethods {
  import opened Wrappers
  import opened Js
  import Http

  type Table = map<string, seq<string>>

  /** `expectedHttpActions`, group by group as the source lists them. */
  const AuthenticationRoutes: Table := map[
    "/signup" := ["POST"],
    "/login" := ["POST"],
    "/logout" := ["POST"],
    "/password/forgot" := ["POST"],
    "/password/reset/:token" := ["PUT"]
  ]

  const UserRoutes: Table := map[
    "/users/self" := ["GET", "PUT", "DELETE"],
    "/users/self/avatar" := ["POST", "PUT"],
    "/users/self/avatar/update" := ["POST"],
    "/admin/users" := ["GET"],
    "/admin/users/:userId" := ["GET", "PUT", "DELETE"],
    "/admin/admins" := ["GET"],
    "/admin/self" := ["PUT", "DELETE"]
  ]

  const AddressRoutes: Table := map[
    "/addresses" := ["GET", "POST"],
    "/addresses/:addressId" := ["GET", "PUT", "DELETE"],
    "/addresses/:addressId/default" := ["PUT"]
  ]

  const CartRoutes: Table := map[
    "/cart" := ["GET"],
    "/cart/add" := ["POST"],
    "/cart/remove" := ["PUT"],
    "/cart/update" := ["PUT"],
    "/cart/move" := ["PUT"],
    "/cart/clear" := ["PUT"]
  ]

  const WishlistRoutes: Table := map[
    "/wishlist" := ["GET"],
    "/wishlist/add" := ["PUT"],
    "/wishlist/remove" := ["PUT"],
    "/wishlist/move" := ["PUT"],
    "/wishlist/clear" := ["PUT"]
  ]

  const ProductRoutes: Table := map[
    "/products" := ["GET"],
    "/products/:productId" := ["GET"],
    "/admin/products" := ["GET", "POST"],
    "/admin/products/:productId" := ["GET", "POST", "DELETE"],
    "/admin/products/:productId/restore" := ["PUT"]
  ]

  const CategoryRoutes: Table := map[
    "/categories" := ["GET"],
    "/categories/:categoryId" := ["GET"],
    "/admin/categories" := ["GET", "POST"],
    "/admin/categories/:categoryId" := ["POST"]
  ]

  const BrandRoutes: Table := map[
    "/brands" := ["GET"],
    "/brands/:brandId" := ["GET"],
    "/admin/brands" := ["GET", "POST"],
    "/admin/brands/:brandId" := ["POST"]
  ]

  const CouponRoutes: Table := map[
    "/coupons" := ["GET"],
    "/coupons/validity" := ["GET"],
    "/admin/coupons" := ["GET", "POST"],
    "/admin/coupons/:couponId" := ["GET", "PUT", "DELETE"],
    "/admin/coupons/:couponId/activate" := ["PUT"],
    "/admin/coupons/:couponId/deactivate" := ["PUT"]
  ]

  const OrderRoutes: Table := map[
    "/orders" := ["GET", "POST"],
    "/orders/:orderId" := ["GET"],
    "/orders/:orderId/confirm" := ["PUT"],
    "/orders/:orderId/cancel" := ["PUT"],
    "/admin/orders" := ["GET"],
    "/admin/orders/:orderId" := ["GET", "PUT", "DELETE"]
  ]

  const ReviewRoutes: Table := map[
    "/products/:productId/reviews" := ["GET", "POST"],
    "/reviews/:reviewId" := ["GET", "PUT"]
  ]

  /** `expectedHttpActions`: route template to the methods it accepts. */
  const ExpectedHttpActions: Table := AuthenticationRoutes + UserRoutes + AddressRoutes + CartRoutes + WishlistRoutes + ProductRoutes + CategoryRoutes + BrandRoutes + CouponRoutes + OrderRoutes + ReviewRoutes

  /** What the middleware does with a request: pass it on with `next()`, or throw with a
      status code and, for 405, the value of the `Allow` header. */
  datatype Verdict = Proceed | Rejected(status: int, allow: Option<string>)

  /** `requestedPath` after the loop: for each path parameter in turn, the first occurrence of
      its value is replaced by ":" followed by its name. */
  function Templated(path: string, params: seq<(string, string)>): (r: string)
    ensures (forall k :: 0 <= k < |params| ==> IndexOf(path, params[k].1).None?) ==> r == path
    decreases |params|
  {
    if |params| == 0 then path
    else Templated(ReplaceFirst(path, params[0].1, ":" + params[0].0), params[1..])
  }

  /** The parameters are applied in order: the last one acts on the path the others left. */
  lemma {:induction false} TemplatedSnoc(path: string, params: seq<(string, string)>, q: (string, string))
    ensures Templated(path, params + [q]) == ReplaceFirst(Templated(path, params), q.1, ":" + q.0)
    decreases |params|
  {
    if |params| == 0 {
      assert ([q])[1..] == [];
    } else {
      assert (params + [q])[1..] == params[1..] + [q];
      TemplatedSnoc(ReplaceFirst(path, params[0].1, ":" + params[0].0), params[1..], q);
    }
  }

  /** The templating loop over the parameter keys. */
  method TemplatePath(path: string, params: seq<(string, string)>) returns (requested: string)
    ensures requested == Templated(path, params)
    ensures |params| == 0 ==> requested == path
  {
    requested := path;
    var i := 0;
    while i < |params|
      invariant 0 <= i <= |params|
      invariant Templated(requested, params[i..]) == Templated(path, params)
    {
      assert params[i..][1..] == params[i + 1..];
      requested := ReplaceFirst(requested, params[i].1, ":" + params[i].0);
      i := i + 1;
    }
  }

  /** `isHttpMethodAllowed`: 500 when the templated path has no methods, 405 with the
      allowed methods in `Allow` when the method is not one of them, `next()` otherwise. */
  method IsHttpMethodAllowed(table: Table, path: string, params: seq<(string, string)>, httpMethod: string)
    returns (v: Verdict)
    ensures var p := Templated(path, params);
      (p !in table || |table[p]| == 0) ==> v == Rejected(Http.ServerError, None)
    ensures var p := Templated(path, params);
      p in table && |table[p]| > 0 && httpMethod !in table[p] ==>
        v == Rejected(Http.MethodNotAllowed, Some(Join(table[p], ", ")))
    ensures var p := Templated(path, params);
      v == Proceed <==> p in table && httpMethod in table[p]
  {
    var requested := TemplatePath(path, params);
    if requested !in table || |table[requested]| == 0 {
      return Rejected(Http.ServerError, None);
    }
    var allowed := table[requested];
    if httpMethod !in allowed {
      return Rejected(Http.MethodNotAllowed, Some(Join(allowed, ", ")));
    }
    return Proceed;
  }

  predicate EveryRouteHasMethods(t: Table) {
    forall p :: p in t ==> |t[p]| > 0
  }

  lemma UnionHasMethods(a: Table, b: Table)
    requires EveryRouteHasMethods(a) && EveryRouteHasMethods(b)
    ensures EveryRouteHasMethods(a + b)
  {
  }

  lemma AuthenticationRoutesHaveMethods()
    ensures EveryRouteHasMethods(AuthenticationRoutes)
  {
  }

  lemma UserRoutesHaveMethods()
    ensures EveryRouteHasMethods(UserRoutes)
  {
  }

  lemma AddressRoutesHaveMethods()
    ensures EveryRouteHasMethods(AddressRoutes)
  {
  }

  lemma CartRoutesHaveMethods()
    ensures EveryRouteHasMethods(CartRoutes)
  {
  }

  lemma WishlistRoutesHaveMethods()
    ensures EveryRouteHasMethods(WishlistRoutes)
  {
  }

  lemma ProductRoutesHaveMethods()
    ensures EveryRouteHasMethods(ProductRoutes)
  {
  }

  lemma CategoryRoutesHaveMethods()
    ensures EveryRouteHasMethods(CategoryRoutes)
  {
  }

  lemma BrandRoutesHaveMethods()
    ensures EveryRouteHasMethods(BrandRoutes)
  {
  }

  lemma CouponRoutesHaveMethods()
    ensures EveryRouteHasMethods(CouponRoutes)
  {
  }

  lemma OrderRoutesHaveMethods()
    ensures EveryRouteHasMethods(OrderRoutes)
  {
  }

  lemma ReviewRoutesHaveMethods()
    ensures EveryRouteHasMethods(ReviewRoutes)
  {
  }

  /** Every route of the table lists at least one method, so with this table the 500 answer
      means only that the templated path is not a route. */
  lemma TableHasMethods()
    ensures EveryRouteHasMethods(ExpectedHttpActions)
  {
    AuthenticationRoutesHaveMethods();
    UserRoutesHaveMethods();
    UnionHasMethods(AuthenticationRoutes, UserRoutes);
    AddressRoutesHaveMethods();
    UnionHasMethods(AuthenticationRoutes + UserRoutes, AddressRoutes);
    CartRoutesHaveMethods();
    UnionHasMethods(AuthenticationRoutes + UserRoutes + AddressRoutes, CartRoutes);
    WishlistRoutesHaveMethods();
    UnionHasMethods(AuthenticationRoutes + UserRoutes + AddressRoutes + CartRoutes, WishlistRoutes);
    ProductRoutesHaveMethods();
    UnionHasMethods(AuthenticationRoutes + UserRoutes + AddressRoutes + CartRoutes + WishlistRoutes, ProductRoutes);
    CategoryRoutesHaveMethods();
    UnionHasMethods(AuthenticationRoutes + UserRoutes + AddressRoutes + CartRoutes + WishlistRoutes + ProductRoutes, CategoryRoutes);
    BrandRoutesHaveMethods();
    UnionHasMethods(AuthenticationRoutes + UserRoutes + AddressRoutes + CartRoutes + WishlistRoutes + ProductRoutes + CategoryRoutes, BrandRoutes);
    CouponRoutesHaveMethods();
    UnionHasMethods(AuthenticationRoutes + UserRoutes + AddressRoutes + CartRoutes + WishlistRoutes + ProductRoutes + CategoryRoutes + BrandRoutes, CouponRoutes);
    OrderRoutesHaveMethods();
    UnionHasMethods(AuthenticationRoutes + UserRoutes + AddressRoutes + CartRoutes + WishlistRoutes + ProductRoutes + CategoryRoutes + BrandRoutes + CouponRoutes, OrderRoutes);
    ReviewRoutesHaveMethods();
    UnionHasMethods(AuthenticationRoutes + UserRoutes + AddressRoutes + CartRoutes + WishlistRoutes + ProductRoutes + CategoryRoutes + BrandRoutes + CouponRoutes + OrderRoutes, ReviewRoutes);
  }

  /** The confirm route takes only PUT. */
  lemma ConfirmRouteMethods()
    ensures "/orders/:orderId/confirm" in ExpectedHttpActions
    ensures ExpectedHttpActions["/orders/:orderId/confirm"] == ["PUT"]
  {
    ConfirmIsOrderRoute();
    ConfirmIsNoReviewRoute();
    LookupInLast(AuthenticationRoutes + UserRoutes + AddressRoutes + CartRoutes + WishlistRoutes + ProductRoutes + CategoryRoutes + BrandRoutes + CouponRoutes,
                 OrderRoutes, "/orders/:orderId/confirm");
    LookupBeforeLast(AuthenticationRoutes + UserRoutes + AddressRoutes + CartRoutes + WishlistRoutes + ProductRoutes + CategoryRoutes + BrandRoutes + CouponRoutes + OrderRoutes,
                     ReviewRoutes, "/orders/:orderId/confirm");
  }

  lemma ConfirmIsOrderRoute()
    ensures "/orders/:orderId/confirm" in OrderRoutes && OrderRoutes["/orders/:orderId/confirm"] == ["PUT"]
  {
  }

  lemma ConfirmIsNoReviewRoute()
    ensures "/orders/:orderId/confirm" !in ReviewRoutes
  {
    assert "/orders/:orderId/confirm" != "/products/:productId/reviews";
    assert "/orders/:orderId/confirm" != "/reviews/:reviewId";
  }

  /** A route of the later table wins in a union. */
  lemma LookupInLast(front: Table, last: Table, k: string)
    requires k in last
    ensures k in front + last && (front + last)[k] == last[k]
  {
  }

  /** A route the later table lacks keeps its entry from the earlier one. */
  lemma LookupBeforeLast(front: Table, last: Table, k: string)
    requires k in front && k !in last
    ensures k in front + last && (front + last)[k] == front[k]
  {
  }
}

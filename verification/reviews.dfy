/** The review handlers of reviewControllers.js: who may review a product, reading and
    updating one's own review, and the running average rating each product carries, which
    stays the mean of its reviews' ratings. */
module Reviews {
  import opened Wrappers
  import opened Constants
  import opened OrderModel
  import opened Catalog
  import Orders
  import Http

  type ReviewId = string

  /** A review document: the rating, the headline and the body, for one product by one
      user. */
  datatype Review = Review(id: ReviewId, product: ProductId, user: UserId, rating: int, headline: string, body: string)

  /** The review schema: a whole rating from 1 to 5. */
  predicate ValidRating(rating: int) {
    RatingMin <= rating <= RatingMax
  }

  /** The sum of the ratings of a product's reviews. */
  function RatingSum(reviews: seq<Review>, pid: ProductId): int
    decreases |reviews|
  {
    if |reviews| == 0 then 0
    else
      var last := reviews[|reviews| - 1];
      RatingSum(reviews[..|reviews| - 1], pid) + (if last.product == pid then last.rating else 0)
  }

  /** The number of a product's reviews (`Review.countDocuments({ product })`). */
  function RatingCount(reviews: seq<Review>, pid: ProductId): nat
    decreases |reviews|
  {
    if |reviews| == 0 then 0
    else
      var last := reviews[|reviews| - 1];
      RatingCount(reviews[..|reviews| - 1], pid) + (if last.product == pid then 1 else 0)
  }

  lemma RatingsSnoc(reviews: seq<Review>, r: Review, pid: ProductId)
    ensures RatingSum(reviews + [r], pid) == RatingSum(reviews, pid) + (if r.product == pid then r.rating else 0)
    ensures RatingCount(reviews + [r], pid) == RatingCount(reviews, pid) + (if r.product == pid then 1 else 0)
  {
    assert (reviews + [r])[..|reviews|] == reviews;
  }

  /** Replacing one review by one for the same product changes the sum by the difference of
      the ratings and leaves the count. */
  lemma {:induction false} RatingsUpdate(reviews: seq<Review>, i: nat, r: Review, pid: ProductId)
    requires i < |reviews| && r.product == reviews[i].product
    ensures RatingSum(reviews[i := r], pid) ==
      RatingSum(reviews, pid) + (if r.product == pid then r.rating - reviews[i].rating else 0)
    ensures RatingCount(reviews[i := r], pid) == RatingCount(reviews, pid)
    decreases |reviews|
  {
    var n := |reviews|;
    if i == n - 1 {
      assert reviews[i := r][..n - 1] == reviews[..n - 1];
    } else {
      assert reviews[i := r][..n - 1] == reviews[..n - 1][i := r];
      RatingsUpdate(reviews[..n - 1], i, r, pid);
    }
  }

  /** A product with a review has a positive count. */
  lemma {:induction false} RatingCountPositive(reviews: seq<Review>, i: nat)
    requires i < |reviews|
    ensures RatingCount(reviews, reviews[i].product) >= 1
    decreases |reviews|
  {
    var n := |reviews|;
    if i < n - 1 {
      assert reviews[..n - 1][i] == reviews[i];
      RatingCountPositive(reviews[..n - 1], i);
    }
  }

  /** With every rating from 1 to 5 the sum lies between once and five times the count. */
  lemma {:induction false} RatingSumBounds(reviews: seq<Review>, pid: ProductId)
    requires forall i :: 0 <= i < |reviews| ==> ValidRating(reviews[i].rating)
    ensures RatingMin * RatingCount(reviews, pid) <= RatingSum(reviews, pid) <= RatingMax * RatingCount(reviews, pid)
    decreases |reviews|
  {
    if |reviews| > 0 {
      assert ValidRating(reviews[|reviews| - 1].rating);
      RatingSumBounds(reviews[..|reviews| - 1], pid);
    }
  }

  /** One product's count is `count` and its average times the count is `sum`. */
  predicate Agrees(p: Product, count: nat, sum: int) {
    p.reviewCount == count && p.avgRating * (count as real) == sum as real
  }

  /** Every product's review count is the number of its reviews, and its average times the
      count is the sum of their ratings. */
  predicate RatingsAgree(reviews: seq<Review>, products: Products) {
    forall pid :: pid in products ==> Agrees(products[pid], RatingCount(reviews, pid), RatingSum(reviews, pid))
  }

  lemma DivMonotone(x: real, y: real, c: real)
    requires c > 0.0 && x <= y
    ensures x / c <= y / c
  {
  }

  lemma MulDivCancel(x: real, c: real)
    requires c > 0.0
    ensures x * c / c == x
  {
  }

  /** An average that times a positive count gives a sum between `lo` and `hi` times the
      count is that sum over the count, and lies between `lo` and `hi`. */
  lemma MeanBetween(a: real, c: real, s: real, lo: real, hi: real)
    requires c > 0.0 && a * c == s && lo * c <= s <= hi * c
    ensures a == s / c && lo <= a <= hi
  {
    MulDivCancel(a, c);
    MulDivCancel(lo, c);
    MulDivCancel(hi, c);
    DivMonotone(lo * c, s, c);
    DivMonotone(s, hi * c, c);
  }

  lemma BoundsAsReal(n: int, s: int, lo: int, hi: int)
    requires lo * n <= s <= hi * n
    ensures (lo as real) * (n as real) <= s as real <= (hi as real) * (n as real)
  {
    assert (lo * n) as real == (lo as real) * (n as real);
    assert (hi * n) as real == (hi as real) * (n as real);
  }

  /** A product whose summary agrees with a positive count of ratings from 1 to 5 has their
      mean as its average. */
  lemma ProductMean(p: Product, n: nat, total: int)
    requires Agrees(p, n, total) && n > 0
    requires RatingMin * n <= total <= RatingMax * n
    ensures p.avgRating == (total as real) / (n as real)
    ensures RatingMin as real <= p.avgRating <= RatingMax as real
  {
    BoundsAsReal(n, total, RatingMin, RatingMax);
    MeanBetween(p.avgRating, n as real, total as real, RatingMin as real, RatingMax as real);
  }

  /** Under the agreement a reviewed product's average is the mean of its ratings, and so
      lies between 1 and 5. */
  lemma AverageIsMean(reviews: seq<Review>, products: Products, pid: ProductId)
    requires RatingsAgree(reviews, products)
    requires forall i :: 0 <= i < |reviews| ==> ValidRating(reviews[i].rating)
    requires pid in products && products[pid].reviewCount > 0
    ensures products[pid].avgRating == (RatingSum(reviews, pid) as real) / (RatingCount(reviews, pid) as real)
    ensures RatingMin as real <= products[pid].avgRating <= RatingMax as real
  {
    assert Agrees(products[pid], RatingCount(reviews, pid), RatingSum(reviews, pid));
    RatingSumBounds(reviews, pid);
    ProductMean(products[pid], RatingCount(reviews, pid), RatingSum(reviews, pid));
  }

  /** Agreement depends on the rating summary alone. */
  lemma AgreesOnSummary(p: Product, q: Product, count: nat, sum: int)
    requires Agrees(p, count, sum)
    requires q.avgRating == p.avgRating && q.reviewCount == p.reviewCount
    ensures Agrees(q, count, sum)
  {
  }

  /** The product after `addProductReview` folds in one more rating. */
  function WithAddedRating(p: Product, rating: int): (r: Product)
    requires p.reviewCount >= 0
    ensures r.reviewCount == p.reviewCount + 1
    ensures r.(avgRating := p.avgRating, reviewCount := p.reviewCount) == p
    ensures r.avgRating * (r.reviewCount as real) == p.avgRating * (p.reviewCount as real) + rating as real
  {
    var c := p.reviewCount as real;
    var total := p.avgRating * c + rating as real;
    var avg := total / (c + 1.0);
    assert avg * (c + 1.0) == total;
    p.(avgRating := avg, reviewCount := p.reviewCount + 1)
  }

  /** The product after `updateProductReview` swaps one rating for another. */
  function WithChangedRating(p: Product, oldRating: int, newRating: int): (r: Product)
    requires p.reviewCount > 0
    ensures r.(avgRating := p.avgRating) == p
    ensures r.avgRating * (r.reviewCount as real) == p.avgRating * (p.reviewCount as real) - oldRating as real + newRating as real
  {
    var c := p.reviewCount as real;
    var total := p.avgRating * c - oldRating as real + newRating as real;
    var avg := total / c;
    assert avg * c == total;
    p.(avgRating := avg)
  }

  /** Adding a review and folding its rating into its product keeps the agreement. */
  lemma AddKeepsAgreement(reviews: seq<Review>, products: Products, r: Review)
    requires RatingsAgree(reviews, products) && r.product in products
    ensures RatingsAgree(reviews + [r], products[r.product := WithAddedRating(products[r.product], r.rating)])
  {
    var after := products[r.product := WithAddedRating(products[r.product], r.rating)];
    forall pid | pid in after
      ensures Agrees(after[pid], RatingCount(reviews + [r], pid), RatingSum(reviews + [r], pid))
    {
      RatingsSnoc(reviews, r, pid);
      assert Agrees(products[pid], RatingCount(reviews, pid), RatingSum(reviews, pid));
    }
  }

  /** Changing a review's rating and swapping it in its product's average keeps the
      agreement. */
  lemma UpdateKeepsAgreement(reviews: seq<Review>, products: Products, i: nat, r: Review)
    requires RatingsAgree(reviews, products)
    requires i < |reviews| && r.product == reviews[i].product && r.product in products
    ensures products[r.product].reviewCount > 0
    ensures RatingsAgree(reviews[i := r],
      products[r.product := WithChangedRating(products[r.product], reviews[i].rating, r.rating)])
  {
    RatingCountPositive(reviews, i);
    assert Agrees(products[r.product], RatingCount(reviews, r.product), RatingSum(reviews, r.product));
    var after := products[r.product := WithChangedRating(products[r.product], reviews[i].rating, r.rating)];
    forall pid | pid in after
      ensures Agrees(after[pid], RatingCount(reviews[i := r], pid), RatingSum(reviews[i := r], pid))
    {
      RatingsUpdate(reviews, i, r, pid);
      assert Agrees(products[pid], RatingCount(reviews, pid), RatingSum(reviews, pid));
    }
  }

  /** The stock moves of the order handlers never touch the rating summary, so they keep
      the agreement. */
  lemma ShiftKeepsAgreement(reviews: seq<Review>, products: Products, items: seq<OrderItem>, k: int)
    requires RatingsAgree(reviews, products)
    ensures RatingsAgree(reviews, Shifted(products, items, k))
  {
    var after := Shifted(products, items, k);
    forall pid | pid in after
      ensures Agrees(after[pid], RatingCount(reviews, pid), RatingSum(reviews, pid))
    {
      ShiftedAt(products, items, k, pid);
      AgreesOnSummary(products[pid], after[pid], RatingCount(reviews, pid), RatingSum(reviews, pid));
    }
  }

  /** The review handlers never touch stock or units sold, so they keep the order ledger. */
  lemma RatingChangeKeepsLedger(orders: seq<Order>, products: Products, pid: ProductId, p: Product,
                                stockBase: map<ProductId, int>, soldBase: map<ProductId, int>)
    requires Orders.LedgerHolds(orders, products, stockBase, soldBase)
    requires pid in products && p.stock == products[pid].stock && p.soldUnits == products[pid].soldUnits
    ensures Orders.LedgerHolds(orders, products[pid := p], stockBase, soldBase)
  {
  }

  /** The product's line is in the order (`items: { $elemMatch: { product } }`). */
  predicate HasLine(items: seq<OrderItem>, pid: ProductId) {
    exists j :: 0 <= j < |items| && items[j].product == pid
  }

  /** `Order.findOne({ user, items: { $elemMatch: { product } }, isPaid: true })`: the first
      paid order of the user with the product, deleted or not. */
  function FirstPurchase(orders: seq<Order>, user: UserId, pid: ProductId): (r: Option<nat>)
    ensures r.Some? ==> r.value < |orders| && orders[r.value].user == user
    ensures r.Some? ==> orders[r.value].isPaid && HasLine(orders[r.value].items, pid)
    ensures r.Some? ==> forall j :: 0 <= j < r.value ==>
      !(orders[j].user == user && orders[j].isPaid && HasLine(orders[j].items, pid))
    ensures r.None? ==> forall j :: 0 <= j < |orders| ==>
      !(orders[j].user == user && orders[j].isPaid && HasLine(orders[j].items, pid))
  {
    if |orders| == 0 then None
    else if orders[0].user == user && orders[0].isPaid && HasLine(orders[0].items, pid) then Some(0)
    else
      var k := FirstPurchase(orders[1..], user, pid);
      if k.None? then None else Some(k.value + 1)
  }

  /** `Review.findOne({ product, user })` finds one. */
  predicate AlreadyReviewed(reviews: seq<Review>, pid: ProductId, user: UserId) {
    exists i :: 0 <= i < |reviews| && reviews[i].product == pid && reviews[i].user == user
  }

  /** `Review.findById`: the first review with the id. */
  function FindReview(reviews: seq<Review>, id: ReviewId): (r: Option<nat>)
    ensures r.Some? ==> r.value < |reviews| && reviews[r.value].id == id
    ensures r.None? ==> forall j :: 0 <= j < |reviews| ==> reviews[j].id != id
  {
    if |reviews| == 0 then None
    else if reviews[0].id == id then Some(0)
    else
      var k := FindReview(reviews[1..], id);
      if k.None? then None else Some(k.value + 1)
  }

  /** `getProductReviewById`: 404 for a missing review, 403 for another user's. */
  function GetProductReviewById(reviews: seq<Review>, id: ReviewId, caller: UserId): (r: Result<Review, int>)
    ensures FindReview(reviews, id).None? ==> r == Err(Http.NotFound)
    ensures FindReview(reviews, id).Some? && reviews[FindReview(reviews, id).value].user != caller ==> r == Err(Http.Forbidden)
    ensures r.Ok? <==> FindReview(reviews, id).Some? && reviews[FindReview(reviews, id).value].user == caller
    ensures r.Ok? ==> r.value.id == id && r.value.user == caller && r.value in reviews
  {
    match FindReview(reviews, id)
    case None => Err(Http.NotFound)
    case Some(i) => if reviews[i].user != caller then Err(Http.Forbidden) else Ok(reviews[i])
  }

  /** The review collection. */
  class ReviewStore {
    var reviews: seq<Review>

    /** Ids are unique, every rating is from 1 to 5, every review is of a known product,
        and every product's count and average agree with its reviews. */
    ghost predicate Valid(products: Products)
      reads this
    {
      (forall i, j :: 0 <= i < j < |reviews| ==> reviews[i].id != reviews[j].id)
      && (forall i :: 0 <= i < |reviews| ==> ValidRating(reviews[i].rating))
      && (forall i :: 0 <= i < |reviews| ==> reviews[i].product in products)
      && RatingsAgree(reviews, products)
    }

    /** No reviews yet: every product must have a zero count. */
    constructor (products: Products)
      requires forall pid :: pid in products ==> products[pid].reviewCount == 0
      ensures reviews == [] && Valid(products)
    {
      reviews := [];
    }

    /** `addProductReview`: 404 for an unknown product (deleted products included), 409 when
        the caller already reviewed it, 403 when the caller's first paid order with it is
        missing or not delivered. Otherwise the review is stored and the product's count
        and average take in its rating. */
    method AddProductReview(catalog: ProductStore, orders: seq<Order>, newId: ReviewId, productId: ProductId,
                            caller: UserId, rating: int, headline: string, body: string)
      returns (r: Result<Review, int>)
      requires Valid(catalog.products)
      requires FindReview(reviews, newId).None? && ValidRating(rating)
      modifies this, catalog
      ensures Valid(catalog.products)
      ensures productId !in old(catalog.products) ==> r == Err(Http.NotFound)
      ensures productId in old(catalog.products) && AlreadyReviewed(old(reviews), productId, caller) ==>
        r == Err(Http.Conflict)
      ensures productId in old(catalog.products) && !AlreadyReviewed(old(reviews), productId, caller) ==>
        var f := FirstPurchase(orders, caller, productId);
        (f.None? || orders[f.value].status != Delivered ==> r == Err(Http.Forbidden))
      ensures r.Err? ==> reviews == old(reviews) && catalog.products == old(catalog.products)
      ensures r.Ok? <==> productId in old(catalog.products) && !AlreadyReviewed(old(reviews), productId, caller)
                         && FirstPurchase(orders, caller, productId).Some?
                         && orders[FirstPurchase(orders, caller, productId).value].status == Delivered
      ensures r.Ok? ==> r.value == Review(newId, productId, caller, rating, headline, body)
      ensures r.Ok? ==> reviews == old(reviews) + [r.value]
      ensures r.Ok? ==> catalog.products == old(catalog.products)[productId := WithAddedRating(old(catalog.products)[productId], rating)]
    {
      if productId !in catalog.products {
        return Err(Http.NotFound);
      }
      var existingReview := exists i :: 0 <= i < |reviews| && reviews[i].product == productId && reviews[i].user == caller;
      if existingReview {
        return Err(Http.Conflict);
      }
      var order := FirstPurchase(orders, caller, productId);
      if order.None? {
        return Err(Http.Forbidden);
      }
      if orders[order.value].status != Delivered {
        return Err(Http.Forbidden);
      }
      var addedReview := Review(newId, productId, caller, rating, headline, body);
      AddKeepsAgreement(reviews, catalog.products, addedReview);
      var product := WithAddedRating(catalog.products[productId], rating);
      reviews := reviews + [addedReview];
      catalog.SetRating(productId, product.avgRating, product.reviewCount);
      return Ok(addedReview);
    }

    /** `updateProductReview`: 404 and 403 as for reading; otherwise the rating, headline and
        body are replaced and the product's average swaps the old rating for the new one,
        its count unchanged. */
    method UpdateProductReview(catalog: ProductStore, reviewId: ReviewId, caller: UserId,
                               rating: int, headline: string, body: string)
      returns (r: Result<Review, int>)
      requires Valid(catalog.products) && ValidRating(rating)
      modifies this, catalog
      ensures Valid(catalog.products)
      ensures FindReview(old(reviews), reviewId).None? ==> r == Err(Http.NotFound)
      ensures FindReview(old(reviews), reviewId).Some? && old(reviews)[FindReview(old(reviews), reviewId).value].user != caller
        ==> r == Err(Http.Forbidden)
      ensures r.Err? ==> reviews == old(reviews) && catalog.products == old(catalog.products)
      ensures r.Ok? <==> GetProductReviewById(old(reviews), reviewId, caller).Ok?
      ensures r.Ok? ==>
        var i := FindReview(old(reviews), reviewId).value;
        var before := old(reviews)[i];
        r.value == before.(rating := rating, headline := headline, body := body)
        && reviews == old(reviews)[i := r.value]
        && before.product in old(catalog.products) && old(catalog.products)[before.product].reviewCount > 0
        && catalog.products == old(catalog.products)[before.product :=
             WithChangedRating(old(catalog.products)[before.product], before.rating, rating)]
    {
      var found := FindReview(reviews, reviewId);
      if found.None? {
        return Err(Http.NotFound);
      }
      var i := found.value;
      var review := reviews[i];
      if review.user != caller {
        return Err(Http.Forbidden);
      }
      var updatedReview := review.(rating := rating, headline := headline, body := body);
      UpdateKeepsAgreement(reviews, catalog.products, i, updatedReview);
      var product := WithChangedRating(catalog.products[review.product], review.rating, rating);
      reviews := reviews[i := updatedReview];
      catalog.SetRating(review.product, product.avgRating, product.reviewCount);
      return Ok(updatedReview);
    }
  }
}

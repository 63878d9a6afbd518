/** The product records the order, cart and review handlers read and update: stock and
    units sold, the soft-delete flag, and the rating summary. */
module Catalog {
  import opened OrderModel

  datatype Product = Product(
    price: real,
    stock: int,
    soldUnits: int,
    isDeleted: bool,
    avgRating: real,
    reviewCount: int)

  type Products = map<ProductId, Product>

  /** `Product.findOne({ _id: id, isDeleted: false })`. */
  predicate Live(products: Products, pid: ProductId) {
    pid in products && !products[pid].isDeleted
  }

  /** One `$inc: { stock: k * q, soldUnits: -k * q }` on the line's product; a product that
      does not exist is not updated. */
  function Step(products: Products, it: OrderItem, k: int): (r: Products)
    ensures r.Keys == products.Keys
    ensures forall pid :: pid in products && pid != it.product ==> r[pid] == products[pid]
    ensures it.product in products ==>
      r[it.product].stock + r[it.product].soldUnits == products[it.product].stock + products[it.product].soldUnits
  {
    if it.product in products then
      var p := products[it.product];
      products[it.product := p.(stock := p.stock + k * it.quantity, soldUnits := p.soldUnits - k * it.quantity)]
    else products
  }

  /** The effect of one more line on one product. */
  lemma StepAt(base: Product, prev: Products, prefix: seq<OrderItem>, last: OrderItem, k: int, pid: ProductId)
    requires pid in prev
    requires prev[pid] == base.(stock := base.stock + k * QtyOf(prefix, pid),
                                soldUnits := base.soldUnits - k * QtyOf(prefix, pid))
    ensures Step(prev, last, k)[pid] == base.(stock := base.stock + k * QtyOf(prefix + [last], pid),
                                              soldUnits := base.soldUnits - k * QtyOf(prefix + [last], pid))
  {
    QtyOfSnoc(prefix, last, pid);
    var d := if last.product == pid then last.quantity else 0;
    var q := QtyOf(prefix, pid);
    assert QtyOf(prefix + [last], pid) == q + d;
    assert k * (q + d) == k * q + k * d;
    var s := Step(prev, last, k)[pid];
    assert s.stock == base.stock + k * q + k * d;
    assert s.soldUnits == base.soldUnits - k * q - k * d;
    assert s == base.(stock := s.stock, soldUnits := s.soldUnits);
  }

  /** The products after the per-line updates of an order, with `k = -1` for taking the
      units out of stock (confirm) and `k = 1` for putting them back (cancel, delete). Each
      product moves by `k` times its units in the order, whatever the order of the lines. */
  function Shifted(products: Products, items: seq<OrderItem>, k: int): (r: Products)
    ensures r.Keys == products.Keys
    decreases |items|
  {
    if |items| == 0 then products
    else Step(Shifted(products, items[..|items| - 1], k), items[|items| - 1], k)
  }

  /** Each product moves by `k` times its units in the order, whatever the order of the
      lines. */
  lemma {:induction false} ShiftedAt(products: Products, items: seq<OrderItem>, k: int, pid: ProductId)
    requires pid in products
    ensures Shifted(products, items, k)[pid]
         == products[pid].(stock := products[pid].stock + k * QtyOf(items, pid),
                           soldUnits := products[pid].soldUnits - k * QtyOf(items, pid))
    decreases |items|
  {
    if |items| > 0 {
      var prefix := items[..|items| - 1];
      var last := items[|items| - 1];
      assert items == prefix + [last];
      ShiftedAt(products, prefix, k, pid);
      StepAt(products[pid], Shifted(products, prefix, k), prefix, last, k, pid);
    }
  }

  /** Confirming and then cancelling (or deleting) an order leaves every product as it was. */
  lemma ShiftConservation(products: Products, items: seq<OrderItem>)
    ensures Shifted(Shifted(products, items, -1), items, 1) == products
  {
    var mid := Shifted(products, items, -1);
    var r := Shifted(mid, items, 1);
    forall pid | pid in products
      ensures r[pid] == products[pid]
    {
      ShiftedAt(products, items, -1, pid);
      ShiftedAt(mid, items, 1, pid);
    }
  }

  /** Shifting never touches anything but stock and units sold, so the deletion flag and the
      rating summary stay. */
  lemma ShiftKeepsOtherFields(products: Products, items: seq<OrderItem>, k: int)
    ensures forall pid :: pid in products ==>
      Shifted(products, items, k)[pid].(stock := products[pid].stock, soldUnits := products[pid].soldUnits)
        == products[pid]
  {
    forall pid | pid in products
      ensures Shifted(products, items, k)[pid].(stock := products[pid].stock, soldUnits := products[pid].soldUnits)
        == products[pid]
    {
      ShiftedAt(products, items, k, pid);
    }
  }

  /** Units in stock plus units sold, per product. */
  function StockTotals(products: Products): (r: map<ProductId, int>)
    ensures r.Keys == products.Keys
    ensures forall pid :: pid in products ==> r[pid] == products[pid].stock + products[pid].soldUnits
  {
    map pid | pid in products :: products[pid].stock + products[pid].soldUnits
  }

  /** Every shift moves units between stock and units sold and never changes their sum. */
  lemma ShiftKeepsTotals(products: Products, items: seq<OrderItem>, k: int)
    ensures StockTotals(Shifted(products, items, k)) == StockTotals(products)
  {
    var after := StockTotals(Shifted(products, items, k));
    var before := StockTotals(products);
    assert after.Keys == before.Keys;
    forall pid | pid in before
      ensures after[pid] == before[pid]
    {
      ShiftedAt(products, items, k, pid);
    }
  }

  /** The product table. */
  class ProductStore {
    var products: Products

    constructor (products: Products)
      ensures this.products == products
    {
      this.products := products;
    }

    /** The per-line `Product.findByIdAndUpdate` calls of an order, one after the other. */
    method ShiftStock(items: seq<OrderItem>, k: int)
      modifies this
      ensures products == Shifted(old(products), items, k)
    {
      var i := 0;
      while i < |items|
        invariant 0 <= i <= |items|
        invariant products == Shifted(old(products), items[..i], k)
      {
        assert items[..i + 1][..i] == items[..i];
        var it := items[i];
        if it.product in products {
          var p := products[it.product];
          products := products[it.product := p.(stock := p.stock + k * it.quantity,
                                                 soldUnits := p.soldUnits - k * it.quantity)];
        }
        i := i + 1;
      }
      assert items[..i] == items;
    }

    /** `product.save()` after the review handlers set the rating summary. */
    method SetRating(pid: ProductId, avgRating: real, reviewCount: int)
      requires pid in products
      modifies this
      ensures products == old(products)[pid := old(products)[pid].(avgRating := avgRating, reviewCount := reviewCount)]
    {
      products := products[pid := products[pid].(avgRating := avgRating, reviewCount := reviewCount)];
    }
  }
}

/** The product repository: stock adjustments and the in-memory low-stock
    filter of a product list.  Stock levels are integers keyed by product
    id. */
module Products {
  import opened Common

  type Stock = map<string, int>

  datatype InventoryType = In | Out | Adjustment

  /** The inventory transaction an adjustment logs. */
  datatype Transaction = Transaction(productId: string, kind: InventoryType, quantity: int, reason: Option<string>)

  /** The level a movement asks for, before clamping: `IN` adds, `OUT`
      removes, `ADJUSTMENT` sets. */
  function Target(current: int, kind: InventoryType, quantity: int): int
  {
    match kind
    case In => current + quantity
    case Out => current - quantity
    case Adjustment => quantity
  }

  /** `adjustStock`: the product must exist; its level becomes the target
      clamped at zero; the transaction records the movement as requested,
      even when the clamp cut it short. */
  function AdjustStock(stock: Stock, productId: string, kind: InventoryType, quantity: int, reason: Option<string>)
    : (r: Result<(Stock, Transaction)>)
    ensures r.Failure? <==> productId !in stock
    ensures r.Failure? ==> r.error == Thrown("Product not found")
    ensures r.Success? ==>
      var (s, t) := r.value;
      && s.Keys == stock.Keys
      && (forall p :: p in stock && p != productId ==> s[p] == stock[p])
      && s[productId] >= 0
      && (kind == In ==> s[productId] == Max(0, stock[productId] + quantity))
      && (kind == Out ==> s[productId] == Max(0, stock[productId] - quantity))
      && (kind == Adjustment ==> s[productId] == Max(0, quantity))
      && t == Transaction(productId, kind, quantity, reason)
  {
    if productId !in stock then Failure(Thrown("Product not found"))
    else
      var newStock := Target(stock[productId], kind, quantity);
      Success((stock[productId := Max(0, newStock)], Transaction(productId, kind, quantity, reason)))
  }

  /** Setting a level twice is setting it once. */
  lemma AdjustmentIdempotent(stock: Stock, productId: string, quantity: int, reason: Option<string>)
    requires productId in stock
    ensures var once := AdjustStock(stock, productId, Adjustment, quantity, reason).value.0;
      AdjustStock(once, productId, Adjustment, quantity, reason).value.0 == once
  {
  }

  /** Receiving and then shipping the same quantity restores a
      non-negative level. */
  lemma InThenOutRestores(stock: Stock, productId: string, quantity: int, reason: Option<string>)
    requires productId in stock && stock[productId] >= 0 && quantity >= 0
    ensures var received := AdjustStock(stock, productId, In, quantity, reason).value.0;
      AdjustStock(received, productId, Out, quantity, reason).value.0 == stock
  {
    var received := AdjustStock(stock, productId, In, quantity, reason).value.0;
    var shipped := AdjustStock(received, productId, Out, quantity, reason).value.0;
    assert shipped.Keys == stock.Keys;
  }

  /** The fields the low-stock filter reads. */
  datatype Product = Product(id: string, stockQuantity: int, lowStockAlert: int)

  predicate IsLow(p: Product) { p.stockQuantity <= p.lowStockAlert }

  /** `items.filter(p => p.stockQuantity <= p.lowStockAlert)`. */
  function LowStock(items: seq<Product>): (r: seq<Product>)
    ensures |r| <= |items|
    ensures forall p :: p in r <==> p in items && IsLow(p)
  {
    if |items| == 0 then []
    else LowStock(items[..|items| - 1]) + (if IsLow(items[|items| - 1]) then [items[|items| - 1]] else [])
  }

  /** The filter keeps the list's order: filtering a concatenation filters
      each part. */
  lemma {:induction false} LowStockAppend(a: seq<Product>, b: seq<Product>)
    ensures LowStock(a + b) == LowStock(a) + LowStock(b)
    decreases |b|
  {
    if |b| == 0 {
      assert a + b == a;
    } else {
      var b' := b[..|b| - 1];
      assert (a + b)[..|a + b| - 1] == a + b';
      LowStockAppend(a, b');
    }
  }

  /** Filtering a filtered list changes nothing. */
  lemma {:induction false} LowStockIdempotent(items: seq<Product>)
    ensures LowStock(LowStock(items)) == LowStock(items)
  {
    if |items| > 0 {
      var init, last := items[..|items| - 1], items[|items| - 1];
      LowStockIdempotent(init);
      var tail := if IsLow(last) then [last] else [];
      LowStockAppend(LowStock(init), tail);
      assert LowStock(tail) == tail by {
        if IsLow(last) {
          assert tail[..0] == [];
        }
      }
    }
  }

  datatype ProductPage = ProductPage(items: seq<Product>, total: nat)

  /** The result of a product list: with `lowStock` set, the fetched page is
      filtered and the total is the filtered length; otherwise the page and
      the counted total pass through. */
  function ListProducts(page: seq<Product>, counted: nat, lowStock: bool): (r: ProductPage)
    ensures lowStock ==> r.items == LowStock(page) && r.total == |r.items|
    ensures !lowStock ==> r == ProductPage(page, counted)
  {
    if lowStock then
      var filtered := LowStock(page);
      ProductPage(filtered, |filtered|)
    else ProductPage(page, counted)
  }

  /** With `lowStock` the reported total never exceeds the page fetched,
      so low-stock products beyond the page are not counted. */
  lemma LowStockTotalIsPageLocal(page: seq<Product>, counted: nat)
    ensures ListProducts(page, counted, true).total <= |page|
    ensures forall p :: p in ListProducts(page, counted, true).items <==> p in page && IsLow(p)
  {
  }
}

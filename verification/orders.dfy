/** The order service's `createOrder` and the repository's stock deduction
    that runs with it.  Stock levels are integers keyed by product id; the
    order number is an input. */
module Orders {
  import opened Common
  import Products

  datatype OrderItemInput = OrderItemInput(productId: Option<string>, name: string, quantity: int, unitPrice: real)

  /** A stored order item: `productId || undefined`, and its total. */
  datatype OrderLine = OrderLine(productId: Option<string>, name: string, quantity: int, unitPrice: real, totalAmount: real)

  function LineOf(item: OrderItemInput): (l: OrderLine)
    ensures l.totalAmount == item.quantity as real * item.unitPrice
    ensures l.productId.Some? <==> item.productId.Some? && item.productId.value != ""
    ensures l.productId.Some? ==> l.productId == item.productId
  {
    OrderLine(
      if item.productId.Some? && item.productId.value != "" then item.productId else None,
      item.name, item.quantity, item.unitPrice, item.quantity as real * item.unitPrice)
  }

  function LinesOf(items: seq<OrderItemInput>): (ls: seq<OrderLine>)
    ensures |ls| == |items|
    ensures forall i :: 0 <= i < |items| ==> ls[i] == LineOf(items[i])
  {
    seq(|items|, i requires 0 <= i < |items| => LineOf(items[i]))
  }

  function LineAmount(l: OrderLine): real { l.totalAmount }

  datatype Order = Order(
    orderNumber: string,
    orderType: string,
    subtotal: real,
    deliveryFee: real,
    taxAmount: real,
    discountAmount: real,
    totalAmount: real,
    paymentStatus: string,
    lines: seq<OrderLine>)

  /** `createOrder`: at least one item; no tax is charged; the total is the
      subtotal plus the delivery fee less the discount; the type defaults
      to delivery and the payment status to pending. */
  function CreateOrder(orderNumber: string, items: seq<OrderItemInput>, orderType: Option<string>,
                       deliveryFee: Option<real>, discountAmount: Option<real>, paymentStatus: Option<string>)
    : (r: Result<Order>)
    ensures r.Failure? <==> |items| == 0
    ensures r.Failure? ==> r.error == Validation("Order must have at least one item")
    ensures r.Success? ==>
      var o := r.value;
      && o.orderNumber == orderNumber
      && o.lines == LinesOf(items)
      && o.subtotal == SumBy(o.lines, LineAmount)
      && o.taxAmount == 0.0
      && o.deliveryFee == OrZero(deliveryFee) && o.discountAmount == OrZero(discountAmount)
      && o.totalAmount == o.subtotal + o.deliveryFee - o.discountAmount
      && o.orderType == OrStr(orderType, "DELIVERY")
      && o.paymentStatus == OrStr(paymentStatus, "ORDER_PAYMENT_PENDING")
  {
    if |items| == 0 then Failure(Validation("Order must have at least one item"))
    else
      var lines := LinesOf(items);
      var subtotal := SumBy(lines, LineAmount);
      var taxAmount := 0.0;
      var fee := OrZero(deliveryFee);
      var discount := OrZero(discountAmount);
      Success(Order(orderNumber, OrStr(orderType, "DELIVERY"), subtotal, fee, taxAmount, discount,
                    subtotal + fee + taxAmount - discount,
                    OrStr(paymentStatus, "ORDER_PAYMENT_PENDING"), lines))
  }

  type Stock = Products.Stock

  /** An `OUT` inventory transaction written for an order item. */
  datatype Movement = Movement(productId: string, quantity: int, reason: string)

  /** One iteration of the deduction loop: a linked product that exists
      loses the quantity, never going below zero, and an `OUT` movement of
      the full quantity is logged; anything else is left alone. */
  function DeductLine(stock: Stock, moves: seq<Movement>, line: OrderLine, orderNumber: string): (r: (Stock, seq<Movement>))
    ensures r.0.Keys == stock.Keys
    ensures forall p :: p in stock && line.productId != Some(p) ==> r.0[p] == stock[p]
    ensures line.productId.Some? && line.productId.value in stock ==>
      && r.0[line.productId.value] == Max(0, stock[line.productId.value] - line.quantity)
      && r.1 == moves + [Movement(line.productId.value, line.quantity, "Order " + orderNumber)]
    ensures !(line.productId.Some? && line.productId.value in stock) ==> r == (stock, moves)
  {
    if line.productId.Some? && line.productId.value in stock then
      var p := line.productId.value;
      (stock[p := Max(0, stock[p] - line.quantity)],
       moves + [Movement(p, line.quantity, "Order " + orderNumber)])
    else (stock, moves)
  }

  /** The loop of `createWithItemsAndStockDeduction`, item by item. */
  function DeductStock(stock: Stock, lines: seq<OrderLine>, orderNumber: string): (r: (Stock, seq<Movement>))
    ensures r.0.Keys == stock.Keys
  {
    if |lines| == 0 then (stock, [])
    else
      var prev := DeductStock(stock, lines[..|lines| - 1], orderNumber);
      DeductLine(prev.0, prev.1, lines[|lines| - 1], orderNumber)
  }

  /** The deduction for one line is the repository's `OUT` adjustment of
      that product by the line's quantity. */
  lemma DeductionIsOutAdjustment(stock: Stock, moves: seq<Movement>, line: OrderLine, orderNumber: string)
    requires line.productId.Some? && line.productId.value in stock
    ensures DeductLine(stock, moves, line, orderNumber).0 ==
      Products.AdjustStock(stock, line.productId.value, Products.Out, line.quantity, None).value.0
  {
  }

  /** How much of product `p` the lines order. */
  function Ordered(lines: seq<OrderLine>, p: string): int
  {
    if |lines| == 0 then 0
    else Ordered(lines[..|lines| - 1], p) + (if lines[|lines| - 1].productId == Some(p) then lines[|lines| - 1].quantity else 0)
  }

  /** Clamping twice at zero is clamping once, for removals. */
  lemma ClampTwice(s: int, a: int, b: int)
    requires a >= 0 && b >= 0
    ensures Max(0, Max(0, s - a) - b) == Max(0, s - (a + b))
  {
  }

  /** With non-negative quantities and stock, an order takes from each stocked
      product exactly what it orders in total, stopping at zero. */
  lemma {:induction false} DeductsOrderedTotal(stock: Stock, lines: seq<OrderLine>, orderNumber: string, p: string)
    requires p in stock && stock[p] >= 0
    requires forall i :: 0 <= i < |lines| ==> lines[i].quantity >= 0
    ensures Ordered(lines, p) >= 0
    ensures DeductStock(stock, lines, orderNumber).0[p] == Max(0, stock[p] - Ordered(lines, p))
  {
    if |lines| > 0 {
      var init := lines[..|lines| - 1];
      assert forall i :: 0 <= i < |init| ==> init[i] == lines[i];
      DeductsOrderedTotal(stock, init, orderNumber, p);
      DeductStep(stock, lines, orderNumber, p);
      var last := lines[|lines| - 1];
      if last.productId == Some(p) {
        ClampTwice(stock[p], Ordered(init, p), last.quantity);
      }
    }
  }

  /** A product no line names keeps its stock, whatever it was. */
  lemma {:induction false} UnorderedUntouched(stock: Stock, lines: seq<OrderLine>, orderNumber: string, p: string)
    requires p in stock
    requires forall i :: 0 <= i < |lines| ==> lines[i].productId != Some(p)
    ensures DeductStock(stock, lines, orderNumber).0[p] == stock[p]
  {
    if |lines| > 0 {
      var init := lines[..|lines| - 1];
      assert forall i :: 0 <= i < |init| ==> init[i] == lines[i];
      UnorderedUntouched(stock, init, orderNumber, p);
      DeductStep(stock, lines, orderNumber, p);
    }
  }

  /** The last line changes product `p` only if it names it. */
  lemma DeductStep(stock: Stock, lines: seq<OrderLine>, orderNumber: string, p: string)
    requires p in stock && |lines| > 0
    ensures var init, last := lines[..|lines| - 1], lines[|lines| - 1];
      var before := DeductStock(stock, init, orderNumber).0[p];
      && Ordered(lines, p) == Ordered(init, p) + (if last.productId == Some(p) then last.quantity else 0)
      && DeductStock(stock, lines, orderNumber).0[p] ==
           (if last.productId == Some(p) then Max(0, before - last.quantity) else before)
  {
  }

  /** Every stocked product the lines link gets one movement per line, with
      the line's quantity. */
  lemma {:induction false} MovementsFollowLines(stock: Stock, lines: seq<OrderLine>, orderNumber: string)
    ensures var moves := DeductStock(stock, lines, orderNumber).1;
      moves == LinkedMovements(stock, lines, orderNumber)
  {
    if |lines| > 0 {
      MovementsFollowLines(stock, lines[..|lines| - 1], orderNumber);
    }
  }

  /** The movements an order should log: one per line whose product is stocked. */
  function LinkedMovements(stock: Stock, lines: seq<OrderLine>, orderNumber: string): seq<Movement>
  {
    if |lines| == 0 then []
    else
      var last := lines[|lines| - 1];
      LinkedMovements(stock, lines[..|lines| - 1], orderNumber) +
        (if last.productId.Some? && last.productId.value in stock
         then [Movement(last.productId.value, last.quantity, "Order " + orderNumber)] else [])
  }
}

/** The shop service's orders, invoices and payments.  Orders and invoices
    are numbered from the shop's running count and priced with the shop's
    tax rate, a fraction; a payment can settle an invoice and marks an
    order paid.  The shop, the counts and the clock are inputs. */
module Shop {
  import opened Common
  import opened Numbering

  /** The settings of the shop that pricing reads. */
  datatype ShopSettings = ShopSettings(taxRate: Option<real>)

  /** An item as the caller gives it. */
  datatype ShopItem = ShopItem(description: string, quantity: real, unitPrice: real, discount: Option<real>)

  /** The stored item: the input with its total attached. */
  datatype ShopLine = ShopLine(item: ShopItem, total: real)

  /** An item's total: quantity times price, less its own discount. */
  function ItemTotal(item: ShopItem): real
  {
    item.quantity * item.unitPrice - OrZero(item.discount)
  }

  function LinesOf(items: seq<ShopItem>): (ls: seq<ShopLine>)
    ensures |ls| == |items|
    ensures forall i :: 0 <= i < |items| ==> ls[i].item == items[i] && ls[i].total == ItemTotal(items[i])
  {
    seq(|items|, i requires 0 <= i < |items| => ShopLine(items[i], ItemTotal(items[i])))
  }

  function LineTotal(l: ShopLine): real { l.total }

  /** The subtotal: the sum of the line totals. */
  function Subtotal(items: seq<ShopItem>): real
  {
    SumBy(LinesOf(items), LineTotal)
  }

  /** The `map` with its running `subtotal`, as one loop. */
  method ProcessItems(items: seq<ShopItem>) returns (lines: seq<ShopLine>, subtotal: real)
    ensures lines == LinesOf(items)
    ensures subtotal == SumBy(lines, LineTotal)
  {
    lines, subtotal := [], 0.0;
    var i := 0;
    while i < |items|
      invariant 0 <= i <= |items|
      invariant |lines| == i
      invariant forall j :: 0 <= j < i ==> lines[j] == ShopLine(items[j], ItemTotal(items[j]))
      invariant subtotal == SumBy(lines, LineTotal)
    {
      var item := items[i];
      var itemTotal := item.quantity * item.unitPrice - OrZero(item.discount);
      subtotal := subtotal + itemTotal;
      assert (lines + [ShopLine(item, itemTotal)])[..|lines|] == lines;
      lines := lines + [ShopLine(item, itemTotal)];
      i := i + 1;
    }
  }

  /** Tax at the shop's rate, a fraction of the subtotal. */
  function TaxOn(subtotal: real, rate: real): real { subtotal * rate }

  /** An order or invoice of the shop service.  Invoices carry no shipping. */
  datatype Bill = Bill(
    number: string,
    lines: seq<ShopLine>,
    subtotal: real,
    tax: real,
    discount: real,
    shipping: real,
    total: real)

  /** The pricing shared by `createOrder` and `createInvoice`: tax on the
      subtotal at the shop's rate, less the bill-level discount, plus any
      shipping; the number is `KIND-` and the count plus one in six
      digits. */
  function MakeBill(kind: string, shop: Option<ShopSettings>, count: nat, items: seq<ShopItem>,
                    discount: Option<real>, shipping: Option<real>): (r: Result<Bill>)
    ensures r.Failure? <==> shop.None?
    ensures r.Failure? ==> r.error == Thrown("Shop not found")
    ensures r.Success? ==>
      var b := r.value;
      && b.number == CountNumber(kind, count)
      && b.lines == LinesOf(items)
      && b.subtotal == SumBy(b.lines, LineTotal)
      && b.tax == TaxOn(b.subtotal, OrZero(shop.value.taxRate))
      && b.discount == OrZero(discount) && b.shipping == OrZero(shipping)
      && b.total == b.subtotal + b.tax - b.discount + b.shipping
  {
    if shop.None? then Failure(Thrown("Shop not found"))
    else
      var subtotal := Subtotal(items);
      var tax := TaxOn(subtotal, OrZero(shop.value.taxRate));
      Success(Bill(CountNumber(kind, count), LinesOf(items), subtotal, tax,
                   OrZero(discount), OrZero(shipping),
                   subtotal + tax - OrZero(discount) + OrZero(shipping)))
  }

  function CreateOrder(shop: Option<ShopSettings>, orderCount: nat, items: seq<ShopItem>,
                       discount: Option<real>, shipping: Option<real>): (r: Result<Bill>)
    ensures r.Failure? <==> shop.None?
    ensures r.Success? ==> |r.value.number| >= 4 && r.value.number[..4] == "ORD-"
  {
    MakeBill("ORD", shop, orderCount, items, discount, shipping)
  }

  function CreateInvoice(shop: Option<ShopSettings>, invoiceCount: nat, items: seq<ShopItem>,
                         discount: Option<real>): (r: Result<Bill>)
    ensures r.Failure? <==> shop.None?
    ensures r.Success? ==> |r.value.number| >= 4 && r.value.number[..4] == "INV-" && r.value.shipping == 0.0
  {
    MakeBill("INV", shop, invoiceCount, items, discount, None)
  }

  /** Without shipping an invoice prices exactly like the order it bills. */
  lemma InvoicePricesLikeOrder(shop: ShopSettings, n: nat, m: nat, items: seq<ShopItem>, discount: Option<real>)
    ensures var o := CreateOrder(Some(shop), n, items, discount, None).value;
      var i := CreateInvoice(Some(shop), m, items, discount).value;
      i.subtotal == o.subtotal && i.tax == o.tax && i.total == o.total && i.lines == o.lines
  {
    var o := MakeBill("ORD", Some(shop), n, items, discount, None);
    var i := MakeBill("INV", Some(shop), m, items, discount, None);
    assert o.Success? && i.Success?;
  }

  /** With no tax, discount or shipping the total is the sum of the item
      totals. */
  lemma UntaxedTotalIsItemSum(shop: ShopSettings, m: nat, items: seq<ShopItem>)
    requires OrZero(shop.taxRate) == 0.0
    ensures CreateInvoice(Some(shop), m, items, None).value.total == SumBy(LinesOf(items), LineTotal)
  {
    var i := MakeBill("INV", Some(shop), m, items, None, None);
    assert i.Success? && i.value.tax == 0.0;
  }

  /** Successive orders of one shop get distinct numbers. */
  lemma OrderNumbersDistinct(shop: ShopSettings, a: nat, b: nat, items: seq<ShopItem>, items': seq<ShopItem>,
                             d: Option<real>, d': Option<real>, s: Option<real>, s': Option<real>)
    requires a != b
    ensures CreateOrder(Some(shop), a, items, d, s).value.number != CreateOrder(Some(shop), b, items', d', s').value.number
  {
    if CountNumber("ORD", a) == CountNumber("ORD", b) {
      CountNumberInjective("ORD", a, b);
    }
  }

  datatype InvoiceStatus = Draft | Sent | Paid | Overdue | Cancelled

  datatype ShopInvoice = ShopInvoice(total: real, amountPaid: real, status: InvoiceStatus, paidDate: Option<int>)

  /** The invoice update of `recordPayment`: the amount is added, the
      invoice is paid once the total is reached, sent while something is
      paid, and otherwise keeps its status; whenever the new status is
      paid the date is stamped again. */
  function ApplyPayment(inv: ShopInvoice, amount: real, now: int): (r: ShopInvoice)
    ensures r.total == inv.total && r.amountPaid == inv.amountPaid + amount
    ensures r.status == Paid <==> r.amountPaid >= inv.total || (r.amountPaid <= 0.0 && inv.status == Paid)
    ensures r.amountPaid < inv.total && r.amountPaid > 0.0 ==> r.status == Sent
    ensures r.amountPaid < inv.total && r.amountPaid <= 0.0 ==> r.status == inv.status
    ensures r.paidDate == if r.status == Paid then Some(now) else inv.paidDate
  {
    var newAmountPaid := inv.amountPaid + amount;
    var newStatus :=
      if newAmountPaid >= inv.total then Paid
      else if newAmountPaid > 0.0 then Sent
      else inv.status;
    inv.(amountPaid := newAmountPaid, status := newStatus,
         paidDate := if newStatus == Paid then Some(now) else inv.paidDate)
  }

  /** Two payments land where their sum does, as long as something is
      paid in the end. */
  lemma PaymentsCompose(inv: ShopInvoice, a: real, b: real, t1: int, t2: int)
    requires inv.amountPaid + a + b > 0.0
    ensures var two := ApplyPayment(ApplyPayment(inv, a, t1), b, t2);
      var one := ApplyPayment(inv, a + b, t2);
      two.amountPaid == one.amountPaid && two.status == one.status
  {
  }

  /** A fully paid invoice stays paid under further non-negative payments. */
  lemma StaysPaid(inv: ShopInvoice, amount: real, now: int)
    requires inv.amountPaid >= inv.total && amount >= 0.0
    ensures ApplyPayment(inv, amount, now).status == Paid
  {
  }

  datatype PaymentStatus = Pending | PartiallyPaid | PaymentPaid | Refunded | Failed

  /** `recordPayment`.  The invoice is the one the payment names, when it
      names one that exists; an order the payment names is marked paid
      whatever the amount. */
  function RecordPayment(invoice: Option<ShopInvoice>, order: Option<PaymentStatus>, amount: real, now: int)
    : (r: (Option<ShopInvoice>, Option<PaymentStatus>))
    ensures r.0.Some? <==> invoice.Some?
    ensures invoice.Some? ==> r.0.value == ApplyPayment(invoice.value, amount, now)
    ensures r.1 == if order.Some? then Some(PaymentPaid) else None
  {
    (if invoice.Some? then Some(ApplyPayment(invoice.value, amount, now)) else None,
     if order.Some? then Some(PaymentPaid) else None)
  }
}

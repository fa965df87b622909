/** The invoice repository's `addPayment`: the payment row is created and
    the invoice's paid amount, balance and status are recomputed from the
    payments read back inside the same transaction.  An invoice's payments
    are the sequence of their amounts. */
module InvoiceRepo {
  import opened Common
  import opened Invoices

  /** The status rule of `addPayment`: settled when nothing is owed, partly
      paid when something was paid, otherwise as it was. */
  function StatusAfter(current: Status, totalAmount: real, totalPaid: real): (s: Status)
    ensures totalAmount - totalPaid <= 0.0 ==> s == Paid
    ensures s == Paid ==> totalAmount - totalPaid <= 0.0 || current == Paid
    ensures totalAmount - totalPaid > 0.0 && totalPaid > 0.0 ==> s == PartiallyPaid
    ensures totalAmount - totalPaid > 0.0 && totalPaid <= 0.0 ==> s == current
  {
    if totalAmount - totalPaid <= 0.0 then Paid
    else if totalPaid > 0.0 then PartiallyPaid
    else current
  }

  /** The invoice row written back for a given paid total: the balance is
      clamped at zero and nothing but the three payment fields changes. */
  function Settle(inv: Invoice, totalPaid: real): (r: Invoice)
    ensures r.paidAmount == totalPaid
    ensures r.balanceAmount >= 0.0
    ensures r.balanceAmount == 0.0 <==> totalPaid >= inv.totals.totalAmount
    ensures r.balanceAmount > 0.0 ==> r.balanceAmount == inv.totals.totalAmount - totalPaid
    ensures r.status == StatusAfter(inv.status, inv.totals.totalAmount, totalPaid)
    ensures r.(paidAmount := inv.paidAmount, balanceAmount := inv.balanceAmount, status := inv.status) == inv
  {
    var balance := inv.totals.totalAmount - totalPaid;
    inv.(paidAmount := totalPaid,
         balanceAmount := MaxR(0.0, balance),
         status := StatusAfter(inv.status, inv.totals.totalAmount, totalPaid))
  }

  /** The stored amounts agree with the payments on record. */
  predicate Consistent(inv: Invoice, payments: seq<real>)
  {
    && inv.paidAmount == Sum(payments)
    && inv.balanceAmount == MaxR(0.0, inv.totals.totalAmount - Sum(payments))
  }

  /** `addPayment` as written: the payment is created first, so the list
      read back already holds it, and its amount is then added a second
      time.  Returns the invoice and the payments on record. */
  function AddPayment(inv: Invoice, payments: seq<real>, amount: real): (r: (Invoice, seq<real>))
    ensures r.1 == payments + [amount]
    ensures r.0.paidAmount == Sum(payments) + 2.0 * amount
    ensures r.0 == Settle(inv, Sum(payments) + 2.0 * amount)
  {
    var recorded := payments + [amount];
    SumAppend(payments, [amount]);
    assert Sum([amount]) == amount by { assert [amount][..0] == []; }
    (Settle(inv, Sum(recorded) + amount), recorded)
  }

  /** Any non-zero payment leaves the invoice out of step with its own
      payments. */
  lemma AddPaymentBreaksConsistency(inv: Invoice, payments: seq<real>, amount: real)
    requires amount != 0.0
    ensures !Consistent(AddPayment(inv, payments, amount).0, AddPayment(inv, payments, amount).1)
  {
    var r := AddPayment(inv, payments, amount);
    SumAppend(payments, [amount]);
    assert Sum([amount]) == amount by { assert [amount][..0] == []; }
  }

  /** Half of a 100 invoice paid with no earlier payments: the invoice is
      marked paid with nothing owed. */
  lemma HalfPaymentSettles(inv: Invoice)
    requires inv.totals.totalAmount == 100.0
    ensures AddPayment(inv, [], 50.0).0.status == Paid
    ensures AddPayment(inv, [], 50.0).0.balanceAmount == 0.0
    ensures AddPayment(inv, [], 50.0).0.paidAmount == 100.0
  {
    assert Sum([]) == 0.0;
  }

  /** `addPayment` as intended: the paid total is the sum of the payments on
      record, new one included, counted once. */
  function AddPaymentOnce(inv: Invoice, payments: seq<real>, amount: real): (r: (Invoice, seq<real>))
    ensures r.1 == payments + [amount]
    ensures r.0.paidAmount == Sum(payments) + amount
    ensures Consistent(r.0, r.1)
    ensures r.0.status == StatusAfter(inv.status, inv.totals.totalAmount, Sum(payments) + amount)
  {
    var recorded := payments + [amount];
    SumAppend(payments, [amount]);
    assert Sum([amount]) == amount by { assert [amount][..0] == []; }
    (Settle(inv, Sum(recorded)), recorded)
  }

  /** A positive payment on a consistent invoice raises what is paid by
      exactly its amount and never raises what is owed; the balance drops
      by the amount as long as the invoice is not overpaid. */
  lemma {:induction false} PaymentReducesBalance(inv: Invoice, payments: seq<real>, amount: real)
    requires Consistent(inv, payments) && amount > 0.0
    ensures var r := AddPaymentOnce(inv, payments, amount).0;
      && r.paidAmount == inv.paidAmount + amount
      && r.balanceAmount <= inv.balanceAmount
      && (amount <= inv.balanceAmount ==> r.balanceAmount == inv.balanceAmount - amount)
  {
  }

  /** Paying off the balance of a consistent invoice settles it, and a
      smaller positive payment leaves it partly paid. */
  lemma {:induction false} PayingBalanceSettles(inv: Invoice, payments: seq<real>, amount: real)
    requires Consistent(inv, payments) && amount > 0.0
    ensures var r := AddPaymentOnce(inv, payments, amount).0;
      && (amount >= inv.balanceAmount ==> r.status == Paid && r.balanceAmount == 0.0)
      && (amount < inv.balanceAmount && Sum(payments) >= 0.0 ==> r.status == PartiallyPaid)
  {
  }

  /** The service's guard followed by the repository's write as written:
      a payment the guard lets through is counted twice, so the invoice
      leaves the write out of step with its own payments. */
  function Pay(invoice: Option<Invoice>, payments: seq<real>, amount: real, paymentMethod: Option<string>): (r: Result<(Invoice, seq<real>)>)
    ensures r.Success? <==> RecordPayment(invoice, amount, paymentMethod).Success?
    ensures r.Failure? ==> r.error == RecordPayment(invoice, amount, paymentMethod).error
    ensures r.Success? ==>
      && amount > 0.0
      && r.value.1 == payments + [amount]
      && r.value.0.paidAmount == Sum(payments) + 2.0 * amount
      && !Consistent(r.value.0, r.value.1)
  {
    var req := RecordPayment(invoice, amount, paymentMethod);
    if req.Failure? then Failure(req.error)
    else
      AddPaymentBreaksConsistency(invoice.value, payments, req.value.amount);
      Success(AddPayment(invoice.value, payments, req.value.amount))
  }

  /** The same guard followed by the corrected write: the payment is
      recorded once and the invoice stays consistent. */
  function PayOnce(invoice: Option<Invoice>, payments: seq<real>, amount: real, paymentMethod: Option<string>): (r: Result<(Invoice, seq<real>)>)
    ensures r.Success? <==> RecordPayment(invoice, amount, paymentMethod).Success?
    ensures r.Failure? ==> r.error == RecordPayment(invoice, amount, paymentMethod).error
    ensures r.Success? ==>
      && amount > 0.0
      && r.value.1 == payments + [amount]
      && r.value.0.paidAmount == Sum(payments) + amount
      && Consistent(r.value.0, r.value.1)
  {
    var req := RecordPayment(invoice, amount, paymentMethod);
    if req.Failure? then Failure(req.error)
    else Success(AddPaymentOnce(invoice.value, payments, req.value.amount))
  }
}

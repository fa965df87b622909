/** The expense repository's `getSummary`: the expenses of a date range,
    their total and count, and the amount spent per category in the order
    the categories first occur. */
module Expenses {
  import opened Common

  datatype Expense = Expense(category: Option<string>, amount: real, expenseDate: int)

  /** `expense.category || 'Uncategorized'`. */
  function CategoryOf(e: Expense): string { OrStr(e.category, "Uncategorized") }

  /** The `expenseDate` bounds, each inclusive and each optional. */
  predicate InRange(e: Expense, startDate: Option<int>, endDate: Option<int>)
  {
    && (startDate.Some? ==> e.expenseDate >= startDate.value)
    && (endDate.Some? ==> e.expenseDate <= endDate.value)
  }

  function Selected(es: seq<Expense>, startDate: Option<int>, endDate: Option<int>): (r: seq<Expense>)
    ensures |r| <= |es|
    ensures forall e :: e in r <==> e in es && InRange(e, startDate, endDate)
  {
    if |es| == 0 then []
    else
      var last := es[|es| - 1];
      Selected(es[..|es| - 1], startDate, endDate) + (if InRange(last, startDate, endDate) then [last] else [])
  }

  function Amount(e: Expense): real { e.amount }

  /** The categories in the order they first occur. */
  function Categories(es: seq<Expense>): seq<string>
  {
    if |es| == 0 then []
    else
      var prev := Categories(es[..|es| - 1]);
      var c := CategoryOf(es[|es| - 1]);
      if c in prev then prev else prev + [c]
  }

  /** What the expenses of category `c` add up to. */
  function CategorySum(es: seq<Expense>, c: string): real
  {
    if |es| == 0 then 0.0
    else CategorySum(es[..|es| - 1], c) + (if CategoryOf(es[|es| - 1]) == c then es[|es| - 1].amount else 0.0)
  }

  datatype CategoryTotal = CategoryTotal(category: string, amount: real)

  datatype Summary = Summary(totalAmount: real, count: nat, byCategory: seq<CategoryTotal>)

  function ByCategory(es: seq<Expense>): (r: seq<CategoryTotal>)
    ensures |r| == |Categories(es)|
    ensures forall k :: 0 <= k < |r| ==> r[k] == CategoryTotal(Categories(es)[k], CategorySum(es, Categories(es)[k]))
  {
    var cats := Categories(es);
    seq(|cats|, k requires 0 <= k < |cats| => CategoryTotal(cats[k], CategorySum(es, cats[k])))
  }

  /** A category that has not occurred has spent nothing. */
  lemma {:induction false} CategorySumAbsent(es: seq<Expense>, c: string)
    requires c !in Categories(es)
    ensures CategorySum(es, c) == 0.0
  {
    if |es| > 0 {
      CategorySumAbsent(es[..|es| - 1], c);
    }
  }

  /** `getSummary`: one pass, then the record's entries in insertion
      order. */
  method GetSummary(expenses: seq<Expense>, startDate: Option<int>, endDate: Option<int>) returns (s: Summary)
    ensures var es := Selected(expenses, startDate, endDate);
      s == Summary(SumBy(es, Amount), |es|, ByCategory(es))
  {
    var es := Selected(expenses, startDate, endDate);
    var order, byCategory, totalAmount := Accumulate(es);
    var entries := seq(|order|, k requires 0 <= k < |order| => CategoryTotal(order[k], byCategory[order[k]]));
    assert entries == ByCategory(es);
    s := Summary(totalAmount, |es|, entries);
  }

  /** The loop of `getSummary`: the running total and the record from
      category to amount, with its keys in insertion order. */
  method Accumulate(es: seq<Expense>) returns (order: seq<string>, byCategory: map<string, real>, totalAmount: real)
    ensures order == Categories(es)
    ensures forall c :: c in byCategory <==> c in order
    ensures forall c :: c in byCategory ==> byCategory[c] == CategorySum(es, c)
    ensures totalAmount == SumBy(es, Amount)
  {
    order, byCategory, totalAmount := [], map[], 0.0;
    var i := 0;
    while i < |es|
      invariant 0 <= i <= |es|
      invariant order == Categories(es[..i])
      invariant forall c :: c in byCategory <==> c in order
      invariant forall c :: c in byCategory ==> byCategory[c] == CategorySum(es[..i], c)
      invariant totalAmount == SumBy(es[..i], Amount)
    {
      var e := es[i];
      var cat := OrStr(e.category, "Uncategorized");
      SummaryStep(es, i);
      if cat !in byCategory {
        CategorySumAbsent(es[..i], cat);
        order := order + [cat];
      }
      byCategory := byCategory[cat := (if cat in byCategory then byCategory[cat] else 0.0) + e.amount];
      totalAmount := totalAmount + e.amount;
      i := i + 1;
    }
    assert es[..i] == es;
  }

  lemma SummaryStep(es: seq<Expense>, i: int)
    requires 0 <= i < |es|
    ensures forall c :: CategorySum(es[..i + 1], c) == CategorySum(es[..i], c) + (if CategoryOf(es[i]) == c then es[i].amount else 0.0)
    ensures Categories(es[..i + 1]) ==
      if CategoryOf(es[i]) in Categories(es[..i]) then Categories(es[..i]) else Categories(es[..i]) + [CategoryOf(es[i])]
    ensures SumBy(es[..i + 1], Amount) == SumBy(es[..i], Amount) + es[i].amount
  {
    assert es[..i + 1][..i] == es[..i];
  }

  /** The amounts of the listed categories, added up. */
  function TotalOver(cats: seq<string>, es: seq<Expense>): real
  {
    if |cats| == 0 then 0.0 else TotalOver(cats[..|cats| - 1], es) + CategorySum(es, cats[|cats| - 1])
  }

  predicate Distinct(cats: seq<string>)
  {
    forall i, j :: 0 <= i < j < |cats| ==> cats[i] != cats[j]
  }

  /** One more expense adds its amount to the total of a list of distinct
      categories exactly when its category is listed. */
  lemma {:induction false} TotalOverStep(cats: seq<string>, es: seq<Expense>, e: Expense)
    requires Distinct(cats)
    ensures TotalOver(cats, es + [e]) == TotalOver(cats, es) + (if CategoryOf(e) in cats then e.amount else 0.0)
  {
    if |cats| > 0 {
      var init := cats[..|cats| - 1];
      TotalOverStep(init, es, e);
      assert (es + [e])[..|es|] == es;
      if CategoryOf(e) == cats[|cats| - 1] {
        assert CategoryOf(e) !in init;
      }
      assert CategoryOf(e) in cats <==> CategoryOf(e) in init || CategoryOf(e) == cats[|cats| - 1];
    }
  }

  lemma {:induction false} CategoriesDistinct(es: seq<Expense>)
    ensures Distinct(Categories(es))
  {
    if |es| > 0 {
      CategoriesDistinct(es[..|es| - 1]);
    }
  }

  lemma TotalOverSnoc(cats: seq<string>, c: string, es: seq<Expense>)
    ensures TotalOver(cats + [c], es) == TotalOver(cats, es) + CategorySum(es, c)
  {
    assert (cats + [c])[..|cats|] == cats;
  }

  /** Every expense is counted under exactly one category: the category
      amounts add up to the total. */
  lemma {:induction false} CategoriesAddUp(es: seq<Expense>)
    ensures TotalOver(Categories(es), es) == SumBy(es, Amount)
  {
    if |es| > 0 {
      var init, e := es[..|es| - 1], es[|es| - 1];
      assert init + [e] == es;
      CategoriesAddUp(init);
      CategoriesDistinct(init);
      TotalOverStep(Categories(init), init, e);
      var c := CategoryOf(e);
      if c !in Categories(init) {
        CategorySumAbsent(init, c);
        TotalOverSnoc(Categories(init), c, es);
      }
    }
  }
}

/** Document numbers.  Invoices, orders and service tickets are numbered
    per user and day as `PREFIX-YYYYMMDD-NNNN`; the shop API numbers its
    orders and invoices by count as `ORD-NNNNNN` and `INV-NNNNNN`.  The
    date string and the last number issued are inputs here. */
module Numbering {
  import opened Common

  /** `s.slice(-4)`. */
  function LastFour(s: string): (r: string)
    ensures |r| == Min(|s|, 4) && r == s[|s| - |r|..]
  {
    if |s| <= 4 then s else s[|s| - 4..]
  }

  /** `${kind}-${dateStr}-`, with `dateStr` the `YYYYMMDD` form of the day. */
  function DailyPrefix(kind: string, date: string): string
  {
    kind + "-" + date + "-"
  }

  /** `String(NaN + 1).padStart(4, '0')`. */
  const NaNSuffix: string := "0NaN"

  lemma NaNSuffixPadded()
    ensures PadStart("NaN", 4, '0') == NaNSuffix
  {
    assert Repeat('0', 1) == "0";
  }

  /** `String(lastNum + 1).padStart(4, '0')` with `lastNum` read by
      `parseInt`; a suffix with no leading digits gives `NaN`, printed as
      "NaN" and padded to `NaNSuffix`. */
  function NextSuffix(last: string): string
  {
    match ParseInt(LastFour(last))
    case None => NaNSuffix
    case Some(n) => PadStart(IntToString(n + 1), 4, '0')
  }

  /** `getNextInvoiceNumber`, `getNextOrderNumber` and `getNextTicketNumber`,
      given the greatest number already issued under the prefix, if any. */
  function NextDailyNumber(prefix: string, last: Option<string>): (r: string)
    ensures |r| >= |prefix| + 4 && r[..|prefix|] == prefix
    ensures last.None? ==> r == prefix + "0001"
  {
    if last.None? then prefix + "0001" else prefix + NextSuffix(last.value)
  }

  /** The number issued as the `n`-th of its day. */
  function Numbered(prefix: string, n: nat): string
  {
    prefix + PadStart(NatToDigits(n), 4, '0')
  }

  lemma FirstOfDay(prefix: string)
    ensures NextDailyNumber(prefix, None) == Numbered(prefix, 1)
  {
    assert NatToDigits(1) == "1";
  }

  /** When the last four characters of the previous number are digits, the
      next suffix is their value plus one, padded. */
  lemma SuffixFromDigits(last: string, v: nat)
    requires |last| >= 4 && AllDigits(LastFour(last)) && DigitsValue(LastFour(last)) == v
    ensures NextSuffix(last) == PadStart(NatToDigits(v + 1), 4, '0')
  {
    ParseIntOfDigits(LastFour(last));
  }

  /** ... and the next number carries that value plus one. */
  lemma NextFromValue(prefix: string, last: string, v: nat)
    requires |last| >= 4 && AllDigits(LastFour(last)) && DigitsValue(LastFour(last)) == v
    ensures NextDailyNumber(prefix, Some(last)) == Numbered(prefix, v + 1)
  {
    SuffixFromDigits(last, v);
  }

  /** Up to the 9999th number of a day, the number after the `n`-th is the
      `(n+1)`-th. */
  lemma NextAfter(prefix: string, n: nat)
    requires n <= 9999
    ensures NextDailyNumber(prefix, Some(Numbered(prefix, n))) == Numbered(prefix, n + 1)
  {
    var d := PadStart(NatToDigits(n), 4, '0');
    NatToDigitsLength(n, 4);
    assert |d| == 4;
    var last := Numbered(prefix, n);
    assert LastFour(last) == d;
    PaddedDigitsValue(n, 4);
    NextFromValue(prefix, last, n);
  }

  /** The last four digits of a number of at least four digits are worth
      the number modulo 10000. */
  lemma LastFourDigits(n: nat)
    requires n >= 1000
    ensures var s := NatToDigits(n);
      |s| >= 4 && AllDigits(s[|s| - 4..]) && DigitsValue(s[|s| - 4..]) == n % 10000
  {
    var s := NatToDigits(n);
    DigitsValueBound(s);
    if |s| < 4 {
      PowMonotone(|s|, 3);
    }
    var hi, lo := s[..|s| - 4], s[|s| - 4..];
    assert s == hi + lo;
    DigitsValueAppend(hi, lo);
    DigitsValueBound(lo);
    assert Pow10(4) == 10000;
    ModOfSplit(n, DigitsValue(hi), DigitsValue(lo));
  }

  lemma ModOfSplit(n: int, hi: nat, lo: nat)
    requires lo < 10000 && n == hi * 10000 + lo
    ensures n % 10000 == lo
  {
  }

  /** From the 1000th number of a day on, the next number carries the last
      four digits plus one: after the 10000th ("...-10000") the day starts
      over at "0001". */
  lemma NextAfterLarge(prefix: string, n: nat)
    requires n >= 1000
    ensures NextDailyNumber(prefix, Some(Numbered(prefix, n))) == Numbered(prefix, n % 10000 + 1)
  {
    LastFourOfNumbered(prefix, n);
    NextFromValue(prefix, Numbered(prefix, n), n % 10000);
  }

  lemma LastFourOfNumbered(prefix: string, n: nat)
    requires n >= 1000
    ensures var last := Numbered(prefix, n);
      |last| >= 4 && AllDigits(LastFour(last)) && DigitsValue(LastFour(last)) == n % 10000
  {
    var s := NatToDigits(n);
    LastFourDigits(n);
    assert PadStart(s, 4, '0') == s;
    var last := Numbered(prefix, n);
    assert LastFour(last) == s[|s| - 4..];
  }

  /** `${kind}-${String(count + 1).padStart(6, '0')}` for the shop's order
      and invoice numbers. */
  function CountNumber(kind: string, count: nat): (r: string)
    ensures |r| >= |kind| + 7 && r[..|kind| + 1] == kind + "-"
  {
    kind + "-" + PadStart(IntToString(count + 1), 6, '0')
  }

  /** The digits after the dash read back as `count + 1`. */
  lemma CountNumberReadsBack(kind: string, count: nat)
    ensures var r := CountNumber(kind, count);
      AllDigits(r[|kind| + 1..]) && ParseInt(r[|kind| + 1..]) == Some(count + 1)
  {
    var r := CountNumber(kind, count);
    assert r[|kind| + 1..] == PadStart(NatToDigits(count + 1), 6, '0');
    PaddedDigitsValue(count + 1, 6);
    ParseIntOfDigits(r[|kind| + 1..]);
  }

  /** Different counts give different numbers. */
  lemma CountNumberInjective(kind: string, a: nat, b: nat)
    requires CountNumber(kind, a) == CountNumber(kind, b)
    ensures a == b
  {
    CountNumberReadsBack(kind, a);
    CountNumberReadsBack(kind, b);
  }
}

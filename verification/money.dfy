// Percentage, GST and profit/loss, over exact reals. The theme pages read
// their fields with `parseFloat`; a field it reads as NaN is `None` here.
// The plugin's handlers share the same formulas (see PluginAjax).

module Money {
  import opened Base

  const ValidNumbersAlert := "Please enter valid numbers"
  const ValidAmountAlert := "Please enter a valid amount"
  const PositivePricesAlert := "Prices must be greater than zero"

  function Abs(x: real): real {
    if x < 0.0 then -x else x
  }

  // ---------------------------------------------------------------------
  // Percentages
  // ---------------------------------------------------------------------

  /** `percent`% of `number`. */
  function PercentOf(percent: real, number: real): (r: real) {
    percent / 100.0 * number
  }

  /** How many percent `part` is of `whole`. */
  function ShareOf(part: real, whole: real): (r: real)
    requires whole != 0.0
  {
    part / whole * 100.0
  }

  /** The number of which `part` is `percent`%. */
  function WholeOf(part: real, percent: real): (r: real)
    requires percent != 0.0
  {
    part * 100.0 / percent
  }

  /** The share of `percent`% of a number is `percent` again. */
  lemma ShareOfPercent(percent: real, number: real)
    requires number != 0.0
    ensures ShareOf(PercentOf(percent, number), number) == percent
  {
    var p := PercentOf(percent, number);
    assert p / number == percent / 100.0;
  }

  /** `percent`% of the share of `part` in `whole` is `part` again. */
  lemma PercentOfShare(part: real, whole: real)
    requires whole != 0.0
    ensures PercentOf(ShareOf(part, whole), whole) == part
  {
    var s := ShareOf(part, whole);
    assert s / 100.0 == part / whole;
  }

  /** The whole recovered from `percent`% of a number is that number. */
  lemma WholeOfPercent(percent: real, number: real)
    requires percent != 0.0
    ensures WholeOf(PercentOf(percent, number), percent) == number
  {
    var p := PercentOf(percent, number);
    assert p * 100.0 == percent * number;
  }

  /** `calculateTab1`: `percent`% of `number`. */
  function PercentTab(percent: Option<real>, number: Option<real>): (r: Result<real>)
    ensures r.Err? <==> percent.None? || number.None?
    ensures r.Err? ==> r.message == ValidNumbersAlert
    ensures r.Ok? ==> r.value * 100.0 == percent.value * number.value
  {
    if percent.None? || number.None? then Err(ValidNumbersAlert)
    else Ok(PercentOf(percent.value, number.value))
  }

  /** `calculateTab2`: how many percent `a` is of `b`; `b` = 0 is refused. */
  function ShareTab(a: Option<real>, b: Option<real>): (r: Result<real>)
    ensures r.Err? <==> a.None? || b.None? || b.value == 0.0
    ensures r.Err? ==> r.message == ValidNumbersAlert
    ensures r.Ok? ==> r.value * b.value == a.value * 100.0
  {
    if a.None? || b.None? || b.value == 0.0 then Err(ValidNumbersAlert)
    else Ok(ShareOf(a.value, b.value))
  }

  /** The result of tab 3: the change, the change in percent of the
      original, and whether it is shown as an increase. */
  datatype Change = Change(change: real, percentChange: real, isIncrease: bool)

  /** `calculateTab3`: the change from `original` to `newValue`;
      `original` = 0 is refused. */
  function ChangeTab(original: Option<real>, newValue: Option<real>): (r: Result<Change>)
    ensures r.Err? <==> original.None? || newValue.None? || original.value == 0.0
    ensures r.Err? ==> r.message == ValidNumbersAlert
    ensures r.Ok? ==> original.value + r.value.change == newValue.value
    ensures r.Ok? ==> r.value.percentChange * original.value == r.value.change * 100.0
    ensures r.Ok? ==> (r.value.isIncrease <==> newValue.value > original.value)
  {
    if original.None? || newValue.None? || original.value == 0.0 then Err(ValidNumbersAlert)
    else
      var change := newValue.value - original.value;
      Ok(Change(change, change / original.value * 100.0, change > 0.0))
  }

  /** The type line of tab 3. */
  function ChangeLabel(c: Change): string {
    if c.isIncrease then "Increase" else "Decrease"
  }

  /** An unchanged value is labelled a decrease. */
  lemma NoChangeIsDecrease(v: real)
    requires v != 0.0
    ensures ChangeTab(Some(v), Some(v)).Ok?
    ensures ChangeLabel(ChangeTab(Some(v), Some(v)).value) == "Decrease"
  {
  }

  // ---------------------------------------------------------------------
  // GST
  // ---------------------------------------------------------------------

  /** A split of a total into a base amount and the GST on it. */
  datatype GstSplit = GstSplit(base: real, gst: real, total: real)

  /** The GST is `rate`% of the base, and base plus GST is the total. */
  predicate IsSplit(s: GstSplit, rate: real) {
    s.base + s.gst == s.total && s.gst * 100.0 == s.base * rate
  }

  /** GST added on top of a base amount. */
  function GstOnTop(amount: real, rate: real): (s: GstSplit)
    ensures IsSplit(s, rate) && s.base == amount
  {
    var gst := amount * rate / 100.0;
    GstSplit(amount, gst, amount + gst)
  }

  /** GST taken out of an inclusive total. */
  function GstInside(total: real, rate: real): (s: GstSplit)
    requires 100.0 + rate != 0.0
    ensures IsSplit(s, rate) && s.total == total
  {
    var base := total / (1.0 + rate / 100.0);
    InsideSplit(total, rate, base);
    GstSplit(base, total - base, total)
  }

  lemma InsideSplit(total: real, rate: real, base: real)
    requires 100.0 + rate != 0.0 && base == total / (1.0 + rate / 100.0)
    ensures (total - base) * 100.0 == base * rate
  {
    var f := 1.0 + rate / 100.0;
    assert f * 100.0 == 100.0 + rate;
    assert base * f == total;
  }

  /** A total splits in only one way at a given rate. */
  lemma SplitUnique(s: GstSplit, t: GstSplit, rate: real)
    requires 100.0 + rate != 0.0
    requires IsSplit(s, rate) && IsSplit(t, rate) && s.total == t.total
    ensures s == t
  {
    BaseOfSplit(s, rate);
    BaseOfSplit(t, rate);
  }

  lemma BaseOfSplit(s: GstSplit, rate: real)
    requires 100.0 + rate != 0.0 && IsSplit(s, rate)
    ensures s.base == s.total * 100.0 / (100.0 + rate)
  {
    assert s.base * (100.0 + rate) == s.total * 100.0;
    DivideBack(s.base, s.total * 100.0, 100.0 + rate);
  }

  lemma DivideBack(a: real, b: real, c: real)
    requires c != 0.0 && a * c == b
    ensures a == b / c
  {
  }

  /** Taking the GST out of a total that had it added gives back the
      original split. */
  lemma GstRoundTrip(amount: real, rate: real)
    requires 100.0 + rate != 0.0
    ensures GstInside(GstOnTop(amount, rate).total, rate) == GstOnTop(amount, rate)
  {
    SplitUnique(GstInside(GstOnTop(amount, rate).total, rate), GstOnTop(amount, rate), rate);
  }

  /** The rates the theme's selects offer. */
  type GstRate = r: real | r == 5.0 || r == 12.0 || r == 18.0 || r == 28.0 witness 18.0

  /** `calculateAddGst`. */
  function AddGst(amount: Option<real>, rate: GstRate): (r: Result<GstSplit>)
    ensures r.Err? <==> amount.None?
    ensures r.Err? ==> r.message == ValidAmountAlert
    ensures r.Ok? ==> IsSplit(r.value, rate) && r.value.base == amount.value
  {
    if amount.None? then Err(ValidAmountAlert) else Ok(GstOnTop(amount.value, rate))
  }

  /** `calculateRemoveGst`; no offered rate makes the divisor zero. */
  function RemoveGst(total: Option<real>, rate: GstRate): (r: Result<GstSplit>)
    ensures r.Err? <==> total.None?
    ensures r.Err? ==> r.message == ValidAmountAlert
    ensures r.Ok? ==> IsSplit(r.value, rate) && r.value.total == total.value
  {
    if total.None? then Err(ValidAmountAlert) else Ok(GstInside(total.value, rate))
  }

  /** On the theme page, removing GST from an add-mode total at the same
      rate shows the same three amounts. */
  lemma ThemeGstRoundTrip(amount: real, rate: GstRate)
    ensures AddGst(Some(amount), rate).Ok?
    ensures RemoveGst(Some(AddGst(Some(amount), rate).value.total), rate) == AddGst(Some(amount), rate)
  {
    GstRoundTrip(amount, rate);
  }

  // ---------------------------------------------------------------------
  // Profit and loss
  // ---------------------------------------------------------------------

  datatype Verdict = Profit | Loss | BreakEven

  function VerdictLabel(v: Verdict): string {
    match v
    case Profit => "Profit"
    case Loss => "Loss"
    case BreakEven => "Break Even"
  }

  /** What the profit/loss page shows; amount and percentage are the
      absolute values of the difference and of its share of the cost. */
  datatype Trade = Trade(cost: real, selling: real, verdict: Verdict, amount: real, percentage: real)

  /** The signed difference of a sale and its share of the cost. */
  function Margin(cost: real, selling: real): (r: (real, real))
    requires cost != 0.0
    ensures cost + r.0 == selling
    ensures r.1 * cost == r.0 * 100.0
  {
    var difference := selling - cost;
    (difference, difference / cost * 100.0)
  }

  /** `calculateProfitLoss`: non-numbers are refused first, then prices
      that are not positive. */
  function ProfitLoss(cost: Option<real>, selling: Option<real>): (r: Result<Trade>)
    ensures r == Err(ValidNumbersAlert) <==> cost.None? || selling.None?
    ensures r == Err(PositivePricesAlert)
            <==> cost.Some? && selling.Some? && (cost.value <= 0.0 || selling.value <= 0.0)
    ensures r.Ok? ==> r.value.cost == cost.value && r.value.selling == selling.value
    ensures r.Ok? ==> r.value.amount == Abs(selling.value - cost.value)
    ensures r.Ok? ==> r.value.percentage * cost.value == r.value.amount * 100.0
    ensures r.Ok? ==> (r.value.verdict == Profit <==> selling.value > cost.value)
    ensures r.Ok? ==> (r.value.verdict == Loss <==> selling.value < cost.value)
  {
    if cost.None? || selling.None? then Err(ValidNumbersAlert)
    else if cost.value <= 0.0 || selling.value <= 0.0 then Err(PositivePricesAlert)
    else
      var cp, sp := cost.value, selling.value;
      var m := Margin(cp, sp);
      var verdict := if m.0 > 0.0 then Profit else if m.0 < 0.0 then Loss else BreakEven;
      AbsShare(m.0, m.1, cp);
      Ok(Trade(cp, sp, verdict, Abs(m.0), Abs(m.1)))
  }

  /** Taking absolute values keeps a share relation when the base is
      positive. */
  lemma AbsShare(difference: real, share: real, cost: real)
    requires cost > 0.0 && share * cost == difference * 100.0
    ensures Abs(share) * cost == Abs(difference) * 100.0
  {
    if share < 0.0 {
      assert difference < 0.0;
    } else {
      assert difference >= 0.0;
    }
  }

  /** Equal prices break even, with nothing gained or lost. */
  lemma EqualPricesBreakEven(price: real)
    requires price > 0.0
    ensures ProfitLoss(Some(price), Some(price)).Ok?
    ensures var t := ProfitLoss(Some(price), Some(price)).value;
            t.verdict == BreakEven && t.amount == 0.0 && t.percentage == 0.0
  {
  }
}

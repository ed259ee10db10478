/** The plugin's AJAX endpoint: a nonce check, a dispatch on the sanitized
    tool name, and one handler per tool that reads its fields from the
    posted form and answers with `wp_send_json_success` or
    `wp_send_json_error`. The PHP built-ins the handlers lean on are the
    fields of an `Env`; arithmetic is over exact reals. */
module PluginAjax {
  import opened Base
  import Money
  import Loan
  import Calendar

  /** A date PHP's `DateTime` has already normalised. */
  type CalendarDate = d: Calendar.Date | Calendar.Valid(d) witness Calendar.Date(2000, 1, 1)

  /** The PHP functions the handlers call, and the server's clock. */
  datatype Env = Env(
    floatval: string -> real,
    intval: string -> int,
    sanitize: string -> string,
    /** `new DateTime(text)`; `None` when it throws. */
    parseDate: string -> Option<CalendarDate>,
    /** The `y`, `m`, `d` fields of `DateTime::diff`. */
    interval: (CalendarDate, CalendarDate) -> Calendar.Breakdown,
    /** `date('Y-m-d')`. */
    today: CalendarDate)

  /** The posted `data` array. */
  type Form = map<string, string>

  /** A posted request: whether its nonce checks out, `tool_type` and `data`. */
  datatype Request = Request(nonceValid: bool, toolType: string, data: Form)

  /** What a handler sends back. */
  datatype Payload =
    | PercentResult(result: real, percentSign: bool)
    | GstResult(net: real, gst: real, total: real)
    | EmiResult(emi: real, totalAmount: real, totalInterest: real)
    | ProfitLossResult(isProfit: bool, amount: real, percentage: real, cost: real, selling: real)
    | AgeResult(years: int, months: int, days: int, totalDays: int, totalWeeks: int, totalMonths: int)

  /** How a request ends: a JSON success or error, the referer check's
      `-1`, an uncaught PHP error (a division by zero or a date `DateTime`
      refuses), or no reply from the handler at all. */
  datatype Reply =
    | Success(payload: Payload)
    | Error(message: string)
    | Rejected
    | Fatal
    | NoReply

  const InvalidToolAlert := "Invalid tool type"
  const TotalZeroAlert := "Total cannot be zero"
  const PercentZeroAlert := "Percentage cannot be zero"

  /** The tools the endpoint serves. */
  datatype Tool = Percentage | Gst | Emi | ProfitLoss | Age

  /** The `tool_type` that selects a tool. */
  function ToolName(t: Tool): string {
    match t
    case Percentage => "percentage"
    case Gst => "gst"
    case Emi => "emi"
    case ProfitLoss => "profit_loss"
    case Age => "age"
  }

  /** The tool a (sanitized) `tool_type` selects, if any. */
  function ToolNamed(name: string): (t: Option<Tool>)
    ensures t.Some? ==> ToolName(t.value) == name
    ensures t.None? ==> forall u: Tool :: ToolName(u) != name
  {
    if name == "percentage" then Some(Percentage)
    else if name == "gst" then Some(Gst)
    else if name == "emi" then Some(Emi)
    else if name == "profit_loss" then Some(ProfitLoss)
    else if name == "age" then Some(Age)
    else None
  }

  /** A posted field; a missing one reads as the empty string. */
  function Field(data: Form, key: string): (v: string)
    ensures key in data ==> v == data[key]
    ensures key !in data ==> v == ""
  {
    if key in data then data[key] else ""
  }

  /** `floatval` of a field. */
  function Number(env: Env, data: Form, key: string): real {
    env.floatval(Field(data, key))
  }

  /** `array_map('sanitize_text_field', $data)`. */
  function SanitizeForm(env: Env, data: Form): (clean: Form)
    ensures clean.Keys == data.Keys
    ensures forall k :: k in clean ==> clean[k] == env.sanitize(data[k])
  {
    map k | k in data :: env.sanitize(data[k])
  }

  // ---------------------------------------------------------------------
  // Dispatch
  // ---------------------------------------------------------------------

  /** `handle_ajax_calculate`. */
  function Handle(env: Env, req: Request): (r: Reply)
    ensures r == Rejected <==> !req.nonceValid
    ensures r == Error(InvalidToolAlert)
            <==> req.nonceValid && forall t: Tool :: ToolName(t) != env.sanitize(req.toolType)
    ensures req.nonceValid && ToolNamed(env.sanitize(req.toolType)).Some?
            ==> r == Run(env, ToolNamed(env.sanitize(req.toolType)).value, SanitizeForm(env, req.data))
  {
    if !req.nonceValid then Rejected
    else
      match ToolNamed(env.sanitize(req.toolType))
      case Some(t) => Run(env, t, SanitizeForm(env, req.data))
      case None => Error(InvalidToolAlert)
  }

  /** The handler of a tool; none of them refuses the referer or
      complains about the tool name. */
  function Run(env: Env, t: Tool, data: Form): (r: Reply)
    ensures r != Rejected && r != Error(InvalidToolAlert)
  {
    match t
    case Percentage => PercentageReply(env, data)
    case Gst => GstReply(env, data)
    case Emi => EmiReply(env, data)
    case ProfitLoss => ProfitLossReply(env, data)
    case Age => AgeReply(env, data)
  }

  // ---------------------------------------------------------------------
  // Percentage
  // ---------------------------------------------------------------------

  /** `calculate_percentage`: `find` takes a percentage of a value,
      `calculate` the share of a part in a total, `value` the whole from a
      known part and percentage; any other `calc_type` sends nothing. */
  function PercentageReply(env: Env, data: Form): (r: Reply)
    ensures r == NoReply <==> Field(data, "calc_type") !in {"find", "calculate", "value"}
    ensures Field(data, "calc_type") == "find"
            ==> r.Success? && r.payload.PercentResult? && !r.payload.percentSign
                && r.payload.result * 100.0 == Number(env, data, "value") * Number(env, data, "percent")
    ensures Field(data, "calc_type") == "calculate"
            ==> (r == Error(TotalZeroAlert) <==> Number(env, data, "total") == 0.0)
    ensures Field(data, "calc_type") == "calculate" && r.Success?
            ==> r.payload.PercentResult? && r.payload.percentSign
                && r.payload.result * Number(env, data, "total") == Number(env, data, "part") * 100.0
    ensures Field(data, "calc_type") == "value"
            ==> (r == Error(PercentZeroAlert) <==> Number(env, data, "known_percent") == 0.0)
    ensures Field(data, "calc_type") == "value" && r.Success?
            ==> r.payload.PercentResult? && !r.payload.percentSign
                && r.payload.result * Number(env, data, "known_percent") == Number(env, data, "known_value") * 100.0
  {
    match Field(data, "calc_type")
    case "find" =>
      var value, percent := Number(env, data, "value"), Number(env, data, "percent");
      Success(PercentResult(value * percent / 100.0, false))
    case "calculate" =>
      var part, total := Number(env, data, "part"), Number(env, data, "total");
      if total == 0.0 then Error(TotalZeroAlert)
      else
        var result := part / total * 100.0;
        Money.PercentOfShare(part, total);
        Success(PercentResult(result, true))
    case "value" =>
      var known, percent := Number(env, data, "known_value"), Number(env, data, "known_percent");
      if percent == 0.0 then Error(PercentZeroAlert)
      else Success(PercentResult(known * 100.0 / percent, false))
    case _ => NoReply
  }

  /** The three modes agree with the theme's percentage formulas: `find`
      gives what its first tab gives, and `calculate` and `value` undo it. */
  lemma PercentageModesAgree(env: Env, data: Form)
    ensures Field(data, "calc_type") == "find"
            ==> PercentageReply(env, data).payload.result
                == Money.PercentOf(Number(env, data, "percent"), Number(env, data, "value"))
    ensures Field(data, "calc_type") == "calculate" && Number(env, data, "total") != 0.0
            ==> PercentageReply(env, data).payload.result
                == Money.ShareOf(Number(env, data, "part"), Number(env, data, "total"))
    ensures Field(data, "calc_type") == "value" && Number(env, data, "known_percent") != 0.0
            ==> PercentageReply(env, data).payload.result
                == Money.WholeOf(Number(env, data, "known_value"), Number(env, data, "known_percent"))
  {
  }

  /** Feeding the result of `find` back as the part (`calculate`) or the
      known value (`value`) recovers the percentage and the value. */
  lemma PercentageRoundTrip(value: real, percent: real)
    ensures value != 0.0 ==> Money.ShareOf(Money.PercentOf(percent, value), value) == percent
    ensures percent != 0.0 ==> Money.WholeOf(Money.PercentOf(percent, value), percent) == value
  {
    if value != 0.0 {
      Money.ShareOfPercent(percent, value);
    }
    if percent != 0.0 {
      Money.WholeOfPercent(percent, value);
    }
  }

  // ---------------------------------------------------------------------
  // GST
  // ---------------------------------------------------------------------

  function SplitOf(p: Payload): Money.GstSplit
    requires p.GstResult?
  {
    Money.GstSplit(p.net, p.gst, p.total)
  }

  /** `calculate_gst`: `add` puts the GST on top of the amount, anything
      else takes it out; a rate of −100 divides by zero. */
  function GstReply(env: Env, data: Form): (r: Reply)
    ensures Field(data, "calc_type") == "add"
            ==> r.Success? && r.payload.GstResult?
                && Money.IsSplit(SplitOf(r.payload), Number(env, data, "gst_rate"))
                && r.payload.net == Number(env, data, "amount")
    ensures Field(data, "calc_type") != "add"
            ==> (r == Fatal <==> Number(env, data, "gst_rate") == -100.0)
    ensures Field(data, "calc_type") != "add" && r != Fatal
            ==> r.Success? && r.payload.GstResult?
                && Money.IsSplit(SplitOf(r.payload), Number(env, data, "gst_rate"))
                && r.payload.total == Number(env, data, "amount")
  {
    var amount, rate := Number(env, data, "amount"), Number(env, data, "gst_rate");
    if Field(data, "calc_type") == "add" then
      var gst := amount * rate / 100.0;
      Success(GstResult(amount, gst, amount + gst))
    else if 1.0 + rate / 100.0 == 0.0 then Fatal
    else
      var net := amount / (1.0 + rate / 100.0);
      Money.InsideSplit(amount, rate, net);
      Success(GstResult(net, amount - net, amount))
  }

  /** Removing the GST from a total the `add` mode produced, at the same
      rate, gives back the `add` mode's three amounts. */
  lemma GstModesRoundTrip(amount: real, rate: real)
    requires rate != -100.0
    ensures Money.GstInside(Money.GstOnTop(amount, rate).total, rate) == Money.GstOnTop(amount, rate)
  {
    Money.GstRoundTrip(amount, rate);
  }

  /** For the rates the theme offers, both plugin modes show what the
      theme's pages show. */
  lemma GstAgreesWithTheme(env: Env, data: Form, rate: Money.GstRate)
    requires Number(env, data, "gst_rate") == rate
    ensures Field(data, "calc_type") == "add"
            ==> Money.AddGst(Some(Number(env, data, "amount")), rate) == Ok(SplitOf(GstReply(env, data).payload))
    ensures Field(data, "calc_type") != "add"
            ==> Money.RemoveGst(Some(Number(env, data, "amount")), rate) == Ok(SplitOf(GstReply(env, data).payload))
  {
    var amount := Number(env, data, "amount");
    var r := GstReply(env, data);
    if Field(data, "calc_type") == "add" {
      Money.SplitUnique(SplitOf(r.payload), Money.GstOnTop(amount, rate), rate);
    } else {
      Money.SplitUnique(SplitOf(r.payload), Money.GstInside(amount, rate), rate);
    }
  }

  // ---------------------------------------------------------------------
  // EMI
  // ---------------------------------------------------------------------

  /** The instalment `calculate_emi` computes, or `None` where it divides
      by zero: the annuity formula for a positive monthly rate, an even
      split of the principal otherwise. */
  function Instalment(principal: real, rate: real, tenure: int): (emi: Option<real>)
    ensures emi.None? <==> tenure == 0
  {
    if rate > 0.0 then
      var growth := Loan.PowInt(1.0 + rate, tenure);
      Loan.PowIntIsOne(1.0 + rate, tenure);
      if growth == 1.0 then None
      else Some(Loan.Annuity(principal, rate, growth))
    else if tenure == 0 then None
    else Some(principal / tenure as real)
  }

  /** With a positive rate and tenure the plugin's instalment is the
      annuity instalment; with no interest, the instalments add up to the
      principal exactly. */
  lemma InstalmentMeaning(principal: real, rate: real, tenure: int)
    ensures rate > 0.0 && tenure >= 1 ==> Instalment(principal, rate, tenure) == Some(Loan.Installment(principal, rate, tenure))
    ensures rate <= 0.0 && tenure != 0 ==> Instalment(principal, rate, tenure).value * tenure as real == principal
  {
    if rate <= 0.0 && tenure != 0 {
      EvenSplit(principal, tenure as real);
    }
  }

  lemma EvenSplit(principal: real, n: real)
    requires n != 0.0
    ensures principal / n * n == principal
  {
  }

  /** `calculate_emi`: reads the principal, the annual rate in percent
      and the tenure in months. */
  function EmiReply(env: Env, data: Form): (r: Reply)
    ensures r == Fatal <==> env.intval(Field(data, "tenure")) == 0
  {
    var principal := Number(env, data, "principal");
    var rate := Number(env, data, "rate") / 100.0 / 12.0;
    EmiFor(principal, rate, env.intval(Field(data, "tenure")))
  }

  /** The EMI reply for a principal, a monthly rate and a tenure; a tenure
      of zero divides by zero. */
  function EmiFor(principal: real, rate: real, tenure: int): (r: Reply)
    ensures r == Fatal <==> tenure == 0
    ensures r != Fatal ==> r.Success? && r.payload.EmiResult?
    ensures r.Success? ==> (
              r.payload.EmiResult?
              && r.payload.totalAmount == r.payload.emi * tenure as real
              && principal + r.payload.totalInterest == r.payload.totalAmount)
  {
    var emi := Instalment(principal, rate, tenure);
    if emi.None? then Fatal else Success(EmiTotals(principal, emi.value, tenure))
  }

  /** The three amounts of the EMI reply: the instalment, what the
      instalments add up to, and how much of that is interest. */
  function EmiTotals(principal: real, emi: real, tenure: int): (p: Payload)
    ensures p.EmiResult? && p.emi == emi
    ensures p.totalAmount == emi * tenure as real
    ensures principal + p.totalInterest == p.totalAmount
  {
    var total := emi * tenure as real;
    EmiResult(emi, total, total - principal)
  }

  /** The plugin's monthly rate divides by 100 and then by 12, the theme's
      by 12 and then by 100; the two agree. */
  lemma RateOrder(annualPercent: real)
    ensures annualPercent / 100.0 / 12.0 == Loan.MonthlyRate(annualPercent)
  {
  }

  /** With a positive rate and tenure the instalment is the annuity
      instalment, and paying it every month clears the loan; with no
      interest the instalments add up to the principal exactly. */
  lemma EmiClearsLoan(env: Env, data: Form)
    ensures var rate := Loan.MonthlyRate(Number(env, data, "rate"));
            var tenure := env.intval(Field(data, "tenure"));
            rate > 0.0 && tenure >= 1 ==> (
              EmiReply(env, data).payload.emi == Loan.Installment(Number(env, data, "principal"), rate, tenure)
              && Loan.Balance(Number(env, data, "principal"), rate, EmiReply(env, data).payload.emi, tenure) == 0.0)
    ensures Loan.MonthlyRate(Number(env, data, "rate")) <= 0.0 && env.intval(Field(data, "tenure")) != 0
            ==> EmiReply(env, data).payload.totalInterest == 0.0
  {
    var principal := Number(env, data, "principal");
    var rate := Loan.MonthlyRate(Number(env, data, "rate"));
    var tenure := env.intval(Field(data, "tenure"));
    RateOrder(Number(env, data, "rate"));
    InstalmentMeaning(principal, rate, tenure);
    if rate > 0.0 && tenure >= 1 {
      Loan.InstallmentClearsLoan(principal, rate, tenure);
    }
  }

  /** On values the theme's sliders allow, the plugin reports what the
      theme's EMI page reports. */
  lemma EmiAgreesWithTheme(env: Env, data: Form)
    requires Loan.SliderRange(Number(env, data, "principal"), Number(env, data, "rate"), env.intval(Field(data, "tenure")))
    ensures var t := Loan.CalculateEmi(Number(env, data, "principal"), Number(env, data, "rate"), env.intval(Field(data, "tenure")));
            EmiReply(env, data) == Success(EmiResult(t.emi, t.totalPayment, t.totalInterest))
  {
    EmiClearsLoan(env, data);
  }

  // ---------------------------------------------------------------------
  // Profit and loss
  // ---------------------------------------------------------------------

  /** `calculate_profit_loss`: no validation, so a cost of zero divides by
      zero; a sale at cost counts as a profit. */
  function ProfitLossReply(env: Env, data: Form): (r: Reply)
    ensures r == Fatal <==> Number(env, data, "cost_price") == 0.0
    ensures r != Fatal ==> r.Success? && r.payload.ProfitLossResult?
    ensures r.Success? ==> (
              r.payload.ProfitLossResult?
              && r.payload.cost == Number(env, data, "cost_price")
              && r.payload.selling == Number(env, data, "selling_price")
              && (r.payload.isProfit <==> r.payload.selling >= r.payload.cost)
              && r.payload.amount == Money.Abs(r.payload.selling - r.payload.cost))
    ensures r.Success? ==> r.payload.percentage * Money.Abs(r.payload.cost) == r.payload.amount * 100.0
  {
    var cost, selling := Number(env, data, "cost_price"), Number(env, data, "selling_price");
    if cost == 0.0 then Fatal
    else
      var difference := selling - cost;
      var percentage := difference / cost * 100.0;
      assert percentage * cost == difference * 100.0;
      AbsShareOfAnyCost(difference, percentage, cost);
      Success(ProfitLossResult(difference >= 0.0, Money.Abs(difference), Money.Abs(percentage), cost, selling))
  }

  /** The absolute share is the absolute difference's share of the
      absolute cost, whatever the cost's sign. */
  lemma AbsShareOfAnyCost(difference: real, share: real, cost: real)
    requires cost != 0.0 && share * cost == difference * 100.0
    ensures Money.Abs(share) * Money.Abs(cost) == Money.Abs(difference) * 100.0
  {
    if cost > 0.0 {
      Money.AbsShare(difference, share, cost);
    } else {
      assert (-share) * (-cost) == difference * 100.0;
      Money.AbsShare(difference, -share, -cost);
      assert Money.Abs(-share) == Money.Abs(share);
    }
  }

  /** On prices the theme accepts, the plugin shows the theme's amount and
      percentage, and calls a profit what the theme does not call a loss. */
  lemma ProfitLossAgreesWithTheme(env: Env, data: Form)
    requires Number(env, data, "cost_price") > 0.0 && Number(env, data, "selling_price") > 0.0
    ensures var t := Money.ProfitLoss(Some(Number(env, data, "cost_price")), Some(Number(env, data, "selling_price"))).value;
            var p := ProfitLossReply(env, data).payload;
            p.amount == t.amount && p.percentage == t.percentage
            && (p.isProfit <==> t.verdict != Money.Loss)
  {
    var cost := Number(env, data, "cost_price");
    var r := ProfitLossReply(env, data);
    var t := Money.ProfitLoss(Some(cost), Some(Number(env, data, "selling_price"))).value;
    DivideOut(r.payload.percentage, t.percentage, cost);
  }

  lemma DivideOut(a: real, b: real, c: real)
    requires c > 0.0 && a * c == b * c
    ensures a == b
  {
    assert (a - b) * c == 0.0;
  }

  /** A sale at cost: the plugin says profit, the theme says break-even. */
  lemma BreakEvenIsProfit(env: Env, data: Form)
    requires Number(env, data, "cost_price") > 0.0
    requires Number(env, data, "selling_price") == Number(env, data, "cost_price")
    ensures ProfitLossReply(env, data).payload.isProfit
    ensures Money.ProfitLoss(Some(Number(env, data, "cost_price")), Some(Number(env, data, "selling_price"))).value.verdict
            == Money.BreakEven
  {
  }

  // ---------------------------------------------------------------------
  // Age
  // ---------------------------------------------------------------------

  /** `calculate_age`: the interval from the birth date to today's date;
      a birth date `DateTime` refuses ends the request. */
  function AgeReply(env: Env, data: Form): (r: Reply)
    ensures r == Fatal <==> env.parseDate(Field(data, "birth_date")).None?
    ensures r != Fatal ==> r.Success? && r.payload.AgeResult?
    ensures r.Success? ==> (
              r.payload.AgeResult?
              && r.payload.totalMonths == 12 * r.payload.years + r.payload.months
              && r.payload.totalDays >= 0
              && 7 * r.payload.totalWeeks <= r.payload.totalDays < 7 * r.payload.totalWeeks + 7
              && (r.payload.totalDays == 0 <==> env.parseDate(Field(data, "birth_date")).value == env.today))
  {
    match env.parseDate(Field(data, "birth_date"))
    case None => Fatal
    case Some(birth) =>
      var span := env.interval(birth, env.today);
      var days := AbsoluteDays(birth, env.today);
      Success(AgeResult(span.years, span.months, span.days, days, days / 7, span.years * 12 + span.months))
  }

  /** The `days` field of `DateTime::diff`: whole days between the dates,
      whichever comes first. */
  function AbsoluteDays(a: CalendarDate, b: CalendarDate): (n: int)
    ensures n >= 0
    ensures n == 0 <==> a == b
  {
    Calendar.DayNumberOrder(a, b);
    var d := Calendar.DayNumber(b) - Calendar.DayNumber(a);
    if d < 0 then -d else d
  }

  /** Days count the same from either end, and a later date is further from
      an earlier one by exactly the days between. */
  lemma AbsoluteDaysSymmetric(a: CalendarDate, b: CalendarDate)
    ensures AbsoluteDays(a, b) == AbsoluteDays(b, a)
    ensures Calendar.Before(a, b) ==> AbsoluteDays(a, b) == Calendar.DayNumber(b) - Calendar.DayNumber(a)
  {
    Calendar.DayNumberOrder(a, b);
  }
}

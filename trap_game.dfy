/** The rules of the payment game screen: the standard 25-year comparison payment, the term
    fed to the engine, the share of the total cost that is interest, the mood tiers and the
    term colour and captions derived from them, and the month shown by the scrubber. */
module TrapGame {
  import opened Types
  import opened Arith
  import MortgageService

  /** The cap, in years, on the term handed to the engine. */
  const MaxSimulatedYears: real := 100.0

  /** The number of months of the 25-year comparison term. */
  const StandardTermMonths: real := 300.0

  /** The comparison formula divides by `1 - (1 + r)^(-300)` when the rate is not zero. */
  predicate Standard25Defined(currentRate: real, pow: (real, real) -> real)
  {
    var r := MortgageService.MonthlyRate(currentRate);
    r == 0.0 || pow(1.0 + r, -StandardTermMonths) != 1.0
  }

  /** The standard payment over 25 years, written with a negative exponent; a zero rate spreads
      the loan evenly over the 300 months. */
  function Standard25YearPayment(loanAmount: real, currentRate: real, pow: (real, real) -> real): (payment: real)
    requires Standard25Defined(currentRate, pow)
    ensures MortgageService.MonthlyRate(currentRate) == 0.0 ==> payment * StandardTermMonths == loanAmount
  {
    if MortgageService.MonthlyRate(currentRate) == 0.0 then
      loanAmount / StandardTermMonths
    else
      (loanAmount * MortgageService.MonthlyRate(currentRate))
        / (1.0 - pow(1.0 + MortgageService.MonthlyRate(currentRate), -StandardTermMonths))
  }

  /** For a positive rate the comparison payment is the engine's standard payment for a
      25-year term, provided `pow` turns a negated exponent into a reciprocal. */
  lemma Standard25MatchesEngine(loanAmount: real, currentRate: real, overpayment: real,
                                pow: (real, real) -> real)
    requires currentRate > 0.0 && PowGrows(pow) && PowReciprocal(pow)
    ensures Standard25Defined(currentRate, pow)
    ensures var r := MortgageService.MonthlyRate(currentRate);
      Standard25YearPayment(loanAmount, currentRate, pow)
        == MortgageService.AnnuityPayment(loanAmount, r, pow(1.0 + r, 25.0 * 12.0))
    ensures loanAmount > 0.0 ==>
      Standard25YearPayment(loanAmount, currentRate, pow)
        == MortgageService.StandardPayment(SimulationParams(loanAmount, currentRate, 25.0, overpayment), pow)
  {
    var r := MortgageService.MonthlyRate(currentRate);
    var f := pow(1.0 + r, StandardTermMonths);
    var g := pow(1.0 + r, -StandardTermMonths);
    assert f > 1.0;
    assert g * f == 1.0;
    assert 1.0 - g != 0.0;
    var a := MortgageService.AnnuityPayment(loanAmount, r, f);
    DivMul(loanAmount * r * f, f - 1.0);
    assert a * (f - 1.0) == loanAmount * r * f;
    assert (a * (1.0 - g)) * f == (loanAmount * r) * f;
    CancelFactor(a * (1.0 - g), loanAmount * r, f);
    DivByFactor(loanAmount * r, 1.0 - g, a);
  }

  /** The term handed to the engine: the solver's term, capped at 100 years, so that the
      999-year sentinel becomes a 100-year simulation. */
  function SimulatedTerm(termYears: real): (t: real)
    ensures t <= MaxSimulatedYears
    ensures termYears <= MaxSimulatedYears ==> t == termYears
    ensures termYears >= MaxSimulatedYears ==> t == MaxSimulatedYears
  {
    Min(termYears, MaxSimulatedYears)
  }

  /** Solves the term for the user's payment and simulates the loan over that term, capped at
      100 years, with no overpayment.  The result is the engine's run on those inputs, so the
      schedule never exceeds 1800 months (150% of 100 years).  A payment that does not cover
      the interest runs the engine on a 100-year annuity; one that does, with a solved term of
      at most 100 years, is the engine's payment again when `pow` inverts `ln`. */
  method GameSimulation(loanAmount: real, currentRate: real, userMonthlyPayment: real,
                        pow: (real, real) -> real, ln: real -> real)
    returns (termYears: real, result: MortgageResult)
    requires PowGrows(pow)
    requires MortgageService.TermDefined(loanAmount, currentRate, userMonthlyPayment, ln)
    ensures termYears == MortgageService.TermFromPayment(loanAmount, currentRate, userMonthlyPayment, ln)
    ensures var p := SimulationParams(loanAmount, currentRate, SimulatedTerm(termYears), 0.0);
      && (MortgageService.Degenerate(p) ==> result == MortgageService.ZeroResult())
      && (!MortgageService.Degenerate(p) ==> MortgageService.IsRun(p, pow, result))
    ensures |result.schedule| == result.monthsToPayOff
    ensures 0 <= result.monthsToPayOff <= 1800
    ensures var r := MortgageService.MonthlyRate(currentRate);
      loanAmount > 0.0 && currentRate > 0.0 && userMonthlyPayment <= loanAmount * r ==>
        && termYears == MortgageService.NeverPaysOff
        && result.monthlyPayment
             == MortgageService.AnnuityPayment(loanAmount, r, pow(1.0 + r, MaxSimulatedYears * 12.0))
    ensures var r := MortgageService.MonthlyRate(currentRate);
      && loanAmount > 0.0 && currentRate > 0.0 && userMonthlyPayment > loanAmount * r
      && LnPositive(ln) && PowInvertsLn(pow, ln) && termYears <= MaxSimulatedYears
      ==> result.monthlyPayment == userMonthlyPayment
  {
    termYears := MortgageService.TermFromPayment(loanAmount, currentRate, userMonthlyPayment, ln);
    var params := SimulationParams(loanAmount, currentRate, SimulatedTerm(termYears), 0.0);
    result := MortgageService.CalculateMortgage(params, pow);
    if && loanAmount > 0.0 && currentRate > 0.0
       && userMonthlyPayment > loanAmount * MortgageService.MonthlyRate(currentRate)
       && LnPositive(ln) && PowInvertsLn(pow, ln)
    {
      MortgageService.TermRoundTrip(loanAmount, currentRate, userMonthlyPayment, 0.0, pow, ln);
    }
  }

  /** The share of the total cost that is interest, in percent; 0 when nothing is owed. */
  function WastePercentage(result: MortgageResult): (waste: real)
    ensures result.totalCost <= 0.0 ==> waste == 0.0
    ensures result.totalCost > 0.0 ==> waste * result.totalCost == result.totalInterest * 100.0
    ensures 0.0 <= result.totalInterest < result.totalCost ==> 0.0 <= waste < 100.0
  {
    if result.totalCost > 0.0 then
      var share := result.totalInterest / result.totalCost;
      DivMul(result.totalInterest, result.totalCost);
      DivBelowOne(result.totalInterest, result.totalCost);
      share * 100.0
    else
      0.0
  }

  /** The four moods of the scoreboard, from best to worst. */
  datatype Mood = Happy | Meh | Sad | Rage

  /** The rank of a mood: 0 for happy up to 3 for rage. */
  function Severity(mood: Mood): nat
  {
    match mood
    case Happy => 0
    case Meh => 1
    case Sad => 2
    case Rage => 3
  }

  /** The tier a term alone earns: above 35, 26 and 22 years. */
  function TermTier(termYears: real): nat
  {
    if termYears > 35.0 then 3 else if termYears > 26.0 then 2 else if termYears > 22.0 then 1 else 0
  }

  /** The tier an interest share alone earns: above 55, 45 and 30 percent. */
  function WasteTier(wastePercentage: real): nat
  {
    if wastePercentage > 55.0 then 3 else if wastePercentage > 45.0 then 2
    else if wastePercentage > 30.0 then 1 else 0
  }

  /** The loan counts as a trap exactly when the mood is rage. */
  predicate IsTrap(mood: Mood)
  {
    mood == Rage
  }

  /** Picks the mood by testing the tiers from the worst down: the mood is the worse of the
      tier of the term and the tier of the interest share, and it is a trap exactly when the
      term exceeds 35 years or the share exceeds 55 percent. */
  method ClassifyMood(termYears: real, wastePercentage: real) returns (mood: Mood)
    ensures Severity(mood) == MaxInt(TermTier(termYears), WasteTier(wastePercentage))
    ensures IsTrap(mood) <==> termYears > 35.0 || wastePercentage > 55.0
  {
    mood := Happy;
    if termYears > 35.0 || wastePercentage > 55.0 {
      mood := Rage;
    } else if termYears > 26.0 || wastePercentage > 45.0 {
      mood := Sad;
    } else if termYears > 22.0 || wastePercentage > 30.0 {
      mood := Meh;
    }
  }

  /** The colour of the years on the scoreboard: red for a trap, emerald for a happy mood,
      white otherwise. */
  function ScoreColor(mood: Mood): (color: string)
    ensures color == "text-red-500" <==> IsTrap(mood)
    ensures color == "text-emerald-400" <==> mood == Happy
    ensures color == "text-white" <==> mood == Meh || mood == Sad
  {
    if IsTrap(mood) then "text-red-500" else if mood == Happy then "text-emerald-400" else "text-white"
  }

  /** A longer term or a larger interest share never gives a better mood. */
  lemma MoodMonotone(term1: real, waste1: real, term2: real, waste2: real)
    requires term1 <= term2 && waste1 <= waste2
    ensures MaxInt(TermTier(term1), WasteTier(waste1)) <= MaxInt(TermTier(term2), WasteTier(waste2))
  {
  }

  /** The colour class of a term: red above 35 years, amber above 25, emerald otherwise. */
  function TermColor(years: real): (color: string)
    ensures color == "text-red-500" <==> years > 35.0
    ensures color == "text-amber-400" <==> 25.0 < years <= 35.0
    ensures color == "text-emerald-400" <==> years <= 25.0
  {
    if years > 35.0 then "text-red-500"
    else if years > 25.0 then "text-amber-400"
    else "text-emerald-400"
  }

  /** The three captions, character for character as the screen's file holds them: each
      starts with the Mac Roman reading of the UTF-8 bytes of a warning sign or a check mark. */
  const CriticalLabel: string := "\U{201A}\U{00F6}\U{2020}\U{00D4}\U{220F}\U{00E8} Critical: 40+ Years (The Trap)"
  const WarningLabel: string := "\U{201A}\U{00F6}\U{2020}\U{00D4}\U{220F}\U{00E8} Warning: Very Long Term"
  const StandardLabel: string := "\U{201A}\U{00FA}\U{00D6} Standard Term"

  /** The caption under the payment slider: critical above 40 years, a warning above 30,
      standard otherwise. */
  function TermLabel(termYears: real): (caption: string)
    ensures caption == CriticalLabel <==> termYears > 40.0
    ensures caption == WarningLabel <==> 30.0 < termYears <= 40.0
    ensures caption == StandardLabel <==> termYears <= 30.0
  {
    if termYears > 40.0 then CriticalLabel
    else if termYears > 30.0 then WarningLabel
    else StandardLabel
  }

  /** How a term is shown: a fixed "over 100" text, or the number of years to be printed with
      one decimal. */
  datatype YearsText = OverHundred(text: string) | OneDecimal(years: real)

  /** The years display; the scoreboard writes "> 100" (`spaced`), the slider caption ">100". */
  function YearsDisplay(termYears: real, spaced: bool): (shown: YearsText)
    ensures shown.OverHundred? <==> termYears > 99.0
    ensures shown.OverHundred? ==> shown.text == (if spaced then "> 100" else ">100")
    ensures shown.OneDecimal? ==> shown.years == termYears
  {
    if termYears > 99.0 then OverHundred(if spaced then "> 100" else ">100")
    else OneDecimal(termYears)
  }

  /** A payment that does not cover the interest yields the 999-year sentinel, which is shown
      as over 100 years in red with the critical caption and simulated over 100 years. */
  lemma SentinelPresentation(loanAmount: real, currentRate: real, userMonthlyPayment: real,
                             ln: real -> real, spaced: bool)
    requires userMonthlyPayment <= loanAmount * MortgageService.MonthlyRate(currentRate)
    ensures MortgageService.TermDefined(loanAmount, currentRate, userMonthlyPayment, ln)
    ensures var t := MortgageService.TermFromPayment(loanAmount, currentRate, userMonthlyPayment, ln);
      && YearsDisplay(t, spaced).OverHundred?
      && TermColor(t) == "text-red-500"
      && TermLabel(t) == CriticalLabel
      && SimulatedTerm(t) == MaxSimulatedYears
  {
  }

  /** The four amounts of a month that the reality check shows. */
  datatype MonthView = MonthView(
    interestPayment: real,
    principalPayment: real,
    equityBuilt: real,
    remainingBalance: real)

  function ViewOf(entry: MonthlyData): MonthView
  {
    MonthView(entry.interestPayment, entry.principalPayment, entry.equityBuilt, entry.remainingBalance)
  }

  /** The all-zero fallback shown when no month exists at the scrubber's index. */
  const ZeroView: MonthView := MonthView(0.0, 0.0, 0.0, 0.0)

  /** The month under the scrubber: index `min(scrubberMonth - 1, length - 1)` of the schedule,
      or the all-zero fallback when that index holds no month. */
  function CurrentMonthData(schedule: seq<MonthlyData>, scrubberMonth: int): (view: MonthView)
    ensures schedule == [] || scrubberMonth < 1 ==> view == ZeroView
    ensures schedule != [] && scrubberMonth >= 1 ==>
      view == ViewOf(schedule[MinInt(scrubberMonth, |schedule|) - 1])
  {
    var index := MinInt(scrubberMonth - 1, |schedule| - 1);
    if 0 <= index < |schedule| then ViewOf(schedule[index]) else ZeroView
  }

  /** On a schedule produced by the engine the scrubber shows the month it names, or the last
      month when it points past the end. */
  lemma ScrubberShowsNamedMonth(amount: real, monthlyRate: real, payment: real, overpayment: real,
                                schedule: seq<MonthlyData>, scrubberMonth: int)
    requires MortgageService.IsSchedule(amount, monthlyRate, payment, overpayment, schedule)
    requires schedule != [] && scrubberMonth >= 1
    ensures exists i ::
      && 0 <= i < |schedule|
      && schedule[i].month == MinInt(scrubberMonth, |schedule|)
      && CurrentMonthData(schedule, scrubberMonth) == ViewOf(schedule[i])
  {
    var i := MinInt(scrubberMonth, |schedule|) - 1;
    assert MortgageService.EntryFollows(amount, monthlyRate, payment, overpayment, schedule, i);
  }
}

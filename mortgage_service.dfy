/** The fixed-rate amortization engine: the month-by-month simulation of a loan,
    the term needed for a given payment, and the largest loan a budget affords. */
module MortgageService {
  import opened Types
  import opened Arith

  /** The monthly rate of an annual rate given in percent. */
  function MonthlyRate(rate: real): real
  {
    rate / 100.0 / 12.0
  }

  /** The inputs for which the engine returns the all-zero result. */
  predicate Degenerate(params: SimulationParams)
  {
    params.amount <= 0.0 || params.rate <= 0.0 || params.termYears <= 0.0
  }

  /** The result returned for degenerate inputs. */
  function ZeroResult(): MortgageResult
  {
    MortgageResult(0.0, 0.0, 0.0, 0.0, 0.0, 0, [])
  }

  /** The closed-form annuity payment `P * r * f / (f - 1)`, where `f` is `(1 + r)^n`. */
  function AnnuityPayment(amount: real, monthlyRate: real, factor: real): real
    requires factor != 1.0
  {
    amount * monthlyRate * factor / (factor - 1.0)
  }

  /** The standard payment of a non-degenerate simulation. */
  function StandardPayment(params: SimulationParams, pow: (real, real) -> real): real
    requires !Degenerate(params) && PowGrows(pow)
  {
    var r := MonthlyRate(params.rate);
    AnnuityPayment(params.amount, r, pow(1.0 + r, params.termYears * 12.0))
  }

  /** The standard payment depends on the principal, the rate and the term only, never on
      the overpayment. */
  lemma PaymentIgnoresOverpayment(params: SimulationParams, overpayment: real, pow: (real, real) -> real)
    requires !Degenerate(params) && PowGrows(pow)
    ensures StandardPayment(params, pow) == StandardPayment(params.(monthlyOverpayment := overpayment), pow)
  {
  }

  /** The number of months the loop may run: the ceiling of 1.5 times the nominal months. */
  function MonthCap(termYears: real): int
  {
    Ceil(termYears * 12.0 * 1.5)
  }

  /** The principal payment candidate, reduced to the balance when it exceeds it. */
  function Clamp(candidate: real, balance: real): real
  {
    if candidate > balance then balance else candidate
  }

  /** The balance before month `i + 1` of schedule `s`: the principal for the first month,
      otherwise the balance left by the month before. */
  function PrevBalance(amount: real, s: seq<MonthlyData>, i: int): real
    requires 0 <= i <= |s|
  {
    if i == 0 then amount else s[i - 1].remainingBalance
  }

  /** The sum of the interest payments of a schedule. */
  function SumInterest(s: seq<MonthlyData>): real
  {
    if s == [] then 0.0 else SumInterest(s[..|s| - 1]) + s[|s| - 1].interestPayment
  }

  /** The sum of the principal payments of a schedule. */
  function SumPrincipal(s: seq<MonthlyData>): real
  {
    if s == [] then 0.0 else SumPrincipal(s[..|s| - 1]) + s[|s| - 1].principalPayment
  }

  /** Entry `i` of `s` is month `i + 1`, computed from the balance the month before:
      interest on that balance, the clamped principal payment, what is left owed, and the
      running totals of interest and principal up to and including this month.  It is
      reached only while more than 0.01 is owed. */
  predicate EntryFollows(amount: real, monthlyRate: real, payment: real, overpayment: real,
                         s: seq<MonthlyData>, i: int)
    requires 0 <= i < |s|
  {
    var prev := PrevBalance(amount, s, i);
    && s[i].month == i + 1
    && 12 * (s[i].year - 1) < s[i].month <= 12 * s[i].year
    && prev > 0.01
    && s[i].interestPayment == prev * monthlyRate
    && s[i].principalPayment == Clamp(payment - s[i].interestPayment + overpayment, prev)
    && s[i].remainingBalance == prev - s[i].principalPayment
    && s[i].totalInterestPaidToDate == SumInterest(s[..i + 1])
    && s[i].equityBuilt == SumPrincipal(s[..i + 1])
  }

  /** Every entry of `s` follows from the ones before it. */
  predicate IsSchedule(amount: real, monthlyRate: real, payment: real, overpayment: real,
                       s: seq<MonthlyData>)
  {
    forall i :: 0 <= i < |s| ==> EntryFollows(amount, monthlyRate, payment, overpayment, s, i)
  }

  /** The annuity payment for a positive principal and rate exceeds the first month's interest. */
  lemma AnnuityExceedsInterest(amount: real, monthlyRate: real, factor: real)
    requires amount > 0.0 && monthlyRate > 0.0 && factor > 1.0
    ensures AnnuityPayment(amount, monthlyRate, factor) > amount * monthlyRate
  {
    var d := factor - 1.0;
    var ar := amount * monthlyRate;
    assert ar > 0.0;
    assert ar * factor / d == ar + ar / d by {
      assert ar * factor == ar * d + ar;
    }
    assert ar / d > 0.0;
  }

  /** The standard payment of a non-degenerate simulation exceeds the interest on the principal. */
  lemma StandardPaymentExceedsInterest(params: SimulationParams, pow: (real, real) -> real)
    requires !Degenerate(params) && PowGrows(pow)
    ensures StandardPayment(params, pow) > params.amount * MonthlyRate(params.rate)
  {
    var r := MonthlyRate(params.rate);
    AnnuityExceedsInterest(params.amount, r, pow(1.0 + r, params.termYears * 12.0));
  }

  /** The month computed from the current balance, the running totals and the loop's month
      counter follows from the schedule before it. */
  lemma NextMonthFollows(amount: real, monthlyRate: real, payment: real, overpayment: real,
                         s: seq<MonthlyData>, balance: real, totalInterest: real, equity: real,
                         e: MonthlyData)
    requires balance == PrevBalance(amount, s, |s|) && balance > 0.01
    requires totalInterest == SumInterest(s) && equity == SumPrincipal(s)
    requires e.month == |s| + 1 && e.year == Ceil(e.month as real / 12.0)
    requires e.interestPayment == balance * monthlyRate
    requires e.principalPayment == Clamp(payment - e.interestPayment + overpayment, balance)
    requires e.totalInterestPaidToDate == totalInterest + e.interestPayment
    requires e.remainingBalance == Max(0.0, balance - e.principalPayment)
    requires e.equityBuilt == equity + e.principalPayment
    ensures EntryFollows(amount, monthlyRate, payment, overpayment, s + [e], |s|)
  {
    var t := s + [e];
    SumsOfAppend(s, e);
    assert t[..|s| + 1] == t;
    assert PrevBalance(amount, t, |s|) == balance;
  }

  /** Appending a month that follows keeps a schedule well formed. */
  lemma AppendMonth(amount: real, monthlyRate: real, payment: real, overpayment: real,
                    s: seq<MonthlyData>, e: MonthlyData)
    requires IsSchedule(amount, monthlyRate, payment, overpayment, s)
    requires EntryFollows(amount, monthlyRate, payment, overpayment, s + [e], |s|)
    ensures IsSchedule(amount, monthlyRate, payment, overpayment, s + [e])
  {
    var t := s + [e];
    forall i | 0 <= i < |s|
      ensures EntryFollows(amount, monthlyRate, payment, overpayment, t, i)
    {
      assert t[..i + 1] == s[..i + 1];
      assert EntryFollows(amount, monthlyRate, payment, overpayment, s, i);
    }
  }

  lemma SumsOfAppend(s: seq<MonthlyData>, e: MonthlyData)
    ensures SumInterest(s + [e]) == SumInterest(s) + e.interestPayment
    ensures SumPrincipal(s + [e]) == SumPrincipal(s) + e.principalPayment
  {
    assert (s + [e])[..|s|] == s;
  }

  /** The equity built up to a month plus the balance left after it is the principal. */
  lemma {:induction false} EquityPlusBalanceAt(amount: real, monthlyRate: real, payment: real,
                                               overpayment: real, s: seq<MonthlyData>, i: int)
    requires IsSchedule(amount, monthlyRate, payment, overpayment, s)
    requires 0 <= i < |s|
    ensures s[i].equityBuilt + s[i].remainingBalance == amount
    decreases i
  {
    assert EntryFollows(amount, monthlyRate, payment, overpayment, s, i);
    assert s[..i + 1] == s[..i] + [s[i]];
    SumsOfAppend(s[..i], s[i]);
    if i > 0 {
      EquityPlusBalanceAt(amount, monthlyRate, payment, overpayment, s, i - 1);
      assert EntryFollows(amount, monthlyRate, payment, overpayment, s, i - 1);
      assert s[..i - 1 + 1] == s[..i];
    }
  }

  /** In every month of a schedule the balance stays non-negative, and the equity built
      plus the balance left is exactly the principal. */
  lemma EquityPlusBalance(amount: real, monthlyRate: real, payment: real, overpayment: real,
                          s: seq<MonthlyData>)
    requires IsSchedule(amount, monthlyRate, payment, overpayment, s)
    ensures forall i :: 0 <= i < |s| ==>
      s[i].remainingBalance >= 0.0 && s[i].equityBuilt + s[i].remainingBalance == amount
  {
    forall i | 0 <= i < |s|
      ensures s[i].remainingBalance >= 0.0 && s[i].equityBuilt + s[i].remainingBalance == amount
    {
      assert EntryFollows(amount, monthlyRate, payment, overpayment, s, i);
      EquityPlusBalanceAt(amount, monthlyRate, payment, overpayment, s, i);
    }
  }

  /** Every month except the last leaves more than 0.01 owed. */
  lemma OnlyLastMonthSettles(amount: real, monthlyRate: real, payment: real, overpayment: real,
                             s: seq<MonthlyData>)
    requires IsSchedule(amount, monthlyRate, payment, overpayment, s)
    ensures forall i :: 0 <= i < |s| - 1 ==> s[i].remainingBalance > 0.01
  {
    forall i | 0 <= i < |s| - 1
      ensures s[i].remainingBalance > 0.01
    {
      assert EntryFollows(amount, monthlyRate, payment, overpayment, s, i + 1);
    }
  }

  /** When the payment exceeds the interest on the principal and the overpayment is not
      negative, every month pays a positive amount of principal, so the balance strictly
      decreases and never exceeds the principal. */
  lemma {:induction false} BalanceDecreasesAt(amount: real, monthlyRate: real, payment: real,
                                              overpayment: real, s: seq<MonthlyData>, i: int)
    requires IsSchedule(amount, monthlyRate, payment, overpayment, s)
    requires monthlyRate >= 0.0 && overpayment >= 0.0 && payment > amount * monthlyRate
    requires 0 <= i < |s|
    ensures PrevBalance(amount, s, i) <= amount
    ensures s[i].principalPayment > 0.0
    ensures s[i].remainingBalance < PrevBalance(amount, s, i)
    decreases i
  {
    if i > 0 {
      BalanceDecreasesAt(amount, monthlyRate, payment, overpayment, s, i - 1);
    }
    var prev := PrevBalance(amount, s, i);
    assert EntryFollows(amount, monthlyRate, payment, overpayment, s, i);
    assert prev * monthlyRate <= amount * monthlyRate;
  }

  lemma BalanceDecreases(amount: real, monthlyRate: real, payment: real, overpayment: real,
                         s: seq<MonthlyData>)
    requires IsSchedule(amount, monthlyRate, payment, overpayment, s)
    requires monthlyRate >= 0.0 && overpayment >= 0.0 && payment > amount * monthlyRate
    ensures forall i :: 0 <= i < |s| ==>
      && s[i].principalPayment > 0.0
      && s[i].remainingBalance < PrevBalance(amount, s, i) <= amount
  {
    forall i | 0 <= i < |s|
      ensures s[i].principalPayment > 0.0 && s[i].remainingBalance < PrevBalance(amount, s, i) <= amount
    {
      BalanceDecreasesAt(amount, monthlyRate, payment, overpayment, s, i);
    }
  }

  /** With a non-negative rate the interest paid to date is never negative. */
  lemma {:induction false} InterestNonNegative(amount: real, monthlyRate: real, payment: real,
                                               overpayment: real, s: seq<MonthlyData>)
    requires IsSchedule(amount, monthlyRate, payment, overpayment, s)
    requires monthlyRate >= 0.0
    ensures SumInterest(s) >= 0.0
  {
    if s != [] {
      var t := s[..|s| - 1];
      assert IsSchedule(amount, monthlyRate, payment, overpayment, t) by {
        forall i | 0 <= i < |t|
          ensures EntryFollows(amount, monthlyRate, payment, overpayment, t, i)
        {
          assert EntryFollows(amount, monthlyRate, payment, overpayment, s, i);
          assert t[..i + 1] == s[..i + 1];
        }
      }
      InterestNonNegative(amount, monthlyRate, payment, overpayment, t);
      assert EntryFollows(amount, monthlyRate, payment, overpayment, s, |s| - 1);
    }
  }

  /** The loop has stopped: it ran at most `cap` months, stopping before the cap means the
      balance fell to at most 0.01, and it ran at least one month exactly when the principal
      exceeds 0.01. */
  predicate Stops(amount: real, cap: int, s: seq<MonthlyData>)
  {
    && |s| <= cap
    && (|s| < cap ==> PrevBalance(amount, s, |s|) <= 0.01)
    && (|s| >= 1 <==> amount > 0.01)
  }

  /** The result of simulating a non-degenerate loan: the standard payment, the totals over
      a schedule whose entries follow one another, and a month count at which the loop stops. */
  ghost predicate IsRun(params: SimulationParams, pow: (real, real) -> real, res: MortgageResult)
    requires !Degenerate(params) && PowGrows(pow)
  {
    && res.monthlyPayment == StandardPayment(params, pow)
    && res.totalPrincipal == params.amount
    && res.totalInterest == SumInterest(res.schedule)
    && res.totalCost == res.totalInterest + params.amount
    && |res.schedule| == res.monthsToPayOff
    && res.yearsToPayOff == res.monthsToPayOff as real / 12.0
    && Stops(params.amount, MonthCap(params.termYears), res.schedule)
    && IsSchedule(params.amount, MonthlyRate(params.rate), res.monthlyPayment,
                  params.monthlyOverpayment, res.schedule)
  }

  /** One month leaves `max(0, b + b * r - P - o)` of the balance `b` it starts from. */
  lemma RemainingAfterMonth(amount: real, monthlyRate: real, payment: real, overpayment: real,
                            s: seq<MonthlyData>, i: int)
    requires IsSchedule(amount, monthlyRate, payment, overpayment, s)
    requires 0 <= i < |s|
    ensures var b := PrevBalance(amount, s, i);
      s[i].remainingBalance == Max(0.0, b + b * monthlyRate - payment - overpayment)
  {
    assert EntryFollows(amount, monthlyRate, payment, overpayment, s, i);
  }

  /** What one month leaves owed rises with the balance and falls with the overpayment. */
  lemma StepMonotone(b1: real, b2: real, monthlyRate: real, payment: real, o1: real, o2: real)
    requires b2 <= b1 && monthlyRate >= 0.0 && o1 <= o2
    ensures Max(0.0, b2 + b2 * monthlyRate - payment - o2) <= Max(0.0, b1 + b1 * monthlyRate - payment - o1)
  {
    MulMonotone(b2, b1, monthlyRate);
    assert b2 + b2 * monthlyRate <= b1 + b1 * monthlyRate;
  }

  /** With a non-negative rate, a larger overpayment leaves no more owed in any month both
      schedules reach. */
  lemma {:induction false} BalanceMonotoneAt(amount: real, monthlyRate: real, payment: real,
                                             o1: real, o2: real, s1: seq<MonthlyData>,
                                             s2: seq<MonthlyData>, i: int)
    requires IsSchedule(amount, monthlyRate, payment, o1, s1)
    requires IsSchedule(amount, monthlyRate, payment, o2, s2)
    requires monthlyRate >= 0.0 && o1 <= o2
    requires 0 <= i < |s1| && i < |s2|
    ensures PrevBalance(amount, s2, i) <= PrevBalance(amount, s1, i)
    ensures s2[i].remainingBalance <= s1[i].remainingBalance
    decreases i
  {
    if i > 0 {
      BalanceMonotoneAt(amount, monthlyRate, payment, o1, o2, s1, s2, i - 1);
    }
    var b1 := PrevBalance(amount, s1, i);
    var b2 := PrevBalance(amount, s2, i);
    assert b2 <= b1;
    StepMonotone(b1, b2, monthlyRate, payment, o1, o2);
    RemainingAfterMonth(amount, monthlyRate, payment, o1, s1, i);
    RemainingAfterMonth(amount, monthlyRate, payment, o2, s2, i);
  }

  /** With a non-negative rate, a larger overpayment charges no more interest in any month
      both schedules reach. */
  lemma InterestMonotoneAt(amount: real, monthlyRate: real, payment: real,
                           o1: real, o2: real, s1: seq<MonthlyData>, s2: seq<MonthlyData>, i: int)
    requires IsSchedule(amount, monthlyRate, payment, o1, s1)
    requires IsSchedule(amount, monthlyRate, payment, o2, s2)
    requires monthlyRate >= 0.0 && o1 <= o2
    requires 0 <= i < |s1| && i < |s2|
    ensures s2[i].interestPayment <= s1[i].interestPayment
  {
    BalanceMonotoneAt(amount, monthlyRate, payment, o1, o2, s1, s2, i);
    MulMonotone(PrevBalance(amount, s2, i), PrevBalance(amount, s1, i), monthlyRate);
    assert EntryFollows(amount, monthlyRate, payment, o1, s1, i);
    assert EntryFollows(amount, monthlyRate, payment, o2, s2, i);
  }

  /** With a non-negative rate, the interest of a schedule's prefix never exceeds that of a
      longer prefix. */
  lemma {:induction false} InterestGrowsWithPrefix(amount: real, monthlyRate: real, payment: real,
                                                   overpayment: real, s: seq<MonthlyData>,
                                                   k: int, j: int)
    requires IsSchedule(amount, monthlyRate, payment, overpayment, s)
    requires monthlyRate >= 0.0
    requires 0 <= k <= j <= |s|
    ensures SumInterest(s[..k]) <= SumInterest(s[..j])
    decreases j - k
  {
    if k < j {
      InterestGrowsWithPrefix(amount, monthlyRate, payment, overpayment, s, k, j - 1);
      assert s[..j] == s[..j - 1] + [s[j - 1]];
      SumsOfAppend(s[..j - 1], s[j - 1]);
      assert EntryFollows(amount, monthlyRate, payment, overpayment, s, j - 1);
      MulNonNegative(PrevBalance(amount, s, j - 1), monthlyRate);
    }
  }

  /** Month by month, the interest paid to date under a larger overpayment is no greater. */
  lemma {:induction false} InterestPrefixMonotone(amount: real, monthlyRate: real, payment: real,
                                                  o1: real, o2: real, s1: seq<MonthlyData>,
                                                  s2: seq<MonthlyData>, k: int)
    requires IsSchedule(amount, monthlyRate, payment, o1, s1)
    requires IsSchedule(amount, monthlyRate, payment, o2, s2)
    requires monthlyRate >= 0.0 && o1 <= o2
    requires 0 <= k <= |s1| && k <= |s2|
    ensures SumInterest(s2[..k]) <= SumInterest(s1[..k])
    decreases k
  {
    if k > 0 {
      InterestPrefixMonotone(amount, monthlyRate, payment, o1, o2, s1, s2, k - 1);
      InterestMonotoneAt(amount, monthlyRate, payment, o1, o2, s1, s2, k - 1);
      assert s1[..k] == s1[..k - 1] + [s1[k - 1]];
      assert s2[..k] == s2[..k - 1] + [s2[k - 1]];
      SumsOfAppend(s1[..k - 1], s1[k - 1]);
      SumsOfAppend(s2[..k - 1], s2[k - 1]);
    }
  }

  /** Two stopped schedules of the same loan and payment: the one with the larger overpayment
      is no longer and charges no more interest in total. */
  lemma OverpaymentNeverHurts(amount: real, monthlyRate: real, payment: real, o1: real, o2: real,
                              cap: int, s1: seq<MonthlyData>, s2: seq<MonthlyData>)
    requires IsSchedule(amount, monthlyRate, payment, o1, s1) && Stops(amount, cap, s1)
    requires IsSchedule(amount, monthlyRate, payment, o2, s2) && Stops(amount, cap, s2)
    requires monthlyRate >= 0.0 && o1 <= o2
    ensures |s2| <= |s1|
    ensures SumInterest(s2) <= SumInterest(s1)
  {
    if |s2| > |s1| {
      if |s1| == 0 {
        assert false;
      } else {
        assert EntryFollows(amount, monthlyRate, payment, o2, s2, |s1|);
        BalanceMonotoneAt(amount, monthlyRate, payment, o1, o2, s1, s2, |s1| - 1);
        assert false;
      }
    }
    InterestPrefixMonotone(amount, monthlyRate, payment, o1, o2, s1, s2, |s2|);
    InterestGrowsWithPrefix(amount, monthlyRate, payment, o1, s1, |s2|, |s1|);
    assert s1[..|s1|] == s1;
    assert s2[..|s2|] == s2;
  }

  /** Running the engine on the same loan with a larger overpayment never takes more months
      and never costs more interest. */
  lemma OverpaymentShortensRun(params: SimulationParams, overpayment: real, pow: (real, real) -> real,
                               res1: MortgageResult, res2: MortgageResult)
    requires !Degenerate(params) && PowGrows(pow)
    requires params.monthlyOverpayment <= overpayment
    requires IsRun(params, pow, res1)
    requires IsRun(params.(monthlyOverpayment := overpayment), pow, res2)
    ensures res2.monthsToPayOff <= res1.monthsToPayOff
    ensures res2.totalInterest <= res1.totalInterest
  {
    PaymentIgnoresOverpayment(params, overpayment, pow);
    assert MonthlyRate(params.rate) >= 0.0;
    OverpaymentNeverHurts(params.amount, MonthlyRate(params.rate), res1.monthlyPayment,
                          params.monthlyOverpayment, overpayment, MonthCap(params.termYears),
                          res1.schedule, res2.schedule);
  }

  /** Simulates the loan month by month.  Degenerate inputs give the all-zero result.
      Otherwise each month pays the interest on the previous balance and, towards the
      principal, the standard payment minus that interest plus the overpayment, never more
      than the balance; the loop stops at the first month leaving at most 0.01 owed, or
      after the ceiling of 1.5 times the nominal number of months. */
  method CalculateMortgage(params: SimulationParams, pow: (real, real) -> real) returns (res: MortgageResult)
    requires PowGrows(pow)
    ensures Degenerate(params) ==> res == ZeroResult()
    ensures !Degenerate(params) ==> IsRun(params, pow, res)
  {
    var amount, rate, termYears, monthlyOverpayment :=
      params.amount, params.rate, params.termYears, params.monthlyOverpayment;

    if amount <= 0.0 || rate <= 0.0 || termYears <= 0.0 {
      return MortgageResult(0.0, 0.0, 0.0, 0.0, 0.0, 0, []);
    }

    var monthlyRate := MonthlyRate(rate);
    var totalMonths := termYears * 12.0;

    var factor := pow(1.0 + monthlyRate, totalMonths);
    var standardPayment := AnnuityPayment(amount, monthlyRate, factor);
    ghost var cap := MonthCap(termYears);

    var balance := amount;
    var totalInterest := 0.0;
    var equity := 0.0;
    var schedule: seq<MonthlyData> := [];
    var currentMonth := 0;

    while balance > 0.01 && (currentMonth as real) < totalMonths * 1.5
      invariant 0 <= currentMonth <= cap
      invariant |schedule| == currentMonth
      invariant balance == PrevBalance(amount, schedule, currentMonth)
      invariant totalInterest == SumInterest(schedule)
      invariant equity == SumPrincipal(schedule)
      invariant IsSchedule(amount, monthlyRate, standardPayment, monthlyOverpayment, schedule)
      decreases cap - currentMonth
    {
      currentMonth := currentMonth + 1;
      var interestPayment := balance * monthlyRate;
      var principalPayment := standardPayment - interestPayment + monthlyOverpayment;

      if principalPayment > balance {
        principalPayment := balance;
      }

      balance := balance - principalPayment;
      totalInterest := totalInterest + interestPayment;
      equity := equity + principalPayment;

      var entry := MonthlyData(currentMonth, Ceil(currentMonth as real / 12.0), principalPayment,
                               interestPayment, totalInterest, Max(0.0, balance), equity);
      NextMonthFollows(amount, monthlyRate, standardPayment, monthlyOverpayment,
                       schedule, balance + principalPayment, totalInterest - interestPayment,
                       equity - principalPayment, entry);
      AppendMonth(amount, monthlyRate, standardPayment, monthlyOverpayment, schedule, entry);
      schedule := schedule + [entry];

      if balance <= 0.01 {
        break;
      }
    }

    res := MortgageResult(standardPayment, totalInterest, totalInterest + amount, amount,
                          currentMonth as real / 12.0, currentMonth, schedule);
    assert currentMonth >= 1 ==> EntryFollows(amount, monthlyRate, standardPayment, monthlyOverpayment, schedule, 0);
  }

  /** The sentinel meaning that the loan is never paid off. */
  const NeverPaysOff: real := 999.0

  /** The default maximum term of the affordability solver, in years. */
  const DefaultMaxYears: real := 40.0

  /** The logarithm in the term formula is only divided by when the payment exceeds the
      interest; there its denominator `ln(1 + r)` must not vanish. */
  predicate TermDefined(amount: real, rate: real, monthlyPayment: real, ln: real -> real)
  {
    monthlyPayment <= amount * MonthlyRate(rate) || ln(1.0 + MonthlyRate(rate)) != 0.0
  }

  /** The ratio `M / (M - P * r)` of the payment to the part of it left after interest. */
  function PaymentRatio(amount: real, monthlyRate: real, monthlyPayment: real): real
    requires monthlyPayment != amount * monthlyRate
  {
    monthlyPayment / (monthlyPayment - amount * monthlyRate)
  }

  /** The number of years a fixed monthly payment takes to repay the loan, by the inverted
      annuity formula `ln(M / (M - P * r)) / ln(1 + r)` months; the sentinel 999 when the
      payment does not exceed the first month's interest. */
  function TermFromPayment(amount: real, rate: real, monthlyPayment: real, ln: real -> real): (years: real)
    requires TermDefined(amount, rate, monthlyPayment, ln)
    ensures monthlyPayment <= amount * MonthlyRate(rate) ==> years == NeverPaysOff
    ensures monthlyPayment > amount * MonthlyRate(rate) ==>
      years * 12.0 * ln(1.0 + MonthlyRate(rate))
        == ln(PaymentRatio(amount, MonthlyRate(rate), monthlyPayment))
  {
    if monthlyPayment <= amount * MonthlyRate(rate) then
      NeverPaysOff
    else
      var numerator := ln(PaymentRatio(amount, MonthlyRate(rate), monthlyPayment));
      var denominator := ln(1.0 + MonthlyRate(rate));
      var months := numerator / denominator;
      assert months * denominator == numerator;
      months / 12.0
  }

  /** The annuity payment of the ratio `x = M / (M - P * r)` is `M` again. */
  lemma AnnuityOfPaymentRatio(amount: real, monthlyRate: real, monthlyPayment: real)
    requires amount * monthlyRate > 0.0 && monthlyPayment > amount * monthlyRate
    ensures var x := PaymentRatio(amount, monthlyRate, monthlyPayment);
      x > 1.0 && AnnuityPayment(amount, monthlyRate, x) == monthlyPayment
  {
    var ar := amount * monthlyRate;
    var d := monthlyPayment - ar;
    var x := monthlyPayment / d;
    DivAboveOne(monthlyPayment, d);
    DivMul(monthlyPayment, d);
    assert monthlyPayment * (x - 1.0) == ar * x;
    DivByFactor(ar * x, x - 1.0, monthlyPayment);
  }

  /** The term solver inverts the annuity formula: when the payment exceeds the interest,
      the term it returns is positive, and simulating that term gives back the same standard
      payment, provided `pow` and `ln` are consistent with each other. */
  lemma TermRoundTrip(amount: real, rate: real, monthlyPayment: real, overpayment: real,
                      pow: (real, real) -> real, ln: real -> real)
    requires amount > 0.0 && rate > 0.0 && monthlyPayment > amount * MonthlyRate(rate)
    requires PowGrows(pow) && LnPositive(ln) && PowInvertsLn(pow, ln)
    ensures TermDefined(amount, rate, monthlyPayment, ln)
    ensures var years := TermFromPayment(amount, rate, monthlyPayment, ln);
      var params := SimulationParams(amount, rate, years, overpayment);
      years > 0.0 && !Degenerate(params) && StandardPayment(params, pow) == monthlyPayment
  {
    var b := 1.0 + MonthlyRate(rate);
    assert amount * MonthlyRate(rate) > 0.0;
    AnnuityOfPaymentRatio(amount, MonthlyRate(rate), monthlyPayment);
    var x := PaymentRatio(amount, MonthlyRate(rate), monthlyPayment);
    assert ln(b) > 0.0 && ln(x) > 0.0;
    var years := TermFromPayment(amount, rate, monthlyPayment, ln);
    var months := ln(x) / ln(b);
    assert years == months / 12.0;
    assert months > 0.0;
    assert years * 12.0 == months;
    assert months * ln(b) == ln(x);
    assert pow(b, years * 12.0) == x;
  }

  /** The largest loan whose annuity payment over the term fits the budget, before rounding:
      `M * (f - 1) / (r * f)`. */
  function MaxLoanRaw(budget: real, monthlyRate: real, factor: real): real
    requires monthlyRate * factor != 0.0
  {
    budget * (factor - 1.0) / (monthlyRate * factor)
  }

  /** The affordability formula divides by `r * (1 + r)^n`, which must not vanish. */
  predicate MaxLoanDefined(rate: real, maxYears: real, pow: (real, real) -> real)
  {
    MonthlyRate(rate) * pow(1.0 + MonthlyRate(rate), maxYears * 12.0) != 0.0
  }

  /** The largest loan a monthly budget affords over `maxYears`, floored to a multiple of 1000. */
  function MaxLoanFromBudget(budget: real, rate: real, maxYears: real, pow: (real, real) -> real): (loan: real)
    requires MaxLoanDefined(rate, maxYears, pow)
    ensures var r := MonthlyRate(rate);
      var raw := MaxLoanRaw(budget, r, pow(1.0 + r, maxYears * 12.0));
      IsMultipleOf1000(loan) && loan <= raw < loan + 1000.0
  {
    var monthlyRate := MonthlyRate(rate);
    var totalMonths := maxYears * 12.0;
    var factor := pow(1.0 + monthlyRate, totalMonths);
    var maxLoan := MaxLoanRaw(budget, monthlyRate, factor);
    FloorTo1000(maxLoan)
  }

  /** The affordability solver with its default term of 40 years. */
  function MaxLoanFromBudgetDefaultTerm(budget: real, rate: real, pow: (real, real) -> real): (loan: real)
    requires MaxLoanDefined(rate, DefaultMaxYears, pow)
    ensures var r := MonthlyRate(rate);
      var raw := MaxLoanRaw(budget, r, pow(1.0 + r, 480.0));
      IsMultipleOf1000(loan) && loan <= raw < loan + 1000.0
  {
    MaxLoanFromBudget(budget, rate, DefaultMaxYears, pow)
  }

  /** For a positive rate and term, the unrounded loan has exactly the budget as its annuity
      payment, the floored loan is affordable, and 1000 more is not: the result is the largest
      affordable multiple of 1000. */
  lemma MaxLoanIsLargestAffordable(budget: real, rate: real, maxYears: real, pow: (real, real) -> real)
    requires rate > 0.0 && maxYears > 0.0 && PowGrows(pow)
    ensures MaxLoanDefined(rate, maxYears, pow)
    ensures var r := MonthlyRate(rate);
      var f := pow(1.0 + r, maxYears * 12.0);
      var loan := MaxLoanFromBudget(budget, rate, maxYears, pow);
      && f > 1.0
      && AnnuityPayment(MaxLoanRaw(budget, r, f), r, f) == budget
      && AnnuityPayment(loan, r, f) <= budget
      && AnnuityPayment(loan + 1000.0, r, f) > budget
  {
    var r := MonthlyRate(rate);
    var f := pow(1.0 + r, maxYears * 12.0);
    assert f > 1.0;
    var c := r * f / (f - 1.0);
    assert c > 0.0;
    assert c * ((f - 1.0) / (r * f)) == 1.0;
    forall p: real ensures AnnuityPayment(p, r, f) == p * c {
      assert p * r * f / (f - 1.0) == p * (r * f / (f - 1.0));
    }
    var raw := MaxLoanRaw(budget, r, f);
    assert raw == budget * ((f - 1.0) / (r * f));
    assert raw * c == budget;
    var loan := MaxLoanFromBudget(budget, rate, maxYears, pow);
    assert loan * c <= raw * c;
    assert (loan + 1000.0) * c > raw * c;
  }
}

# Mortgage amortization engine and the payment game

This project models the fixed-rate mortgage engine of a small mortgage-education web app, together
with the decision rules of its interactive "trap" game screen.

- **Records** (`Types`) mirror `MonthlyData`, `MortgageResult` and `SimulationParams`.
- **The amortization engine** (`MortgageService.CalculateMortgage`) is an imperative method with the
  source's own `while` loop. Each month it charges interest on the balance. It then pays the
  standard annuity payment minus that interest, plus any overpayment, towards the principal. When
  that is more than the balance it pays only the balance. The loop stops at the first month that
  leaves at most 0.01 owed, or once 150% of the nominal months have run.
  - The method is proved against a step relation on the whole schedule (`EntryFollows`,
    `IsSchedule`). That relation covers month and year indexing, interest on the previous
    balance, the clamped principal, and prefix-sum running totals.
  - Separate lemmas derive further facts from the relation: equity plus balance equals the
    principal, the balance is never negative, only the last month settles, the balance
    decreases, and a larger overpayment never lengthens the schedule or raises the interest.
- **The term solver** (`MortgageService.TermFromPayment`) returns the 999-year sentinel when the
  payment does not exceed the interest. Otherwise it uses the logarithmic closed form.
- **The budget solver** (`MortgageService.MaxLoanFromBudget`) inverts the annuity formula and
  floors the result to a multiple of 1000. The default term of 40 years is a wrapper.
- **The game screen** (`TrapGame`) covers:
  - the 25-year comparison payment, with its zero-rate fallback;
  - the 100-year cap on the term handed to the engine;
  - the interest share ("waste");
  - the mood tiers and the trap flag;
  - the term colour and captions;
  - the "over 100" display;
  - the safe lookup of the month under the scrubber.

Amounts are exact `real`s. `Math.pow` and `Math.log` have no closed form in Dafny, so every member
that needs them takes them as parameters `pow: (real, real) -> real` and `ln: real -> real`. The
only laws assumed of them are hypotheses stated as predicates in `Arith`:

- `PowGrows`: `pow(b, e) > 1` for `b > 1, e > 0`;
- `PowReciprocal`: `pow(b, -e)` is the reciprocal of `pow(b, e)` for `b > 0`;
- `LnPositive`: `ln(x) > 0` for `x > 1`;
- `PowInvertsLn`: `e * ln(b) == ln(x)` implies `pow(b, e) == x`.

A principal `0 < amount <= 0.01` fails the loop guard at once and gives an empty schedule with
zero months; `CalculateMortgage` states this as `monthsToPayOff >= 1 <==> amount > 0.01`.

## Model

| member | source | states |
|---|---|---|
| Arith.Ceil | services/mortgageService.ts:46 | the year of a month is `Math.ceil` of `month / 12`: the least integer not below its argument |
| Arith.FloorTo1000 | services/mortgageService.ts:98 | `Math.floor(x / 1000) * 1000` is a multiple of 1000 at most `x` and more than `x - 1000` |
| MortgageService.CalculateMortgage | services/mortgageService.ts:3-66 | degenerate inputs (amount, rate or term not positive) give the all-zero result `ZeroResult` with an empty schedule; otherwise the result satisfies `IsRun`: the payment is `StandardPayment`, the annuity payment `AnnuityPayment` at the monthly rate `MonthlyRate` (the annual percentage over 1200) with growth factor `(1 + r)^(12 n)`; total principal is the amount, total interest is the sum of the monthly interest, total cost is interest plus principal, the schedule has `monthsToPayOff` entries and `yearsToPayOff` is `months / 12`; the run `Stops`: the months never exceed `MonthCap`, the ceiling of 1.5 times the nominal months, stopping before that cap means the balance fell to at most 0.01, and at least one month runs exactly when the amount exceeds 0.01; and every entry follows from the one before (month `i+1`, year its ceiling over 12, interest on the previous balance, principal clamped to that balance, running totals as prefix sums) |
| MortgageService.NextMonthFollows | services/mortgageService.ts:32-52 | the entry one loop iteration builds from the balance, the running totals and the month counter satisfies the step relation |
| MortgageService.AppendMonth | services/mortgageService.ts:44-52 | pushing an entry that follows onto a well-formed schedule keeps it well formed |
| MortgageService.AnnuityExceedsInterest | services/mortgageService.ts:21-23 | for positive principal and rate and a growth factor above 1, the annuity payment exceeds the first month's interest |
| MortgageService.StandardPaymentExceedsInterest | services/mortgageService.ts:21-23 | the standard payment of every non-degenerate simulation exceeds the interest on the principal |
| MortgageService.PaymentIgnoresOverpayment | services/mortgageService.ts:21-23 | the standard payment is the same whatever the overpayment |
| MortgageService.EquityPlusBalanceAt | services/mortgageService.ts:36-51 | in month `i` of a schedule, equity built plus remaining balance is the principal |
| MortgageService.EquityPlusBalance | services/mortgageService.ts:25-51 | every month of a schedule leaves a non-negative balance, and equity plus balance equals the principal |
| MortgageService.OnlyLastMonthSettles | services/mortgageService.ts:31-54 | every entry except the last leaves more than 0.01 owed |
| MortgageService.BalanceDecreasesAt | services/mortgageService.ts:33-40 | with a non-negative rate and overpayment and a payment above the first interest, month `i` pays positive principal and strictly lowers a balance that never exceeds the principal |
| MortgageService.BalanceDecreases | services/mortgageService.ts:33-40 | the same for every month of the schedule |
| MortgageService.InterestNonNegative | services/mortgageService.ts:33-41 | with a non-negative rate the total interest of a schedule is never negative |
| MortgageService.RemainingAfterMonth | services/mortgageService.ts:33-40 | one month leaves `max(0, b + b r - P - o)` of the balance `b` it starts from |
| MortgageService.StepMonotone | services/mortgageService.ts:33-40 | what one month leaves owed rises with the balance and falls with the overpayment |
| MortgageService.BalanceMonotoneAt | services/mortgageService.ts:25-42 | with a non-negative rate, a larger overpayment leaves no more owed before and after any month both schedules reach |
| MortgageService.InterestMonotoneAt | services/mortgageService.ts:33 | with a non-negative rate, a larger overpayment charges no more interest in any month both schedules reach |
| MortgageService.InterestPrefixMonotone | services/mortgageService.ts:41 | the interest paid to date under a larger overpayment is no greater, month by month |
| MortgageService.InterestGrowsWithPrefix | services/mortgageService.ts:41 | with a non-negative rate, the interest paid to date never falls from one month to a later one |
| MortgageService.OverpaymentNeverHurts | services/mortgageService.ts:31-54 | of two stopped schedules for the same loan and payment, the one with the larger overpayment is no longer and charges no more total interest |
| MortgageService.OverpaymentShortensRun | services/mortgageService.ts:3-66 | two engine runs on the same loan that differ only in overpayment: the larger overpayment never takes more months and never costs more interest |
| MortgageService.TermFromPayment | services/mortgageService.ts:71-85 | a payment at most the monthly interest on the principal gives exactly 999 years; otherwise the years times 12 times `ln(1 + r)` equal `ln(M / (M - P r))` |
| MortgageService.AnnuityOfPaymentRatio | services/mortgageService.ts:79-84 | the ratio `M / (M - P r)` exceeds 1, and the annuity payment with that growth factor is the payment `M` |
| MortgageService.TermRoundTrip | services/mortgageService.ts:79-84 | if `pow` inverts `ln`, running the engine over the solved term gives back the payment that was solved for |
| MortgageService.MaxLoanFromBudget | services/mortgageService.ts:90-99 | the result is a multiple of 1000, at most the unrounded maximum loan `MaxLoanRaw` (`M (f - 1) / (r f)` with `f = (1 + r)^(12 n)`) and more than that loan minus 1000 |
| MortgageService.MaxLoanFromBudgetDefaultTerm | services/mortgageService.ts:90-98 | leaving out the term floors the unrounded loan over 480 months (40 years) to a multiple of 1000, at most that loan and more than it minus 1000 |
| MortgageService.MaxLoanIsLargestAffordable | services/mortgageService.ts:94-98 | for a positive rate and term, the unrounded loan's annuity payment equals the budget; the floored loan is affordable, and 1000 more is not |
| TrapGame.Standard25YearPayment | components/TheTrapGame.tsx:32-39 | a zero monthly rate spreads the loan evenly over 300 months |
| TrapGame.Standard25MatchesEngine | components/TheTrapGame.tsx:38 | for a positive rate, the negative-exponent formula is the engine's annuity payment for a 25-year term |
| TrapGame.SimulatedTerm | components/TheTrapGame.tsx:53 | the term handed to the engine is the solved term capped at 100 years |
| TrapGame.GameSimulation | components/TheTrapGame.tsx:45-55 | the term comes from the term solver, and the result is the engine's run (`ZeroResult` or `IsRun`) on the loan, the rate, the term capped at 100 years and no overpayment, so the schedule never exceeds 1800 months; when the payment does not cover the interest, the term is 999 and the engine runs a 100-year annuity; when it does and the solved term is at most 100 years, the run's payment is the user's payment, provided `pow` inverts `ln` |
| TrapGame.WastePercentage | components/TheTrapGame.tsx:84 | with a positive total cost the share times the cost is 100 times the interest, else 0; interest that is non-negative and below the cost gives a share in `[0, 100)` |
| TrapGame.ClassifyMood | components/TheTrapGame.tsx:86-91 | the mood's rank is the worse of the term tier (above 35, 26, 22 years) and the waste tier (above 55, 45, 30 percent), and `IsTrap` (mood is rage) holds exactly when the term exceeds 35 years or the waste exceeds 55 percent |
| TrapGame.MoodMonotone | components/TheTrapGame.tsx:86-89 | a longer term or a larger waste never gives a better mood |
| TrapGame.ScoreColor | components/TheTrapGame.tsx:148 | the scoreboard years are red exactly for a trap, emerald exactly for a happy mood, and white otherwise |
| TrapGame.TermColor | components/TheTrapGame.tsx:106-110 | red exactly above 35 years, amber exactly in `(25, 35]`, emerald exactly at 25 years or fewer |
| TrapGame.TermLabel | components/TheTrapGame.tsx:309-311 | the critical caption exactly above 40 years, the warning exactly in `(30, 40]`, the standard caption otherwise |
| TrapGame.YearsDisplay | components/TheTrapGame.tsx:149 | a fixed "over 100" text exactly when the term exceeds 99 years, spaced ("> 100") on the scoreboard and unspaced (">100", line 314) in the caption; otherwise the term itself |
| TrapGame.SentinelPresentation | components/TheTrapGame.tsx:309-314 | a payment that does not cover the interest is shown as over 100 years, in red, with the critical caption, and simulated over 100 years |
| TrapGame.CurrentMonthData | components/TheTrapGame.tsx:76-81 | an empty schedule or a scrubber below 1 shows the all-zero month; otherwise the month at index `min(scrubber, length) - 1` is shown |
| TrapGame.ScrubberShowsNamedMonth | components/TheTrapGame.tsx:76-81 | on an engine schedule the month shown is the one whose `month` field is the scrubber position, or the last month when the scrubber points past the end |

## Left out

- services/geminiService.ts (advisory text from an external AI service) is network I/O and is not part of this model.
- App.tsx (form state, the region-to-currency switch) is presentation only and is not part of this model.
- `formatCurrency` relies on `Intl.NumberFormat`, whose output is locale data outside the program. `toFixed` formatting of the years and the waste is also left out; `YearsDisplay` keeps the number unformatted.
- Floating-point behaviour is not modelled. Amounts are exact reals, so the 0.01 stopping test and the identity "equity plus balance equals the principal" hold exactly here, while in the app they only hold up to rounding. The concrete figures of worked scenarios are not derived.
- `Math.pow` and `Math.log` are parameters, and their laws are hypotheses. The round trip between the term solver and the annuity formula holds only under those hypotheses.
- MortgageService.TermFromPayment: requires `ln(1 + r) != 0` whenever the payment exceeds the interest, because JavaScript would divide by zero there and return Infinity or NaN. For example, a zero rate with a positive payment divides by `ln(1) = 0`.
- MortgageService.MaxLoanFromBudget: requires `r * (1 + r)^n != 0`, because JavaScript returns NaN or Infinity for a zero rate.
- TrapGame.Standard25YearPayment: requires `(1 + r)^(-300) != 1` for a non-zero rate, for the same reason.
- MortgageService.CalculateMortgage: requires `PowGrows` so that the annuity denominator `(1 + r)^n - 1` is not zero. JavaScript's Infinity or NaN for a zero denominator is not modelled.
- The React hooks and effects are left out: `useState`, `useMemo`, and the effect that resets the scrubber (components/TheTrapGame.tsx:70-74).
- The event handlers `handleLoanChange` and `resetToAverage` are left out, and so is the minimum slider payment. These handlers recompute the 25-year payment without the zero-rate fallback.
- The visual ratios and bar heights are left out, as is the JSX markup.
- MortgageService.OverpaymentShortensRun: states the non-strict form only. The month count is an integer, so a small extra overpayment need not save a whole month; and two overpayments that both clear the balance in the first month give the same interest, so no strict decrease is promised.
- The mood is a datatype rather than the strings `'happy'`, `'meh'`, `'sad'` and `'rage'`, and the colour and caption strings are kept character for character, including the mis-encoded characters (`‚ö†Ô∏è`, `‚úÖ`) that open each caption in components/TheTrapGame.tsx.

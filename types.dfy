/** The records exchanged between the amortization engine and the user interface.
    Every amount is an exact `real`; month and year counters are integers. */
module Types {

  /** One simulated month of a schedule. */
  datatype MonthlyData = MonthlyData(
    month: int,
    year: int,
    principalPayment: real,
    interestPayment: real,
    totalInterestPaidToDate: real,
    remainingBalance: real,
    equityBuilt: real)

  /** The summary the engine returns, with the schedule it produced. */
  datatype MortgageResult = MortgageResult(
    monthlyPayment: real,
    totalInterest: real,
    totalCost: real,
    totalPrincipal: real,
    yearsToPayOff: real,
    monthsToPayOff: int,
    schedule: seq<MonthlyData>)

  /** The inputs of one simulation: principal, annual rate in percent,
      nominal term in years and a constant extra principal payment per month. */
  datatype SimulationParams = SimulationParams(
    amount: real,
    rate: real,
    termYears: real,
    monthlyOverpayment: real)
}

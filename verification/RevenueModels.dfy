/** The records of the revenue-sharing service (src/revenue_sharing_models.py). */
module RevenueModels {
  import opened Wrappers

  datatype Stakeholder = Stakeholder(
    id: string,
    name: string,
    role: string,
    percentage: real,
    minAmount: Option<real>,
    maxAmount: Option<real>)

  datatype RevenueRule = RevenueRule(
    id: string,
    name: string,
    priority: int,
    percentage: real,
    appliesTo: seq<string>)

  datatype RevenueShareConfig = RevenueShareConfig(
    defaultPlatformFee: real,
    defaultOrganizerShare: real,
    defaultVenueFee: real,
    processingFeeRate: real,
    processingFixedFee: real)

  const DEFAULT_CONFIG := RevenueShareConfig(5.0, 80.0, 10.0, 2.9, 0.30)

  /** A Python dict with string keys: its entries in insertion order. */
  type Fees = seq<(string, real)>

  /** `netRevenue` is the flag "distribute what is left after fees". */
  datatype EventRevenueInput = EventRevenueInput(
    eventId: string,
    totalSales: real,
    ticketCount: int,
    currency: string,
    additionalFees: Fees,
    netRevenue: bool,
    customRules: seq<RevenueRule>)

  /** One payout; the service rewrites `netAmount` of one of them afterwards. */
  class PayoutDistribution {
    const stakeholderId: string
    const stakeholderName: string
    const role: string
    const grossAmount: real
    var netAmount: real
    const percentageApplied: real
    const currency: string
    const ruleUsed: string

    constructor (stakeholder: Stakeholder, amount: real, currency: string, rule: RevenueRule)
      ensures stakeholderId == stakeholder.id && stakeholderName == stakeholder.name
      ensures role == stakeholder.role && percentageApplied == stakeholder.percentage
      ensures grossAmount == amount && netAmount == amount
      ensures this.currency == currency && ruleUsed == rule.id
    {
      this.stakeholderId := stakeholder.id;
      this.stakeholderName := stakeholder.name;
      this.role := stakeholder.role;
      this.grossAmount := amount;
      this.netAmount := amount;
      this.percentageApplied := stakeholder.percentage;
      this.currency := currency;
      this.ruleUsed := rule.id;
    }
  }

  datatype RevenueCalculationResult = RevenueCalculationResult(
    eventId: string,
    totalGrossSales: real,
    totalFees: real,
    netRevenue: real,
    distributions: seq<PayoutDistribution>,
    totalPaidOut: real,
    remainingBalance: real,
    currency: string,
    rulesApplied: seq<string>)

  datatype RevenueError =
    | CurrencyUnavailable          // the exchange-rate lookup raised
    | PercentagesExceed(total: real) // HTTP 400
}

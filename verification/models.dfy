/** The application's records (`src/types/models.ts`). Numbers are reals,
    optional fields are `Option`s, timestamps and identifiers are strings. */
module Models {
  import opened Wrappers

  datatype Strategy = Growth | Hold | Diversify

  datatype Action = InvestNow | PartialDeploy | Wait | Rebalance

  datatype Position = Position(ticker: string, quantity: real, avgCost: Option<real>)

  datatype AllocationBreakdown = AllocationBreakdown(equities: real, defensive: real, cash: real)

  datatype ComparisonOp = Greater | Less | GreaterOrEqual | LessOrEqual

  datatype InvalidationCondition = InvalidationCondition(metric: string, op: ComparisonOp, threshold: real)

  /** A value of a rule's `inputs_used` record. */
  datatype InputValue = NumInput(n: real) | StrInput(s: string)

  datatype TriggeredRule = TriggeredRule(
    ruleId: string,
    name: string,
    weight: real,
    direction: string,
    inputsUsed: map<string, InputValue>,
    rationaleKey: string)

  datatype EngineResult = EngineResult(
    strategy: Strategy,
    action: Action,
    amount: real,
    allocation: AllocationBreakdown,
    confidence: real,
    invalidatedIf: seq<InvalidationCondition>,
    explanationSummary: string,
    triggeredRules: seq<TriggeredRule>,
    recessionProbability: Option<real>)

  datatype PortfolioSnapshot = PortfolioSnapshot(
    cashAmount: real,
    monthlyContribution: real,
    riskTolerance: real,
    positions: seq<Position>)

  datatype Portfolio = Portfolio(
    id: string,
    userId: Option<string>,
    cashAmount: real,
    monthlyContribution: real,
    riskTolerance: real,
    createdAt: string,
    updatedAt: string)

  datatype Recommendation = Recommendation(
    id: string,
    portfolioId: string,
    strategy: Strategy,
    action: Action,
    amount: real,
    allocation: AllocationBreakdown,
    confidence: real,
    recessionProbability: Option<real>,
    explanationSummary: string,
    triggeredRules: seq<TriggeredRule>,
    invalidatedIf: seq<InvalidationCondition>,
    createdAt: string)

  /** The errors the importer reports, with the exact messages it uses. */
  datatype ImportError = MissingQuantity | InvalidQuantity | InvalidAvgCost | NoData | UndetectedColumns {
    function Message(): string {
      match this
      case MissingQuantity => "Missing quantity"
      case InvalidQuantity => "Invalid quantity"
      case InvalidAvgCost => "Invalid average cost format"
      case NoData => "No data found in file"
      case UndetectedColumns => "Could not detect ticker and quantity columns"
    }
  }

  /** `ImportPreviewRow`: one parsed candidate position; a row with an error
      is reported and never imported. */
  datatype PreviewRow = PreviewRow(ticker: string, quantity: real, avgCost: Option<real>, error: Option<ImportError>)

  /** An entry of `invalid_rows`: 1-based line of the table, 0 for a failure
      of the whole table. */
  datatype InvalidRow = InvalidRow(rowNumber: nat, error: ImportError)

  /** `ImportValidationResult`. */
  datatype ValidationResult = ValidationResult(
    validRows: seq<PreviewRow>,
    invalidRows: seq<InvalidRow>,
    totalImported: nat,
    totalSkipped: nat)
}

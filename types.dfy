/**
 * The domain types of the food audit. Every TypeScript field is `readonly`,
 * so each type is an immutable datatype: a record or a report is never
 * changed after it is built.
 */
module Types {

  /** A delivered quantity: a number, or the reason there is none. */
  datatype FoodQuantity =
    | Valid(value: int)
    | Missing(reason: string)

  /**
   * One record of an input file: an item name and its quantity. The three
   * record kinds share this shape and differ in the quantity.
   */
  datatype Record<Q> = Record(item: string, quantity: Q)

  /** A delivery line carries a quantity that may be missing. */
  type DeliveryRecord = Record<FoodQuantity>

  /** A usage log entry carries a plain number. */
  type UsageRecord = Record<int>

  /** An inventory count carries a plain number. */
  type InventoryRecord = Record<int>

  /** The outcome of reconciling one item: exactly one of three variants. */
  datatype ReconciliationResult =
    | Ok(item: string, expected: int, actual: int)
    | Discrepancy(item: string, expected: int, actual: int, difference: int)
    | Unknown(item: string, reason: string)

  /** The tag of a `ReconciliationResult`, the `status` field of the TypeScript union. */
  datatype Status = OkStatus | DiscrepancyStatus | UnknownStatus

  function StatusOf(r: ReconciliationResult): (s: Status)
    ensures s == OkStatus <==> r.Ok?
    ensures s == DiscrepancyStatus <==> r.Discrepancy?
    ensures s == UnknownStatus <==> r.Unknown?
  {
    match r
    case Ok(_, _, _) => OkStatus
    case Discrepancy(_, _, _, _) => DiscrepancyStatus
    case Unknown(_, _) => UnknownStatus
  }

  datatype AuditSummary = AuditSummary(totalItems: nat, okCount: nat, discrepancyCount: nat, unknownCount: nat) {
    /** The tallies partition the total. */
    predicate Consistent() {
      totalItems == okCount + discrepancyCount + unknownCount
    }
  }

  /**
   * The generation time of a report. Reading the clock happens outside the
   * model; the caller supplies the time already rendered as ISO 8601 text.
   */
  datatype Timestamp = Timestamp(iso: string)

  datatype AuditReport = AuditReport(timestamp: Timestamp, results: seq<ReconciliationResult>, summary: AuditSummary)

  datatype OutputFormat = TextFormat | JsonFormat

  /** Why a parser rejected a whole file. */
  datatype ParseError =
      /** The parsing library failed; the message is `Failed to parse <file>: <cause>`. */
    | Failed(file: string, cause: string)
      /** The inventory document did not match the schema. */
    | InvalidInventoryFormat
}

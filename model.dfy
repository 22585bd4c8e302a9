/**
 * The records the transaction service stores and receives:
 * the `Transaction` entity, the inbound `TransactionEvent` and the
 * CREDIT/DEBIT direction.
 */
module Model {
  import opened Wrappers

  /** A `java.util.UUID`: two 64-bit halves, compared by value. */
  datatype Uuid = Uuid(mostSigBits: int, leastSigBits: int)

  /** A `java.time.LocalDate`. */
  datatype Date = Date(year: int, month: int, day: int)

  datatype TransactionType = CREDIT | DEBIT

  /**
   * The persisted `Transaction` entity. `monthKey` is a nullable column:
   * `None` stands for SQL NULL. BigDecimal amounts are exact reals.
   * The audit timestamps of `BaseEntity` are not part of the model.
   */
  datatype Transaction = Transaction(
    id: Uuid,
    customerId: string,
    accountIban: string,
    currency: string,
    amount: real,
    valueDate: Date,
    description: string,
    monthKey: Option<Date>,
    transactionType: TransactionType)

  /** The inbound event, as the message consumer has already deserialised it. */
  datatype TransactionEvent = TransactionEvent(
    id: Uuid,
    customerId: string,
    accountIban: string,
    currencyAmount: string,
    valueDate: Date,
    description: string)

  /** The first day of the month a date falls in: the form of month key that callers query with. */
  function FirstOfMonth(d: Date): (k: Date)
    ensures k.year == d.year && k.month == d.month && k.day == 1
  {
    Date(d.year, d.month, 1)
  }
}

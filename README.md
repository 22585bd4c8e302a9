# Transaction statement service — verified model

This project models the core of a Spring/Kafka service that keeps customers' bank transactions and serves monthly statements:

- **Ingestion** (`TransactionIngestionServiceImpl`). An inbound event carries a currency amount written as `"<currency> <amount>[-]"`, e.g. `"CHF 100-"`. The service:
  - trims the string;
  - parses it into a currency, a non-negative amount and a direction (DEBIT exactly when the string ends in `-`);
  - builds a `Transaction` row from the event's fields;
  - saves the row into the table keyed by the event's UUID (insert or replace).

  A string that does not parse raises an error, and nothing is saved.
- **The repository** (`TransactionRepository`) has an id-keyed `save`, a filter query by customer and month key that returns one page, and a SUM query by customer, month key and direction.
- **The FX rate lookup** (`FxRateServiceImpl.getFxRate`):
  - it returns 1 for the same currency;
  - otherwise it returns the provider's quote for the pair;
  - it returns 1 when the quote is missing or the provider fails.
- **Statement assembly** (`TransactionServiceImpl.getTransactions`):
  - it queries one page of the customer's rows for the month;
  - it converts each row to the base currency and adds it to the credit or the debit total;
  - it emits one statement line per row and copies the page metadata.

Modules, one file each:

- `Wrappers` (`Option`, `Result`, `Outcome`).
- `Model`: `Transaction`, `TransactionEvent`, `TransactionType`, `Date`, `Uuid`.
- `JavaString`: `String.trim`, `indexOf`, `replace` of a character by nothing, and `endsWith`.
- `Decimal`: `new BigDecimal(String)` on plain decimal numerals.
- `Ingestion`.
- `Repository`.
- `FxRate`.
- `Statement`.

`BigDecimal` is modelled as `real`: the service only adds and multiplies, and both are exact on `BigDecimal`. A month key is `Option<Date>`, where `None` is SQL NULL. The SUM query returns `Option<real>`, because SQL SUM over no rows is NULL.

The following are parameters of the model:

- The table contents (a `map<Uuid, Transaction>`).
- The order in which the database returns the matches: `order`, a duplicate-free list of the matching ids.
- The rate service used by the statement: a function `(nat, Date, string, string) -> real`. `fx(call, valueDate, from, to)` is what the `getFxRate` call numbered `call` answers; there is one call per page row, counted from 0 in page order. Every call is a fresh lookup, so two rows with the same date and currency may get different rates. `Statement.ProviderRates` builds the production service from `GetFxRate`.
- The reply of the rate provider's HTTP endpoint to each call: a `ProviderReply`, which is a body that may be null, or a thrown exception.

Two facts about the code are worth knowing:

- Month keys are meant to be first days of months. The controller documents its `monthKey` parameter as "First day of month" (`TransactionController.java:48`), and the repository test stores such keys (`TransactionRepositoryTest.java:44`, `:53-58`). Yet `ingestTransaction` never sets the month key (`TransactionIngestionServiceImpl.java:40-48`). The model follows the code and stores `None`. As a consequence, neither the filter query nor the SUM query ever sees an ingested row (`Ingestion.IngestedRowNeverListed`).
- The code never rejects an empty currency. After `trim`, though, the first space can never be at index 0, so a parsed currency is never empty (`Ingestion.TrimmedCurrencyNonEmpty`).

## Model

| member | source | states |
|---|---|---|
| JavaString.TrimMeaning | src/main/java/com/transaction/challenge/service/TransactionIngestionServiceImpl.java:36 | `trim` returns a contiguous slice of its input. Every character removed before or after it is a control character or space (`<= ' '`). A non-empty result starts and ends with a character above `' '`. |
| JavaString.IndexOf | src/main/java/com/transaction/challenge/service/TransactionIngestionServiceImpl.java:62 | `indexOf` finds nothing exactly when the character is absent. Otherwise it gives the first position holding it. |
| JavaString.EndsWithSuffix | src/main/java/com/transaction/challenge/service/TransactionIngestionServiceImpl.java:65 | `endsWith("-")` looks only at the last character: a string ending in a non-empty piece ends with '-' exactly when that piece does. |
| JavaString.RemoveAll | src/main/java/com/transaction/challenge/service/TransactionIngestionServiceImpl.java:63 | `replace("-", "")` leaves no dash and never lengthens the string. |
| JavaString.RemoveAllContents | src/main/java/com/transaction/challenge/service/TransactionIngestionServiceImpl.java:63 | Removal drops exactly the dashes: every other character keeps its number of occurrences. |
| JavaString.RemoveAllConcat | src/main/java/com/transaction/challenge/service/TransactionIngestionServiceImpl.java:63 | Removal works piece by piece: on a concatenation it is the concatenation of the removals, so the kept characters stay in order. |
| JavaString.RemoveAllAbsent | src/main/java/com/transaction/challenge/service/TransactionIngestionServiceImpl.java:63 | A string without a dash is returned unchanged. |
| Decimal.ParseDecimal | src/main/java/com/transaction/challenge/service/TransactionIngestionServiceImpl.java:64 | An accepted numeral is made only of digits and at most one '.', has at least one digit, and denotes a non-negative value. |
| Decimal.ParseWholeNumber | src/main/java/com/transaction/challenge/service/TransactionIngestionServiceImpl.java:64 | A non-empty digit string is accepted and denotes its decimal value. |
| Decimal.ParseWithFraction | src/main/java/com/transaction/challenge/service/TransactionIngestionServiceImpl.java:64 | `d.f`, with digit strings `d` and `f` not both empty, is accepted and denotes `d + f / 10^|f|`. |
| Ingestion.ParseCurrencyAmount | src/main/java/com/transaction/challenge/service/TransactionIngestionServiceImpl.java:61-68 | Parsing fails for want of a space exactly when the input has no space. A parsed amount is never negative. |
| Ingestion.ParseCurrencyAmountMeaning | src/main/java/com/transaction/challenge/service/TransactionIngestionServiceImpl.java:61-68 | The currency is the space-free prefix before the first space. The amount is the value of the rest with every dash removed. The direction is DEBIT if and only if the input ends with '-'. |
| Ingestion.ParseSplit | src/main/java/com/transaction/challenge/service/TransactionIngestionServiceImpl.java:62-65 | For a space-free currency, `currency + " " + numeric` fails as malformed exactly when the dash-free numeric part is no decimal. Otherwise it yields that currency, that value, and DEBIT iff `numeric` ends with '-'. |
| Ingestion.InnerDashesIgnored | src/main/java/com/transaction/challenge/service/TransactionIngestionServiceImpl.java:63-65 | A '-' anywhere but at the end never changes the result: numeric parts that agree once dashes are removed, and agree on ending with '-', parse alike. |
| Ingestion.ParseFormatRoundTrip | src/main/java/com/transaction/challenge/service/TransactionIngestionServiceImpl.java:61-68 | For a space-free currency `c` and a numeral `d`, `"c d"` parses to `(c, d, CREDIT)` and `"c d-"` parses to `(c, d, DEBIT)`. |
| Ingestion.TrimmedCurrencyNonEmpty | src/main/java/com/transaction/challenge/service/TransactionIngestionServiceImpl.java:36-62 | After `trim`, a parsed currency is non-empty and holds no space. |
| Ingestion.ParseExample | src/test/java/com/transaction/challenge/TransactionConsumerTest.java:40-43 | The test message "CHF 100-", trimmed, parses to a DEBIT of 100 CHF. |
| Ingestion.ToTransaction | src/main/java/com/transaction/challenge/service/TransactionIngestionServiceImpl.java:40-48 | The built row carries the event's id, customer, IBAN, value date and description, and no month key. Its currency, amount and direction give back the parse result exactly. |
| Ingestion.Ingest | src/main/java/com/transaction/challenge/service/TransactionIngestionServiceImpl.java:31-59 | Ingestion fails, with the parse error, exactly when the trimmed amount does not parse. Otherwise only the event's id changes in the table. The row stored there carries the event's id, customer, IBAN, value date and description, the parsed currency, amount and direction, and no month key. |
| Ingestion.IngestPreservesInvariant | src/main/java/com/transaction/challenge/service/TransactionIngestionServiceImpl.java:40-50 | Every row stays under its own id and keeps a non-negative amount. |
| Ingestion.IngestIdempotent | src/main/java/com/transaction/challenge/service/TransactionIngestionServiceImpl.java:41-50 | Ingesting the same event again changes nothing. A new id adds exactly one row; a known id adds none. |
| Ingestion.IngestLastWriteWins | src/main/java/com/transaction/challenge/service/TransactionIngestionServiceImpl.java:50 | Of two deliveries with one id, the table afterwards is what the later one alone would give. |
| Ingestion.IngestedRowNeverListed | src/main/java/com/transaction/challenge/service/TransactionIngestionServiceImpl.java:40-48 | An ingested row has no month key. Neither the filter query by customer and month nor the SUM query for either direction counts it, not even for the first day of its value date's month. |
| Ingestion.IngestExample | src/test/java/com/transaction/challenge/TransactionConsumerTest.java:40-54 | The consumer test's event is accepted and stored as a 100 CHF DEBIT under its id. |
| Ingestion.TransactionIngestionService.IngestTransaction | src/main/java/com/transaction/challenge/service/TransactionIngestionServiceImpl.java:31-59 | On success the repository's table becomes exactly `Ingest` of the old table. On a parse failure it reports the error and the table is unchanged. Either way the store invariant (rows under their own ids, non-negative amounts) is kept. |
| Repository.TransactionRepository.Save | src/main/java/com/transaction/challenge/Repository/TransactionRepository.java:18 | `save` puts the row under its id and leaves every other row as it was. |
| Repository.FindByCustomerIdAndMonthKey | src/main/java/com/transaction/challenge/Repository/TransactionRepository.java:19-20 | Every returned row is a stored row with the requested customer and month key. Position `i` of page `n` holds the row at position `n * size + i` of the query's order. The page holds `size` rows, fewer on the last page, and none past the end. It carries the requested number and size. `totalElements` is the number of matches and `totalPages` the page count for them. Page 0 with a size covering all matches holds every match. |
| Repository.PageStartIsOffset | src/main/java/com/transaction/challenge/Repository/TransactionRepository.java:20 | Page `n` starts after `n * size` rows, the offset of a `PageRequest`. |
| Repository.CeilingDivision | src/main/java/com/transaction/challenge/Repository/TransactionRepository.java:20 | The pages counted for `n` rows hold them all, and the last page is not empty. |
| Repository.TotalAmountByCustomerIdAndMonthKeyAndTransactionType | src/main/java/com/transaction/challenge/Repository/TransactionRepository.java:22-23 | The SUM is NULL exactly when no row matches the customer, the month key and the direction. |
| Repository.TotalAmountOverEnumeration | src/main/java/com/transaction/challenge/Repository/TransactionRepository.java:19-23 | The SUM query equals the amounts of that direction added up over the rows the filter query enumerates (NULL read as 0). |
| FxRate.QuoteFor | src/main/java/com/transaction/challenge/service/FxRateServiceImpl.java:41 | A quote exists exactly when the reply has a non-null body with non-null quotes holding the key, and it is the value stored there. |
| FxRate.GetFxRate | src/main/java/com/transaction/challenge/service/FxRateServiceImpl.java:26-49 | The rate is 1 for the same currency. Otherwise it is 1 on an exception, a null body or null quotes. It is the quote under `from + to` when present, and 1 when absent. |
| FxRate.RateIsIdentityOrQuote | src/main/java/com/transaction/challenge/service/FxRateServiceImpl.java:26-43 | The rate is 1 or the provider's quote for exactly this pair. Neither the date nor the reply's `success` flag affects it. |
| FxRate.SameCurrencyIgnoresProvider | src/main/java/com/transaction/challenge/service/FxRateServiceImpl.java:27-30 | For one currency, every provider reply gives rate 1. |
| Statement.AssembleStatement | src/main/java/com/transaction/challenge/service/TransactionServiceImpl.java:51-91 | There is one line per page row, in page order. Each line keeps the row's id, IBAN, value date, description and direction. It has the base currency, and the amount times the rate that row's own call returned. `totalCredit` is the sum over CREDIT rows and `totalDebit` the sum over all other rows; both are 0 for an empty page. Page metadata is copied and the currency is the base currency. |
| Statement.GetTransactions | src/main/java/com/transaction/challenge/service/TransactionServiceImpl.java:43-92 | The statement covers exactly the page the filter query returns: its lines and totals are those of that page. Its page number and size are the requested ones, and `totalElements` is the number of matching rows. |
| Statement.TotalsPartitionPage | src/main/java/com/transaction/challenge/service/TransactionServiceImpl.java:55-65 | `totalCredit + totalDebit` is the sum of the converted amounts of exactly the page's rows. |
| Statement.TotalsOfConcatenation | src/main/java/com/transaction/challenge/service/TransactionServiceImpl.java:55-65 | Totals are additive over consecutive pieces of rows, the second piece taking the rate calls after the first's. So a page's totals involve only its own rows and their own calls. |
| Statement.DebitExample | src/main/java/com/transaction/challenge/service/TransactionServiceImpl.java:59-64 | A DEBIT row of 100 at rate 17000.12 adds exactly 1700012 to `totalDebit` and nothing to `totalCredit`. |
| Statement.IdentityRateTotals | src/main/java/com/transaction/challenge/service/TransactionServiceImpl.java:56-65 | When every row's call answers 1, the totals are the plain CREDIT and DEBIT amount sums. |
| Statement.ProviderFallbackKeepsAmounts | src/main/java/com/transaction/challenge/service/TransactionServiceImpl.java:57-59 | With the production rate service, a row in the base currency, or any row whose own provider call throws, is converted to its own amount. |
| Statement.StatementTotalsMatchSumQuery | src/main/java/com/transaction/challenge/service/TransactionServiceImpl.java:47-65 | When page 0 holds every match and every call answers 1 for every matching row, the statement's totals equal the repository's SUM queries for CREDIT and DEBIT (NULL read as 0). |

## Left out

- Decimal.ParseDecimal: accepts only digits with an optional single '.'. `new BigDecimal(String)` also accepts a leading '+' or '-', an exponent (`1E3`) and some non-ASCII digits, which the model rejects. A '-' never reaches it here, because every dash is removed first.
- BigDecimal scale ("100.00" versus 100) is not modelled: amounts are exact `real` values.
- Null fields: a null `currencyAmount` throws at `trim()` (`TransactionIngestionServiceImpl.java:36`), and a null id fails inside `save`. A null customer, IBAN, value date or description is copied into the entity and stored as SQL NULL. The model has no null strings or dates, so it cannot represent such rows. A null quote value in the provider's map is not modelled either.
- Exceptions are modelled as values: a parse failure is a `Failure`/`Fail` result rather than a thrown exception, and logging before the rethrow is not modelled.
- `@Transactional` rollback and persistence failures: `save` always succeeds in the model.
- The audit timestamps of `BaseEntity` are not modelled, because they come from the wall clock and ORM callbacks.
- The Kafka listener and JSON deserialisation of events are not part of this model, because they are transport code: a `TransactionEvent` arrives already built.
- The HTTP controller, JWT lookup and security configuration are not part of this model, because they are plumbing around `getTransactions`.
- Configuration classes and application bootstrap are not part of this model.
- The HTTP call to the rate provider (URI building, `block()`, the API key) is replaced by its reply, which is an input.
- Spring Data sorting is not modelled: the order of matches is an input.
- Spring Data's own computation of `totalElements` and `totalPages` (a count query, adjustments for a short last page) is not modelled: the model derives both from the set of matches.
- Logging and concurrent consumption across Kafka partitions are not modelled: each event is ingested atomically, one at a time.

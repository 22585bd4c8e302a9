/**
 * `TransactionServiceImpl.getTransactions`: one page of stored rows turned
 * into a statement in the base currency, with credit and debit totals over
 * that page only.
 */
module Statement {
  import opened Wrappers
  import opened Model
  import opened Repository
  import opened FxRate

  /** A line of the statement. */
  datatype TransactionDto = TransactionDto(
    id: Uuid,
    accountIban: string,
    currency: string,
    amount: real,
    valueDate: Date,
    description: string,
    transactionType: TransactionType)

  /** The statement page returned to the caller. */
  datatype TransactionPageResponse = TransactionPageResponse(
    transactions: seq<TransactionDto>,
    page: nat,
    size: nat,
    totalElements: nat,
    totalPages: nat,
    currency: string,
    totalCredit: real,
    totalDebit: real)

  /**
   * The answers of the `FxRateService` during one statement: `fx(call, date,
   * from, to)` is what the call numbered `call` (counting from 0, one call
   * per row in page order) returns for (value date, from currency, to
   * currency). Each call is a fresh lookup, so two rows with the same date
   * and currency may get different rates.
   */
  type RateService = (nat, Date, string, string) -> real

  /** A row's amount in the base currency, at the rate the call numbered `call` returned. */
  function ConvertedAmount(t: Transaction, call: nat, baseCurrency: string, fx: RateService): real {
    t.amount * fx(call, t.valueDate, t.currency, baseCurrency)
  }

  /** The statement line of the row converted by call `call`. */
  function ToDto(t: Transaction, call: nat, baseCurrency: string, fx: RateService): TransactionDto {
    TransactionDto(t.id, t.accountIban, baseCurrency, ConvertedAmount(t, call, baseCurrency, fx),
                   t.valueDate, t.description, t.transactionType)
  }

  /** The rate answers of the calls after the first `offset` ones, renumbered from 0. */
  function Shifted(fx: RateService, offset: nat): RateService {
    (call: nat, date: Date, fromCurrency: string, toCurrency: string) => fx(offset + call, date, fromCurrency, toCurrency)
  }

  /** The converted amounts of the CREDIT rows of `ts`, added up. */
  function CreditTotal(ts: seq<Transaction>, baseCurrency: string, fx: RateService): real {
    if ts == [] then 0.0
    else
      var last := ts[|ts| - 1];
      CreditTotal(ts[..|ts| - 1], baseCurrency, fx)
        + (if last.transactionType == CREDIT then ConvertedAmount(last, |ts| - 1, baseCurrency, fx) else 0.0)
  }

  /** The converted amounts of every row of `ts` that is not CREDIT, added up. */
  function DebitTotal(ts: seq<Transaction>, baseCurrency: string, fx: RateService): real {
    if ts == [] then 0.0
    else
      var last := ts[|ts| - 1];
      DebitTotal(ts[..|ts| - 1], baseCurrency, fx)
        + (if last.transactionType == CREDIT then 0.0 else ConvertedAmount(last, |ts| - 1, baseCurrency, fx))
  }

  /** The converted amounts of all rows of `ts`, added up. */
  function ConvertedTotal(ts: seq<Transaction>, baseCurrency: string, fx: RateService): real {
    if ts == [] then 0.0
    else ConvertedTotal(ts[..|ts| - 1], baseCurrency, fx) + ConvertedAmount(ts[|ts| - 1], |ts| - 1, baseCurrency, fx)
  }

  /**
   * The body of `getTransactions` after the query: convert every row of the
   * page, add it to the credit or the debit total, emit its line, then copy
   * the page's metadata.
   */
  method AssembleStatement(page: Page, baseCurrency: string, fx: RateService) returns (response: TransactionPageResponse)
    ensures |response.transactions| == |page.content|
    ensures forall i :: 0 <= i < |page.content| ==> response.transactions[i] == ToDto(page.content[i], i, baseCurrency, fx)
    ensures response.totalCredit == CreditTotal(page.content, baseCurrency, fx)
    ensures response.totalDebit == DebitTotal(page.content, baseCurrency, fx)
    ensures page.content == [] ==> response.totalCredit == 0.0 && response.totalDebit == 0.0
    ensures response.page == page.number && response.size == page.size
    ensures response.totalElements == page.totalElements && response.totalPages == page.totalPages
    ensures response.currency == baseCurrency
  {
    var totalCredit := 0.0;
    var totalDebit := 0.0;
    var transactionDtos: seq<TransactionDto> := [];
    var i := 0;
    while i < |page.content|
      invariant 0 <= i <= |page.content|
      invariant |transactionDtos| == i
      invariant forall j :: 0 <= j < i ==> transactionDtos[j] == ToDto(page.content[j], j, baseCurrency, fx)
      invariant totalCredit == CreditTotal(page.content[..i], baseCurrency, fx)
      invariant totalDebit == DebitTotal(page.content[..i], baseCurrency, fx)
    {
      var transaction := page.content[i];
      var fxRate := fx(i, transaction.valueDate, transaction.currency, baseCurrency);
      var convertedAmount := transaction.amount * fxRate;
      assert page.content[..i + 1][..i] == page.content[..i] && page.content[..i + 1][i] == transaction;
      assert CreditTotal(page.content[..i + 1], baseCurrency, fx)
             == totalCredit + (if transaction.transactionType == CREDIT then convertedAmount else 0.0);
      assert DebitTotal(page.content[..i + 1], baseCurrency, fx)
             == totalDebit + (if transaction.transactionType == CREDIT then 0.0 else convertedAmount);
      if transaction.transactionType == CREDIT {
        totalCredit := totalCredit + convertedAmount;
      } else {
        totalDebit := totalDebit + convertedAmount;
      }
      var transactionDto := TransactionDto(transaction.id, transaction.accountIban, baseCurrency, convertedAmount,
                                           transaction.valueDate, transaction.description, transaction.transactionType);
      transactionDtos := transactionDtos + [transactionDto];
      i := i + 1;
    }
    assert page.content[..i] == page.content;
    response := TransactionPageResponse(transactionDtos, page.number, page.size, page.totalElements, page.totalPages,
                                        baseCurrency, totalCredit, totalDebit);
  }

  /**
   * `getTransactions(customerId, monthKey, pageable)`: query one page of the
   * customer's rows for the month, then assemble the statement from it.
   * `order` is the order in which the query enumerates the matching rows.
   */
  method GetTransactions(rows: map<Uuid, Transaction>, customerId: string, monthKey: Date, pageable: Pageable,
                         order: seq<Uuid>, baseCurrency: string, fx: RateService)
    returns (response: TransactionPageResponse)
    requires pageable.pageSize >= 1
    requires Enumerates(order, MatchingIds(rows, customerId, monthKey))
    ensures var page := FindByCustomerIdAndMonthKey(rows, customerId, monthKey, pageable, order);
            && |response.transactions| == |page.content|
            && (forall i :: 0 <= i < |page.content| ==> response.transactions[i] == ToDto(page.content[i], i, baseCurrency, fx))
            && response.totalCredit == CreditTotal(page.content, baseCurrency, fx)
            && response.totalDebit == DebitTotal(page.content, baseCurrency, fx)
            && response.totalPages == page.totalPages
    ensures response.page == pageable.pageNumber && response.size == pageable.pageSize
    ensures response.totalElements == |MatchingIds(rows, customerId, monthKey)|
    ensures response.currency == baseCurrency
  {
    var transactions := FindByCustomerIdAndMonthKey(rows, customerId, monthKey, pageable, order);
    response := AssembleStatement(transactions, baseCurrency, fx);
  }

  /** The credit and debit totals split the page's converted amounts between them. */
  lemma {:induction false} TotalsPartitionPage(ts: seq<Transaction>, baseCurrency: string, fx: RateService)
    ensures CreditTotal(ts, baseCurrency, fx) + DebitTotal(ts, baseCurrency, fx) == ConvertedTotal(ts, baseCurrency, fx)
  {
    if ts != [] {
      TotalsPartitionPage(ts[..|ts| - 1], baseCurrency, fx);
    }
  }

  /**
   * Totals are scoped to the rows given: the totals over two consecutive
   * pieces of rows are the sums of each piece's totals, the second piece
   * converted by the calls after the first piece's.
   */
  lemma {:induction false} TotalsOfConcatenation(a: seq<Transaction>, b: seq<Transaction>, baseCurrency: string, fx: RateService)
    ensures CreditTotal(a + b, baseCurrency, fx)
            == CreditTotal(a, baseCurrency, fx) + CreditTotal(b, baseCurrency, Shifted(fx, |a|))
    ensures DebitTotal(a + b, baseCurrency, fx)
            == DebitTotal(a, baseCurrency, fx) + DebitTotal(b, baseCurrency, Shifted(fx, |a|))
  {
    if b == [] {
      assert a + b == a;
    } else {
      var b' := b[..|b| - 1];
      var last := b[|b| - 1];
      assert (a + b)[..|a + b| - 1] == a + b';
      assert (a + b)[|a + b| - 1] == last;
      assert ConvertedAmount(last, |b| - 1, baseCurrency, Shifted(fx, |a|))
             == ConvertedAmount(last, |a + b| - 1, baseCurrency, fx);
      TotalsOfConcatenation(a, b', baseCurrency, fx);
    }
  }

  /** A DEBIT row of 100 at a rate of 17000.12 adds exactly 1700012 to the debit total. */
  lemma DebitExample(row: Transaction, baseCurrency: string, fx: RateService)
    requires row.transactionType == DEBIT && row.amount == 100.0
    requires fx(0, row.valueDate, row.currency, baseCurrency) == 17000.12
    ensures DebitTotal([row], baseCurrency, fx) == 1700012.0
    ensures CreditTotal([row], baseCurrency, fx) == 0.0
  {
    assert [row][..0] == [];
  }

  /**
   * Where every call answers the identity rate, the totals are the plain
   * amounts of the CREDIT rows and of the DEBIT rows.
   */
  lemma {:induction false} IdentityRateTotals(ts: seq<Transaction>, baseCurrency: string, fx: RateService)
    requires forall i :: 0 <= i < |ts| ==> fx(i, ts[i].valueDate, ts[i].currency, baseCurrency) == 1.0
    ensures CreditTotal(ts, baseCurrency, fx) == TypedAmountSum(ts, CREDIT)
    ensures DebitTotal(ts, baseCurrency, fx) == TypedAmountSum(ts, DEBIT)
  {
    if ts != [] {
      var prefix := ts[..|ts| - 1];
      assert forall i :: 0 <= i < |prefix| ==> prefix[i] == ts[i];
      IdentityRateTotals(prefix, baseCurrency, fx);
    }
  }

  /**
   * The production rate service: every call is `getFxRate` over what the
   * provider replies to that call, for the call's pair of currencies.
   */
  function ProviderRates(provider: (nat, string, string) -> ProviderReply): RateService {
    (call: nat, date: Date, fromCurrency: string, toCurrency: string) =>
      GetFxRate(date, fromCurrency, toCurrency, provider(call, fromCurrency, toCurrency))
  }

  /**
   * With the production rate service, a row already in the base currency,
   * and any row whose provider call threw, keeps its own amount.
   */
  lemma ProviderFallbackKeepsAmounts(t: Transaction, call: nat, baseCurrency: string,
                                     provider: (nat, string, string) -> ProviderReply)
    requires t.currency == baseCurrency || provider(call, t.currency, baseCurrency) == Threw
    ensures ConvertedAmount(t, call, baseCurrency, ProviderRates(provider)) == t.amount
  {
    var reply := provider(call, t.currency, baseCurrency);
    assert ProviderRates(provider)(call, t.valueDate, t.currency, baseCurrency)
           == GetFxRate(t.valueDate, t.currency, baseCurrency, reply) == 1.0;
  }

  /**
   * The statement agrees with the repository's SUM query: when the page
   * holds every match of the month and every rate answered for a matching
   * row is the identity (for instance all of them are in the base currency),
   * the page totals equal the SUM over CREDIT rows and over DEBIT rows
   * (NULL read as zero).
   */
  lemma StatementTotalsMatchSumQuery(rows: map<Uuid, Transaction>, customerId: string, monthKey: Date,
                                     order: seq<Uuid>, pageSize: nat, baseCurrency: string, fx: RateService)
    requires pageSize >= 1 && pageSize >= |order|
    requires Enumerates(order, MatchingIds(rows, customerId, monthKey))
    requires forall call: nat, k :: k in MatchingIds(rows, customerId, monthKey) ==>
               fx(call, rows[k].valueDate, rows[k].currency, baseCurrency) == 1.0
    ensures var page := FindByCustomerIdAndMonthKey(rows, customerId, monthKey, Pageable(0, pageSize), order);
            && CreditTotal(page.content, baseCurrency, fx)
               == TotalAmountByCustomerIdAndMonthKeyAndTransactionType(rows, customerId, monthKey, CREDIT).GetOr(0.0)
            && DebitTotal(page.content, baseCurrency, fx)
               == TotalAmountByCustomerIdAndMonthKeyAndTransactionType(rows, customerId, monthKey, DEBIT).GetOr(0.0)
  {
    var page := FindByCustomerIdAndMonthKey(rows, customerId, monthKey, Pageable(0, pageSize), order);
    EnumerationStored(rows, customerId, monthKey, order);
    assert Window(order, 0, pageSize) == order;
    assert page.content == RowsOf(rows, order);
    forall i | 0 <= i < |page.content|
      ensures fx(i, page.content[i].valueDate, page.content[i].currency, baseCurrency) == 1.0
    {
      assert order[i] in order;
      assert order[i] in MatchingIds(rows, customerId, monthKey);
      assert page.content[i] == rows[order[i]];
    }
    IdentityRateTotals(page.content, baseCurrency, fx);
    TotalAmountOverEnumeration(rows, customerId, monthKey, order, CREDIT);
    TotalAmountOverEnumeration(rows, customerId, monthKey, order, DEBIT);
  }
}

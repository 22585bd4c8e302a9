/**
 * `TransactionIngestionServiceImpl`: parsing the "<currency> <amount>[-]"
 * string of an inbound event and writing the resulting transaction into
 * the repository, insert-or-replace by the event's id.
 */
module Ingestion {
  import opened Wrappers
  import opened Model
  import opened JavaString
  import opened Decimal
  import opened Repository

  /** The private `Parsed` record: currency, non-negative amount, direction. */
  datatype Parsed = Parsed(currency: string, amount: real, transactionType: TransactionType)

  /**
   * Why parsing throws: no space to split at (`substring` with index -1), or
   * a numeric part that `new BigDecimal` rejects.
   */
  datatype ParseError = NoSpace | MalformedNumber

  /**
   * `parseCurrencyAmount`: split at the first space, remove every '-' from
   * what follows and read it as a decimal; DEBIT exactly when the whole
   * string ends with '-'.
   */
  function ParseCurrencyAmount(s: string): (r: Result<Parsed, ParseError>)
    ensures r == Failure(NoSpace) <==> ' ' !in s
    ensures r.Success? ==> r.value.amount >= 0.0
  {
    match IndexOf(s, ' ')
    case None => Failure(NoSpace)
    case Some(space) =>
      match ParseDecimal(RemoveAll(s[space + 1..], '-'))
      case None => Failure(MalformedNumber)
      case Some(amount) => Success(Parsed(s[..space], amount, if EndsWith(s, '-') then DEBIT else CREDIT))
  }

  /**
   * What a successful parse means: the currency is the space-free prefix
   * before the first space, the amount is the decimal the rest reads as once
   * its dashes are gone, and the direction is DEBIT exactly when the string
   * ends with '-'.
   */
  lemma ParseCurrencyAmountMeaning(s: string)
    ensures var r := ParseCurrencyAmount(s);
            r.Success? ==>
              var c := r.value.currency;
              && |c| < |s| && s[..|c|] == c && s[|c|] == ' ' && ' ' !in c
              && ParseDecimal(RemoveAll(s[|c| + 1..], '-')) == Some(r.value.amount)
              && (r.value.transactionType == DEBIT <==> EndsWith(s, '-'))
  {
  }

  /**
   * With a space-free currency in front, the result depends only on the
   * numeric part: its dash-free form gives the amount, its last character
   * the direction.
   */
  lemma {:induction false} ParseSplit(currency: string, numeric: string)
    requires ' ' !in currency
    ensures ParseDecimal(RemoveAll(numeric, '-')).None? ==>
              ParseCurrencyAmount(currency + " " + numeric) == Failure(MalformedNumber)
    ensures ParseDecimal(RemoveAll(numeric, '-')).Some? ==>
              ParseCurrencyAmount(currency + " " + numeric)
              == Success(Parsed(currency, ParseDecimal(RemoveAll(numeric, '-')).value,
                                if EndsWith(numeric, '-') then DEBIT else CREDIT))
  {
    var s := currency + " " + numeric;
    assert s[|currency|] == ' ';
    assert s[..|currency|] == currency && s[|currency| + 1..] == numeric;
    var space := IndexOf(s, ' ').value;
    assert space == |currency|;
    if numeric == [] {
      assert RemoveAll(numeric, '-') == [];
    } else {
      assert s[|s| - 1] == numeric[|numeric| - 1];
    }
  }

  /**
   * Dashes before the last character only affect the digits: two numeric
   * parts with the same dash-free form and the same last-character sign
   * parse alike.
   */
  lemma {:induction false} InnerDashesIgnored(currency: string, numeric: string, other: string)
    requires ' ' !in currency
    requires RemoveAll(numeric, '-') == RemoveAll(other, '-')
    requires EndsWith(numeric, '-') == EndsWith(other, '-')
    ensures ParseCurrencyAmount(currency + " " + numeric) == ParseCurrencyAmount(currency + " " + other)
  {
    ParseSplit(currency, numeric);
    ParseSplit(currency, other);
  }

  /** The wire format of the amount: "<currency> <numeral>", with a trailing '-' for a debit. */
  function FormatAmount(currency: string, numeral: string, transactionType: TransactionType): string {
    currency + " " + numeral + (if transactionType == DEBIT then "-" else "")
  }

  /** Parsing inverts formatting for a space-free currency and a dash-free numeral. */
  lemma {:induction false} ParseFormatRoundTrip(currency: string, numeral: string, transactionType: TransactionType, value: real)
    requires ' ' !in currency && '-' !in numeral
    requires ParseDecimal(numeral) == Some(value)
    ensures ParseCurrencyAmount(FormatAmount(currency, numeral, transactionType))
            == Success(Parsed(currency, value, transactionType))
  {
    var numeric := numeral + (if transactionType == DEBIT then "-" else "");
    assert FormatAmount(currency, numeral, transactionType) == currency + " " + numeric;
    RemoveAllConcat(numeral, if transactionType == DEBIT then "-" else "", '-');
    RemoveAllAbsent(numeral, '-');
    assert RemoveAll(numeric, '-') == numeral;
    assert numeral != [];
    assert EndsWith(numeric, '-') <==> transactionType == DEBIT;
    ParseSplit(currency, numeric);
  }

  /** After `trim` the currency is never empty. */
  lemma {:induction false} TrimmedCurrencyNonEmpty(raw: string)
    ensures var r := ParseCurrencyAmount(Trim(raw));
            r.Success? ==> r.value.currency != [] && ' ' !in r.value.currency
  {
    var s := Trim(raw);
    TrimMeaning(raw);
    if ParseCurrencyAmount(s).Success? {
      assert s[0] != ' ';
    }
  }

  /** The message of the consumer test, "CHF 100-", is a debit of 100 CHF. */
  lemma ParseExample()
    ensures ParseCurrencyAmount(Trim("CHF 100-")) == Success(Parsed("CHF", 100.0, DEBIT))
  {
    TrimKeeps("CHF 100-");
    ParseWholeNumber("100");
    assert DigitsValue("100") == 100 by {
      assert "100"[..2] == "10" && "10"[..1] == "1" && "1"[..0] == "";
    }
    assert FormatAmount("CHF", "100", DEBIT) == "CHF 100-";
    ParseFormatRoundTrip("CHF", "100", DEBIT, 100.0);
  }

  /** The row ingestion builds: the event's fields, the parsed amount, and no month key. */
  function ToTransaction(event: TransactionEvent, parsed: Parsed): (t: Transaction)
    ensures t.id == event.id && t.customerId == event.customerId && t.accountIban == event.accountIban
    ensures t.valueDate == event.valueDate && t.description == event.description && t.monthKey == None
    ensures Parsed(t.currency, t.amount, t.transactionType) == parsed
  {
    Transaction(event.id, event.customerId, event.accountIban, parsed.currency, parsed.amount,
                event.valueDate, event.description, None, parsed.transactionType)
  }

  /**
   * The effect of `ingestTransaction` on the table: parse the trimmed
   * amount, then insert or replace the row under the event's id; a parse
   * failure leaves the table as it was.
   */
  function Ingest(rows: map<Uuid, Transaction>, event: TransactionEvent): (r: Result<map<Uuid, Transaction>, ParseError>)
    ensures r.Failure? <==> ParseCurrencyAmount(Trim(event.currencyAmount)).Failure?
    ensures r.Failure? ==> r.error == ParseCurrencyAmount(Trim(event.currencyAmount)).error
    ensures r.Success? ==> event.id in r.value && r.value == rows[event.id := r.value[event.id]]
    ensures r.Success? ==>
              var t := r.value[event.id];
              && t.id == event.id && t.customerId == event.customerId && t.accountIban == event.accountIban
              && t.valueDate == event.valueDate && t.description == event.description
              && t.monthKey == None
              && ParseCurrencyAmount(Trim(event.currencyAmount)) == Success(Parsed(t.currency, t.amount, t.transactionType))
  {
    var parsed := ParseCurrencyAmount(Trim(event.currencyAmount));
    if parsed.Failure? then Failure(parsed.error)
    else
      var t := ToTransaction(event, parsed.value);
      assert Parsed(t.currency, t.amount, t.transactionType) == parsed.value;
      Success(rows[event.id := t])
  }

  /** What every stored row satisfies once written by ingestion. */
  predicate StoreInvariant(rows: map<Uuid, Transaction>) {
    KeyedById(rows) && forall k :: k in rows ==> rows[k].amount >= 0.0
  }

  /** Ingestion keeps rows under their own ids and amounts non-negative. */
  lemma IngestPreservesInvariant(rows: map<Uuid, Transaction>, event: TransactionEvent)
    requires StoreInvariant(rows)
    ensures Ingest(rows, event).Success? ==> StoreInvariant(Ingest(rows, event).value)
  {
  }

  /**
   * Redelivery is harmless: ingesting an event again changes nothing, and a
   * new id adds exactly one row while a known id adds none.
   */
  lemma {:induction false} IngestIdempotent(rows: map<Uuid, Transaction>, event: TransactionEvent)
    requires Ingest(rows, event).Success?
    ensures Ingest(Ingest(rows, event).value, event) == Ingest(rows, event)
    ensures |Ingest(rows, event).value| == if event.id in rows then |rows| else |rows| + 1
  {
    var t := ToTransaction(event, ParseCurrencyAmount(Trim(event.currencyAmount)).value);
    UpdateTwice(rows, event.id, t);
  }

  lemma UpdateTwice(rows: map<Uuid, Transaction>, id: Uuid, t: Transaction)
    ensures rows[id := t][id := t] == rows[id := t]
    ensures |rows[id := t]| == if id in rows then |rows| else |rows| + 1
  {
    var after := rows[id := t];
    assert after.Keys == rows.Keys + {id};
    if id in rows {
      assert after.Keys == rows.Keys;
    } else {
      assert |rows.Keys + {id}| == |rows.Keys| + 1;
    }
  }

  /** Two deliveries with one id: the later one decides the outcome and the earlier leaves no trace. */
  lemma {:induction false} IngestLastWriteWins(rows: map<Uuid, Transaction>, first: TransactionEvent, second: TransactionEvent)
    requires first.id == second.id
    requires Ingest(rows, first).Success?
    ensures Ingest(Ingest(rows, first).value, second) == Ingest(rows, second)
  {
    var after := rows[first.id := ToTransaction(first, ParseCurrencyAmount(Trim(first.currencyAmount)).value)];
    assert Ingest(rows, first) == Success(after);
    IngestOverwrite(rows, after, second);
  }

  /** Ingesting into two tables that differ at most under the event's id gives one result. */
  lemma IngestOverwrite(rows: map<Uuid, Transaction>, other: map<Uuid, Transaction>, event: TransactionEvent)
    requires other.Keys == rows.Keys + {event.id}
    requires forall k :: k in rows && k != event.id ==> other[k] == rows[k]
    ensures Ingest(other, event) == Ingest(rows, event)
  {
    var parsed := ParseCurrencyAmount(Trim(event.currencyAmount));
    if parsed.Success? {
      var t := ToTransaction(event, parsed.value);
      UpdateOverwrites(rows, other, event.id, t);
    }
  }

  lemma UpdateOverwrites(rows: map<Uuid, Transaction>, other: map<Uuid, Transaction>, id: Uuid, t: Transaction)
    requires other.Keys == rows.Keys + {id}
    requires forall k :: k in rows && k != id ==> other[k] == rows[k]
    ensures other[id := t] == rows[id := t]
  {
  }

  /**
   * Ingestion never sets the month key, so neither the filter query by
   * customer and month nor the SUM query by customer, month and direction
   * sees an ingested row, not even under the first day of its value date's
   * month.
   */
  lemma IngestedRowNeverListed(rows: map<Uuid, Transaction>, event: TransactionEvent, customerId: string, monthKey: Date)
    requires Ingest(rows, event).Success?
    ensures event.id !in MatchingIds(Ingest(rows, event).value, customerId, monthKey)
    ensures forall transactionType :: event.id !in TypedMatchingIds(Ingest(rows, event).value, customerId, monthKey, transactionType)
    ensures Ingest(rows, event).value[event.id].monthKey != Some(FirstOfMonth(event.valueDate))
  {
  }

  /** The consumer test's event: "CHF 100-" is stored as a 100 CHF debit under the event's id. */
  lemma IngestExample(rows: map<Uuid, Transaction>, event: TransactionEvent)
    requires event.currencyAmount == "CHF 100-"
    ensures Ingest(rows, event).Success?
    ensures var t := Ingest(rows, event).value[event.id];
            t.currency == "CHF" && t.amount == 100.0 && t.transactionType == DEBIT && t.monthKey == None
  {
    ParseExample();
  }

  /** The ingestion service: it writes through the repository it was built with. */
  class TransactionIngestionService {
    const repository: TransactionRepository

    constructor (repository: TransactionRepository)
      ensures this.repository == repository
    {
      this.repository := repository;
    }

    /**
     * `ingestTransaction`: trim and parse the amount, build the row from the
     * event, save it; a parse failure is raised (here: returned) and nothing
     * is saved.
     */
    method IngestTransaction(event: TransactionEvent) returns (outcome: Outcome<ParseError>)
      modifies repository
      ensures match Ingest(old(repository.rows), event)
              case Success(after) => outcome == Pass && repository.rows == after
              case Failure(e) => outcome == Fail(e) && repository.rows == old(repository.rows)
      ensures StoreInvariant(old(repository.rows)) ==> StoreInvariant(repository.rows)
    {
      var parsed := ParseCurrencyAmount(Trim(event.currencyAmount));
      match parsed {
        case Failure(e) =>
          outcome := Fail(e);
        case Success(p) =>
          var transaction := ToTransaction(event, p);
          ghost var before := repository.rows;
          assert Ingest(before, event) == Success(before[event.id := transaction]);
          if StoreInvariant(before) {
            IngestPreservesInvariant(before, event);
          }
          repository.Save(transaction);
          outcome := Pass;
      }
    }
  }
}

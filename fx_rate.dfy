/**
 * `FxRateServiceImpl.getFxRate`: the conversion rate between two currencies,
 * falling back to the identity rate whenever the rate provider cannot supply
 * a quote. The HTTP call to the provider is replaced by its reply, an input.
 */
module FxRate {
  import opened Wrappers
  import opened Model

  /** The provider's JSON body. The terms, privacy, timestamp and source fields are never read. */
  datatype RateResponse = RateResponse(success: bool, quotes: Option<map<string, real>>)

  /** What the blocking provider call yields: a body that may be null, or an exception. */
  datatype ProviderReply = Body(response: Option<RateResponse>) | Threw

  /** The quote under `key`, if the reply carries a non-null body with non-null quotes holding it. */
  function QuoteFor(reply: ProviderReply, key: string): (q: Option<real>)
    ensures q.Some? <==> reply.Body? && reply.response.Some? && reply.response.value.quotes.Some?
                         && key in reply.response.value.quotes.value
    ensures q.Some? ==> q.value == reply.response.value.quotes.value[key]
  {
    match reply
    case Threw => None
    case Body(None) => None
    case Body(Some(response)) =>
      match response.quotes
      case None => None
      case Some(quotes) => if key in quotes then Some(quotes[key]) else None
  }

  /**
   * `getFxRate(date, fromCurrency, toCurrency)`. `reply` is what the
   * provider's live-rate endpoint answers for the pair; the date is not sent.
   */
  function GetFxRate(date: Date, fromCurrency: string, toCurrency: string, reply: ProviderReply): (rate: real)
    ensures fromCurrency == toCurrency ==> rate == 1.0
    ensures fromCurrency != toCurrency && reply == Threw ==> rate == 1.0
    ensures fromCurrency != toCurrency && reply.Body? && reply.response.None? ==> rate == 1.0
    ensures fromCurrency != toCurrency && reply.Body? && reply.response.Some? && reply.response.value.quotes.None? ==> rate == 1.0
    ensures fromCurrency != toCurrency && reply.Body? && reply.response.Some? && reply.response.value.quotes.Some? ==>
              var quotes := reply.response.value.quotes.value;
              rate == if fromCurrency + toCurrency in quotes then quotes[fromCurrency + toCurrency] else 1.0
  {
    if fromCurrency == toCurrency then 1.0
    else QuoteFor(reply, fromCurrency + toCurrency).GetOr(1.0)
  }

  /**
   * The rate is the identity or a quote the provider sent for exactly this
   * pair; neither the date nor the reply's `success` flag changes it.
   */
  lemma {:induction false} RateIsIdentityOrQuote(date: Date, fromCurrency: string, toCurrency: string, reply: ProviderReply)
    ensures var rate := GetFxRate(date, fromCurrency, toCurrency, reply);
            rate == 1.0 || QuoteFor(reply, fromCurrency + toCurrency) == Some(rate)
    ensures forall otherDate: Date :: GetFxRate(otherDate, fromCurrency, toCurrency, reply) == GetFxRate(date, fromCurrency, toCurrency, reply)
    ensures reply.Body? && reply.response.Some? ==>
              var flipped := Body(Some(reply.response.value.(success := !reply.response.value.success)));
              GetFxRate(date, fromCurrency, toCurrency, flipped) == GetFxRate(date, fromCurrency, toCurrency, reply)
  {
  }

  /** For one currency the provider is never consulted: every reply gives the identity. */
  lemma {:induction false} SameCurrencyIgnoresProvider(date: Date, currency: string, reply: ProviderReply, other: ProviderReply)
    ensures GetFxRate(date, currency, currency, reply) == GetFxRate(date, currency, currency, other) == 1.0
  {
  }
}

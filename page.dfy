/** What happens when the page's button is pressed, up to the price-history
    request (stock_info_app.py lines 80-84): resolve the typed name on the
    KOSPI market, keep the picked start date, and move the picked end date
    one day on, because the price provider treats its end date as exclusive. */
module Page {
  import opened Wrappers
  import opened Faults
  import opened Decimal
  import opened Listing
  import opened Resolver
  import opened Calendar

  /** The arguments of the price-history request. */
  datatype PriceRequest = PriceRequest(ticker: string, start: Date, end: Date)

  /** The date picker's value: a tuple of the dates picked so far. */
  predicate ValidPick(picked: seq<Date>) {
    forall i :: 0 <= i < |picked| ==> ValidDate(picked[i])
  }

  /** The button handler up to the price request; the symbol is resolved
      first, so a resolution fault wins over a date fault. */
  function BuildPriceRequest(stockName: string, picked: seq<Date>, fetch: string -> seq<RawRow>): (r: Result<PriceRequest, Fault>)
    requires ValidPick(picked)
    ensures GetTickerSymbol(stockName, Kospi, fetch).Failure? ==> r == Failure(GetTickerSymbol(stockName, Kospi, fetch).error)
    ensures r.Success? ==> |picked| >= 2 && r.value.start == picked[0]
  {
    var ticker :- GetTickerSymbol(stockName, Kospi, fetch);
    if |picked| < 2 then Failure(DateRangeIncomplete)
    else
      var end :- NextDay(picked[1]);
      Success(PriceRequest(ticker, picked[0], end))
  }

  /** A request the page builds asks for a KOSPI symbol, starts at the
      first picked date, and its half-open range holds exactly the dates
      from the first picked date through the second. */
  lemma RequestCoversPickedRange(stockName: string, picked: seq<Date>, fetch: string -> seq<RawRow>, q: PriceRequest)
    requires ValidPick(picked)
    requires BuildPriceRequest(stockName, picked, fetch) == Success(q)
    ensures GetTickerSymbol(stockName, Kospi, fetch) == Success(q.ticker)
    ensures |picked| >= 2 && q.start == picked[0] && picked[1] != LastDate
    ensures |q.ticker| >= CodeWidth + 3 && q.ticker[|q.ticker| - 3..] == ".KS"
    ensures Ordinal(q.end) == Ordinal(picked[1]) + 1
    ensures forall d :: ValidDate(d) ==>
      (AtMost(q.start, d) && Before(d, q.end) <==> AtMost(picked[0], d) && AtMost(d, picked[1]))
  {
    ResolvedSymbolShape(stockName, Kospi, fetch, q.ticker);
    NextDayOrdinal(picked[1]);
    forall d | ValidDate(d)
      ensures AtMost(q.start, d) && Before(d, q.end) <==> AtMost(picked[0], d) && AtMost(d, picked[1])
    {
      HalfOpenMatchesClosed(picked[0], picked[1], d);
    }
  }

  /** Once the symbol is resolved, a pick of fewer than two dates and an
      end date with no successor are the only ways the request fails. */
  lemma RequestDateFaults(stockName: string, picked: seq<Date>, fetch: string -> seq<RawRow>)
    requires ValidPick(picked)
    requires GetTickerSymbol(stockName, Kospi, fetch).Success?
    ensures |picked| < 2 ==> BuildPriceRequest(stockName, picked, fetch) == Failure(DateRangeIncomplete)
    ensures |picked| >= 2 && picked[1] == LastDate ==> BuildPriceRequest(stockName, picked, fetch) == Failure(DateOverflow)
    ensures |picked| >= 2 && picked[1] != LastDate ==> BuildPriceRequest(stockName, picked, fetch).Success?
  {
  }

  /** A company missing from the KOSPI listing stops the page before any
      date is looked at. */
  lemma RequestUnknownCompany(stockName: string, picked: seq<Date>, fetch: string -> seq<RawRow>)
    requires ValidPick(picked)
    requires var table := fetch(ListingUrl(Kospi).value);
      forall j :: 0 <= j < |table| ==> table[j].name != stockName
    ensures BuildPriceRequest(stockName, picked, fetch) == Failure(CompanyNotFound)
  {
    ResolveAbsent(stockName, Kospi, fetch);
  }
}

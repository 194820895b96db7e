/** The KRX corporate-listing query and the normalisation of the listing
    table it returns (get_stock_info in stock_info_app.py). The download
    itself is a parameter: `fetch` is whatever table the page at a URL holds. */
module Listing {
  import opened Wrappers
  import opened Faults
  import opened Decimal

  /** The market_type argument: Python's None, or a string. */
  datatype MarketFlag = NoFlag | Flag(name: string)

  const Kospi: MarketFlag := Flag("kospi")
  const Kosdaq: MarketFlag := Flag("kosdaq")

  const BaseUrl: string := "http://kind.krx.co.kr/corpgeneral/corpList.do"
  const DownloadMethod: string := "download"

  /** Everything in a listing URL before the marketType value. */
  const QueryPrefix: string := BaseUrl + "?method=" + DownloadMethod + "&marketType="

  /** A flag for which a marketType value is assigned. */
  predicate KnownMarket(flag: MarketFlag) {
    flag == NoFlag || flag == Kospi || flag == Kosdaq
  }

  /** The marketType query value selected by a market flag. Any flag other
      than kospi, kosdaq and None leaves the value unassigned. */
  function MarketTypeValue(flag: MarketFlag): (r: Result<string, Fault>)
    ensures r.Success? <==> KnownMarket(flag)
    ensures r.Failure? ==> r.error == MarketTypeUnbound
    ensures r.Success? ==> MarketOfValue(r.value) == Some(flag)
  {
    if flag == Kospi then Success("stockMkt")
    else if flag == Kosdaq then Success("kosdaqMkt")
    else if flag == NoFlag then Success("")
    else Failure(MarketTypeUnbound)
  }

  /** The flag a marketType value selects; the inverse of MarketTypeValue. */
  function MarketOfValue(v: string): Option<MarketFlag> {
    if v == "stockMkt" then Some(Kospi)
    else if v == "kosdaqMkt" then Some(Kosdaq)
    else if v == "" then Some(NoFlag)
    else None
  }

  /** The download URL for a market's listing. */
  function ListingUrl(flag: MarketFlag): (r: Result<string, Fault>)
    ensures r.Success? <==> KnownMarket(flag)
    ensures r.Failure? ==> r.error == MarketTypeUnbound
    ensures r.Success? ==> QueryPrefix <= r.value
  {
    var v :- MarketTypeValue(flag);
    Success(QueryPrefix + v)
  }

  /** Reads the marketType value back out of a listing URL. */
  function QueryMarketType(url: string): Option<string> {
    if QueryPrefix <= url then Some(url[|QueryPrefix|..]) else None
  }

  /** The URL carries exactly the flag's marketType value, and that value
      names the flag again. */
  lemma ListingUrlRoundTrip(flag: MarketFlag)
    requires KnownMarket(flag)
    ensures QueryMarketType(ListingUrl(flag).value) == Some(MarketTypeValue(flag).value)
    ensures MarketOfValue(MarketTypeValue(flag).value) == Some(flag)
  {
    var v := MarketTypeValue(flag).value;
    assert ListingUrl(flag).value == QueryPrefix + v;
    assert (QueryPrefix + v)[|QueryPrefix|..] == v;
  }

  /** Different markets are never asked for with the same URL. */
  lemma ListingUrlInjective(f: MarketFlag, g: MarketFlag)
    requires ListingUrl(f).Success? && ListingUrl(g).Success?
    requires ListingUrl(f).value == ListingUrl(g).value
    ensures f == g
  {
    ListingUrlRoundTrip(f);
    ListingUrlRoundTrip(g);
  }

  /** A row of the downloaded table. The code column is read as an integer
      (so "005930" arrives as 5930); `rest` holds the other columns. */
  datatype RawRow = RawRow(name: string, code: int, rest: seq<string>)

  /** A row of the normalised listing: company name and code text. */
  datatype ListingRow = ListingRow(name: string, code: string)

  /** Rewrites every code as zero-padded text and keeps only the name and
      code columns. Rows keep their number, their order and their names;
      each code text is the row's code padded to at least six characters. */
  function Normalize(table: seq<RawRow>): (rows: seq<ListingRow>)
    ensures |rows| == |table|
    ensures forall i :: 0 <= i < |table| ==> rows[i].name == table[i].name
    ensures forall i :: 0 <= i < |table| ==>
      |rows[i].code| >= CodeWidth && rows[i].code == FormatCode(table[i].code)
  {
    seq(|table|, i requires 0 <= i < |table| => ListingRow(table[i].name, FormatCode(table[i].code)))
  }

  /** Every code text of the normalised listing reads back as the integer
      code of the same row, so normalisation loses no code. */
  lemma NormalizeReadsBack(table: seq<RawRow>)
    ensures forall i :: 0 <= i < |table| ==> ReadInt(Normalize(table)[i].code) == Some(table[i].code)
  {
    forall i | 0 <= i < |table|
      ensures ReadInt(Normalize(table)[i].code) == Some(table[i].code)
    {
      FormatCodeRoundTrip(table[i].code);
    }
  }

  /** Line 35 step by step: every cell of the code column, in row order,
      is replaced by its zero-padded text. */
  method RewriteCodes(table: seq<RawRow>) returns (column: seq<string>)
    ensures |column| == |table|
    ensures forall j :: 0 <= j < |table| ==> column[j] == FormatCode(table[j].code)
  {
    column := [];
    var i := 0;
    while i < |table|
      invariant 0 <= i <= |table| && |column| == i
      invariant forall j :: 0 <= j < i ==> column[j] == FormatCode(table[j].code)
    {
      column := column + [FormatCode(table[i].code)];
      i := i + 1;
    }
  }

  /** Lines 35-38 step by step: the code column is rewritten, then the
      table is cut down to its name and code columns. The result is the
      normalised listing. */
  method NormalizeListing(table: seq<RawRow>) returns (rows: seq<ListingRow>)
    ensures rows == Normalize(table)
  {
    var column := RewriteCodes(table);
    rows := [];
    var k := 0;
    while k < |table|
      invariant 0 <= k <= |table| && |rows| == k
      invariant forall j :: 0 <= j < k ==> rows[j] == ListingRow(table[j].name, column[j])
    {
      rows := rows + [ListingRow(table[k].name, column[k])];
      k := k + 1;
    }
    assert forall j :: 0 <= j < |table| ==> rows[j] == Normalize(table)[j];
  }

  /** When every code lies in 0 .. 999999 every code text is six digits. */
  lemma NormalizeSixDigits(table: seq<RawRow>)
    requires forall i :: 0 <= i < |table| ==> 0 <= table[i].code < 1000000
    ensures forall i :: 0 <= i < |table| ==>
      |Normalize(table)[i].code| == CodeWidth && AllDigits(Normalize(table)[i].code)
  {
    forall i | 0 <= i < |table|
      ensures |Normalize(table)[i].code| == CodeWidth && AllDigits(Normalize(table)[i].code)
    {
      SixDigitCode(table[i].code);
    }
  }

  /** get_stock_info: build the URL, download the table, normalise it. */
  function GetStockInfo(flag: MarketFlag, fetch: string -> seq<RawRow>): (r: Result<seq<ListingRow>, Fault>)
    ensures r.Success? <==> KnownMarket(flag)
    ensures r.Failure? ==> r.error == MarketTypeUnbound
    ensures r.Success? ==> r.value == Normalize(fetch(ListingUrl(flag).value))
  {
    var url :- ListingUrl(flag);
    Success(Normalize(fetch(url)))
  }
}

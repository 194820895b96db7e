/** Company name to ticker symbol (get_ticker_symbol in stock_info_app.py):
    filter the listing on the exact name, take the first code, append the
    market's suffix. */
module Resolver {
  import opened Wrappers
  import opened Faults
  import opened Decimal
  import opened Listing

  /** The codes of the rows whose company name equals `name` exactly, in
      table order: the code column of the filtered listing. */
  function Matches(rows: seq<ListingRow>, name: string): (codes: seq<string>)
    ensures |codes| <= |rows|
  {
    if rows == [] then []
    else (if rows[0].name == name then [rows[0].code] else []) + Matches(rows[1..], name)
  }

  /** Row i is the first row of the table whose name equals `name`. */
  predicate IsFirstMatch(rows: seq<ListingRow>, name: string, i: int) {
    0 <= i < |rows| && rows[i].name == name && forall j :: 0 <= j < i ==> rows[j].name != name
  }

  /** Reference search: the index of the first row named `name`, or |rows|. */
  function FirstIndex(rows: seq<ListingRow>, name: string): (k: nat)
    ensures k <= |rows|
    ensures k < |rows| ==> IsFirstMatch(rows, name, k)
    ensures k == |rows| ==> forall j :: 0 <= j < |rows| ==> rows[j].name != name
  {
    if rows == [] then 0
    else if rows[0].name == name then 0
    else 1 + FirstIndex(rows[1..], name)
  }

  /** The filtered code column is empty exactly when no row has the name,
      and otherwise it starts with the code of the first such row. */
  lemma {:induction false} MatchesHead(rows: seq<ListingRow>, name: string)
    ensures Matches(rows, name) == [] <==> FirstIndex(rows, name) == |rows|
    ensures FirstIndex(rows, name) < |rows| ==>
      Matches(rows, name)[0] == rows[FirstIndex(rows, name)].code
  {
    if rows != [] && rows[0].name != name {
      MatchesHead(rows[1..], name);
    }
  }

  /** The suffix that makes a code a ticker symbol of the market's exchange. */
  function TickerSuffix(flag: MarketFlag): (r: Result<string, Fault>)
    ensures r.Success? <==> flag == Kospi || flag == Kosdaq
    ensures r.Failure? ==> r.error == TickerSymbolUnbound
    ensures flag == Kospi ==> r == Success(".KS")
    ensures flag == Kosdaq ==> r == Success(".KQ")
    ensures r.Success? ==> |r.value| == 3 && r.value[..2] == ".K"
  {
    if flag == Kospi then Success(".KS")
    else if flag == Kosdaq then Success(".KQ")
    else Failure(TickerSymbolUnbound)
  }

  /** Lines 46-54 over an already normalised listing: failing at code[0]
      comes before failing for want of a suffix. */
  function LookupTicker(rows: seq<ListingRow>, name: string, flag: MarketFlag): (r: Result<string, Fault>)
    ensures Matches(rows, name) == [] ==> r == Failure(CompanyNotFound)
    ensures Matches(rows, name) != [] && TickerSuffix(flag).Failure? ==> r == Failure(TickerSymbolUnbound)
    ensures r.Success? ==> Matches(rows, name) != [] && r.value == Matches(rows, name)[0] + TickerSuffix(flag).value
  {
    var codes := Matches(rows, name);
    if |codes| == 0 then Failure(CompanyNotFound)
    else
      var suffix :- TickerSuffix(flag);
      Success(codes[0] + suffix)
  }

  /** get_ticker_symbol: download and normalise the listing, then look up. */
  function GetTickerSymbol(name: string, flag: MarketFlag, fetch: string -> seq<RawRow>): (r: Result<string, Fault>)
    ensures !KnownMarket(flag) ==> r == Failure(MarketTypeUnbound)
    ensures KnownMarket(flag) ==> r == LookupTicker(Normalize(fetch(ListingUrl(flag).value)), name, flag)
  {
    var rows :- GetStockInfo(flag, fetch);
    LookupTicker(rows, name, flag)
  }

  /** Two first matches are the same row. */
  lemma FirstMatchUnique(rows: seq<ListingRow>, name: string, i: int, k: int)
    requires IsFirstMatch(rows, name, i) && IsFirstMatch(rows, name, k)
    ensures i == k
  {
  }

  /** A symbol found by lookup is the first matching row's code with the suffix. */
  lemma LookupValue(rows: seq<ListingRow>, name: string, flag: MarketFlag, s: string)
    requires LookupTicker(rows, name, flag) == Success(s)
    ensures flag == Kospi || flag == Kosdaq
    ensures FirstIndex(rows, name) < |rows|
    ensures s == rows[FirstIndex(rows, name)].code + TickerSuffix(flag).value
  {
    MatchesHead(rows, name);
  }

  /** Lookup succeeds exactly when the market has a suffix and some row has
      the name, and then yields the first such row's code with the suffix. */
  lemma LookupSucceeds(rows: seq<ListingRow>, name: string, flag: MarketFlag, s: string)
    ensures LookupTicker(rows, name, flag) == Success(s) <==>
      (flag == Kospi || flag == Kosdaq) &&
      exists i :: IsFirstMatch(rows, name, i) && s == rows[i].code + TickerSuffix(flag).value
  {
    MatchesHead(rows, name);
    var k := FirstIndex(rows, name);
    if exists i :: IsFirstMatch(rows, name, i) {
      var i :| IsFirstMatch(rows, name, i);
      FirstMatchUnique(rows, name, i, k);
    }
  }

  /** The first row named `name` decides the symbol, whatever comes later. */
  lemma LookupFirstMatch(rows: seq<ListingRow>, name: string, flag: MarketFlag, i: int)
    requires flag == Kospi || flag == Kosdaq
    requires IsFirstMatch(rows, name, i)
    ensures LookupTicker(rows, name, flag) == Success(rows[i].code + TickerSuffix(flag).value)
  {
    LookupSucceeds(rows, name, flag, rows[i].code + TickerSuffix(flag).value);
  }

  /** A name that no row carries is never resolved, whatever the flag. */
  lemma LookupAbsent(rows: seq<ListingRow>, name: string, flag: MarketFlag)
    requires forall j :: 0 <= j < |rows| ==> rows[j].name != name
    ensures LookupTicker(rows, name, flag) == Failure(CompanyNotFound)
  {
    MatchesHead(rows, name);
  }

  /** A flag without a suffix never yields a symbol, even when the name is found. */
  lemma LookupWithoutSuffix(rows: seq<ListingRow>, name: string, flag: MarketFlag)
    requires flag != Kospi && flag != Kosdaq
    requires exists j :: 0 <= j < |rows| && rows[j].name == name
    ensures LookupTicker(rows, name, flag) == Failure(TickerSymbolUnbound)
  {
    MatchesHead(rows, name);
  }

  /** Resolution in the KRX table as downloaded: the symbol of a found
      company is its first row's code, zero-padded, with the suffix. */
  lemma ResolvesFirstListedRow(name: string, flag: MarketFlag, fetch: string -> seq<RawRow>, i: int)
    requires flag == Kospi || flag == Kosdaq
    requires var table := fetch(ListingUrl(flag).value);
      0 <= i < |table| && table[i].name == name &&
      forall j :: 0 <= j < i ==> table[j].name != name
    ensures GetTickerSymbol(name, flag, fetch) ==
      Success(FormatCode(fetch(ListingUrl(flag).value)[i].code) + TickerSuffix(flag).value)
  {
    var rows := Normalize(fetch(ListingUrl(flag).value));
    assert IsFirstMatch(rows, name, i);
    LookupFirstMatch(rows, name, flag, i);
  }

  /** A company absent from the downloaded table is never resolved. */
  lemma ResolveAbsent(name: string, flag: MarketFlag, fetch: string -> seq<RawRow>)
    requires KnownMarket(flag)
    requires var table := fetch(ListingUrl(flag).value);
      forall j :: 0 <= j < |table| ==> table[j].name != name
    ensures GetTickerSymbol(name, flag, fetch) == Failure(CompanyNotFound)
  {
    LookupAbsent(Normalize(fetch(ListingUrl(flag).value)), name, flag);
  }

  /** Neither None nor an unknown market flag ever yields a symbol. */
  lemma ResolveNeedsExchange(name: string, flag: MarketFlag, fetch: string -> seq<RawRow>)
    requires flag != Kospi && flag != Kosdaq
    ensures GetTickerSymbol(name, flag, fetch).Failure?
  {
    if flag == NoFlag {
      var rows := Normalize(fetch(ListingUrl(flag).value));
      if |Matches(rows, name)| != 0 {
        assert TickerSuffix(flag).Failure?;
      }
    }
  }

  /** Every symbol ends in the flag's suffix, and the text before it reads
      back as the integer code of the first row with the company's name. */
  lemma ResolvedSymbolShape(name: string, flag: MarketFlag, fetch: string -> seq<RawRow>, s: string)
    requires GetTickerSymbol(name, flag, fetch) == Success(s)
    ensures flag == Kospi || flag == Kosdaq
    ensures var table := fetch(ListingUrl(flag).value);
      var k := FirstIndex(Normalize(table), name);
      k < |table| && table[k].name == name &&
      s == FormatCode(table[k].code) + TickerSuffix(flag).value &&
      ReadInt(s[..|s| - 3]) == Some(table[k].code)
    ensures |s| >= CodeWidth + 3 && s[|s| - 3..] == TickerSuffix(flag).value
  {
    var table := fetch(ListingUrl(flag).value);
    var rows := Normalize(table);
    LookupValue(rows, name, flag, s);
    var k := FirstIndex(rows, name);
    var code := rows[k].code;
    assert s == code + TickerSuffix(flag).value;
    assert s[..|s| - 3] == code;
    FormatCodeRoundTrip(table[k].code);
  }

  /** Listed codes that differ give different symbols on the same exchange. */
  lemma SymbolsDistinguishCodes(x: int, y: int, flag: MarketFlag)
    requires flag == Kospi || flag == Kosdaq
    requires FormatCode(x) + TickerSuffix(flag).value == FormatCode(y) + TickerSuffix(flag).value
    ensures x == y
  {
    var sx, sy := FormatCode(x) + TickerSuffix(flag).value, FormatCode(y) + TickerSuffix(flag).value;
    assert sx[..|sx| - 3] == FormatCode(x);
    assert sy[..|sy| - 3] == FormatCode(y);
    FormatCodeInjective(x, y);
  }
}

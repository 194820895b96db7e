# Korean stock ticker resolution and price-range request, modelled in Dafny

The program is a one-page web app. A user types a company name and picks a
date range. The app looks the name up in the Korea Exchange (KRX) listing of
companies, turns the company's listing code into a Yahoo-style ticker symbol,
and asks a price-history service for that symbol's daily prices over the
range. This project models the part of that flow that is logic rather than
wiring:

- `Listing`: the KRX download URL for a market flag (`kospi`, `kosdaq` or
  Python's `None`), and the normalisation of the downloaded table. Each
  integer code becomes text zero-padded to six characters by `f"{x:06d}"`, and
  only the name and code columns are kept. `NormalizeListing` does this the
  way the code does, a column rewrite and then a projection, and is proved
  equal to the function `Normalize`.
- `Decimal`: Python's decimal rendering of integers under the format
  specification `06d`, negative numbers included, and a reference reader
  that turns such text back into the number.
- `Resolver`: exact, case-sensitive name lookup in the normalised listing.
  The first matching row wins, and its code gets the suffix `.KS` (KOSPI) or
  `.KQ` (KOSDAQ).
- `Calendar`: proleptic Gregorian dates in Python's `datetime.date` range
  (years 1 to 9999), the one-day step `date + timedelta(days=1)`, and Python's
  day number `toordinal()` as an independent account of it.
- `Page`: the button handler up to the price request. It resolves the name on
  KOSPI, keeps the picked start date, and moves the picked end date one day
  on, because the provider's end date is exclusive.
- `Wrappers`, `Faults`: a `Result` type (`Success`/`Failure`), and one fault
  per exception the modelled steps raise and do not catch.

The network download of the listing is a parameter, `fetch: string ->
seq<RawRow>`, standing for whatever table the page at a URL holds. The
faults appear in the order Python meets them:
1. an unknown market flag fails while the URL is built, before anything is
   downloaded;
2. a missing company fails at `code[0]`;
3. a flag with no suffix (`None`) fails only after a match was found;
4. the dates are looked at only after the symbol is resolved.

The code accepts more than the two exchanges it has suffixes for. With
`None` it downloads the listing of every market and then fails for want of a
suffix (`ResolveNeedsExchange`). A company that is not listed is reported by
no message of its own: the code raises `IndexError`, which is
`CompanyNotFound` here. When several rows carry the same name, the first
one silently wins (`LookupFirstMatch`).

## Model

| member | source | states |
|---|---|---|
| `Listing.MarketTypeValue` | stock_info_app.py:24-29 | kospi, kosdaq and None are exactly the flags that get a marketType value, and the value names its flag again; any other flag fails with `MarketTypeUnbound` |
| `Listing.ListingUrl` | stock_info_app.py:22-30 | the URL exists exactly for the three known flags and always begins with the KRX base URL and `?method=download&marketType=`; other flags fail with `MarketTypeUnbound` |
| `Listing.ListingUrlRoundTrip` | stock_info_app.py:22-30 | the marketType value read back out of the URL is the flag's value (`stockMkt`, `kosdaqMkt`, empty), and it names the flag |
| `Listing.ListingUrlInjective` | stock_info_app.py:24-30 | two different market flags never produce the same URL |
| `Decimal.Digits` | stock_info_app.py:35 | the decimal text of a non-negative code is a non-empty string of digits that starts with '0' only for zero |
| `Decimal.FormatCode` | stock_info_app.py:35 | the text of every code is at least six characters wide |
| `Decimal.FormatCodeShape` | stock_info_app.py:35 | `06d` only puts '0' characters in front of the digits, after the sign for a negative number; the length is max(6, digits) (max(6, 1 + digits) when negative), so wider codes are not truncated |
| `Decimal.FormatCodeRoundTrip` | stock_info_app.py:35 | reading the formatted text back gives the original integer, for every integer |
| `Decimal.FormatCodeInjective` | stock_info_app.py:35 | two codes that format to the same text are equal |
| `Decimal.SixDigitCode` | stock_info_app.py:35 | for a non-negative code x, the text is exactly six characters if and only if x < 1000000, and then it is all digits and its value is x |
| `Decimal.DigitsFit` | stock_info_app.py:35 | a number has at most k digits exactly when it is below 10^k |
| `Listing.Normalize` | stock_info_app.py:35-38 | the table keeps its row count and row order; row i keeps its name and its code text is row i's code padded to at least six characters; only name and code remain |
| `Listing.NormalizeReadsBack` | stock_info_app.py:35 | every code text of the normalised table reads back as the integer code of the same row |
| `Listing.RewriteCodes` | stock_info_app.py:35 | the rewritten code column has one cell per row, in row order, each the `06d` text of that row's code |
| `Listing.NormalizeListing` | stock_info_app.py:35-38 | rewriting the code column and then keeping the name and code columns yields exactly the normalised listing |
| `Listing.NormalizeSixDigits` | stock_info_app.py:35 | when every code is in 0 .. 999999, every normalised code is six digits |
| `Listing.GetStockInfo` | stock_info_app.py:20-40 | the listing is produced exactly for the known flags, as the normalised table downloaded from the flag's URL |
| `Resolver.Matches` | stock_info_app.py:46 | the filtered code column is no longer than the table |
| `Resolver.FirstIndex` | stock_info_app.py:46-47 | reference search: it gives the first row with the name, or the table length when no row has it |
| `Resolver.MatchesHead` | stock_info_app.py:46-47 | the filtered column is empty exactly when no row has the name; otherwise its first entry is the code of the first such row |
| `Resolver.TickerSuffix` | stock_info_app.py:49-52 | kospi gets `.KS` and kosdaq gets `.KQ`; only these two flags have a suffix; any other flag fails with `TickerSymbolUnbound` |
| `Resolver.LookupTicker` | stock_info_app.py:46-54 | lines 46-54 over a normalised listing: an empty filtered column gives `CompanyNotFound`, a found name under a flag without a suffix gives `TickerSymbolUnbound`, and a symbol is the filtered column's first code plus the flag's suffix; the reference characterisations are `LookupSucceeds`, `LookupAbsent` and `LookupWithoutSuffix` |
| `Resolver.LookupValue` | stock_info_app.py:46-54 | a symbol from lookup means the flag is kospi or kosdaq, some row has the name, and the symbol is the first such row's code plus the suffix |
| `Resolver.LookupSucceeds` | stock_info_app.py:46-54 | lookup yields s if and only if the flag has a suffix and s is the first matching row's code plus that suffix |
| `Resolver.LookupFirstMatch` | stock_info_app.py:46-52 | the first row with the name decides the symbol, whatever rows with the same name follow |
| `Resolver.LookupAbsent` | stock_info_app.py:46-47 | a name that no row carries fails with `CompanyNotFound` under every flag |
| `Resolver.LookupWithoutSuffix` | stock_info_app.py:49-54 | a found name under a flag without a suffix fails with `TickerSymbolUnbound` |
| `Resolver.GetTickerSymbol` | stock_info_app.py:44-54 | an unknown flag fails with `MarketTypeUnbound` whatever the listing; otherwise the result is the lookup in the normalised listing downloaded from the flag's URL |
| `Resolver.ResolvesFirstListedRow` | stock_info_app.py:44-54 | when row i of the downloaded table is the first with the name, the symbol is row i's code zero-padded to six plus `.KS` or `.KQ` |
| `Resolver.ResolveAbsent` | stock_info_app.py:44-47 | a name absent from the downloaded table never yields a symbol: `CompanyNotFound` |
| `Resolver.ResolveNeedsExchange` | stock_info_app.py:44-54 | None or any flag other than kospi and kosdaq never yields a symbol |
| `Resolver.ResolvedSymbolShape` | stock_info_app.py:44-54 | every symbol comes from kospi or kosdaq. It is the first matching row's padded code plus the suffix, at least nine characters long. With the suffix removed it reads back as that row's integer code |
| `Resolver.SymbolsDistinguishCodes` | stock_info_app.py:35-52 | on one exchange, different integer codes give different symbols |
| `Calendar.NextDay` | stock_info_app.py:84 | the next day exists for every date except 9999-12-31 (`DateOverflow`); it is a valid date and comes after the given one |
| `Calendar.NextDayIsSuccessor` | stock_info_app.py:84 | no valid date lies strictly between a date and its next day |
| `Calendar.NextDayOrdinal` | stock_info_app.py:84 | the next day's day number is one more, the way Python adds `timedelta(days=1)` |
| `Calendar.OrdinalOrder` | stock_info_app.py:84 | date order is the order of day numbers, and equal day numbers mean equal dates |
| `Calendar.MonthsApart` | stock_info_app.py:84 | inside a year, every day of an earlier month has a smaller day-of-year than a later month's first day |
| `Calendar.YearsApart` | stock_info_app.py:84 | every day of an earlier year has a smaller day number than a later year's first day |
| `Calendar.HalfOpenMatchesClosed` | stock_info_app.py:83-86 | start <= d < next day of end holds exactly when start <= d <= end |
| `Page.BuildPriceRequest` | stock_info_app.py:80-84 | the button handler up to the price request: a request keeps the first picked date as its start, and a company the KOSPI lookup does not resolve stops it with the lookup's fault; the range and fault properties are `RequestCoversPickedRange`, `RequestDateFaults` and `RequestUnknownCompany` |
| `Page.RequestCoversPickedRange` | stock_info_app.py:80-84 | a built request's symbol is the one resolved for the typed name on KOSPI, so it ends in `.KS`; the request starts at the first picked date; its end is one day number after the second; its half-open range holds exactly the picked dates, both ends included |
| `Page.RequestDateFaults` | stock_info_app.py:83-84 | once the symbol is resolved, fewer than two picked dates fail with `DateRangeIncomplete`, a last date of 9999-12-31 fails with `DateOverflow`, and every other pick succeeds |
| `Page.RequestUnknownCompany` | stock_info_app.py:80 | a name absent from the KOSPI listing fails with `CompanyNotFound` whatever dates were picked |

## Left out

- The listing download and HTML table parsing (`pd.read_html`, line 32) are network I/O through a foreign parser. They are the `fetch` parameter. The model assumes the code column arrives as integers; a code cell that is text or a missing value would make `06d` raise, and that case is not modelled.
- The price-history call (`yf.Ticker(...).history`, lines 81 and 86) is a third-party network service returning floating-point prices. The model stops at the request's arguments (`PriceRequest`).
- The Streamlit page is UI only: title, style sheet, sidebar inputs, button, data preview, download buttons (lines 57-78, 89-90, 108, 116-120). The button press is the call of `BuildPriceRequest`.
- The chart and font set-up (lines 11-15, 94-105) are rendering and platform detection.
- CSV and spreadsheet export (lines 110-114) are pandas and openpyxl formats over float data. No export round trip is modelled.
- The pandas row index of the listing is not modelled; only the name and code columns are.
- The rewrite of the code column at line 35 assigns a new column to the DataFrame. The model builds that column as a new sequence (`RewriteCodes`), so DataFrame aliasing is not modelled.
- Page.RequestCoversPickedRange: it requires the picked dates to be valid (`ValidPick`). Python `date` objects cannot be invalid, so this only restates the type.
- Codes are unbounded integers. The pandas int64 column cannot overflow in formatting, so no width is modelled.

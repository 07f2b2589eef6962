# A verified model of the irbank stock scraper

The scraper (`app.js`) reads a list of ticker codes from `symbols.json`,
fetches each code's page from irbank.net one after another, builds a record
(code, company name, closing price, dividend yield, PBR) from the texts on the
page, and writes the records to a CSV file named after the current date.
Afterwards it rewrites the file with a byte-order mark in front.

This project models the logic of that pipeline in Dafny and proves what it
promises:

- `js_string.dfy` (module `JsString`) holds the JavaScript string operations
  the code relies on. `trim()` uses ECMAScript's full whitespace set.
  `replace(pattern, "")` with a string pattern removes only the first
  occurrence, and `indexOf` finds that occurrence. The module also has
  `padStart` and `String(n)` for integers.
- `stock_fetcher.dfy` (module `StockFetcher`) covers `getStockData`. The
  company name is cleaned from the heading, the record is built, and a failed
  request gives no record.
- `csv_writer.dfy` (module `CsvWriter`) covers `writeCsv`. It holds the dated
  file name, the fixed header and the order of cells in a row, and the BOM
  rewrite.
- `pipeline.dfy` (module `Pipeline`) covers `loadSymbolsFromJson` and `main`.
  The fetch loop is a method with loop invariants. It is proved against
  `Collected`, a filter that keeps order.
- `wrappers.dfy` (module `Wrappers`) holds `Option` and `Result`.

The things outside the program are passed in as parameters:

- what each HTTP request returned (`responses`, one entry per request, `None`
  when the request or the HTML parse threw);
- the local date (`LocalDate`);
- the text csv-writer produces for a table (`render`).

## Model

| member | source | states |
|---|---|---|
| `JsString.TrimStart` | app.js:17 | trimming the start leaves a suffix of the input; everything removed is whitespace; the result does not start with whitespace |
| `JsString.TrimEnd` | app.js:17 | trimming the end leaves a prefix of the input; everything removed is whitespace; the result does not end with whitespace |
| `JsString.Trim` | app.js:17 | `trim()` returns a contiguous piece of the input with only whitespace cut off on either side, and the result has no whitespace at either end |
| `JsString.TrimOfPadded` | app.js:17 | the converse: a trimmed string with any whitespace added before and after trims back to itself, so `Trim` is determined by its contract |
| `JsString.TrimTrimmed` | app.js:17 | a string with no whitespace at its ends is left unchanged by `trim()` |
| `JsString.TrimIdempotent` | app.js:17 | trimming twice gives the same as trimming once |
| `JsString.TrimEmptyIff` | app.js:17 | `trim()` gives the empty string exactly when the input is all whitespace (both directions) |
| `JsString.IndexOf` | app.js:15-16 | `indexOf` gives the least index where the pattern occurs, or none when it occurs nowhere; the empty pattern is found at 0 |
| `JsString.IndexOfFirst` | app.js:15-16 | the converse: an occurrence with no earlier occurrence is what `indexOf` returns |
| `JsString.RemoveFirst` | app.js:15-16 | `replace(pat, "")` leaves the string unchanged when the pattern is absent; otherwise it cuts out exactly the first occurrence, shortening the string by the pattern's length |
| `JsString.RemoveFirstReinsert` | app.js:15-16 | putting the pattern back at the index where it was found restores the original string |
| `JsString.RemoveEmpty` | app.js:15 | an empty pattern removes nothing |
| `JsString.PadStart` | app.js:38-39 | `padStart(width, fill)` keeps the string at the end and fills on the left up to the width; a string already that long is unchanged |
| `JsString.NatToString` | app.js:37-40 | the decimal form of a natural number is all digits, at least one, with no leading zero |
| `JsString.IntToString` | app.js:37 | `String(n)` is all digits exactly when `n` is not negative |
| `JsString.ParseNatToString` | app.js:37-40 | reading the decimal form back gives the number again |
| `JsString.ParseLeadingZero` | app.js:38-39 | a leading zero, as `padStart` adds, does not change what the digits denote |
| `JsString.NatToStringLength` | app.js:37-40 | numbers with 1, 2, 3 or 4 digits get decimal forms of exactly that length |
| `StockFetcher.CompanyName` | app.js:13-17 | after cutting out the first occurrence of the symbol and then of "株式情報資料" and trimming, the name has no whitespace at either end and is no longer than the heading |
| `StockFetcher.CompanyNameWithoutPatterns` | app.js:13-17 | when the heading contains neither the symbol nor the suffix, the name is just the trimmed heading |
| `StockFetcher.CompanyNameStable` | app.js:17 | trimming the company name again changes nothing |
| `StockFetcher.CompanyNameEmptySymbol` | app.js:15 | an empty symbol removes nothing, so only the suffix is cut out |
| `StockFetcher.CompanyNameExample` | app.js:13-17 | symbol "1234" with heading "1234 Example Co. 株式情報資料" gives the name "Example Co." |
| `StockFetcher.CompanyNameKeepsLaterSymbol` | app.js:15 | only the first occurrence of the symbol is removed: "1234 Example 1234" gives "Example 1234" |
| `StockFetcher.MakeRecord` | app.js:22-28 | the record carries the symbol it was fetched with and the cleaned company name; price, dividend yield and PBR are the trimmed closing-price, dividend-yield and PBR texts of the page, in those fields; all four text fields have no whitespace at their ends |
| `StockFetcher.GetStockData` | app.js:7-33 | a record comes back exactly when the request succeeded; a failure gives no record, not a partial one; a returned record carries the requested symbol and is the record built from that page |
| `CsvWriter.TwoDigits` | app.js:38-39 | `String(n).padStart(2, "0")` is at least two characters long |
| `CsvWriter.TwoDigitsOfSmall` | app.js:38-39 | for 0 to 99 the result is exactly two digits that read back as the number; 1 to 9 get a leading "0" |
| `CsvWriter.FileName` | app.js:36-40 | the file name ends in ".csv" and has at least nine characters (one or more for the year, two each for month and day, four for ".csv") |
| `CsvWriter.FileNameLength` | app.js:40 | for a valid date with a four-digit year the name is exactly 12 characters |
| `CsvWriter.FileNameDecodes` | app.js:37-40 | for a four-digit year the name reads back as year, one-based month (`getMonth() + 1`), day, then ".csv" |
| `CsvWriter.FileNameInjective` | app.js:36-40 | two runs write the same file exactly when they run on the same date (four-digit years) |
| `CsvWriter.Row` | app.js:43-49 | a row has one cell per header column, and cell `k` is the record field named by the `k`-th header id: symbol, companyName, price, dividendYield, pbr |
| `CsvWriter.WriteCsv` | app.js:41-53 | the written table is at the dated path and has the fixed header titles whatever the data, then one row per record in order, each starting with the record's symbol |
| `CsvWriter.WithBom` | app.js:56-57 | the rewritten file starts with U+FEFF, and the rest is the earlier content unchanged |
| `Pipeline.LoadSymbolsAsWritten` | app.js:61-71 | a failed read or parse gives the empty list; a parsed document gives its `symbols` property, which may be missing |
| `Pipeline.SymbolCountAsWritten` | app.js:76 | `symbols.length` succeeds exactly when there is a list, and then it is the list's length |
| `Pipeline.MissingSymbolsFieldCrashes` | app.js:66-76 | a document without `symbols` makes `main` throw before any fetch |
| `Pipeline.LoadSymbols` | app.js:61-71 | agrees with the source wherever the source yields a list, and gives the empty list for every unusable configuration |
| `Pipeline.Somes` | app.js:81-83 | keeping the non-null results keeps as many values as there are non-null entries |
| `Pipeline.SomeIndices` | app.js:78-83 | the positions of the successful results, in increasing order, every one of them and no others |
| `Pipeline.SomesAt` | app.js:78-83 | the `k`-th kept value is the value at the `k`-th successful position |
| `Pipeline.SomesAppend` | app.js:78-83 | filtering two lists one after the other is filtering each in turn |
| `Pipeline.SomesStep` | app.js:81-83 | one more iteration appends the new value when it is non-null, and nothing otherwise |
| `Pipeline.SomesAll` | app.js:78-83 | with no failure, every value is kept in the same positions |
| `Pipeline.SomesNone` | app.js:78-83 | with only failures, nothing is kept |
| `Pipeline.Outcomes` | app.js:79-80 | there is one `getStockData` result per symbol; it is present exactly when that request succeeded and it carries that symbol |
| `Pipeline.Collected` | app.js:75-83 | `stockData` after the loop has as many records as there were successful requests, never more than there are symbols |
| `Pipeline.CollectedAt` | app.js:78-83 | `stockData` is exactly the records built from the successful requests, in symbol order: record `k` comes from the `k`-th success, and every success contributes |
| `Pipeline.SomesSymbolsSubsequence` | app.js:79-82 | when each result carries its position's symbol, the kept results' symbols form a subsequence of the symbols |
| `Pipeline.CollectedIsSubsequence` | app.js:79-83 | the symbols of `stockData` are a subsequence of the symbol list |
| `Pipeline.CollectedAppend` | app.js:78-86 | collecting over two lists in a row is collecting over each, so a failed symbol does not change what later symbols contribute |
| `Pipeline.OutcomesAppend` | app.js:78-80 | the results for two lists in a row are the results for each list, joined |
| `Pipeline.CollectedAllFetched` | app.js:78-83 | when every request succeeds, `stockData` has one record per symbol, in list order |
| `Pipeline.CollectedNoneFetched` | app.js:78-83 | when every request fails, `stockData` is empty |
| `Pipeline.CollectStockData` | app.js:75-86 | the loop leaves `stockData` equal to `Collected`: as many records as successful requests, at most one per list entry, with symbols a subsequence of the list |
| `Pipeline.RunMain` | app.js:73-88 | with the corrected loader `LoadSymbols`, a run writes the file at the dated path with the fixed header and one row per successful fetch; an empty list gives no data rows; the final content is U+FEFF followed by csv-writer's text |
| `Pipeline.UnusableConfigWritesHeaderOnly` | app.js:61-71 | an unusable configuration gives an empty list, and the run still writes the dated file with only the header |

## Findings

| source | as written | input that shows it | evidently intended | confidence | as-written member | corrected member |
|---|---|---|---|---|---|---|
| app.js:66, app.js:76 | `loadSymbolsFromJson` catches read and parse errors and returns `[]`. A document that parses but has no `symbols` property makes it return `undefined`, and `symbols.length` in `main` then throws a TypeError that nothing catches. No CSV file is written. | `symbols.json` containing `{}` | an unusable configuration gives the empty list, and the run writes a header-only file | medium; not executed | `Pipeline.MissingSymbolsFieldCrashes` | `Pipeline.UnusableConfigWritesHeaderOnly` |

`Pipeline.LoadSymbols` is the corrected loader, and `Pipeline.RunMain` uses it.
`Pipeline.LoadSymbolsAsWritten` and `Pipeline.SymbolCountAsWritten` model the
code as written.

## Left out

- HTTP via axios (app.js:9-10) is network I/O. A request's outcome is the parameter `responses`, one entry per request in loop order. So one symbol listed twice may get two different outcomes. A failed request (network error, non-2xx status, parse exception) is `None`.
- The HTML parsing and cheerio selectors (app.js:11, app.js:18-20) are a foreign library. The texts they extract are the fields of `Page`. Only the `.trim()` and `.replace` applied to those texts are modelled.
- csv-writer's quoting, separators and line endings (app.js:41-53) belong to the library. A file is modelled as its path, header titles and rows of cells. `RunMain` takes the text csv-writer produces as the parameter `render`.
- File-system reads and writes, `path.join` and `JSON.parse` (app.js:56-57, app.js:62-66) are I/O. The outcome of reading and parsing `symbols.json` is the datatype `ConfigFile`. A `symbols` property that is not a list of strings is not modelled.
- `new Date()` and the local time zone (app.js:36) are ambient state. The date is the parameter `LocalDate`. `ValidDate` states the month and day ranges a JavaScript `Date` guarantees.
- The progress line (app.js:84-85) is left out: it uses floating-point arithmetic and `toFixed`, and writes to stdout.
- Console output (app.js:30, app.js:68, app.js:88), the `async`/`await` sequencing, and write errors that end the process are left out. The loop's strictly sequential order is what the model's loop has.
- JavaScript strings are UTF-16. The model works on Unicode characters. This makes no difference for whitespace, for the BMP characters in the patterns, or for the digits.
- Pipeline.RunMain: uses the corrected `LoadSymbols`, so on a document without `symbols` it writes a header-only file, where the code as written throws at app.js:76 and writes nothing (see "## Findings").
- The code always prepends the BOM and always reports progress. The model follows the code and has no switch for either.

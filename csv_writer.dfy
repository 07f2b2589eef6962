/**
 * `writeCsv`: the dated file name, the fixed header, the order of the fields
 * in each row, and the byte-order mark put before the written text.
 * How csv-writer quotes and joins the cells is not modelled: a file is kept
 * here as its path, header titles and rows of cells.
 */
module CsvWriter {
  import opened JsString
  import opened StockFetcher

  /** What `new Date()` reports: `getFullYear()`, the zero-based `getMonth()` and `getDate()`. */
  datatype LocalDate = LocalDate(fullYear: int, monthIndex: int, dayOfMonth: int)

  /** The ranges a JavaScript `Date` guarantees for month and day. */
  predicate ValidDate(d: LocalDate)
  {
    0 <= d.monthIndex <= 11 && 1 <= d.dayOfMonth <= 31
  }

  /** `String(n).padStart(2, "0")`. */
  function TwoDigits(n: int): (r: string)
    ensures |r| >= 2
  {
    PadStart(IntToString(n), 2, '0')
  }

  /** The output file name: the year as `String` gives it, month and day padded to two digits, then ".csv". */
  function FileName(d: LocalDate): (r: string)
    ensures |r| >= 9 && r[|r| - 4..] == ".csv"
  {
    IntToString(d.fullYear) + TwoDigits(d.monthIndex + 1) + TwoDigits(d.dayOfMonth) + ".csv"
  }

  /** A number from 0 through 99 becomes exactly two digits that read back as the number; 1 to 9 get a leading zero. */
  lemma TwoDigitsOfSmall(n: int)
    requires 0 <= n <= 99
    ensures |TwoDigits(n)| == 2 && AllDigits(TwoDigits(n))
    ensures ParseDecimal(TwoDigits(n)) == n
    ensures n < 10 ==> TwoDigits(n) == ['0', DigitChar(n)]
  {
    var s := NatToString(n);
    NatToStringLength(n);
    ParseNatToString(n);
    if n < 10 {
      assert TwoDigits(n) == ['0'] + s;
      ParseLeadingZero(s);
    } else {
      assert TwoDigits(n) == s;
    }
  }

  /** For a four-digit year the name is twelve characters: four for the year, two each for month and day, four for ".csv". */
  lemma FileNameLength(d: LocalDate)
    requires ValidDate(d) && 1000 <= d.fullYear <= 9999
    ensures |FileName(d)| == 12
  {
    NatToStringLength(d.fullYear);
    TwoDigitsOfSmall(d.monthIndex + 1);
    TwoDigitsOfSmall(d.dayOfMonth);
  }

  /** For a four-digit year the name can be read back: year, one-based month and day, then ".csv". */
  lemma FileNameDecodes(d: LocalDate)
    requires ValidDate(d) && 1000 <= d.fullYear <= 9999
    ensures var r := FileName(d);
      |r| == 12 && AllDigits(r[..8]) &&
      ParseDecimal(r[..4]) == d.fullYear && ParseDecimal(r[4..6]) == d.monthIndex + 1 &&
      ParseDecimal(r[6..8]) == d.dayOfMonth && r[8..] == ".csv"
  {
    var y, m, dd := IntToString(d.fullYear), TwoDigits(d.monthIndex + 1), TwoDigits(d.dayOfMonth);
    NatToStringLength(d.fullYear);
    ParseNatToString(d.fullYear);
    TwoDigitsOfSmall(d.monthIndex + 1);
    TwoDigitsOfSmall(d.dayOfMonth);
    assert |y| == 4 && AllDigits(y) && ParseDecimal(y) == d.fullYear;
    assert |m| == 2 && AllDigits(m) && ParseDecimal(m) == d.monthIndex + 1;
    assert |dd| == 2 && AllDigits(dd) && ParseDecimal(dd) == d.dayOfMonth;
    NamePieces(y, m, dd, ".csv");
    assert FileName(d) == y + m + dd + ".csv";
  }

  lemma NamePieces(y: string, m: string, dd: string, ext: string)
    requires |y| == 4 && |m| == 2 && |dd| == 2
    requires AllDigits(y) && AllDigits(m) && AllDigits(dd)
    ensures var r := y + m + dd + ext;
      r[..4] == y && r[4..6] == m && r[6..8] == dd && r[8..] == ext && AllDigits(r[..8])
  {
    var r := y + m + dd + ext;
    assert r[..8] == y + m + dd;
  }

  /** Runs on the same day write the same file; runs on different days (four-digit years) write different files. */
  lemma FileNameInjective(d1: LocalDate, d2: LocalDate)
    requires ValidDate(d1) && 1000 <= d1.fullYear <= 9999
    requires ValidDate(d2) && 1000 <= d2.fullYear <= 9999
    ensures FileName(d1) == FileName(d2) <==> d1 == d2
  {
    FileNameDecodes(d1);
    FileNameDecodes(d2);
  }

  /** The record keys of the header, in column order. */
  const ColumnIds: seq<string> := ["symbol", "companyName", "price", "dividendYield", "pbr"]

  /** The header titles, in the same order: ticker code, company name, share price (close), dividend yield, PBR. */
  const ColumnTitles: seq<string> := ["証券コード", "会社名", "株価（終値）", "配当利回り", "PBR"]

  /** The cell csv-writer takes from a record for a header id; an id the record lacks gives an empty cell. */
  function FieldById(r: StockRecord, id: string): string
  {
    if id == "symbol" then r.symbol
    else if id == "companyName" then r.companyName
    else if id == "price" then r.price
    else if id == "dividendYield" then r.dividendYield
    else if id == "pbr" then r.pbr
    else ""
  }

  /** The cells of one data row: cell `k` is the record's field named by the `k`-th header id. */
  function Row(r: StockRecord): (row: seq<string>)
    ensures |row| == |ColumnIds| == |ColumnTitles|
    ensures forall k :: 0 <= k < |ColumnIds| ==> row[k] == FieldById(r, ColumnIds[k])
  {
    [r.symbol, r.companyName, r.price, r.dividendYield, r.pbr]
  }

  /** A written CSV file: its path, the header titles, and one row of cells per record. */
  datatype CsvTable = CsvTable(path: string, header: seq<string>, rows: seq<seq<string>>)

  /**
   * `writeCsv(data)`: the file is named after the date, the header is the
   * fixed titles whatever the data, and there is one row per record, in order.
   */
  function WriteCsv(data: seq<StockRecord>, today: LocalDate): (t: CsvTable)
    ensures t.path == FileName(today) && t.header == ColumnTitles
    ensures |t.rows| == |data|
    ensures forall k :: 0 <= k < |data| ==> t.rows[k] == Row(data[k]) && t.rows[k][0] == data[k].symbol
  {
    CsvTable(FileName(today), ColumnTitles, seq(|data|, k requires 0 <= k < |data| => Row(data[k])))
  }

  /** The byte-order mark U+FEFF. */
  const ByteOrderMark: char := '\U{FEFF}'

  /** The file is read back and rewritten with the byte-order mark first and the earlier text unchanged after it. */
  function WithBom(content: string): (r: string)
    ensures |r| == |content| + 1
    ensures r[0] == ByteOrderMark && r[1..] == content
  {
    [ByteOrderMark] + content
  }
}

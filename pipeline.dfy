/**
 * The driver: load the symbol list, fetch each symbol in order, keep the
 * records of the fetches that succeeded, and hand them to the CSV writer.
 *
 * A run's network is given as `responses`: `responses[i]` is what the request
 * for the `i`-th symbol of the list produced (`None` when it threw).
 */
module Pipeline {
  import opened Wrappers
  import opened StockFetcher
  import opened CsvWriter

  // ---------------------------------------------------------------------------
  // Loading symbols.json
  // ---------------------------------------------------------------------------

  /**
   * What reading and parsing symbols.json gives: either the read, the parse
   * or the property access threw (a file holding `null` is this case, since
   * `data.symbols` throws inside the `try`), or a parsed document whose
   * `symbols` property is a list of ticker codes or is missing (`None`; a
   * parsed non-object such as `5` or `[]` is this case too).
   */
  datatype ConfigFile = Unreadable | Parsed(symbolsField: Option<seq<Symbol>>)

  /**
   * `loadSymbolsFromJson` as written: a failed read or parse degrades to the
   * empty list, but a document without `symbols` gives `undefined` (`None`).
   */
  function LoadSymbolsAsWritten(config: ConfigFile): (r: Option<seq<Symbol>>)
    ensures config.Unreadable? ==> r == Some([])
    ensures config.Parsed? ==> r == config.symbolsField
  {
    match config
    case Unreadable => Some([])
    case Parsed(field) => field
  }

  /** `symbols.length` in `main`: reading it on `undefined` throws a TypeError, which nothing catches. */
  function SymbolCountAsWritten(loaded: Option<seq<Symbol>>): (r: Result<nat, string>)
    ensures loaded.Some? <==> r.Success?
    ensures loaded.Some? ==> r.value == |loaded.value|
  {
    match loaded
    case None => Failure("TypeError")
    case Some(symbols) => Success(|symbols|)
  }

  /** The input `{}`: the run stops before any fetch and no CSV file is written. */
  lemma MissingSymbolsFieldCrashes()
    ensures LoadSymbolsAsWritten(Parsed(None)) == None
    ensures SymbolCountAsWritten(LoadSymbolsAsWritten(Parsed(None))).Failure?
  {
  }

  /**
   * The symbol list with every unusable configuration degrading to the empty
   * list: a failed read or parse, and also a document without `symbols`.
   */
  function LoadSymbols(config: ConfigFile): (r: seq<Symbol>)
    ensures LoadSymbolsAsWritten(config).Some? ==> r == LoadSymbolsAsWritten(config).value
    ensures LoadSymbolsAsWritten(config).None? ==> r == []
    ensures !(config.Parsed? && config.symbolsField.Some?) ==> r == []
  {
    match LoadSymbolsAsWritten(config)
    case None => []
    case Some(symbols) => symbols
  }

  // ---------------------------------------------------------------------------
  // The accumulation of records
  // ---------------------------------------------------------------------------

  /** The number of `Some` entries. */
  function CountSome<T>(xs: seq<Option<T>>): (n: nat)
    ensures n <= |xs|
  {
    if xs == [] then 0
    else CountSome(xs[..|xs| - 1]) + (if xs[|xs| - 1].Some? then 1 else 0)
  }

  /** The values of the `Some` entries, in order: what `if (data) stockData.push(data)` keeps. */
  function Somes<T>(xs: seq<Option<T>>): (r: seq<T>)
    ensures |r| == CountSome(xs)
  {
    if xs == [] then []
    else
      var n := |xs| - 1;
      Somes(xs[..n]) + (if xs[n].Some? then [xs[n].value] else [])
  }

  /** The positions of the `Some` entries, in increasing order, and no others. */
  function SomeIndices<T>(xs: seq<Option<T>>): (ix: seq<nat>)
    ensures forall k :: 0 <= k < |ix| ==> ix[k] < |xs| && xs[ix[k]].Some?
    ensures forall k, l :: 0 <= k < l < |ix| ==> ix[k] < ix[l]
    ensures forall i :: 0 <= i < |xs| && xs[i].Some? ==> i in ix
  {
    if xs == [] then []
    else
      var n := |xs| - 1;
      SomeIndices(xs[..n]) + (if xs[n].Some? then [n] else [])
  }

  /** The `k`-th kept value is the value at the `k`-th `Some` position: exactly the `Some` values, in order. */
  lemma {:induction false} SomesAt<T>(xs: seq<Option<T>>)
    ensures var ix := SomeIndices(xs); var r := Somes(xs);
      |r| == |ix| && forall k :: 0 <= k < |ix| ==> r[k] == xs[ix[k]].value
  {
    if xs != [] {
      var n := |xs| - 1;
      SomesAt(xs[..n]);
      var ix0 := SomeIndices(xs[..n]);
      forall k | 0 <= k < |ix0| ensures xs[..n][ix0[k]] == xs[ix0[k]] {
      }
    }
  }

  /** Filtering a concatenation is filtering each part: an entry never changes what the later ones contribute. */
  lemma {:induction false} SomesAppend<T>(xs: seq<Option<T>>, ys: seq<Option<T>>)
    ensures Somes(xs + ys) == Somes(xs) + Somes(ys)
  {
    if ys == [] {
      assert xs + ys == xs;
    } else {
      var n := |ys| - 1;
      var zs := xs + ys;
      var last := if ys[n].Some? then [ys[n].value] else [];
      assert zs[..|zs| - 1] == xs + ys[..n];
      assert zs[|zs| - 1] == ys[n];
      assert Somes(zs) == Somes(xs + ys[..n]) + last;
      SomesAppend(xs, ys[..n]);
      assert Somes(ys) == Somes(ys[..n]) + last;
    }
  }

  /** One more entry: its value is kept at the end when it is `Some`. */
  lemma SomesStep<T>(xs: seq<Option<T>>, i: nat)
    requires i < |xs|
    ensures Somes(xs[..i + 1]) == Somes(xs[..i]) + (if xs[i].Some? then [xs[i].value] else [])
  {
    assert xs[..i + 1][..i] == xs[..i];
  }

  /** With no `None` entry nothing is dropped. */
  lemma {:induction false} SomesAll<T>(xs: seq<Option<T>>)
    requires forall i :: 0 <= i < |xs| ==> xs[i].Some?
    ensures var r := Somes(xs); |r| == |xs| && forall k :: 0 <= k < |xs| ==> r[k] == xs[k].value
  {
    if xs != [] {
      var n := |xs| - 1;
      SomesAll(xs[..n]);
    }
  }

  /** With only `None` entries nothing is kept. */
  lemma {:induction false} SomesNone<T>(xs: seq<Option<T>>)
    requires forall i :: 0 <= i < |xs| ==> xs[i].None?
    ensures Somes(xs) == []
  {
    if xs != [] {
      SomesNone(xs[..|xs| - 1]);
    }
  }

  /** What each call of `getStockData` returns, one per symbol, in list order. */
  function Outcomes(symbols: seq<Symbol>, responses: seq<Option<Page>>): (r: seq<Option<StockRecord>>)
    requires |responses| == |symbols|
    ensures |r| == |symbols|
    ensures forall i :: 0 <= i < |r| ==> (r[i].Some? <==> responses[i].Some?)
    ensures forall i :: 0 <= i < |r| && r[i].Some? ==> r[i].value.symbol == symbols[i]
  {
    seq(|symbols|, i requires 0 <= i < |symbols| => GetStockData(symbols[i], responses[i]))
  }

  /**
   * `stockData` once the loop in `main` has gone through `symbols`: the
   * record of every symbol whose fetch succeeded, in list order.
   */
  function Collected(symbols: seq<Symbol>, responses: seq<Option<Page>>): (r: seq<StockRecord>)
    requires |responses| == |symbols|
    ensures |r| == CountSome(responses) <= |symbols|
  {
    CountSomeOutcomes(symbols, responses);
    Somes(Outcomes(symbols, responses))
  }

  lemma {:induction false} CountSomeOutcomes(symbols: seq<Symbol>, responses: seq<Option<Page>>)
    requires |responses| == |symbols|
    ensures CountSome(Outcomes(symbols, responses)) == CountSome(responses)
  {
    if symbols != [] {
      var n := |symbols| - 1;
      CountSomeOutcomes(symbols[..n], responses[..n]);
      OutcomesPrefix(symbols, responses, n);
    }
  }

  /** The outcomes of a prefix of the list are the prefix of the outcomes. */
  lemma OutcomesPrefix(symbols: seq<Symbol>, responses: seq<Option<Page>>, i: nat)
    requires |responses| == |symbols| && i <= |symbols|
    ensures Outcomes(symbols[..i], responses[..i]) == Outcomes(symbols, responses)[..i]
  {
  }

  /** The ticker codes of a list of records, in order. */
  function SymbolsOf(records: seq<StockRecord>): (r: seq<Symbol>)
    ensures |r| == |records| && forall k :: 0 <= k < |r| ==> r[k] == records[k].symbol
  {
    seq(|records|, k requires 0 <= k < |records| => records[k].symbol)
  }

  /** `a` is `b` with some elements left out and the rest kept in their order. */
  predicate IsSubsequence<T(==)>(a: seq<T>, b: seq<T>)
    decreases |b|
  {
    if a == [] then true
    else if b == [] then false
    else (a[|a| - 1] == b[|b| - 1] && IsSubsequence(a[..|a| - 1], b[..|b| - 1]))
         || IsSubsequence(a, b[..|b| - 1])
  }

  /**
   * The `k`-th collected record is the record built from the `k`-th
   * successful request: exactly the successful fetches, in symbol order.
   */
  lemma CollectedAt(symbols: seq<Symbol>, responses: seq<Option<Page>>)
    requires |responses| == |symbols|
    ensures var ix := SomeIndices(Outcomes(symbols, responses)); var out := Collected(symbols, responses);
      |out| == |ix| &&
      (forall k :: 0 <= k < |ix| ==> ix[k] < |symbols| && responses[ix[k]].Some? &&
                                     out[k] == MakeRecord(symbols[ix[k]], responses[ix[k]].value)) &&
      (forall k, l :: 0 <= k < l < |ix| ==> ix[k] < ix[l]) &&
      (forall i :: 0 <= i < |symbols| && responses[i].Some? ==> i in ix)
  {
    SomesAt(Outcomes(symbols, responses));
  }

  /** The symbols of the kept entries form a subsequence of the keys their positions carry. */
  lemma {:induction false} SomesSymbolsSubsequence(xs: seq<Option<StockRecord>>, symbols: seq<Symbol>)
    requires |xs| == |symbols|
    requires forall i :: 0 <= i < |xs| && xs[i].Some? ==> xs[i].value.symbol == symbols[i]
    ensures IsSubsequence(SymbolsOf(Somes(xs)), symbols)
  {
    if xs != [] {
      var n := |xs| - 1;
      var before := Somes(xs[..n]);
      SomesSymbolsSubsequence(xs[..n], symbols[..n]);
      var out := SymbolsOf(Somes(xs));
      if xs[n].Some? {
        assert out[..|out| - 1] == SymbolsOf(before);
      } else {
        assert out == SymbolsOf(before);
      }
    }
  }

  /** The symbols of the collected records are a subsequence of the symbol list. */
  lemma CollectedIsSubsequence(symbols: seq<Symbol>, responses: seq<Option<Page>>)
    requires |responses| == |symbols|
    ensures IsSubsequence(SymbolsOf(Collected(symbols, responses)), symbols)
  {
    SomesSymbolsSubsequence(Outcomes(symbols, responses), symbols);
  }

  /**
   * Collecting over one list followed by another is collecting over each in
   * turn, so a failed symbol does not change what the symbols after it contribute.
   */
  lemma CollectedAppend(s1: seq<Symbol>, r1: seq<Option<Page>>, s2: seq<Symbol>, r2: seq<Option<Page>>)
    requires |r1| == |s1| && |r2| == |s2|
    ensures Collected(s1 + s2, r1 + r2) == Collected(s1, r1) + Collected(s2, r2)
  {
    OutcomesAppend(s1, r1, s2, r2);
    SomesAppend(Outcomes(s1, r1), Outcomes(s2, r2));
  }

  lemma OutcomesAppend(s1: seq<Symbol>, r1: seq<Option<Page>>, s2: seq<Symbol>, r2: seq<Option<Page>>)
    requires |r1| == |s1| && |r2| == |s2|
    ensures Outcomes(s1 + s2, r1 + r2) == Outcomes(s1, r1) + Outcomes(s2, r2)
  {
    var o, o1, o2 := Outcomes(s1 + s2, r1 + r2), Outcomes(s1, r1), Outcomes(s2, r2);
    forall i | 0 <= i < |o| ensures o[i] == (o1 + o2)[i] {
      if i < |s1| {
        assert (s1 + s2)[i] == s1[i] && (r1 + r2)[i] == r1[i];
      } else {
        assert (s1 + s2)[i] == s2[i - |s1|] && (r1 + r2)[i] == r2[i - |s1|];
      }
    }
  }

  /** When every fetch succeeds, there is one record per symbol, in the same order. */
  lemma CollectedAllFetched(symbols: seq<Symbol>, responses: seq<Option<Page>>)
    requires |responses| == |symbols|
    requires forall i :: 0 <= i < |responses| ==> responses[i].Some?
    ensures SymbolsOf(Collected(symbols, responses)) == symbols
  {
    SomesAll(Outcomes(symbols, responses));
  }

  /** When every fetch fails, nothing is collected. */
  lemma CollectedNoneFetched(symbols: seq<Symbol>, responses: seq<Option<Page>>)
    requires |responses| == |symbols|
    requires forall i :: 0 <= i < |responses| ==> responses[i].None?
    ensures Collected(symbols, responses) == []
  {
    SomesNone(Outcomes(symbols, responses));
  }

  /**
   * The loop of `main` (fetching one symbol at a time, in list order, and
   * appending each record that came back).
   */
  method CollectStockData(symbols: seq<Symbol>, responses: seq<Option<Page>>)
    returns (stockData: seq<StockRecord>)
    requires |responses| == |symbols|
    ensures stockData == Collected(symbols, responses)
    ensures |stockData| == CountSome(responses) <= |symbols|
    ensures IsSubsequence(SymbolsOf(stockData), symbols)
  {
    stockData := [];
    var i := 0;
    while i < |symbols|
      invariant 0 <= i <= |symbols|
      invariant stockData == Somes(Outcomes(symbols, responses)[..i])
    {
      var data := GetStockData(symbols[i], responses[i]);
      ghost var all := Outcomes(symbols, responses);
      assert all[i] == data;
      SomesStep(all, i);
      if data.Some? {
        stockData := stockData + [data.value];
      }
      i := i + 1;
    }
    assert Outcomes(symbols, responses)[..i] == Outcomes(symbols, responses);
    assert stockData == Collected(symbols, responses);
    CollectedIsSubsequence(symbols, responses);
  }

  /**
   * `main`: load the symbols, collect the records, write the CSV, then
   * rewrite the file with the byte-order mark in front. `render` stands for
   * the text csv-writer produces for a table.
   */
  method RunMain(config: ConfigFile, responses: seq<Option<Page>>, today: LocalDate, render: CsvTable -> string)
    returns (table: CsvTable, content: string)
    requires |responses| == |LoadSymbols(config)|
    ensures table == WriteCsv(Collected(LoadSymbols(config), responses), today)
    ensures table.path == FileName(today) && table.header == ColumnTitles
    ensures |table.rows| == CountSome(responses) <= |LoadSymbols(config)|
    ensures LoadSymbols(config) == [] ==> table.rows == []
    ensures content == WithBom(render(table))
    ensures content[0] == ByteOrderMark && content[1..] == render(table)
  {
    var symbols := LoadSymbols(config);
    var stockData := CollectStockData(symbols, responses);
    table := WriteCsv(stockData, today);
    content := WithBom(render(table));
  }

  /**
   * An unreadable or unparsable configuration, or one without `symbols`,
   * gives a run with nothing to fetch that still writes the dated file with
   * the header and no data rows.
   */
  lemma UnusableConfigWritesHeaderOnly(config: ConfigFile, today: LocalDate)
    requires !(config.Parsed? && config.symbolsField.Some?)
    ensures LoadSymbols(config) == []
    ensures var t := WriteCsv(Collected(LoadSymbols(config), []), today);
      t.path == FileName(today) && t.header == ColumnTitles && t.rows == []
  {
    assert Outcomes([], []) == [];
  }
}

/**
 * One fetch of the scraper: the texts extracted from a symbol's page become a
 * stock record. The HTTP request and the HTML selectors are outside the model;
 * what they produce is the `Page` a response carries, and a thrown error is a
 * response of `None`.
 */
module StockFetcher {
  import opened Wrappers
  import opened JsString

  /** A ticker code, used as given (also as the URL path segment). */
  type Symbol = string

  /**
   * The raw texts the HTML selectors extract from a symbol's page, before any
   * trimming: the text of the `h1` heading, and the text of the element after
   * the label for closing price, dividend yield and PBR. A selector that
   * finds nothing yields the empty string.
   */
  datatype Page = Page(headingText: string, closingPriceText: string,
                       dividendYieldText: string, pbrText: string)

  /** One row of output; never changed after it is built. */
  datatype StockRecord = StockRecord(symbol: Symbol, companyName: string, price: string,
                                     dividendYield: string, pbr: string)

  /** The label phrase the site appends to the company name in its heading ("stock information"). */
  const HeadingSuffix: string := "株式情報資料"

  /**
   * The company name: the first occurrence of the symbol, then the first
   * occurrence of the heading suffix, is cut out of the heading, and the rest
   * is trimmed.
   */
  function CompanyName(headingText: string, symbol: Symbol): (r: string)
    ensures Trimmed(r)
    ensures |r| <= |headingText|
  {
    Trim(RemoveFirst(RemoveFirst(headingText, symbol), HeadingSuffix))
  }

  /** Builds the record for `symbol` from its page: the symbol is kept as fetched and every text is trimmed. */
  function MakeRecord(symbol: Symbol, page: Page): (r: StockRecord)
    ensures r.symbol == symbol
    ensures r.companyName == CompanyName(page.headingText, symbol)
    ensures r.price == Trim(page.closingPriceText) && r.dividendYield == Trim(page.dividendYieldText)
    ensures r.pbr == Trim(page.pbrText)
    ensures Trimmed(r.companyName) && Trimmed(r.price) && Trimmed(r.dividendYield) && Trimmed(r.pbr)
  {
    StockRecord(symbol, CompanyName(page.headingText, symbol), Trim(page.closingPriceText),
                Trim(page.dividendYieldText), Trim(page.pbrText))
  }

  /**
   * `getStockData`: a response that failed (`None`) gives no record at all,
   * not a partial one; a page always gives a record, and that record carries
   * the symbol it was fetched with.
   */
  function GetStockData(symbol: Symbol, response: Option<Page>): (r: Option<StockRecord>)
    ensures r.Some? <==> response.Some?
    ensures r.Some? ==> r.value.symbol == symbol && Trimmed(r.value.companyName)
    ensures response.Some? ==> r == Some(MakeRecord(symbol, response.value))
  {
    match response
    case None => None
    case Some(page) => Some(MakeRecord(symbol, page))
  }

  /** With neither the symbol nor the suffix in the heading, the company name is the trimmed heading. */
  lemma CompanyNameWithoutPatterns(headingText: string, symbol: Symbol)
    requires !Occurs(headingText, symbol) && !Occurs(headingText, HeadingSuffix)
    ensures CompanyName(headingText, symbol) == Trim(headingText)
  {
  }

  /** Trimming the company name again changes nothing. */
  lemma CompanyNameStable(headingText: string, symbol: Symbol)
    ensures Trim(CompanyName(headingText, symbol)) == CompanyName(headingText, symbol)
  {
    TrimTrimmed(CompanyName(headingText, symbol));
  }

  /** An empty symbol is a pattern that removes nothing. */
  lemma CompanyNameEmptySymbol(headingText: string)
    ensures CompanyName(headingText, "") == Trim(RemoveFirst(headingText, HeadingSuffix))
  {
    RemoveEmpty(headingText);
  }

  /** The worked example: symbol "1234" with heading "1234 Example Co. 株式情報資料" gives "Example Co.". */
  lemma CompanyNameExample()
    ensures CompanyName("1234 Example Co. 株式情報資料", "1234") == "Example Co."
  {
    ExampleRemoveSymbol();
    ExampleRemoveSuffix();
    ExampleTrim();
  }

  lemma ExampleTrim()
    ensures Trim(" Example Co. ") == "Example Co."
  {
    assert " Example Co. " == " " + "Example Co." + " ";
    TrimOfPadded(" ", "Example Co.", " ");
  }

  lemma ExampleRemoveSymbol()
    ensures RemoveFirst("1234 Example Co. 株式情報資料", "1234") == " Example Co. 株式情報資料"
  {
    var h := "1234 Example Co. 株式情報資料";
    assert OccursAt(h, "1234", 0);
    IndexOfFirst(h, "1234", 0);
    assert h[4..] == " Example Co. 株式情報資料";
  }

  lemma ExampleRemoveSuffix()
    ensures RemoveFirst(" Example Co. 株式情報資料", HeadingSuffix) == " Example Co. "
  {
    var h := " Example Co. 株式情報資料";
    assert h[13..19] == HeadingSuffix;
    forall j | 0 <= j < 13 ensures !OccursAt(h, HeadingSuffix, j) {
      assert h[..13] == " Example Co. ";
      assert h[j] == h[..13][j] != '株';
      assert h[j..j + |HeadingSuffix|][0] == h[j] && HeadingSuffix[0] == '株';
    }
    IndexOfFirst(h, HeadingSuffix, 13);
    assert h[..13] + h[19..] == " Example Co. ";
  }

  /** Only the first occurrence of the symbol is cut out: a later one stays in the name. */
  lemma CompanyNameKeepsLaterSymbol()
    ensures CompanyName("1234 Example 1234", "1234") == "Example 1234"
  {
    LaterSymbolRemoveSymbol();
    LaterSymbolNoSuffix();
    LaterSymbolTrim();
  }

  lemma LaterSymbolTrim()
    ensures Trim(" Example 1234") == "Example 1234"
  {
    assert " Example 1234" == " " + "Example 1234" + [];
    TrimOfPadded(" ", "Example 1234", []);
  }

  lemma LaterSymbolRemoveSymbol()
    ensures RemoveFirst("1234 Example 1234", "1234") == " Example 1234"
  {
    var h := "1234 Example 1234";
    assert OccursAt(h, "1234", 0);
    IndexOfFirst(h, "1234", 0);
    assert h[4..] == " Example 1234";
  }

  lemma LaterSymbolNoSuffix()
    ensures RemoveFirst(" Example 1234", HeadingSuffix) == " Example 1234"
  {
    var h := " Example 1234";
    forall j | 0 <= j <= |h| ensures !OccursAt(h, HeadingSuffix, j) {
      if j + |HeadingSuffix| <= |h| {
        assert h[j] != '株';
        assert h[j..j + |HeadingSuffix|][0] == h[j] && HeadingSuffix[0] == '株';
      }
    }
    assert !Occurs(h, HeadingSuffix);
  }
}

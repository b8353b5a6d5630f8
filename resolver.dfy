/** The company resolution of the stock-price route: a ticker known to the
    registry is quoted from its stored quote-site URL; an unknown ticker is
    named by the screener site, merged into a company found under that name
    used as a ticker, or else registered with a quote-site URL found by
    probing slug variations. The two sites are oracles from URL to page. */
module StockPrice {
  import opened Text
  import opened Quote
  import opened Slug
  import opened Database

  /** The heading block of a screener company page and its h1, when present. */
  datatype TitleBlock = TitleBlock(heading: Option<string>)

  datatype ProfilePage = ProfilePage(titleBlock: Option<TitleBlock>)

  function ScreenerUrl(ticker: string): string
  {
    "https://www.screener.in/company/" + ticker + "/consolidated/"
  }

  /** `get_company_name_from_screener`: the stripped h1 text of the page, or
      nothing on an exception, a non-200 status or a missing element; the URL
      is returned in every case. */
  function CompanyNameFromScreener(ticker: string, resp: HttpResult<ProfilePage>): (r: (Option<string>, string))
    ensures r.1 == ScreenerUrl(ticker)
    ensures r.0.Some? <==>
      resp.Response? && resp.status == 200 && resp.page.titleBlock.Some? && resp.page.titleBlock.value.heading.Some?
    ensures r.0.Some? ==> r.0.value == Strip(resp.page.titleBlock.value.heading.value)
  {
    var url := ScreenerUrl(ticker);
    if resp.Raised? || resp.status != 200 then (None, url)
    else match resp.page.titleBlock
      case None => (None, url)
      case Some(div) =>
        match div.heading
        case None => (None, url)
        case Some(h1) => (Some(Strip(h1)), url)
  }

  /** The route's ticker: the stripped query upper-cased with every space removed. */
  function TickerOf(company: string): (r: string)
    ensures ' ' !in r
  {
    RemoveCharAbsent(Upper(Strip(company)), ' ');
    RemoveAll(Upper(Strip(company)), " ")
  }

  /** The ticker under which a screener name is looked up for an alias merge. */
  function NameAsTicker(name: string): (r: string)
    ensures ' ' !in r
  {
    RemoveCharAbsent(name, ' ');
    NoSpaceUpper(RemoveAll(name, " "));
    Upper(RemoveAll(name, " "))
  }

  lemma NoSpaceUpper(s: string)
    requires ' ' !in s
    ensures ' ' !in Upper(s)
  {
    forall i | 0 <= i < |s| ensures Upper(s)[i] != ' ' {
      assert s[i] in s;
    }
  }

  /** A screener name without surrounding whitespace is looked up under the
      ticker the route would compute from that same name. */
  lemma NameAsTickerIsTickerOf(name: string)
    requires Strip(name) == name
    ensures NameAsTicker(name) == TickerOf(name)
  {
    UpperRemoveSpaces(name);
  }

  /** The JSON body of the route. */
  datatype Reply =
    | Failure(status: int, message: string)
    | Price(name: string, price: string, previousClose: string,
            changeAmount: Option<string>, changePercent: Option<string>)
    | EmptyReply

  /** Python's `x or default` on an optional string. */
  function OrDefault(x: Option<string>, default: string): (r: string)
    ensures x.Some? && x.value != [] ==> r == x.value
    ensures !(x.Some? && x.value != []) ==> r == default
    ensures r == [] ==> default == []
  {
    if x.Some? && x.value != [] then x.value else default
  }

  /** The reply built from a quote: only a non-empty price makes a reply;
      the other fields fall back to "0", "0" and "0%". */
  function QuoteReply(name: string, q: Option<QuoteSnapshot>): (r: Reply)
    ensures r.Price? <==> q.Some? && q.value.price.Some? && q.value.price.value != []
    ensures r.Price? ==>
      && r.name == name && r.price == q.value.price.value
      && r.previousClose == OrDefault(q.value.previousClose, "0") && r.previousClose != []
      && r.changeAmount == Some(OrDefault(q.value.changeAmount, "0"))
      && r.changePercent == Some(OrDefault(q.value.changePercent, "0%"))
    ensures !r.Price? ==> r == EmptyReply
  {
    if q.Some? && q.value.price.Some? && q.value.price.value != [] then
      Price(name, q.value.price.value, OrDefault(q.value.previousClose, "0"),
            Some(OrDefault(q.value.changeAmount, "0")), Some(OrDefault(q.value.changePercent, "0%")))
    else EmptyReply
  }

  /** A GET of a possibly missing URL: `requests.get(None)` raises. */
  function FetchAt(url: Option<string>, fetch: string -> HttpResult<KotakPage>): HttpResult<KotakPage>
  {
    if url.Some? then fetch(url.value) else Raised
  }

  /** The registry after an upsert, ignoring the id returned. */
  predicate Upserted(cs': seq<Company>, next': nat, cs: seq<Company>, next: nat, name: string,
                     tickers: seq<string>, urls: map<string, string>, kotakUrl: Option<string>)
    requires UniqueNames(cs) && IdsBelow(cs, next)
  {
    var u := Upsert(cs, next, name, tickers, urls, kotakUrl);
    cs' == u.0 && next' == u.1
  }

  /** The company row written by the alias merge: the existing tickers in
      order with the new one appended, the new screener URL added to the
      existing map, and the existing quote-site URL kept. */
  function MergedRow(existing: Company, ticker: string, screenerUrl: string): (r: (seq<string>, map<string, string>, Option<string>))
    ensures r.0 == existing.tickers + [ticker]
    ensures r.0[..|existing.tickers|] == existing.tickers && r.0[|existing.tickers|] == ticker
    ensures r.1.Keys == existing.screenerUrls.Keys + {ticker} && r.1[ticker] == screenerUrl
    ensures forall t :: t in existing.screenerUrls && t != ticker ==> r.1[t] == existing.screenerUrls[t]
    ensures r.2 == existing.kotakUrl
  {
    (existing.tickers + [ticker], existing.screenerUrls[ticker := screenerUrl], existing.kotakUrl)
  }

  /** `get_stock_price`, without the exception-to-500 path. */
  method GetStockPrice(store: Store, company: string,
                       screener: string -> HttpResult<ProfilePage>, kotak: string -> HttpResult<KotakPage>)
    returns (reply: Reply)
    requires store.Valid()
    modifies store
    ensures store.Valid()
    ensures store.holdings == old(store.holdings)
    ensures store.ratiosCache == old(store.ratiosCache) && store.quarterlyCache == old(store.quarterlyCache)
    ensures Strip(company) == [] ==>
      reply == Failure(400, "Company name is required") && store.companies == old(store.companies)
    ensures Strip(company) != [] ==>
      var ticker := TickerOf(company);
      var cs := old(store.companies);
      var next := old(store.nextCompanyId);
      match FirstCompanyWithTicker(cs, ticker)
      case Some(k) =>
        && store.companies == cs && store.nextCompanyId == next
        && reply == QuoteReply(cs[k].name, KotakQuote(FetchAt(cs[k].kotakUrl, kotak)))
      case None =>
        var (name, surl) := CompanyNameFromScreener(ticker, screener(ScreenerUrl(ticker)));
        if name.None? || name.value == [] then
          reply == Failure(404, "Company not found") && store.companies == cs && store.nextCompanyId == next
        else match FirstCompanyWithTicker(cs, NameAsTicker(name.value))
          case Some(e) =>
            var m := MergedRow(cs[e], ticker, surl);
            && Upserted(store.companies, store.nextCompanyId, cs, next, name.value, m.0, m.1, m.2)
            && reply == QuoteReply(name.value, KotakQuote(FetchAt(cs[e].kotakUrl, kotak)))
          case None =>
            var cands := AllVariations(name.value);
            match FirstWithPrice(cands, kotak)
            case None =>
              reply == Failure(404, "Price not found") && store.companies == cs && store.nextCompanyId == next
            case Some(w) =>
              var price := Strip(kotak(KotakUrl(cands[w])).page.headlinePrice.value);
              if price == [] then
                reply == Failure(404, "Price not found") && store.companies == cs && store.nextCompanyId == next
              else
                && Upserted(store.companies, store.nextCompanyId, cs, next, name.value,
                            [ticker], map[ticker := surl], Some(KotakUrl(cands[w])))
                && reply == Price(name.value, "₹" + price, "0", None, None)
  {
    var clean := Strip(company);
    if clean == [] {
      return Failure(400, "Company name is required");
    }
    var ticker := TickerOf(company);
    var known := store.FindCompanyByTicker(ticker);
    if known.Some? {
      var q := FetchKotakQuote(FetchAt(known.value.kotakUrl, kotak));
      return QuoteReply(known.value.name, q);
    }
    var (name, surl) := CompanyNameFromScreener(ticker, screener(ScreenerUrl(ticker)));
    if name.None? || name.value == [] {
      return Failure(404, "Company not found");
    }
    var existing := store.FindCompanyByTicker(NameAsTicker(name.value));
    if existing.Some? {
      var tickers := existing.value.tickers + [ticker];
      var urls := existing.value.screenerUrls[ticker := surl];
      var _ := store.GetOrCreateCompany(name.value, tickers, urls, existing.value.kotakUrl);
      var q := FetchKotakQuote(FetchAt(existing.value.kotakUrl, kotak));
      return QuoteReply(name.value, q);
    }
    var price, url, _ := FindWorkingKotakUrl(name.value, kotak);
    if price.None? || price.value == [] || url.None? {
      return Failure(404, "Price not found");
    }
    var _ := store.GetOrCreateCompany(name.value, [ticker], map[ticker := surl], url);
    return Price(name.value, "₹" + price.value, "0", None, None);
  }

  /** The alias merge as written upserts by the screener name, not by the
      name of the row it found: when the two differ, the found row is left
      as it was and a second row is created holding all of its tickers plus
      the new one, so every old ticker now belongs to two companies. */
  lemma AliasMergeUnderAnotherName(cs: seq<Company>, next: nat, name: string, e: nat,
                                   ticker: string, surl: string)
    requires UniqueNames(cs) && IdsBelow(cs, next)
    requires e < |cs| && NameIndex(cs, name).None?
    ensures var m := MergedRow(cs[e], ticker, surl);
      var cs' := Upsert(cs, next, name, m.0, m.1, m.2).0;
      && |cs'| == |cs| + 1
      && cs'[e] == cs[e]
      && cs'[|cs|].name == name && cs'[|cs|].tickers == cs[e].tickers + [ticker]
      && forall t :: t in cs[e].tickers ==> t in cs'[e].tickers && t in cs'[|cs|].tickers
  {
    var m := MergedRow(cs[e], ticker, surl);
    var cs' := Upsert(cs, next, name, m.0, m.1, m.2).0;
    assert cs[e].name != name;
    assert cs'[|cs|] == Company(next, name, m.0, m.1, m.2);
  }

  /** When the screener name belongs to a third company, no row is created:
      that company's tickers, screener URLs and quote-site URL are overwritten
      with the found row's merged data, keeping its own id, and the found row
      is left as it was. */
  lemma AliasMergeOverThirdCompany(cs: seq<Company>, next: nat, name: string, e: nat, k: nat,
                                   ticker: string, surl: string)
    requires UniqueNames(cs) && IdsBelow(cs, next)
    requires e < |cs| && NameIndex(cs, name) == Some(k) && k != e
    ensures var m := MergedRow(cs[e], ticker, surl);
      var (cs', next', id) := Upsert(cs, next, name, m.0, m.1, m.2);
      && |cs'| == |cs| && next' == next && id == cs[k].id
      && cs'[k] == Company(cs[k].id, name, cs[e].tickers + [ticker], cs[e].screenerUrls[ticker := surl], cs[e].kotakUrl)
      && cs'[e] == cs[e]
      && forall i :: 0 <= i < |cs| && i != k ==> cs'[i] == cs[i]
  {
    assert cs[k].name == name;
  }

  /** When the screener name is the name of the row found, the merge updates
      that row in place: same id, same number of rows, tickers extended by
      the new one, and the quote-site URL unchanged. */
  lemma AliasMergeUnderSameName(cs: seq<Company>, next: nat, e: nat, ticker: string, surl: string)
    requires UniqueNames(cs) && IdsBelow(cs, next)
    requires e < |cs|
    ensures var m := MergedRow(cs[e], ticker, surl);
      var (cs', next', id) := Upsert(cs, next, cs[e].name, m.0, m.1, m.2);
      && |cs'| == |cs| && next' == next && id == cs[e].id
      && cs'[e] == cs[e].(tickers := cs[e].tickers + [ticker], screenerUrls := cs[e].screenerUrls[ticker := surl])
      && forall i :: 0 <= i < |cs| && i != e ==> cs'[i] == cs[i]
  {
    var m := MergedRow(cs[e], ticker, surl);
    assert NameIndex(cs, cs[e].name) == Some(e) by {
      var k := NameIndex(cs, cs[e].name).value;
      assert cs[k].name == cs[e].name;
    }
  }
}

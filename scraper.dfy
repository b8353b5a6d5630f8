/** The ratio scraper: the extraction of the name → ratio record map from a
    loaded company page, and the browser session around it (driver check,
    launch, login, navigation, parse, teardown) over abstract step outcomes.
    Page texts are what `get_text(strip=True)` returns for each span. */
module Scraper {
  import opened Text

  /** One ratio record: the whole value text, its number part, and the rest. */
  datatype Ratio = Ratio(fullValue: string, numberValue: string, unit: string)

  /** A value span: its text and, when it has one, the text of its number span. */
  datatype ValueSpan = ValueSpan(text: string, number: Option<string>)

  /** A list item of the page: its name span and value span, when present. */
  datatype RatioItem = RatioItem(name: Option<string>, value: Option<ValueSpan>)

  /** The loaded page: whether the `top-ratios` list exists, and every
      "flex flex-space-between" item of the whole page in document order. */
  datatype ScreenerPage = ScreenerPage(hasTopRatios: bool, items: seq<RatioItem>)

  // ---------------------------------------------------------------------
  // One record
  // ---------------------------------------------------------------------

  /** The value text with every occurrence of the number removed, then
      stripped; empty when there is no number. */
  function UnitOf(full: string, number: string): (r: string)
    ensures number == [] ==> r == []
    ensures r != [] ==> !IsSpace(r[0]) && !IsSpace(r[|r| - 1])
  {
    if number == [] then [] else Strip(RemoveAll(full, number))
  }

  /** A value that is just its number has no unit. */
  lemma {:induction false} UnitOfBareNumber(n: string)
    requires n != []
    ensures UnitOf(n, n) == []
  {
    assert IsPrefix(n, n);
    assert n[|n|..] == [];
    assert RemoveAll(n, n) == RemoveAll([], n) == [];
    assert Strip([]) == [];
  }

  /** When the number does not occur in the text, the unit is the whole text, stripped. */
  lemma UnitOfAbsentNumber(full: string, number: string)
    requires number != [] && !Contains(full, number)
    ensures UnitOf(full, number) == Strip(full)
  {
    RemoveAllAbsent(full, number);
  }

  /** Every occurrence is removed: the unit is shorter than the value text
      by the number's length times its occurrences, before stripping. */
  lemma UnitRemovesEveryOccurrence(full: string, number: string)
    requires number != []
    ensures |RemoveAll(full, number)| == |full| - CountOccurrences(full, number) * |number|
  {
    RemoveAllLength(full, number);
  }

  predicate IsComplete(item: RatioItem)
  {
    item.name.Some? && item.value.Some?
  }

  /** The record of a complete item. */
  function RatioOf(v: ValueSpan): (r: Ratio)
    ensures r.fullValue == v.text
    ensures r.numberValue == (if v.number.Some? then v.number.value else "")
    ensures r.numberValue == [] ==> r.unit == []
  {
    var number := if v.number.Some? then v.number.value else "";
    Ratio(v.text, number, UnitOf(v.text, number))
  }

  // ---------------------------------------------------------------------
  // The map
  // ---------------------------------------------------------------------

  /** Item `i` is complete and no later complete item has the same name. */
  predicate LastWithName(items: seq<RatioItem>, i: int)
  {
    && 0 <= i < |items| && IsComplete(items[i])
    && forall j :: i < j < |items| && IsComplete(items[j]) ==> items[j].name.value != items[i].name.value
  }

  /** The map the loop builds: complete items in order, a later name
      overwriting an earlier one. */
  function RatiosOf(items: seq<RatioItem>): map<string, Ratio>
  {
    if items == [] then map[]
    else
      var m := RatiosOf(items[..|items| - 1]);
      var last := items[|items| - 1];
      if IsComplete(last) then m[last.name.value := RatioOf(last.value.value)] else m
  }

  predicate NamedIn(items: seq<RatioItem>, k: string)
  {
    exists i :: 0 <= i < |items| && IsComplete(items[i]) && items[i].name.value == k
  }

  /** The keys are exactly the names of the complete items. */
  lemma {:induction false} RatiosOfKeys(items: seq<RatioItem>, k: string)
    ensures k in RatiosOf(items) <==> NamedIn(items, k)
  {
    if items != [] {
      var init := items[..|items| - 1];
      RatiosOfKeys(init, k);
      if NamedIn(items, k) {
        var i :| 0 <= i < |items| && IsComplete(items[i]) && items[i].name.value == k;
        if i < |init| { assert init[i] == items[i]; }
      }
      if NamedIn(init, k) {
        var i :| 0 <= i < |init| && IsComplete(init[i]) && init[i].name.value == k;
        assert items[i] == init[i];
      }
    }
  }

  /** The last complete item of each name decides that name's record. */
  lemma {:induction false} RatiosOfLastWins(items: seq<RatioItem>, i: int)
    requires LastWithName(items, i)
    ensures items[i].name.value in RatiosOf(items)
    ensures RatiosOf(items)[items[i].name.value] == RatioOf(items[i].value.value)
  {
    var n := |items|;
    if i < n - 1 {
      var init := items[..n - 1];
      LastWithNameInInit(items, i);
      RatiosOfLastWins(init, i);
      var last := items[n - 1];
      assert IsComplete(last) ==> last.name.value != items[i].name.value;
    }
  }

  /** Dropping a later item keeps an item the last of its name. */
  lemma {:induction false} LastWithNameInInit(items: seq<RatioItem>, i: int)
    requires LastWithName(items, i) && i < |items| - 1
    ensures items[..|items| - 1][i] == items[i]
    ensures LastWithName(items[..|items| - 1], i)
  {
    var init := items[..|items| - 1];
    forall j | i < j < |init| && IsComplete(init[j])
      ensures init[j].name.value != init[i].name.value
    {
      assert init[j] == items[j];
    }
  }

  /** Incomplete items contribute nothing. */
  lemma {:induction false} IncompleteItemsIgnored(items: seq<RatioItem>, item: RatioItem)
    requires !IsComplete(item)
    ensures RatiosOf(items + [item]) == RatiosOf(items)
  {
    assert (items + [item])[..|items|] == items;
  }

  /** `_parse_ratios_from_page`: nothing without the `top-ratios` list; the
      items are folded into a map in document order; an empty map is nothing. */
  method ParseRatiosFromPage(page: ScreenerPage) returns (r: Option<map<string, Ratio>>)
    ensures !page.hasTopRatios ==> r.None?
    ensures page.hasTopRatios ==> (r.None? <==> RatiosOf(page.items) == map[])
    ensures r.Some? ==> r.value == RatiosOf(page.items)
  {
    if !page.hasTopRatios {
      return None;
    }
    var items := page.items;
    var ratios: map<string, Ratio> := map[];
    var i := 0;
    while i < |items|
      invariant 0 <= i <= |items|
      invariant ratios == RatiosOf(items[..i])
    {
      var item := items[i];
      assert items[..i + 1][..i] == items[..i];
      if item.name.Some? && item.value.Some? {
        var full := item.value.value.text;
        var number := if item.value.value.number.Some? then item.value.value.number.value else "";
        var unit := if number != [] then Strip(RemoveAll(full, number)) else "";
        ratios := ratios[item.name.value := Ratio(full, number, unit)];
      }
      i := i + 1;
    }
    assert items[..|items|] == items;
    if ratios == map[] {
      return None;
    }
    return Some(ratios);
  }

  // ---------------------------------------------------------------------
  // The browser session
  // ---------------------------------------------------------------------

  /** How each step of the session turns out. A step that is false raised an
      exception; `urlAfterLogin` is the browser's URL after submitting the
      login form. */
  datatype Session = Session(
    driverPresent: bool,
    launches: bool,
    loginFormOk: bool,
    urlAfterLogin: string,
    companyPageLoads: bool,
    page: ScreenerPage,
    quitRaises: bool)

  /** The observable actions of the session, in order. */
  datatype Event =
    | LaunchBrowser
    | SubmitLogin
    | OpenCompany(url: string)
    | SaveDebugPage
    | QuitBrowser

  function CompanyPageUrl(ticker: string): string
  {
    "https://www.screener.in/company/" + ticker + "/consolidated/"
  }

  /** Logged in: launched, the form was filled and submitted, and the browser
      is no longer on a "/login/" URL. */
  predicate LoggedIn(s: Session)
  {
    s.driverPresent && s.launches && s.loginFormOk && !Contains(s.urlAfterLogin, "/login/")
  }

  /** `scrape_screener_ratios`: the steps run in order and stop at the first
      one that fails; every failure yields None. Once a browser exists it is
      quit on every path, and what quitting does is ignored. */
  method ScrapeScreenerRatios(ticker: string, s: Session) returns (r: Option<map<string, Ratio>>, events: seq<Event>)
    ensures !s.driverPresent ==> r.None? && events == []
    ensures s.driverPresent && !s.launches ==> r.None? && events == []
    ensures s.driverPresent && s.launches ==>
      && |events| >= 2 && events[0] == LaunchBrowser && events[|events| - 1] == QuitBrowser
      && QuitBrowser !in events[..|events| - 1]
    ensures OpenCompany(CompanyPageUrl(ticker)) in events <==> LoggedIn(s)
    ensures forall e :: e in events && e.OpenCompany? ==> e.url == CompanyPageUrl(ticker)
    ensures r.Some? <==> LoggedIn(s) && s.companyPageLoads && s.page.hasTopRatios && RatiosOf(s.page.items) != map[]
    ensures r.Some? ==> r.value == RatiosOf(s.page.items)
    ensures SaveDebugPage in events <==>
      LoggedIn(s) && s.companyPageLoads && (!s.page.hasTopRatios || RatiosOf(s.page.items) == map[])
  {
    if !s.driverPresent {
      return None, [];
    }
    events := [];
    r := None;
    var launched := false;
    // the try block
    if s.launches {
      launched := true;
      events := events + [LaunchBrowser];
      if s.loginFormOk {
        events := events + [SubmitLogin];
        if !Contains(s.urlAfterLogin, "/login/") {
          events := events + [OpenCompany(CompanyPageUrl(ticker))];
          if s.companyPageLoads {
            var ratios := ParseRatiosFromPage(s.page);
            if ratios.Some? {
              r := ratios;
            } else {
              events := events + [SaveDebugPage];
            }
          }
        }
      }
    }
    // the finally block: a failing quit is swallowed
    if launched {
      events := events + [QuitBrowser];
    }
  }
}

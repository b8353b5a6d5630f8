/** The SQLite tables of the portfolio backend and the operations on them:
    the company registry (unique names, tickers, per-ticker screener URLs and
    one quote-site URL), the holdings table, and the two per-holding caches
    of scraped data. Foreign keys are enforced, so a cache row needs its
    holding and deleting a holding deletes its cache rows. */
module Database {
  import opened Text

  // ---------------------------------------------------------------------
  // Rows
  // ---------------------------------------------------------------------

  /** A decoded JSON value, as `json.loads` returns it. */
  datatype Json =
    | JNull
    | JBool(b: bool)
    | JNumber(n: real)
    | JString(s: string)
    | JArray(items: seq<Json>)
    | JObject(fields: map<string, Json>)

  /** A row of `companies`, with its JSON columns decoded. */
  datatype Company = Company(
    id: nat,
    name: string,
    tickers: seq<string>,
    screenerUrls: map<string, string>,
    kotakUrl: Option<string>)

  /** A row of `holdings`. The text columns that may be NULL are options. */
  datatype Holding = Holding(
    id: string,
    userId: int,
    companyId: nat,
    name: string,
    symbol: string,
    ticker: string,
    quantity: int,
    avgPrice: real,
    price: Option<string>,
    marketPrice: Option<string>,
    previousClose: Option<string>,
    priceChangeAmount: Option<string>,
    priceChangePercent: Option<string>,
    exchange: Option<string>,
    date: string,
    updatedAt: string)

  /** A row of `ratios_cache` or `quarterly_cache`, keyed by its unique holding id. */
  datatype CacheRow = CacheRow(userId: int, data: Json, date: string, updatedTime: string)

  /** What `get_ratios_cache` / `get_quarterly_cache` return for a row. */
  datatype CachedEntry = CachedEntry(data: Json, date: string, updatedTime: string)

  /** One entry of the suggestion list. */
  datatype Suggestion = Suggestion(
    ticker: string,
    companyName: string,
    displayTicker: string,
    allTickers: seq<string>)

  // ---------------------------------------------------------------------
  // Table invariants
  // ---------------------------------------------------------------------

  /** `name TEXT NOT NULL UNIQUE`. */
  predicate UniqueNames(cs: seq<Company>)
  {
    forall i, j :: 0 <= i < j < |cs| ==> cs[i].name != cs[j].name
  }

  /** `id INTEGER PRIMARY KEY AUTOINCREMENT`: distinct, and below the next id to hand out. */
  predicate IdsBelow(cs: seq<Company>, next: nat)
  {
    (forall i :: 0 <= i < |cs| ==> cs[i].id < next)
    && (forall i, j :: 0 <= i < j < |cs| ==> cs[i].id != cs[j].id)
  }

  /** `holdings.id TEXT PRIMARY KEY`. */
  predicate UniqueHoldingIds(hs: seq<Holding>)
  {
    forall i, j :: 0 <= i < j < |hs| ==> hs[i].id != hs[j].id
  }

  predicate HasHolding(hs: seq<Holding>, id: string)
  {
    exists i :: 0 <= i < |hs| && hs[i].id == id
  }

  /** `FOREIGN KEY (holding_id) REFERENCES holdings (id)` of a cache table. */
  predicate CacheKeysHeld(cache: map<string, CacheRow>, hs: seq<Holding>)
  {
    forall k :: k in cache ==> HasHolding(hs, k)
  }

  // ---------------------------------------------------------------------
  // Company registry
  // ---------------------------------------------------------------------

  /** `SELECT id FROM companies WHERE name = ?`: position of the row with that name. */
  function NameIndex(cs: seq<Company>, name: string): (r: Option<nat>)
    ensures r.Some? ==> r.value < |cs| && cs[r.value].name == name
    ensures r.None? ==> forall i :: 0 <= i < |cs| ==> cs[i].name != name
  {
    if cs == [] then None
    else match NameIndex(cs[..|cs| - 1], name)
      case Some(k) => Some(k)
      case None => if cs[|cs| - 1].name == name then Some(|cs| - 1) else None
  }

  /** `get_or_create_company`: the new table, the new AUTOINCREMENT counter
      and the id returned. An existing row of that name keeps its id and has
      tickers, screener URLs and quote URL overwritten wholesale; otherwise a
      row is appended under the next id. */
  function Upsert(cs: seq<Company>, next: nat, name: string, tickers: seq<string>,
                  urls: map<string, string>, kotak: Option<string>): (r: (seq<Company>, nat, nat))
    requires UniqueNames(cs) && IdsBelow(cs, next)
    ensures var (cs', next', id) := r;
      && UniqueNames(cs') && IdsBelow(cs', next')
      && (exists k :: 0 <= k < |cs'| && cs'[k] == Company(id, name, tickers, urls, kotak))
      && |cs| <= |cs'|
      && (forall i :: 0 <= i < |cs| && cs[i].name != name ==> cs'[i] == cs[i])
      && (NameIndex(cs, name).Some? ==> |cs'| == |cs| && next' == next && id == cs[NameIndex(cs, name).value].id)
      && (NameIndex(cs, name).None? ==> cs' == cs + [cs'[|cs|]] && id == next && next' == next + 1)
  {
    match NameIndex(cs, name)
    case Some(k) =>
      var cs' := cs[k := cs[k].(tickers := tickers, screenerUrls := urls, kotakUrl := kotak)];
      assert cs'[k] == Company(cs[k].id, name, tickers, urls, kotak);
      (cs', next, cs[k].id)
    case None =>
      var cs' := cs + [Company(next, name, tickers, urls, kotak)];
      assert cs'[|cs|] == Company(next, name, tickers, urls, kotak);
      (cs', next + 1, next)
  }

  /** After an upsert the name is found at the row that was written. */
  lemma UpsertThenLookup(cs: seq<Company>, next: nat, name: string, tickers: seq<string>,
                         urls: map<string, string>, kotak: Option<string>)
    requires UniqueNames(cs) && IdsBelow(cs, next)
    ensures var (cs', _, id) := Upsert(cs, next, name, tickers, urls, kotak);
      NameIndex(cs', name).Some? && cs'[NameIndex(cs', name).value] == Company(id, name, tickers, urls, kotak)
  {
    var (cs', _, id) := Upsert(cs, next, name, tickers, urls, kotak);
    var k :| 0 <= k < |cs'| && cs'[k] == Company(id, name, tickers, urls, kotak);
    var j := NameIndex(cs', name).value;
    assert j == k;
  }

  /** Upserting the same row twice is upserting it once. */
  lemma UpsertIdempotent(cs: seq<Company>, next: nat, name: string, tickers: seq<string>,
                         urls: map<string, string>, kotak: Option<string>)
    requires UniqueNames(cs) && IdsBelow(cs, next)
    ensures var (cs', next', id) := Upsert(cs, next, name, tickers, urls, kotak);
      Upsert(cs', next', name, tickers, urls, kotak) == (cs', next', id)
  {
    var (cs', next', id) := Upsert(cs, next, name, tickers, urls, kotak);
    UpsertThenLookup(cs, next, name, tickers, urls, kotak);
    var k := NameIndex(cs', name).value;
    assert cs'[k := cs'[k].(tickers := tickers, screenerUrls := urls, kotakUrl := kotak)] == cs';
  }

  /** `ticker.upper() in [t.upper() for t in tickers]`. */
  predicate HasTicker(tickers: seq<string>, ticker: string)
  {
    exists i :: 0 <= i < |tickers| && Upper(tickers[i]) == Upper(ticker)
  }

  /** Position of the first company, in table order, listing the ticker in any case. */
  function FirstCompanyWithTicker(cs: seq<Company>, ticker: string): (r: Option<nat>)
    ensures r.Some? ==>
      && r.value < |cs| && HasTicker(cs[r.value].tickers, ticker)
      && forall j :: 0 <= j < r.value ==> !HasTicker(cs[j].tickers, ticker)
    ensures r.None? <==> forall j :: 0 <= j < |cs| ==> !HasTicker(cs[j].tickers, ticker)
  {
    if cs == [] then None
    else if HasTicker(cs[0].tickers, ticker) then Some(0)
    else match FirstCompanyWithTicker(cs[1..], ticker)
      case None => None
      case Some(k) => Some(k + 1)
  }

  /** Case does not matter to the ticker lookup. */
  lemma FirstCompanyWithTickerIgnoresCase(cs: seq<Company>, t: string, u: string)
    requires Upper(t) == Upper(u)
    ensures FirstCompanyWithTicker(cs, t) == FirstCompanyWithTicker(cs, u)
  {
    assert forall ts :: HasTicker(ts, t) == HasTicker(ts, u);
    var a, b := FirstCompanyWithTicker(cs, t), FirstCompanyWithTicker(cs, u);
    if a.Some? && b.Some? && a.value != b.value {
      assert false;
    }
  }

  // ---------------------------------------------------------------------
  // Holdings
  // ---------------------------------------------------------------------

  function HoldingIndex(hs: seq<Holding>, id: string): (r: Option<nat>)
    ensures r.Some? ==> r.value < |hs| && hs[r.value].id == id
    ensures r.None? <==> !HasHolding(hs, id)
  {
    if hs == [] then None
    else if hs[0].id == id then Some(0)
    else match HoldingIndex(hs[1..], id)
      case None =>
        assert forall i :: 1 <= i < |hs| ==> hs[i] == hs[1..][i - 1];
        None
      case Some(k) => Some(k + 1)
  }

  /** The WHERE clause of `find_existing_holding_by_ticker`: the user's row
      whose ticker equals the lower-cased input or whose symbol equals the
      upper-cased input. */
  predicate MatchesTicker(h: Holding, ticker: string, userId: int)
  {
    (h.ticker == Lower(ticker) || h.symbol == Upper(ticker)) && h.userId == userId
  }

  /** The row `fetchone` returns: the first match in table order. */
  function FirstHoldingMatch(hs: seq<Holding>, ticker: string, userId: int): (r: Option<nat>)
    ensures r.Some? ==>
      && r.value < |hs| && MatchesTicker(hs[r.value], ticker, userId)
      && forall j :: 0 <= j < r.value ==> !MatchesTicker(hs[j], ticker, userId)
    ensures r.None? <==> forall j :: 0 <= j < |hs| ==> !MatchesTicker(hs[j], ticker, userId)
  {
    if hs == [] then None
    else if MatchesTicker(hs[0], ticker, userId) then Some(0)
    else match FirstHoldingMatch(hs[1..], ticker, userId)
      case None => None
      case Some(k) => Some(k + 1)
  }

  function RemoveAt(hs: seq<Holding>, i: nat): (r: seq<Holding>)
    requires i < |hs|
    ensures |r| == |hs| - 1
    ensures forall j :: 0 <= j < i ==> r[j] == hs[j]
    ensures forall j :: i <= j < |r| ==> r[j] == hs[j + 1]
  {
    hs[..i] + hs[i + 1..]
  }

  /** Deleting a row by its primary key: that id is gone, every other row
      stays, and the ids stay unique. */
  lemma RemoveAtDeletesOnlyThatId(hs: seq<Holding>, i: nat)
    requires i < |hs| && UniqueHoldingIds(hs)
    ensures UniqueHoldingIds(RemoveAt(hs, i))
    ensures !HasHolding(RemoveAt(hs, i), hs[i].id)
    ensures forall id :: id != hs[i].id ==> (HasHolding(RemoveAt(hs, i), id) <==> HasHolding(hs, id))
  {
    var r := RemoveAt(hs, i);
    forall id | id != hs[i].id && HasHolding(hs, id)
      ensures HasHolding(r, id)
    {
      var j :| 0 <= j < |hs| && hs[j].id == id;
      if j < i { assert r[j] == hs[j]; } else { assert r[j - 1] == hs[j]; }
    }
  }

  /** The price columns `update_holding_prices` writes: each key of the
      input, or NULL when the key is missing. */
  function WithPrices(h: Holding, prices: map<string, string>, now: string): (r: Holding)
    ensures r.marketPrice == (if "marketPrice" in prices then Some(prices["marketPrice"]) else None)
    ensures r.previousClose == (if "previousClose" in prices then Some(prices["previousClose"]) else None)
    ensures r.priceChangeAmount == (if "priceChangeAmount" in prices then Some(prices["priceChangeAmount"]) else None)
    ensures r.priceChangePercent == (if "priceChangePercent" in prices then Some(prices["priceChangePercent"]) else None)
    ensures r.updatedAt == now
    ensures r.(marketPrice := h.marketPrice, previousClose := h.previousClose,
               priceChangeAmount := h.priceChangeAmount, priceChangePercent := h.priceChangePercent,
               updatedAt := h.updatedAt) == h
  {
    h.(marketPrice := Get(prices, "marketPrice"),
       previousClose := Get(prices, "previousClose"),
       priceChangeAmount := Get(prices, "priceChangeAmount"),
       priceChangePercent := Get(prices, "priceChangePercent"),
       updatedAt := now)
  }

  /** `dict.get(key)`. */
  function Get(m: map<string, string>, key: string): Option<string>
  {
    if key in m then Some(m[key]) else None
  }

  // ---------------------------------------------------------------------
  // Caches
  // ---------------------------------------------------------------------

  /** The dictionary `get_ratios_cache` / `get_quarterly_cache` builds. */
  function Lookup(cache: map<string, CacheRow>, holdingId: string): (r: Option<CachedEntry>)
    ensures r.Some? <==> holdingId in cache
    ensures r.Some? ==>
      r.value == CachedEntry(cache[holdingId].data, cache[holdingId].date, cache[holdingId].updatedTime)
  {
    if holdingId in cache then
      var row := cache[holdingId];
      Some(CachedEntry(row.data, row.date, row.updatedTime))
    else None
  }

  /** INSERT OR REPLACE followed by a read of the same holding gives back
      exactly what was written; no field of an earlier row survives. */
  lemma SaveThenLookup(cache: map<string, CacheRow>, holdingId: string, userId: int,
                       data: Json, date: string, time: string)
    ensures Lookup(cache[holdingId := CacheRow(userId, data, date, time)], holdingId)
      == Some(CachedEntry(data, date, time))
  {
  }

  // ---------------------------------------------------------------------
  // Suggestions
  // ---------------------------------------------------------------------

  /** SQLite's LIKE: '%' matches any run, '_' any one character, and other
      characters match ignoring ASCII case. */
  predicate LikeMatch(s: string, p: string)
    decreases |s| + |p|
  {
    if p == [] then s == []
    else if p[0] == '%' then LikeMatch(s, p[1..]) || (s != [] && LikeMatch(s[1..], p))
    else s != [] && (p[0] == '_' || LowerChar(s[0]) == LowerChar(p[0])) && LikeMatch(s[1..], p[1..])
  }

  predicate NoWildcards(q: string)
  {
    forall i :: 0 <= i < |q| ==> q[i] != '%' && q[i] != '_'
  }

  lemma {:induction false} PercentMatchesAll(s: string)
    ensures LikeMatch(s, "%")
  {
    if s != [] {
      PercentMatchesAll(s[1..]);
    }
  }

  /** `q%` with a literal `q` is a case-insensitive prefix test. */
  lemma {:induction false} LikePrefix(s: string, q: string)
    requires NoWildcards(q)
    ensures LikeMatch(s, q + "%") <==> |q| <= |s| && Lower(s[..|q|]) == Lower(q)
  {
    if q == [] {
      assert q + "%" == "%";
      PercentMatchesAll(s);
    } else {
      assert (q + "%")[1..] == q[1..] + "%";
      if s != [] {
        LikePrefix(s[1..], q[1..]);
        if |q| <= |s| {
          assert s[..|q|] == [s[0]] + s[1..][..|q| - 1];
          assert q == [q[0]] + q[1..];
          LowerAppend([s[0]], s[1..][..|q| - 1]);
          LowerAppend([q[0]], q[1..]);
          assert Lower(s[..|q|]) == Lower(q) <==>
            LowerChar(s[0]) == LowerChar(q[0]) && Lower(s[1..][..|q| - 1]) == Lower(q[1..]);
        }
      }
    }
  }

  /** A leading `%` lets the rest match at any position. */
  lemma {:induction false} LikeAnyStart(s: string, r: string)
    ensures LikeMatch(s, "%" + r) <==> exists i :: 0 <= i <= |s| && LikeMatch(s[i..], r)
  {
    assert ("%" + r)[1..] == r;
    assert s[0..] == s;
    if s != [] {
      LikeAnyStart(s[1..], r);
      forall i | 1 <= i <= |s| ensures s[i..] == s[1..][i - 1..] { }
      if exists i :: 0 <= i <= |s| && LikeMatch(s[i..], r) {
        var i :| 0 <= i <= |s| && LikeMatch(s[i..], r);
        if i > 0 {
          assert LikeMatch(s[1..][i - 1..], r);
        }
      }
      if LikeMatch(s[1..], "%" + r) {
        var i :| 0 <= i <= |s[1..]| && LikeMatch(s[1..][i..], r);
        assert LikeMatch(s[i + 1..], r);
      }
    }
  }

  /** The filter `x LIKE '%q%'` of the suggestion query, for a query without
      wildcard characters, is a case-insensitive substring test. */
  lemma LikeContains(s: string, q: string)
    requires NoWildcards(q)
    ensures LikeMatch(s, "%" + q + "%") <==> Contains(Lower(s), Lower(q))
  {
    assert "%" + q + "%" == "%" + (q + "%");
    LikeAnyStart(s, q + "%");
    if LikeMatch(s, "%" + q + "%") {
      var i :| 0 <= i <= |s| && LikeMatch(s[i..], q + "%");
      PrefixMatchAt(s, q, i);
    }
    if Contains(Lower(s), Lower(q)) {
      var i :| 0 <= i <= |Lower(s)| - |Lower(q)| && SliceAt(Lower(s), Lower(q), i);
      PrefixMatchAt(s, q, i);
    }
  }

  /** `q%` matches the text from index `i` exactly when the lower-cased
      query occurs in the lower-cased text at `i`. */
  lemma {:induction false} PrefixMatchAt(s: string, q: string, i: nat)
    requires NoWildcards(q) && i <= |s|
    ensures LikeMatch(s[i..], q + "%") <==> SliceAt(Lower(s), Lower(q), i)
  {
    LikePrefix(s[i..], q);
    if i + |q| <= |s| {
      assert s[i..][..|q|] == s[i..i + |q|];
      LowerSlice(s, i, i + |q|);
    }
  }

  lemma {:induction false} LowerSlice(s: string, i: nat, j: nat)
    requires i <= j <= |s|
    ensures Lower(s)[i..j] == Lower(s[i..j])
  {
    var l, m := Lower(s)[i..j], Lower(s[i..j]);
    forall k | 0 <= k < |l| ensures l[k] == m[k] {
      assert l[k] == Lower(s)[i + k];
      assert s[i..j][k] == s[i + k];
    }
  }

  /** `json.dumps` of a list of plain strings: `["A", "B"]`. */
  function JsonList(xs: seq<string>): string
  {
    "[" + Join(", ", Quoted(xs)) + "]"
  }

  function Quoted(xs: seq<string>): (r: seq<string>)
    ensures |r| == |xs|
    ensures forall i :: 0 <= i < |xs| ==> r[i] == "\"" + xs[i] + "\""
  {
    if xs == [] then [] else ["\"" + xs[0] + "\""] + Quoted(xs[1..])
  }

  /** `WHERE name LIKE '%q%' OR tickers LIKE '%q%'`, the tickers column being JSON text. */
  predicate SuggestionMatch(c: Company, q: string)
  {
    LikeMatch(c.name, "%" + q + "%") || LikeMatch(JsonList(c.tickers), "%" + q + "%")
  }

  function FilterMatching(cs: seq<Company>, q: string): (r: seq<Company>)
    ensures forall c :: c in r <==> c in cs && SuggestionMatch(c, q)
    ensures multiset(r) <= multiset(cs)
  {
    if cs == [] then []
    else
      assert cs == [cs[0]] + cs[1..];
      (if SuggestionMatch(cs[0], q) then [cs[0]] else []) + FilterMatching(cs[1..], q)
  }

  /** BINARY collation: code-point lexicographic order (the same order as
      comparing the UTF-8 bytes). */
  predicate NameLe(a: string, b: string)
  {
    a == [] || (b != [] && (a[0] < b[0] || (a[0] == b[0] && NameLe(a[1..], b[1..]))))
  }

  lemma {:induction false} NameLeTotal(a: string, b: string)
    ensures NameLe(a, b) || NameLe(b, a)
  {
    if a != [] && b != [] && a[0] == b[0] {
      NameLeTotal(a[1..], b[1..]);
    }
  }

  lemma {:induction false} NameLeTrans(a: string, b: string, c: string)
    requires NameLe(a, b) && NameLe(b, c)
    ensures NameLe(a, c)
  {
    if a != [] && b != [] && c != [] && a[0] == b[0] && b[0] == c[0] {
      NameLeTrans(a[1..], b[1..], c[1..]);
    }
  }

  lemma {:induction false} NameLeAntisymmetric(a: string, b: string)
    requires NameLe(a, b) && NameLe(b, a)
    ensures a == b
  {
    if a != [] && b != [] {
      NameLeAntisymmetric(a[1..], b[1..]);
      assert a == [a[0]] + a[1..];
      assert b == [b[0]] + b[1..];
    }
  }

  predicate SortedByName(cs: seq<Company>)
  {
    forall i, j :: 0 <= i < j < |cs| ==> NameLe(cs[i].name, cs[j].name)
  }

  function InsertByName(c: Company, s: seq<Company>): (r: seq<Company>)
    requires SortedByName(s)
    ensures SortedByName(r)
    ensures multiset(r) == multiset(s) + multiset{c}
  {
    if s == [] || NameLe(c.name, s[0].name) then
      forall j | 0 <= j < |s| ensures NameLe(c.name, s[j].name) {
        if j > 0 { NameLeTrans(c.name, s[0].name, s[j].name); }
      }
      [c] + s
    else
      NameLeTotal(c.name, s[0].name);
      var t := InsertByName(c, s[1..]);
      assert s == [s[0]] + s[1..];
      HeadBelowInsert(c, s, t);
      [s[0]] + t
  }

  /** The head of a sorted list stays below everything once `c`, which
      sorts after it, is inserted into the rest. */
  lemma {:induction false} HeadBelowInsert(c: Company, s: seq<Company>, t: seq<Company>)
    requires s != [] && SortedByName(s) && NameLe(s[0].name, c.name)
    requires multiset(t) == multiset(s[1..]) + multiset{c}
    ensures forall j :: 0 <= j < |t| ==> NameLe(s[0].name, t[j].name)
  {
    forall j | 0 <= j < |t| ensures NameLe(s[0].name, t[j].name) {
      assert t[j] in multiset(t);
      if t[j] != c {
        assert t[j] in multiset(s[1..]);
        var k :| 0 <= k < |s[1..]| && s[1..][k] == t[j];
        assert s[k + 1] == t[j];
      }
    }
  }

  /** `ORDER BY name`. */
  function SortByName(cs: seq<Company>): (r: seq<Company>)
    ensures SortedByName(r)
    ensures multiset(r) == multiset(cs)
  {
    if cs == [] then []
    else
      assert cs == [cs[0]] + cs[1..];
      InsertByName(cs[0], SortByName(cs[1..]))
  }

  lemma {:induction false} NameLeReflexive(a: string)
    ensures NameLe(a, a)
  {
    if a != [] {
      NameLeReflexive(a[1..]);
    }
  }

  /** Under unique names the sorted order is the only one: two sorted
      arrangements of the same rows are equal. */
  lemma {:induction false} SortedUnique(a: seq<Company>, b: seq<Company>)
    requires SortedByName(a) && SortedByName(b) && multiset(a) == multiset(b)
    requires UniqueNames(a)
    ensures a == b
  {
    if a != [] {
      assert |b| == |a| by { assert |multiset(b)| == |multiset(a)|; }
      SortedSameHead(a, b);
      assert a == [a[0]] + a[1..];
      assert b == [b[0]] + b[1..];
      TailMultiset(a);
      TailMultiset(b);
      UniqueNamesTail(a);
      SortedUnique(a[1..], b[1..]);
    }
  }

  /** Two sorted arrangements of the same rows, names unique, start alike. */
  lemma {:induction false} SortedSameHead(a: seq<Company>, b: seq<Company>)
    requires SortedByName(a) && SortedByName(b) && multiset(a) == multiset(b)
    requires UniqueNames(a) && a != []
    ensures b != [] && a[0] == b[0]
  {
    assert a[0] in multiset(b);
    assert b != [];
    assert b[0] in multiset(a);
    var i :| 0 <= i < |b| && b[i] == a[0];
    var j :| 0 <= j < |a| && a[j] == b[0];
    NameLeReflexive(a[0].name);
    NameLeReflexive(b[0].name);
    assert NameLe(b[0].name, a[0].name) by {
      if i > 0 { assert NameLe(b[0].name, b[i].name); }
    }
    assert NameLe(a[0].name, b[0].name) by {
      if j > 0 { assert NameLe(a[0].name, a[j].name); }
    }
    NameLeAntisymmetric(a[0].name, b[0].name);
    assert j == 0;
  }

  lemma {:induction false} TailMultiset(a: seq<Company>)
    requires a != []
    ensures multiset(a[1..]) == multiset(a) - multiset{a[0]}
  {
    assert a == [a[0]] + a[1..];
    assert multiset(a) == multiset{a[0]} + multiset(a[1..]);
  }

  lemma {:induction false} UniqueNamesTail(a: seq<Company>)
    requires UniqueNames(a) && a != []
    ensures UniqueNames(a[1..])
  {
    forall p, q | 0 <= p < q < |a[1..]| ensures a[1..][p].name != a[1..][q].name {
      assert a[1..][p] == a[p + 1] && a[1..][q] == a[q + 1];
    }
  }

  /** `min(tickers, key=len)`: the first of the shortest tickers. */
  function ShortestIndex(ts: seq<string>): (r: nat)
    requires ts != []
    ensures r < |ts|
    ensures forall j :: 0 <= j < |ts| ==> |ts[r]| <= |ts[j]|
    ensures forall j :: 0 <= j < r ==> |ts[j]| > |ts[r]|
  {
    if |ts| == 1 then 0
    else
      var k := ShortestIndex(ts[..|ts| - 1]);
      if |ts[|ts| - 1]| < |ts[k]| then |ts| - 1 else k
  }

  /** The tickers other than `x`, in their order, repeats kept. */
  function Without(ts: seq<string>, x: string): (r: seq<string>)
    ensures forall t :: t in r <==> t in ts && t != x
    ensures |r| <= |ts|
  {
    if ts == [] then []
    else (if ts[0] != x then [ts[0]] else []) + Without(ts[1..], x)
  }

  /** Filtering distributes over concatenation, so the order of the
      remaining entries is their order in the input. */
  lemma {:induction false} WithoutAppend(a: seq<string>, b: seq<string>, x: string)
    ensures Without(a + b, x) == Without(a, x) + Without(b, x)
  {
    if a == [] {
      assert a + b == b;
    } else {
      assert (a + b)[0] == a[0];
      assert (a + b)[1..] == a[1..] + b;
      WithoutAppend(a[1..], b, x);
    }
  }

  /** A list without `x` is kept whole, repeats included. */
  lemma {:induction false} WithoutAbsent(ts: seq<string>, x: string)
    requires x !in ts
    ensures Without(ts, x) == ts
  {
    if ts != [] {
      WithoutAbsent(ts[1..], x);
    }
  }

  /** One suggestion row: the primary ticker, and the display form "P (A, B)"
      listing every other ticker when there are several. `min` of an empty
      list raises. */
  function FormatSuggestion(c: Company): (r: Result<Suggestion, string>)
    ensures r.Err? <==> c.tickers == []
    ensures r.Ok? ==>
      var p := c.tickers[ShortestIndex(c.tickers)];
      && r.value.ticker == p
      && r.value.companyName == c.name
      && r.value.allTickers == c.tickers
      && IsPrefix(p, r.value.displayTicker)
      && (|c.tickers| == 1 <==> r.value.displayTicker == p)
      && (|c.tickers| > 1 ==> r.value.displayTicker == p + " (" + Join(", ", Without(c.tickers, p)) + ")")
  {
    if c.tickers == [] then Err("min() arg is an empty sequence")
    else
      var p := c.tickers[ShortestIndex(c.tickers)];
      var display := p + (if |c.tickers| > 1 then " (" + Join(", ", Without(c.tickers, p)) + ")" else "");
      assert display[..|p|] == p;
      Ok(Suggestion(p, c.name, display, c.tickers))
  }

  /** The rows the suggestion query returns: matching rows in name order, at most ten. */
  function SuggestionRows(cs: seq<Company>, q: string): (r: seq<Company>)
    ensures |r| <= 10
    ensures SortedByName(r)
    ensures forall c :: c in r ==> c in cs && SuggestionMatch(c, q)
    ensures multiset(r) <= multiset(cs)
  {
    var f := FilterMatching(cs, q);
    var sorted := SortByName(f);
    var n := if |sorted| <= 10 then |sorted| else 10;
    PrefixSubMultiset(sorted, n);
    var r := sorted[..n];
    assert forall c :: c in r ==> c in multiset(f);
    r
  }

  lemma PrefixSubMultiset<T>(s: seq<T>, n: nat)
    requires n <= |s|
    ensures multiset(s[..n]) <= multiset(s)
  {
    assert s == s[..n] + s[n..];
  }

  /** No matching row is skipped in favour of a later name: every matching
      row left out of a full page of ten sorts after all ten shown. */
  lemma {:induction false} SuggestionRowsArePrefix(cs: seq<Company>, q: string, c: Company)
    requires c in cs && SuggestionMatch(c, q)
    requires c !in SuggestionRows(cs, q)
    ensures |SuggestionRows(cs, q)| == 10
    ensures forall i :: 0 <= i < 10 ==> NameLe(SuggestionRows(cs, q)[i].name, c.name)
  {
    var f := FilterMatching(cs, q);
    var sorted := SortByName(f);
    assert c in multiset(sorted);
    var k :| 0 <= k < |sorted| && sorted[k] == c;
    assert k >= 10;
  }

  // ---------------------------------------------------------------------
  // The tables
  // ---------------------------------------------------------------------

  class Store {
    var companies: seq<Company>
    var nextCompanyId: nat
    var holdings: seq<Holding>
    var ratiosCache: map<string, CacheRow>
    var quarterlyCache: map<string, CacheRow>

    /** The constraints the schema enforces. */
    ghost predicate Valid()
      reads this
    {
      && UniqueNames(companies)
      && IdsBelow(companies, nextCompanyId)
      && UniqueHoldingIds(holdings)
      && CacheKeysHeld(ratiosCache, holdings)
      && CacheKeysHeld(quarterlyCache, holdings)
    }

    /** `init_database` on an empty file. */
    constructor ()
      ensures Valid()
      ensures companies == [] && nextCompanyId == 1 && holdings == []
      ensures ratiosCache == map[] && quarterlyCache == map[]
    {
      companies := [];
      nextCompanyId := 1;
      holdings := [];
      ratiosCache := map[];
      quarterlyCache := map[];
    }

    /** `get_or_create_company`. */
    method GetOrCreateCompany(name: string, tickers: seq<string>, urls: map<string, string>, kotak: Option<string>)
      returns (id: nat)
      requires Valid()
      modifies this
      ensures Valid()
      ensures (companies, nextCompanyId, id) == Upsert(old(companies), old(nextCompanyId), name, tickers, urls, kotak)
      ensures holdings == old(holdings) && ratiosCache == old(ratiosCache) && quarterlyCache == old(quarterlyCache)
    {
      var r := Upsert(companies, nextCompanyId, name, tickers, urls, kotak);
      companies, nextCompanyId, id := r.0, r.1, r.2;
    }

    /** `find_company_by_ticker`: the rows are scanned in table order and the
        first one listing the ticker, ignoring case, is returned. */
    method FindCompanyByTicker(ticker: string) returns (c: Option<Company>)
      ensures c.None? <==> forall j :: 0 <= j < |companies| ==> !HasTicker(companies[j].tickers, ticker)
      ensures c.Some? ==>
        && FirstCompanyWithTicker(companies, ticker).Some?
        && c.value == companies[FirstCompanyWithTicker(companies, ticker).value]
    {
      var i := 0;
      while i < |companies|
        invariant 0 <= i <= |companies|
        invariant forall j :: 0 <= j < i ==> !HasTicker(companies[j].tickers, ticker)
      {
        var tickers := companies[i].tickers;
        var k := 0;
        var found := false;
        while k < |tickers| && !found
          invariant 0 <= k <= |tickers|
          invariant found <==> k > 0 && Upper(tickers[k - 1]) == Upper(ticker)
          invariant forall j :: 0 <= j < k - 1 ==> Upper(tickers[j]) != Upper(ticker)
          invariant !found ==> forall j :: 0 <= j < k ==> Upper(tickers[j]) != Upper(ticker)
        {
          found := Upper(tickers[k]) == Upper(ticker);
          k := k + 1;
        }
        if found {
          return Some(companies[i]);
        }
        i := i + 1;
      }
      return None;
    }

    /** `find_existing_holding_by_ticker`. */
    function FindExistingHoldingByTicker(ticker: string, userId: int): (r: Option<Holding>)
      reads this
      ensures r.Some? ==> r.value in holdings && MatchesTicker(r.value, ticker, userId)
      ensures r.None? <==> forall j :: 0 <= j < |holdings| ==> !MatchesTicker(holdings[j], ticker, userId)
    {
      match FirstHoldingMatch(holdings, ticker, userId)
      case None => None
      case Some(k) => Some(holdings[k])
    }

    /** `update_holding_prices`: the four quote columns and `updated_at` of
        that one holding; an unknown id changes nothing. */
    method UpdateHoldingPrices(holdingId: string, prices: map<string, string>, now: string)
      requires Valid()
      modifies this
      ensures Valid()
      ensures match HoldingIndex(old(holdings), holdingId)
        case None => holdings == old(holdings)
        case Some(i) => holdings == old(holdings)[i := WithPrices(old(holdings)[i], prices, now)]
      ensures companies == old(companies) && nextCompanyId == old(nextCompanyId)
      ensures ratiosCache == old(ratiosCache) && quarterlyCache == old(quarterlyCache)
    {
      match HoldingIndex(holdings, holdingId)
      case None =>
      case Some(i) =>
        var h := WithPrices(holdings[i], prices, now);
        holdings := holdings[i := h];
        assert forall j :: 0 <= j < |holdings| ==> holdings[j].id == old(holdings)[j].id;
        forall k | k in ratiosCache ensures HasHolding(holdings, k) {
          var j :| 0 <= j < |old(holdings)| && old(holdings)[j].id == k;
          assert holdings[j].id == k;
        }
        forall k | k in quarterlyCache ensures HasHolding(holdings, k) {
          var j :| 0 <= j < |old(holdings)| && old(holdings)[j].id == k;
          assert holdings[j].id == k;
        }
    }

    /** `sell_holding_shares`: False for an unknown id; selling at least the
        held quantity deletes the holding (and, through ON DELETE CASCADE, its
        cache rows); otherwise the quantity goes down by the amount sold. */
    method SellHoldingShares(holdingId: string, sellQuantity: int, now: string) returns (ok: bool)
      requires Valid()
      modifies this
      ensures Valid()
      ensures ok <==> HasHolding(old(holdings), holdingId)
      ensures match HoldingIndex(old(holdings), holdingId)
        case None =>
          holdings == old(holdings) && ratiosCache == old(ratiosCache) && quarterlyCache == old(quarterlyCache)
        case Some(i) =>
          if sellQuantity >= old(holdings)[i].quantity then
            holdings == RemoveAt(old(holdings), i)
            && ratiosCache == old(ratiosCache) - {holdingId}
            && quarterlyCache == old(quarterlyCache) - {holdingId}
          else
            holdings == old(holdings)[i := old(holdings)[i].(quantity := old(holdings)[i].quantity - sellQuantity, updatedAt := now)]
            && ratiosCache == old(ratiosCache) && quarterlyCache == old(quarterlyCache)
      ensures companies == old(companies) && nextCompanyId == old(nextCompanyId)
    {
      match HoldingIndex(holdings, holdingId)
      case None =>
        return false;
      case Some(i) =>
        var current := holdings[i].quantity;
        if sellQuantity >= current {
          RemoveAtDeletesOnlyThatId(holdings, i);
          holdings := RemoveAt(holdings, i);
          ratiosCache := ratiosCache - {holdingId};
          quarterlyCache := quarterlyCache - {holdingId};
        } else {
          holdings := holdings[i := holdings[i].(quantity := current - sellQuantity, updatedAt := now)];
          assert forall j :: 0 <= j < |holdings| ==> holdings[j].id == old(holdings)[j].id;
          forall k | k in ratiosCache ensures HasHolding(holdings, k) {
            var j :| 0 <= j < |old(holdings)| && old(holdings)[j].id == k;
            assert holdings[j].id == k;
          }
          forall k | k in quarterlyCache ensures HasHolding(holdings, k) {
            var j :| 0 <= j < |old(holdings)| && old(holdings)[j].id == k;
            assert holdings[j].id == k;
          }
        }
        return true;
    }

    /** `save_ratios_cache`: INSERT OR REPLACE keyed by the unique holding id.
        The foreign key makes the insert fail for an unknown holding, which
        is `ok == false` with nothing written. */
    method SaveRatiosCache(holdingId: string, data: Json, date: string, time: string, userId: int)
      returns (ok: bool)
      requires Valid()
      modifies this
      ensures Valid()
      ensures ok <==> HasHolding(holdings, holdingId)
      ensures ok ==> ratiosCache == old(ratiosCache)[holdingId := CacheRow(userId, data, date, time)]
      ensures !ok ==> ratiosCache == old(ratiosCache)
      ensures ok ==> GetRatiosCache(holdingId) == Some(CachedEntry(data, date, time))
      ensures companies == old(companies) && nextCompanyId == old(nextCompanyId)
      ensures holdings == old(holdings) && quarterlyCache == old(quarterlyCache)
    {
      ok := HoldingIndex(holdings, holdingId).Some?;
      if ok {
        ratiosCache := ratiosCache[holdingId := CacheRow(userId, data, date, time)];
        SaveThenLookup(old(ratiosCache), holdingId, userId, data, date, time);
      }
    }

    /** `get_ratios_cache`. */
    function GetRatiosCache(holdingId: string): (r: Option<CachedEntry>)
      reads this
      ensures r.Some? <==> holdingId in ratiosCache
      ensures r.Some? ==>
        && r.value.data == ratiosCache[holdingId].data && r.value.date == ratiosCache[holdingId].date
        && r.value.updatedTime == ratiosCache[holdingId].updatedTime
    {
      Lookup(ratiosCache, holdingId)
    }

    /** `save_quarterly_cache`: the same contract over the quarterly table. */
    method SaveQuarterlyCache(holdingId: string, data: Json, date: string, time: string, userId: int)
      returns (ok: bool)
      requires Valid()
      modifies this
      ensures Valid()
      ensures ok <==> HasHolding(holdings, holdingId)
      ensures ok ==> quarterlyCache == old(quarterlyCache)[holdingId := CacheRow(userId, data, date, time)]
      ensures !ok ==> quarterlyCache == old(quarterlyCache)
      ensures ok ==> GetQuarterlyCache(holdingId) == Some(CachedEntry(data, date, time))
      ensures companies == old(companies) && nextCompanyId == old(nextCompanyId)
      ensures holdings == old(holdings) && ratiosCache == old(ratiosCache)
    {
      ok := HoldingIndex(holdings, holdingId).Some?;
      if ok {
        quarterlyCache := quarterlyCache[holdingId := CacheRow(userId, data, date, time)];
        SaveThenLookup(old(quarterlyCache), holdingId, userId, data, date, time);
      }
    }

    /** `get_quarterly_cache`. */
    function GetQuarterlyCache(holdingId: string): (r: Option<CachedEntry>)
      reads this
      ensures r.Some? <==> holdingId in quarterlyCache
      ensures r.Some? ==>
        && r.value.data == quarterlyCache[holdingId].data && r.value.date == quarterlyCache[holdingId].date
        && r.value.updatedTime == quarterlyCache[holdingId].updatedTime
    {
      Lookup(quarterlyCache, holdingId)
    }

    /** `get_companies_for_suggestions`: the matching rows in name order, at
        most ten, each formatted in turn; a row without tickers makes the
        whole call fail. */
    method GetCompaniesForSuggestions(query: string) returns (r: Result<seq<Suggestion>, string>)
      ensures var rows := SuggestionRows(companies, query);
        && (r.Err? <==> exists i :: 0 <= i < |rows| && rows[i].tickers == [])
        && (r.Ok? ==>
              && |r.value| == |rows|
              && forall i :: 0 <= i < |rows| ==> FormatSuggestion(rows[i]) == Ok(r.value[i]))
    {
      var rows := SuggestionRows(companies, query);
      var out: seq<Suggestion> := [];
      var i := 0;
      while i < |rows|
        invariant 0 <= i <= |rows|
        invariant |out| == i
        invariant forall j :: 0 <= j < i ==> rows[j].tickers != [] && FormatSuggestion(rows[j]) == Ok(out[j])
      {
        match FormatSuggestion(rows[i])
        case Err(e) =>
          return Err(e);
        case Ok(s) =>
          out := out + [s];
        i := i + 1;
      }
      return Ok(out);
    }
  }
}

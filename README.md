# StockDash backend core, modelled in Dafny

This project models the data-resolution and caching layer of the StockDash
portfolio backend and proves properties of it. That layer covers:

- the lightweight quote path: `parse_price`, and the parsing of the
  quote-site page into price, previous close and price change;
- quote-site URL discovery: `format_for_url`, the slug variations, and the
  first-success probe;
- the company resolution and alias merge of the stock-price route;
- the SQLite tables, held as values in a `Store` class:
  - the company registry, with upsert by unique name and case-insensitive
    ticker lookup;
  - the holdings, with sell as decrement-or-delete and the price-column
    update;
  - the two day-granular caches, with INSERT OR REPLACE;
  - the suggestion query;
- the freshness rule of the cache helpers;
- the ratio scraper: extraction of the name → record map, and the browser
  session as a step chain over abstract outcomes;
- registration, login and the bearer-token check.

HTML pages, HTTP responses and the browser are abstract values. Every fetch
is a function parameter (an oracle from URL to response). Password hashing
and token signing/decoding are parameters too. "Today" and "now" are
arguments.

Modules, one per file:

| file | module | source |
|---|---|---|
| text.dfy | `Text` | Python string built-ins used by the core (`strip`, `lower`, `upper`, `re.sub` filters, `replace`) |
| quote.dfy | `Quote` | `parse_price`, `get_kotak_price_from_url` |
| slug.dfy | `Slug` | `find_working_kotak_url` and its inner functions |
| database.dfy | `Database` | the tables and operations of `database.py` |
| cache.dfy | `Freshness` | `is_data_fresh`, `get_cached_*_by_ticker`, `save_*_to_cache_by_ticker` |
| resolver.dfy | `StockPrice` | `get_company_name_from_screener`, `get_stock_price` |
| scraper.dfy | `Scraper` | `_parse_ratios_from_page`, `scrape_screener_ratios` |
| auth.dfy | `Auth` | `register_user`, `login_user`, `jwt_required`, and the user lookups |

Where the prose design of the system and the code disagree, the model
follows the code:

- The "Prev. Close" label test is a case-sensitive substring test.
- Ratio items are gathered from the whole page, not only from inside the
  `top-ratios` list. Only the first number span of a value is used, and
  nothing is joined with " / ".
- The unit is the value text with the number removed, then stripped. No
  currency or slash normalisation is done.
- The alias merge looks up the screener name, with spaces removed and
  upper-cased, as a ticker; it never matches by exact name. It then upserts
  under the screener name. When no company has the screener name yet, a
  second company is created holding all the old tickers. So "every ticker
  maps to exactly one company" does not hold in the code.
  `StockPrice.AliasMergeUnderAnotherName` states this. When a third
  company already has the screener name, no row is created: that company's
  tickers, screener URLs and quote-site URL are overwritten with the found
  row's merged data, which `StockPrice.AliasMergeOverThirdCompany` states.

## Model

| member | source | states |
|---|---|---|
| Text.KeepNumericIdempotent | backend/app.py:155 | Removing every character other than digits and '.' a second time changes nothing |
| Text.StripIdempotent | backend/app.py:327 | Stripping whitespace twice is stripping it once |
| Text.RemoveAllLength | backend/scraper.py:150 | Removing every occurrence of a non-empty pattern shortens the text by the pattern length times the number of occurrences |
| Quote.ParsePrice | backend/app.py:148-156 | None gives 0; an int or float passes through. Other text keeps only digits and dots. An empty result gives 0. The call fails exactly when the cleaned text is non-empty and has two or more dots or no digit, which is where `float()` raises. A success is never negative |
| Quote.ParsePriceOfCleaned | backend/app.py:155-156 | Parsing the cleaned text gives the same outcome as parsing the raw text |
| Quote.ParsePriceOfDigits | backend/app.py:155-156 | A plain run of digits parses to the integer it writes |
| Quote.ParsePriceOfDecimal | backend/app.py:155-156 | Text "a.b" of digits parses to the integer written by all its digits divided by ten to the number of digits after the dot |
| Quote.LeadingAmount | backend/app.py:303-305 | The group of the anchored amount regex; what it means is stated by LeadingAmountIsGreedyMatch |
| Quote.FirstPercent | backend/app.py:307-309 | The group of the percentage search; what it means is stated by FirstPercentIsLeftmostMatch |
| Quote.SplitPriceChange | backend/app.py:299-309 | An absent or empty change text gives neither part. The amount is the longest signed-number prefix of the stripped text, absent exactly when no prefix is one. The percent is the leftmost percentage match of the unstripped text, absent exactly when there is none |
| Quote.LeadingAmountIsGreedyMatch | backend/app.py:303-305 | The change amount is the longest prefix matching `[+-]?[\d.]+`; it is absent exactly when no prefix matches |
| Quote.FirstPercentIsLeftmostMatch | backend/app.py:307-309 | The change percent is the group of the leftmost match of `\(([+-]?[\d.]+%)\)`; it is absent exactly when there is no match anywhere |
| Quote.PercentAtUnique | backend/app.py:307 | At one position the percentage pattern has at most one match, so the leftmost match is well defined |
| Quote.NumRunUnique | backend/app.py:303 | A prefix of digits and dots followed by another character, or by the end, is the greedy run |
| Quote.NumericOrZero | backend/app.py:292-294 | The previous close is the digits and dots of the cell text, and "0" exactly when none remain |
| Quote.StripKeepNumeric | backend/app.py:292-293 | Stripping the cell text before filtering it does not change the result |
| Quote.PrevCloseOf | backend/app.py:284-296 | A value is found only from the first row whose label contains "Prev. Close" (case-sensitive) and that has a value cell. Nothing is found exactly when no such row has a value cell |
| Quote.ScanPrevClose | backend/app.py:286-296 | The row loop with its `break` computes exactly the previous close of the first "Prev. Close" row |
| Quote.KotakQuote | backend/app.py:256-320 | A quote exists exactly for a 200 response. Its price is the stripped price text, present exactly when the container and its price div exist. The previous close comes from the first "Prev. Close" row. Amount and percent are the two independent captures of the change text |
| Quote.FetchKotakQuote | backend/app.py:262-316 | The step-by-step fetch computes exactly the quote above |
| Slug.UnwrapParens | backend/app.py:331 | Unwrapping parentheses adds no upper-case letter |
| Slug.UnwrapGroup | backend/app.py:331 | Text before the first "(" is kept, the group it opens is replaced by its contents up to the first ")", and the scan continues after that ")" |
| Slug.UnwrapPlainPrefix | backend/app.py:331 | Text without "(" in front of the rest is copied unchanged |
| Slug.UnwrapWithoutOpen | backend/app.py:331 | Text without "(" is left as it is |
| Slug.DropGroup | backend/app.py:340 | The group-dropping substitution removes the first group with its parentheses and keeps the text before it |
| Slug.KeepUrlChars | backend/app.py:332 | Only word characters, whitespace and '-' survive, and no upper-case letter is added |
| Slug.SpacesToHyphens | backend/app.py:333 | Each plain space, and only that, becomes '-' |
| Slug.CollapseHyphens | backend/app.py:334 | No "--" remains, the character set is kept, and the first character is kept |
| Slug.FormatForUrl | backend/app.py:329-335 | Every slug is lower-case and has no plain space, no parenthesis and no "--". It neither starts nor ends with '-' |
| Slug.FormatForUrlUnwrapsParens | backend/app.py:331 | For a text x without ")", the slug of "(" + x + ")" equals the slug of x: one enclosing pair of parentheses changes nothing. What the slug of x contains is stated by FormatForUrlOfPlainWords |
| Slug.KeepUrlCharsAppend | backend/app.py:332 | The filter works character by character: filtering a + b gives the filtered a followed by the filtered b |
| Slug.KeepUrlCharsOne | backend/app.py:332 | A single character is kept exactly when it is a word character, whitespace or '-', and is dropped otherwise |
| Slug.KeepUrlCharsOfUrl | backend/app.py:332 | Text made only of word characters, whitespace and '-' passes through unchanged |
| Slug.SpacesToHyphensAppend | backend/app.py:333 | Replacing spaces works character by character over a concatenation |
| Slug.CollapseWithoutDouble | backend/app.py:334 | Text without "--" passes through the collapse unchanged |
| Slug.CollapsePlainPrefix | backend/app.py:334 | Text without '-' in front of the rest is copied unchanged, and the rest is collapsed on its own |
| Slug.CollapseRun | backend/app.py:334 | A run of one or more '-' followed by something other than '-' becomes a single '-' |
| Slug.TrimHyphensStart | backend/app.py:335 | The result is a suffix of the text that does not start with '-', and everything removed before it is '-' |
| Slug.TrimHyphensEnd | backend/app.py:335 | The result is a prefix of the text that does not end with '-', and everything removed after it is '-' |
| Slug.TrimHyphensNoEdge | backend/app.py:335 | Text that neither starts nor ends with '-' is not trimmed |
| Slug.FormatForUrlOfPlainWords | backend/app.py:329-335 | For words of ASCII letters and digits separated by single spaces, the slug is the text lower-cased with each space turned into '-': every letter and digit is kept, in order |
| Slug.FormatForUrlOfPlainLtd | backend/app.py:329-335 | For such words s, the slug of s + " Ltd" is the slug of s followed by "-ltd" |
| Slug.DedupProperties | backend/app.py:343-364 | Reference definition of the variation list: the distinct entries in order of first appearance, none lost, the first kept |
| Slug.KeepFirstOfFourIsDedup | backend/app.py:337-366 | The chain of "append if not already listed" tests over four candidates is exactly the reference de-duplication |
| Slug.BaseVariations | backend/app.py:325-366 | The base list has 1 to 4 entries; its contents are stated by BaseVariationsAreDistinctCandidates |
| Slug.BaseVariationsAreDistinctCandidates | backend/app.py:325-366 | The base list has 1 to 4 distinct entries. The first is the slug of the stripped name. It holds every candidate (full name, without parentheses, without " Ltd"/" Limited", both) and nothing else |
| Slug.DropWithoutOpen | backend/app.py:340 | Text without "(" has nothing to drop |
| Slug.CollapseSingleSpaced | backend/app.py:341 | Text of ASCII letters and digits with single spaces has no whitespace run to collapse |
| Slug.PlainWordsClean | backend/app.py:327-341 | Stripping, dropping parentheses and collapsing whitespace leave such words unchanged |
| Slug.BaseVariationsOfPlainLtd | backend/app.py:325-366 | For such words s (e.g. "Tata Consultancy Services"), the base list of s + " Ltd" is exactly [slug(s) + "-ltd", slug(s)], with slug(s) = s lower-cased and hyphenated. The parenthesis-free candidates repeat the first two and are not listed again |
| Slug.WithBse | backend/app.py:369 | The full list is the base list followed by the same entries prefixed "bse-", so no prefixed entry precedes an unprefixed one |
| Slug.AllVariations | backend/app.py:368-369 | At least 2 and at most 8 candidates |
| Slug.FirstWithPrice | backend/app.py:375-393 | The winner is the first candidate, in list order, whose GET answers 200 with a price div; there is none exactly when every candidate fails |
| Slug.ProbeInOrder | backend/app.py:375-393 | The loop returns the winner's stripped price and URL, or (None, None) after trying every candidate. The URLs requested are the candidates in order up to the winner, so no later candidate is fetched |
| Slug.FirstWithPriceAt | backend/app.py:380-387 | A candidate with a price that is preceded only by failures is the winner |
| Slug.FindWorkingKotakUrl | backend/app.py:322-393 | `find_working_kotak_url` probes the variations of the name in order with the contract above |
| Database.NameIndex | backend/database.py:174-175 | The name lookup finds a row with that name, or says no row has it |
| Database.Upsert | backend/database.py:168-205 | Names stay unique and ids stay below the counter. The written row exists with the given tickers, URLs and quote URL. Rows of other names are untouched. An existing name keeps its id and the row count; a new name is appended under the next id |
| Database.UpsertThenLookup | backend/database.py:168-205 | After the upsert the name lookup finds exactly the row written |
| Database.UpsertIdempotent | backend/database.py:168-205 | Repeating the same upsert changes nothing and returns the same id |
| Database.FirstCompanyWithTicker | backend/database.py:486-496 | The first company, in table order, listing the ticker ignoring case; none exactly when no company lists it |
| Database.FirstCompanyWithTickerIgnoresCase | backend/database.py:490 | Two tickers equal after upper-casing find the same company |
| Database.FirstHoldingMatch | backend/database.py:516-521 | The first row of the user whose ticker equals the lower-cased input or whose symbol equals the upper-cased input; none exactly when no row matches |
| Database.HoldingIndex | backend/database.py:351-352 | The holding with that id, or none exactly when the id is absent |
| Database.RemoveAtDeletesOnlyThatId | backend/database.py:361 | Deleting by primary key removes that id, keeps every other id and keeps ids unique |
| Database.WithPrices | backend/database.py:330-342 | Each of the four price columns becomes the input's value for that key, or NULL when the key is missing. `updated_at` becomes now. Every other column is unchanged |
| Database.Lookup | backend/database.py:392-411 | A cache entry is returned exactly when the holding has a row, and it carries that row's data, date and updated time |
| Database.SaveThenLookup | backend/database.py:374-411 | INSERT OR REPLACE then read returns exactly the saved data, date and time; nothing of an earlier row survives |
| Database.LikeMatch | backend/database.py:464 | SQLite LIKE with '%' and '_' and ASCII case folding; its meaning for the query shapes used is stated by the four lemmas below |
| Database.LikeContains | backend/database.py:459-464 | For a query without wildcards, `x LIKE '%q%'` holds exactly when the lower-cased query occurs in the lower-cased text |
| Database.LikePrefix | backend/database.py:464 | `x LIKE 'q%'` is a case-insensitive prefix test |
| Database.LikeAnyStart | backend/database.py:464 | A leading '%' lets the rest of the pattern match at any position |
| Database.PercentMatchesAll | backend/database.py:464 | The pattern "%" matches every text |
| Database.FilterMatching | backend/database.py:459-461 | The rows kept are exactly those whose name or JSON ticker text matches the pattern |
| Database.SortByName | backend/database.py:462 | `ORDER BY name` gives a name-sorted permutation of the rows |
| Database.NameLeTotal | backend/database.py:462 | The BINARY name order is total |
| Database.NameLeTrans | backend/database.py:462 | The BINARY name order is transitive |
| Database.NameLeAntisymmetric | backend/database.py:462 | The BINARY name order is antisymmetric |
| Database.SortedUnique | backend/database.py:462 | With unique names there is only one sorted order, so the result order is determined |
| Database.SuggestionRows | backend/database.py:459-464 | At most 10 rows, sorted by name, each a matching row of the table, and no row returned more often than it occurs in the table |
| Database.SuggestionRowsArePrefix | backend/database.py:462-463 | A matching row left out means ten rows are shown, all sorting before it |
| Database.ShortestIndex | backend/database.py:469 | `min(tickers, key=len)`: a shortest ticker, and the first of the shortest ones |
| Database.Without | backend/database.py:474 | The other tickers: exactly the entries not equal to the primary, in their order |
| Database.WithoutAppend | backend/database.py:474 | The filter distributes over concatenation, so the kept entries keep their order |
| Database.WithoutAbsent | backend/database.py:474 | A list without the primary is kept whole, repeats included |
| Database.FormatSuggestion | backend/database.py:468-476 | Fails exactly for an empty ticker list. Otherwise: the primary is the first shortest ticker; the name and all tickers are kept; the display is the primary alone exactly when there is a single ticker, and otherwise the primary followed by the other tickers, comma-separated, in parentheses |
| Database.Store.constructor | backend/database.py:40-165 | A fresh database has empty tables and the counter at 1 |
| Database.Store.GetOrCreateCompany | backend/database.py:168-205 | The registry becomes the upsert of the old registry, which keeps names unique; no other table changes |
| Database.Store.FindCompanyByTicker | backend/database.py:481-496 | The scan returns the first company, in table order, with the ticker in any case, or None when there is none |
| Database.Store.FindExistingHoldingByTicker | backend/database.py:511-525 | Only the user's rows matching the lower-cased ticker or upper-cased symbol are found; None exactly when none matches |
| Database.Store.UpdateHoldingPrices | backend/database.py:325-342 | Only that holding's four price columns and `updated_at` change; an unknown id changes nothing |
| Database.Store.SellHoldingShares | backend/database.py:345-371 | True exactly when the holding exists. Selling at least the held quantity deletes it, and its cache rows go with it. Otherwise the quantity drops by the amount sold. An unknown id changes nothing |
| Database.Store.SaveRatiosCache | backend/database.py:374-389 | Succeeds exactly for an existing holding. The row is replaced wholesale, and a read returns exactly what was saved |
| Database.Store.GetRatiosCache | backend/database.py:392-411 | An entry exactly when the holding has a row, with that row's data, date and updated time |
| Database.Store.SaveQuarterlyCache | backend/database.py:414-429 | The same save contract over the quarterly table |
| Database.Store.GetQuarterlyCache | backend/database.py:432-451 | The same read contract over the quarterly table |
| Database.Store.GetCompaniesForSuggestions | backend/database.py:454-478 | One formatted entry per suggestion row, in order. The call fails exactly when a row has no tickers |
| Freshness.SavedEntryFreshOnlyThatDay | backend/app.py:162-166 | `is_data_fresh`: a row just written is fresh exactly on the day it is dated |
| Freshness.GetCachedRatiosByTicker | backend/app.py:162-185 | Data is returned only for a matching holding of the user whose cached row is dated today. The first matching holding's fresh row is always served. Nothing is returned without a matching holding |
| Freshness.GetCachedQuarterlyByTicker | backend/app.py:200-211 | The same freshness contract over the quarterly table |
| Freshness.SaveRatiosToCacheByTicker | backend/app.py:187-198 | With no matching holding nothing is written. Otherwise that holding's row is replaced under today's date, and a same-day read returns exactly the saved data |
| Freshness.SaveQuarterlyToCacheByTicker | backend/app.py:213-224 | The same contract over the quarterly table |
| StockPrice.CompanyNameFromScreener | backend/app.py:230-254 | The name is the stripped h1 text, present exactly for a 200 page with the heading block and its h1. The URL is returned in every case |
| StockPrice.OrDefault | backend/app.py:446-448 | `x or default`: the value when non-empty, else the default |
| StockPrice.QuoteReply | backend/app.py:441-449 | A price reply exactly when the quote has a non-empty price. Then previous close, amount and percent are the quote's values, with "0", "0" and "0%" standing in for missing or empty ones. Otherwise the empty reply |
| StockPrice.TickerOf | backend/app.py:427-433 | The route's ticker has no plain space |
| StockPrice.NameAsTicker | backend/app.py:458 | The ticker form of a screener name has no plain space |
| StockPrice.NameAsTickerIsTickerOf | backend/app.py:433-458 | For a name without surrounding whitespace, removing spaces then upper-casing gives the route's own ticker for that name |
| StockPrice.MergedRow | backend/app.py:462-464 | The old tickers in order with the new one appended. The old URL map plus the new ticker's screener URL. The old quote URL unchanged |
| StockPrice.GetStockPrice | backend/app.py:425-495 | A blank query is a 400. A known ticker is quoted from its stored URL and the registry is untouched. An unnamed ticker is a 404. A name matching a known ticker triggers the merge upsert and the quote. Otherwise the first priced variation registers the company with exactly [ticker] and {ticker: url}, or the reply is a 404 "Price not found" |
| StockPrice.AliasMergeUnderAnotherName | backend/app.py:458-468 | When no company has the screener name, a new row is appended and the found row is unchanged, so every old ticker is listed by two companies |
| StockPrice.AliasMergeOverThirdCompany | backend/app.py:458-468 | When a third company has the screener name, no row is added: that company keeps its id and name, its tickers become the found row's tickers plus the new one, and its screener and quote-site URLs become the found row's merged ones. The found row and all other rows are unchanged |
| StockPrice.AliasMergeUnderSameName | backend/app.py:458-468 | When the names agree, the found row is updated in place: same id, tickers extended, URL map extended, quote URL kept, and every other row unchanged |
| Scraper.UnitOf | backend/scraper.py:148-150 | No number gives an empty unit; a unit never starts or ends with whitespace |
| Scraper.UnitOfBareNumber | backend/scraper.py:150 | A value that is just its number has an empty unit |
| Scraper.UnitOfAbsentNumber | backend/scraper.py:150 | A number absent from the text leaves the stripped text as the unit |
| Scraper.UnitRemovesEveryOccurrence | backend/scraper.py:150 | Every occurrence of the number is removed, not only the first |
| Scraper.RatioOf | backend/scraper.py:146-151 | The record holds the full value text and the first number span's text (or ""); no number gives no unit |
| Scraper.RatiosOf | backend/scraper.py:137-152 | The map the loop builds, item by item; its keys and values are stated by RatiosOfKeys and RatiosOfLastWins |
| Scraper.RatiosOfKeys | backend/scraper.py:137-152 | The keys are exactly the names of items having both a name and a value span |
| Scraper.RatiosOfLastWins | backend/scraper.py:152 | The last complete item of each name decides that name's record |
| Scraper.IncompleteItemsIgnored | backend/scraper.py:141-144 | An item lacking a name or a value span contributes nothing |
| Scraper.ParseRatiosFromPage | backend/scraper.py:127-161 | None without the `top-ratios` element. Otherwise the map of all items, or None when that map is empty |
| Scraper.ScrapeScreenerRatios | backend/scraper.py:27-116 | No driver: None and no browser. Once launched, the first event is the launch and the last the only quit, on every path. The company page is opened exactly when the login succeeded. A result comes exactly when every step succeeded and the map is non-empty. A debug page is saved exactly when the parse ran and found nothing |
| Auth.FindBy | backend/database.py:544-562 | A user whose username (or email) is the value, or None exactly when there is none |
| Auth.RegisterUser | backend/auth.py:56-94 | The first failing check wins, in order: username under 3 characters, password under 6, no '@' in the email, username taken, email taken. A failure leaves the table unchanged. When every check passes the user is registered: one user is appended under the next id, and the username, email and new id are echoed with a token for them |
| Auth.RegisterKeepsTableWellFormed | backend/database.py:532-542 | Registration keeps usernames and emails unique |
| Auth.RegisterThenLogin | backend/auth.py:56-124 | A user who just registered logs in with the same username and password and gets the new id, their details and a token |
| Auth.RegisterTwiceRefused | backend/auth.py:70-72 | Registering a taken username again is refused with "Username already exists", whatever the email |
| Auth.FindLoginUser | backend/auth.py:101-103 | The username match wins over an email match; without a username match, the email match is used; none when neither matches |
| Auth.LoginUser | backend/auth.py:97-124 | "User not found" exactly when no user has that username or email. For a found user, a rejected password gives "Invalid password" and an accepted one logs in, returning that user's fields and a token for their id and username |
| Auth.FieldUntilSpace | backend/auth.py:136 | The second field of `split(' ')`: a prefix of the rest with no space, ending at a space or the end |
| Auth.BearerToken | backend/auth.py:134-136 | A token is read exactly from a header starting with "Bearer "; it is the text up to the next space |
| Auth.JwtRequired | backend/auth.py:130-152 | Passes exactly for a non-empty bearer token that decodes, with the payload's user id and username. A missing or empty token is 401 "Token is missing". An expired or invalid token is 401 with that error |
| Auth.BearerHeaderRoundTrip | backend/auth.py:134-150 | "Bearer T", for a non-empty token without spaces that decodes, gives exactly T's user |
| Auth.FieldUntilSpaceWhole | backend/auth.py:136 | A text without spaces is its own field |

## Left out

- Character classes: `\w`, `\d`, `lower()` and `upper()` are modelled on ASCII only. Python applies them to all of Unicode. `isspace`/`\s` use Python's full whitespace set.
- Floating point: `ParsePrice` returns the exact decimal value as a real. `float()` rounding and the `:.2f` formatting are not modelled.
- `json.dumps`/`json.loads` are assumed to round-trip. Stored tickers and URL maps are kept decoded. The JSON text of the ticker column is built only for the LIKE filter, with plain strings (no escaping).
- The foreign keys to the users table are not modelled. Neither are the purchases table, its rows, and the cascade from a deleted holding to its purchases. `create_holding`, `add_purchase`, `get_all_holdings`, `get_holding_by_id`, `update_holding_avg_price_and_quantity` and `get_user_by_id` are outside the modelled core.
- Connection, commit and rollback handling, table creation and `os.urandom` holding ids are not modelled. The tables are values.
- Network calls, BeautifulSoup lookups and Selenium actions are oracles or abstract outcomes. The `User-Agent` headers, timeouts, sleeps, waits and `selenium_lock` are left out.
- The clock: `get_today_date` and `datetime.now()` are arguments.
- bcrypt and PyJWT are parameters. The hash of a new password is an argument, `verify_password` a checker, `generate_jwt_token` a signer and `decode_jwt_token` a decoder. A token payload that carries an "error" claim of its own is not considered. The signer does not see the clock: the `iat` and `exp` claims are abstracted away, so in the model a user's token at registration and at login is the same value.
- Auth.RegisterUser: the "Registration failed" path is not modelled. On a table whose usernames and emails are unique, the insert cannot violate a constraint, and other database errors are I/O.
- StockPrice.GetStockPrice: the exception-to-500 path is not modelled, and neither is the `detailed` flag, which the code reads and never uses. The route layer around `get_suggestions` (strip and lower-case of the query, the second `[:10]`) is not modelled either.
- The other Flask routes, request parsing and JSON responses in app.py are not modelled.
- Scraper.ScrapeScreenerRatios: the exception paths inside the session are folded into the boolean step outcomes. `_log_login_errors`, the debug-page file write and printing are left out. An exception raised inside the parse itself is not modelled.
- The quarterly scraper: `scrape_quarterly_results` is imported by app.py but not defined in scraper.py, so it is not part of this model.
- `backend/view_database.py` is reporting only.

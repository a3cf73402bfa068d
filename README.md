# Vinted Market Scout: the decision core in Dafny

Vinted Market Scout is a Streamlit app. It scrapes Vinted catalogue pages,
filters the listings by brand and price, summarises their prices, and labels
each listing with a resale estimate. It also answers beginner questions from a
small FAQ, keeps a subscriber table, and drafts an advert from a photo.

This project models the deterministic decision logic inside `app.py` and
proves what it promises. The modules are:

- `Text` (`text.dfy`): the string primitives the code relies on, with ASCII
  case mapping and a fixed white-space set:
  - `lower()`;
  - the substring test `k in p`;
  - `strip()`;
  - `split()`;
  - `", ".join`.
- `PriceText` (`price_text.dfy`): how a price node's text becomes a price.
  - Euro signs are removed.
  - A decimal comma becomes a point.
  - The text is stripped, and only digits and points are kept.
  - The rest is parsed as `float` parses that alphabet. A value exists exactly
    when there is at least one digit and at most one point.
- `Extraction` (`extraction.dfy`): the `search_vinted` loop over pages and
  containers. It is an imperative method proved equal to the page-ordered
  concatenation of the listings each page yields.
  - The HTML is abstract. A page is the list of results of the container
    selectors, tried in order. A container is the results of its title and
    price sub-selectors and the `href` of its link.
  - The HTTP request is an oracle `fetch`. It returns a failure, or a status
    and a page.
  - `urljoin` is the function `resolve`.
- `Analysis` (`analysis.dfy`):
  - the brand filter and the price filter of the search page;
  - `analyze_prices`;
  - the resale columns added to each filtered row, against the filtered mean;
  - `ResultsTable`, the three steps of the search page (app.py:288-305) in
    order.
- `Resale` (`resale.dfy`): `resale_estimate_and_label` and
  `market_saturation_label`. The ratio test `price / avg <= k` is written
  `price <= k * avg` for `avg > 0`, and `RatioTest` proves the two agree.
- `Chat` (`chat.dfy`): `chat_answer`. It is an ordered substring lookup over
  the FAQ keys, then the "acheter" fallback, then the default answer.
- `Subscribers` (`subscribers.dfy`): `add_subscriber` and `check_access` over
  an in-memory table.
  - The table is a class whose `rows` field the upsert method updates in
    place.
  - Times are whole seconds, and `now` is a parameter.
- `Photo` (`photo.dfy`): the colour rule and the title, description and tag
  construction of `generate_description_from_photo_local`.

The code computes the mean over the rows that survive the brand and price
filters, not over everything scraped. So for rows priced 10, 20 and 30 with
the range [0, 25], the mean is 15. The row priced 10 then has ratio 2/3 and is
labelled "✅ Bonne revente", not "🔥 Revente rapide".
`Analysis.ThreeListingsScenario` proves this behaviour of the code as written.

## Model

| member | source | states |
|---|---|---|
| `Text.Lower` | app.py:236 | the lower-cased string has the same length and maps every character through ASCII lower-casing |
| `Text.Strip` | app.py:151-152 | the stripped text is no longer than the input and neither starts nor ends with white space |
| `Text.StripSlice` | app.py:151-152 | the stripped text is the middle of the input: what precedes it and what follows it are white space only |
| `Text.Words` | app.py:226 | `split()` yields words: non-empty runs without white space |
| `Text.WordsKeepCharacters` | app.py:226 | splitting loses only white space: the words written together are the non-space characters of the name, in order |
| `Text.WordsAfterSpace` | app.py:226 | leading white space does not change the words |
| `Text.WordsOfWord` | app.py:226 | a lone word splits into itself |
| `Text.WordsOfWordThenSpace` | app.py:226 | a word, a white-space character and a rest give that word followed by the words of the rest |
| `Text.Join` | app.py:226 | `", ".join` of a non-empty list starts with its first part |
| `Text.JoinAppend` | app.py:226 | joining two non-empty lists is joining each with one separator between them |
| `Text.ContainsTransitive` | app.py:240 | an occurrence of a string that itself contains `k` is an occurrence of `k` |
| `PriceText.Normalize` | app.py:152-153 | the cleaned price text is never longer than the price text |
| `PriceText.NormalizeAlphabet` | app.py:152-153 | the cleaned price text holds only ASCII digits and points |
| `PriceText.StripIrrelevant` | app.py:152-153 | stripping before the digit filter never changes the cleaned text |
| `PriceText.NormalizeIdentity` | app.py:152-153 | text made only of digits and points is cleaned to itself |
| `PriceText.ParseDecimal` | app.py:155-157 | `float` on the cleaned alphabet succeeds exactly when there is at most one point and at least one digit; a parsed value is never negative |
| `PriceText.ParsePoint` | app.py:155 | `w.f` parses to the value of `w` plus the fraction `0.f` |
| `PriceText.ParseShow` | app.py:155 | the decimal rendering of a whole number parses, and prices, to that number |
| `PriceText.PriceOf` | app.py:152-159 | a price, when there is one, is not negative |
| `PriceText.PriceOfDefined` | app.py:152-159 | a price text yields a price exactly when its cleaned text has a digit and at most one point; that price is the cleaned text's value and is not negative |
| `PriceText.CommaPriceEqualsPointPrice` | app.py:152-155 | "e,cc €" and "e.cc" give the same price, e + cc/100 (so "24,50 €" gives 24.50) |
| `PriceText.SpacedThousands` | app.py:152-153 | "a b,f" (a space between digit groups, a decimal comma) is cleaned to "ab.f" |
| `PriceText.SpacedThousandsPrice` | app.py:152-157 | "e ttt,cc" gives the price e*1000 + ttt + cc/100 (so "1 234,50" gives 1234.50) |
| `PriceText.PointedThousandsDropped` | app.py:152-159 | "a.b,f" is cleaned to "a.b.f", which has two points, so no price and the listing is dropped |
| `PriceText.PointedThousandsExample` | app.py:152-159 | "1.234,50" gives no price |
| `PriceText.ZeroIsKept` | app.py:155-158 | "0" gives the price 0, which is kept because only a missing price is rejected |
| `Extraction.FirstPresent` | app.py:146-147 | `a or b or c` over sub-selector results: nothing exactly when no selector found an element, else the result of the first selector that did |
| `Extraction.FirstNonEmpty` | app.py:144 | `a or b or c or []` over container selector results: empty exactly when every list is empty, else the first non-empty list |
| `Extraction.Extract` | app.py:146-161 | a kept container has a link, the listing's link is the resolved `href`, and its price is not negative |
| `Extraction.ExtractDefined` | app.py:146-161 | a container yields a listing exactly when title, price text and link are present and the price parses; the listing holds the stripped title, the parsed non-negative price and the resolved link |
| `Extraction.ExtractAllMembers` | app.py:145-161 | a listing comes from a page exactly when some container of that page yields it |
| `Extraction.AppendListings` | app.py:145-161 | the inner loop appends the listings of the page's containers, in document order, to the results so far |
| `Extraction.SearchVinted` | app.py:132-163 | the loop over pages 1..max_pages returns the concatenation, in page order, of each page's listings |
| `Extraction.CollectPage` | app.py:137-161 | one page's turn of the loop: a failed or non-200 response leaves the results, otherwise its listings are appended in order |
| `Extraction.Pages` | app.py:135-161 | the listings of pages `lo`..`hi` in page order; `PagesStep` states its recursion and `SearchVinted` its agreement with the loop |
| `Extraction.PagesStep` | app.py:135-142 | one more page appends exactly that page's listings |
| `Extraction.FailedPageSkipped` | app.py:137-142 | a failed or non-200 page contributes nothing, and the pages before and after it are still collected |
| `Extraction.SecondOfThreeFails` | app.py:135-142 | with page 2 failing, three pages give page 1's listings followed by page 3's |
| `Extraction.PagesMembers` | app.py:135-161 | a listing is in the results exactly when some page in range yields it |
| `Extraction.PricesNonNegative` | app.py:152-161 | every scraped listing has a price of at least 0 |
| `Analysis.NumericPrices` | app.py:166 | the comprehension keeps every numeric price as many times as it occurs among the records, so there are as many prices as records minus the non-numeric ones |
| `Analysis.NumericPricesConcat` | app.py:166 | the comprehension keeps the order: the prices of a concatenation are those of the first part then those of the second |
| `Analysis.NumericPricesSingle` | app.py:166 | one record contributes its price when it is numeric and nothing otherwise |
| `Analysis.MinOf` | app.py:170 | `min` is an element no larger than any other |
| `Analysis.MaxOf` | app.py:170 | `max` is an element no smaller than any other |
| `Analysis.Mean` | app.py:169 | the mean times the number of prices is their sum |
| `Analysis.MeanBounds` | app.py:169-170 | the mean lies between the minimum and the maximum |
| `Analysis.AnalyzePrices` | app.py:165-170 | None exactly when no price is kept; otherwise `count` is the number of kept prices and min <= avg <= max |
| `Analysis.AnalyzePricesNone` | app.py:166-168 | the result is None exactly when no record has a numeric price |
| `Analysis.AnalyzePricesSome` | app.py:165-170 | otherwise the count is the number of numeric records (between 1 and the number of records), min and max are among the prices and bound them all, and min <= avg <= max |
| `Analysis.RecordsCount` | app.py:166-170 | over scraped rows (all numeric) the count is the number of rows, and None comes only from no rows |
| `Analysis.FilterListings` | app.py:290-293 | a row is kept exactly when the brand is "All" or occurs in the title ignoring case, and its price lies in the inclusive range; never more rows than before |
| `Analysis.FilterConcat` | app.py:290-293 | filtering a concatenation filters each part, order kept |
| `Analysis.FilterIdempotent` | app.py:290-293 | filtering again removes nothing more |
| `Analysis.FilterKeepsAll` | app.py:290-293 | brand "All" with a range holding every price removes nothing |
| `Analysis.BrandCaseInsensitive` | app.py:291 | the brand test gives the same answer for a brand and its lower-cased form |
| `Analysis.FilteredStatsInRange` | app.py:290-295 | after the filters, min, avg and max all lie in the chosen price range |
| `Analysis.ResultsTableSpec` | app.py:288-305 | the table holds the filtered rows; it has statistics exactly when a row survives, and then they count every row and lie in the price range, and every row gets resale columns; without statistics no column is added |
| `Analysis.ResaleAgainstFilteredMean` | app.py:295-305 | the resale columns are scored against the mean of the kept rows: rows at or below it score at least 75, rows at or above it at most 75, and the cheapest and dearest kept rows give one of each; a zero mean gives the unknown estimate on every row |
| `Analysis.ThreeListingsScenario` | app.py:288-305 | prices 10, 20 and 30 filtered to [0, 25] keep two rows with mean 15, min 10 and max 20; the row priced 10 is labelled "✅ Bonne revente" with score 75 |
| `Resale.Round2Monotone` | app.py:179-194 | rounding to cents never reverses an order |
| `Resale.Round2Close` | app.py:179 | rounding to cents moves a value by at most half a cent |
| `Resale.ResaleEstimate` | app.py:172-196 | the score is 0 exactly when avg <= 0, and the estimated range never has its low end above its high end |
| `Resale.RatioTest` | app.py:175-186 | for avg > 0, `price / avg <= k` holds exactly when `price <= k * avg` |
| `Resale.BandOfInBand` | app.py:176-195 | the if/elif chain picks a band exactly when the ratio lies in that band's interval (lower bound exclusive, upper inclusive) |
| `Resale.BandsPartition` | app.py:176-195 | the four ratio intervals cover every ratio and do not overlap |
| `Resale.ResaleEstimateSpec` | app.py:172-196 | avg <= 0 gives ("Inconnu", 0, (0, 0), "Inconnu"); otherwise the result is the label, score, range and time of the band holding the ratio, and the estimated low <= high |
| `Resale.UnknownWhatever` | app.py:173-174 | with avg <= 0 the price plays no part |
| `Resale.ThresholdsInclusive` | app.py:176-195 | ratios 0.6, 1.0 and 1.4 score 90, 75 and 50; ratio 1.5 scores 25 |
| `Resale.ScoreNonIncreasing` | app.py:176-195 | for a fixed avg > 0, a higher price never scores higher |
| `Resale.ScoreDeterminesEstimate` | app.py:176-195 | two prices with the same score get the same label, range and time |
| `Resale.SaturationLabel` | app.py:198-204 | the label is one of "Peu saturé", "Moyennement saturé" and "Très saturé" |
| `Resale.SaturationBands` | app.py:198-204 | "Peu saturé" iff count < 10, "Moyennement saturé" iff 10 <= count < 30, "Très saturé" iff count >= 30 |
| `Resale.SaturationBoundaries` | app.py:198-204 | 9 is low, 10 and 29 are medium, 30 is high |
| `Chat.Lookup` | app.py:237-239 | the answer of the first FAQ key found in the prompt, and nothing exactly when no key occurs |
| `Chat.ChatAnswer` | app.py:235-242 | the answer is an FAQ answer, the buying advice or the default; a prompt mentioning "acheter" never gets the default |
| `Chat.QuoiAcheterRedundant` | app.py:240 | the "quoi acheter" test adds nothing to the "acheter" test |
| `Chat.ChatAnswerRules` | app.py:230-242 | on the lower-cased prompt: niches, else debuter, else prix, else the buying advice when "acheter" occurs, else the default answer |
| `Chat.CaseInsensitive` | app.py:236 | a prompt and its lower-cased form get the same answer |
| `Chat.FirstKeyWins` | app.py:230-239 | a prompt naming both "prix" and "niches" gets the niches answer, the earlier key |
| `Subscribers.SubscriberTable.AddSubscriber` | app.py:101-111 | scans for the email, then renews every row of a listed email in place or appends one row; the new table is the upsert of the old one with expiry = now + days * 86400 |
| `Subscribers.Upserted` | app.py:101-110 | the table keeps its length for a listed email and grows by one otherwise, and it holds the new subscription |
| `Subscribers.UpsertExisting` | app.py:105-107 | for a listed email the row count stays, its rows take the new dates, and every other row is unchanged |
| `Subscribers.UpsertNew` | app.py:108-110 | for a new email exactly one row is appended after the unchanged old rows |
| `Subscribers.UpsertEmails` | app.py:105-110 | after an upsert the set of emails is the old set plus the email |
| `Subscribers.UpsertKeepsUnique` | app.py:105-110 | an upsert keeps a duplicate-free table duplicate-free |
| `Subscribers.UpsertFirstRow` | app.py:105-110 | after an upsert the first row of the email is the new subscription |
| `Subscribers.UpsertFirstRowOther` | app.py:105-110 | an upsert does not move the first row of any other email |
| `Subscribers.UpsertOthersUnaffected` | app.py:101-122 | an upsert changes no other email's access or day count |
| `Subscribers.FirstRow` | app.py:117-120 | `iloc[0]` of the rows of an email: nothing exactly when the email is not listed, else the earliest row with that email |
| `Subscribers.Days` | app.py:122 | `(expiry - now).days` is the whole number of days, rounded towards minus infinity |
| `Subscribers.AccessAfterSubscribing` | app.py:101-122 | after subscribing with expiry E, access at time t holds exactly when t <= E, with the days left until E |
| `Subscribers.CheckAccess` | app.py:112-122 | no day count exactly when there is no email, an empty email or an unknown email; access is granted only with a day count |
| `Subscribers.AccessRefused` | app.py:113-119 | no email, an empty email or an unknown email gives (False, None) |
| `Subscribers.DaysAgreeWithAccess` | app.py:120-122 | access is granted exactly when the reported day count is not negative |
| `Subscribers.AccessUnique` | app.py:116-122 | in a duplicate-free table, access holds exactly when some row of the email has not expired |
| `Photo.ColorName` | app.py:215-222 | the colour is one of the four colour words |
| `Photo.ColorRules` | app.py:215-222 | each colour word holds exactly under its rule, the rules taken in order |
| `Photo.BlueBeforeGreen` | app.py:217-220 | a pixel meeting both the blue and the green rule is called blue |
| `Photo.LongWords` | app.py:226 | keeps exactly the words longer than two characters, each as many times as it occurs |
| `Photo.LongWordsConcat` | app.py:226 | the filter keeps the order: the long words of a concatenation are those of each part |
| `Photo.TagListSpec` | app.py:226 | the tags are the first min(6, n) long words of the name, in order, each a word of the name longer than two characters, then "vinted" and "revente" |
| `Photo.AtMostEightTags` | app.py:226 | there are between two and eight tags |
| `Photo.FixedTagsOnly` | app.py:226 | a name without a word longer than two characters gets the tags "vinted, revente" |
| `Photo.DescriptionNamesColor` | app.py:224-225 | the description contains "Couleur : " followed by the colour word |
| `Photo.Generate` | app.py:214-227 | the title starts with the name and the description names the colour of the RGB triple |

## Left out

- The Streamlit pages, sidebar widgets, admin code gate, download buttons and favourites (app.py:47-63, 244-435) are user interface.
- The HTTP request, its headers and timeout, the `quote_plus` URL construction and the pause between pages (app.py:132-142, 162) are network I/O and timing. Each page is an abstract response from the oracle `fetch`, which stands for the whole request for a page number.
- The `st.cache_data` cache (app.py:131) is framework caching.
- BeautifulSoup parsing and CSS selector matching (app.py:143-148) are a foreign library. Only the "first selector that found something" rules and the three-fields-present rule are modelled over abstract containers.
- `urljoin` (app.py:160) is the parameter `resolve`, which never fails. In the source, `urljoin` runs outside both `try` blocks, so a malformed href (such as `"//[x"`, an invalid IPv6 host) raises `ValueError` and ends the whole search with no results: earlier pages are lost and later pages are never fetched. The model does not capture this. `SearchVinted`, `FailedPageSkipped` and `PagesMembers` describe the runs in which every link resolves.
- The CSV persistence is file I/O and is left out:
  - `_ensure_df`, `load_subscribers`, `save_subscribers`, `log_search`, `log_request` and `add_favorite` (app.py:66-128);
  - the reloading and saving inside `add_subscriber` and `check_access`.

  The table is passed in, or held by `SubscriberTable`.
- `datetime.utcnow()` and `timedelta` are modelled as integer seconds, with `now` a parameter.
  - `days_valid` is a whole number of days.
  - The mix of ISO strings (new rows) and datetime objects (updated rows) in the stored table is not modelled.
- PIL `average_color` (app.py:207-210) is floating-point image statistics through a foreign library. The integer RGB triple is an input.
- `os.path.splitext`, the `_`/`-` replacement and `str.title()` (app.py:213) are not modelled. `Photo.Generate` takes the cleaned name as input.
- Prices and means are exact reals, so binary floating point and the order of summation are not modelled.
- `Resale.Round2` models `round(x, 2)` as round-half-up on exact reals. Python rounds the nearest binary float, half to even.
- Text handling uses ASCII digits and letters and a fixed white-space set:
  - `str.isdigit` accepts ASCII digits only.
  - `str.lower` maps ASCII letters only.
  - `strip`/`split` white space is space, tab, line feed, carriage return, vertical tab, form feed, no-break space and narrow no-break space. Python also treats the ASCII separators U+001C to U+001F and other Unicode spaces (U+0085, U+2000 to U+200A, U+3000 and more) as white space; they are not modelled.
- The pandas `str.contains` brand test is a regular-expression search. It is modelled as a literal substring test. This is equivalent for the fixed brand list, whose names hold no regular-expression metacharacters.
- `isinstance(price, (int, float))` is modelled by the `PriceField` datatype: a record's price is numeric or it is not.

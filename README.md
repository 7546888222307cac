# Crypto news widget: data-shaping rules

A model of the deterministic core of the browser news widget in
`frontend/index.js`. The widget fetches cryptocurrency news and prices,
keeps the articles published today, indexes them by category, builds a
category navigation and article cards, and renders a price ticker. The
model covers the rules between the fetches and the DOM:

- **JsStrings** (`strings.dfy`): the JavaScript built-ins the rules rely
  on — `split` and `join` on one character, `trim` with ECMAScript's
  whitespace set, ASCII `toUpperCase`.
- **News** (`news.dfy`): the article record and `filterTodayNews`, with
  the day function injected (`dayOf`), plus a concrete local-time day
  `LocalDay(offset, t) = (t + offset) / 86400`.
- **Categories** (`categories.dfy`): `categorizeNews` as the nested loop
  the source runs, over a `map<string, seq<Article>>` and the key
  insertion order, proved equal to a fold over the sequence of pushes;
  and the same loop on a plain JavaScript object, which throws for
  inherited property names (see Findings).
- **Navigation** (`navigation.dfy`): the icon table, `displayCategories`
  as a loop that accumulates entries, and the click selection.
- **Cards** (`cards.dfy`): the excerpt and tag chips of an article card.
- **Ticker** (`ticker.dfy`): `updatePriceTicker`'s one-item-per-entry
  loop and its sign rule.
- **Page** (`page.dfy`): the pure part of `init` — fetch outcome, today
  filter, the no-news branch, the categorization as the code performs it
  (including its throw for inherited names, caught as the load error),
  navigation — and the click that replaces the shown list.

The article's `categories` field is modelled as the raw `|`-delimited
string, since that is what the code splits; prices are an ordered list of
(coin, quote) entries, the order `Object.entries` yields them in.

## Model

| member | source | states |
|---|---|---|
| `JsStrings.Split` | frontend/index.js:68 | `split('|')` yields at least one piece and no piece contains the separator |
| `JsStrings.JoinSplit` | frontend/index.js:68 | joining the pieces with the separator gives back the original string |
| `JsStrings.SplitJoin` | frontend/index.js:68 | splitting a join of separator-free pieces gives back the pieces |
| `JsStrings.SplitLength` | frontend/index.js:68 | the number of pieces is the number of separators plus one |
| `JsStrings.Trim` | frontend/index.js:110 | the trimmed string has no whitespace at either end and is no longer than the input |
| `JsStrings.TrimIsInfix` | frontend/index.js:110 | the trimmed string is an infix of the input whose cut-off margins are all whitespace |
| `JsStrings.TrimKeepsAbsent` | frontend/index.js:110 | trimming never introduces a character that was not in the string |
| `JsStrings.TrimIdempotent` | frontend/index.js:110 | trimming twice equals trimming once |
| `JsStrings.ToUpper` | frontend/index.js:60 | upper-casing keeps the length, maps each ASCII lower-case letter to its capital and keeps every other character |
| `News.FilterToday` | frontend/index.js:119-127 | the today-list is never longer than the input |
| `News.FilterTodayMembership` | frontend/index.js:122-126 | an article is in the today-list iff it is in the input and its day equals the day of `now` |
| `News.FilterTodaySubsequence` | frontend/index.js:122-126 | the today-list is a subsequence of the input (order kept) |
| `News.FilterTodayAppend` | frontend/index.js:122-126 | filtering a concatenation is concatenating the filtered parts |
| `News.FilterTodayIdempotent` | frontend/index.js:119-127 | filtering twice with the same `now` equals filtering once |
| `News.FilterTodayEmpty` | frontend/index.js:135-137 | the today-list is empty iff no input article is from today |
| `News.TodayBoundaries` | frontend/index.js:120-125 | with a local-time day, local midnight and 23:59:59 fall on the day of `now`; the next midnight and the second before midnight do not |
| `News.FilterTodayBoundaries` | frontend/index.js:119-127 | of four articles at midnight-1s, midnight, 23:59:59 and the next midnight, exactly the middle two are kept |
| `Categories.Labels` | frontend/index.js:68 | every article has at least one category piece |
| `Categories.LabelsOfPair` | frontend/index.js:68 | a categories string with one pipe between two pipe-free sides gives exactly those two labels |
| `Categories.Categorize` | frontend/index.js:65-76 | the loop's result equals the fold of its pushes; it is well formed; each label's list is the articles in order, repeated per occurrence of the label; the keys are exactly the labels met, in first-appearance order; list lengths add up to the number of pieces |
| `Categories.PushFacts` | frontend/index.js:69-72 | one push keeps the index well formed, appends the article to exactly that label's list, adds the label to the key order only when new, and adds one to the total length |
| `Categories.BuildFacts` | frontend/index.js:67-74 | after any sequence of pushes: well formed, each list is the pushed articles of that label in push order, keys in first-push order, total length equals the number of pushes |
| `Categories.CategorizeFacts` | frontend/index.js:65-76 | the index of a list of articles is well formed, holds the reference lists, has the labels met as keys in first-appearance order, and its lengths add up to the piece count |
| `Categories.CategorizeMembership` | frontend/index.js:67-73 | an article is in the list for `c` iff it is an input article carrying `c`; `c` is a key iff some article carries it (untrimmed, empty pieces included) |
| `Categories.CategorizeTotal` | frontend/index.js:67-72 | the sum of the list lengths is the total number of pieces over all articles |
| `Categories.OccurrencesSubsequence` | frontend/index.js:67-72 | when no article repeats label `c`, the list for `c` is a subsequence of the input |
| `Categories.RepeatedLabel` | frontend/index.js:68-72 | an article with categories `A|A` is pushed twice under `A` |
| `Categories.BuildAsWrittenFacts` | frontend/index.js:69-72 | on an object with inherited member names, the pushes give the map model's index when no pushed label is inherited, and throw as soon as one is |
| `Categories.CategorizeAsWrittenFacts` | frontend/index.js:65-76 | on a plain object, `categorizeNews` returns the map model's index iff no label is an inherited name, and throws otherwise |
| `Categories.ConstructorLabelThrows` | frontend/index.js:69-72 | an article labelled `constructor` makes the source throw, while the map model files it under `constructor` |
| `Navigation.IconFor` | frontend/index.js:90 | the icon is the table's entry for a label in the table, and the `Default` icon otherwise; it is always a table value |
| `Navigation.NavList` | frontend/index.js:79-93 | the navigation is never empty and starts with the synthetic `all` entry |
| `Navigation.DisplayCategories` | frontend/index.js:78-94 | the accumulating loop produces exactly `NavList` of the index |
| `Navigation.NavSecondIsPinned` | frontend/index.js:81-85 | the second entry is `ICP` iff `ICP` is a key, and then it carries the table's `ICP` icon |
| `Navigation.NavEntriesOnce` | frontend/index.js:79-93 | for a well-formed index every key gets exactly one entry, `ICP` included, labels outside the index none; a key `all` gets a second `all` entry |
| `Navigation.NavOrder` | frontend/index.js:88-93 | after the leading entries come the keys other than `ICP`, in index order, each with `IconFor` its label |
| `Navigation.SelectCategory` | frontend/index.js:155-159 | `all` gives the whole today-list; any other present label its list; an absent label the empty list |
| `Navigation.SelectShowsCarriers` | frontend/index.js:155-159 | on the index of today's articles, a label other than `all` shows exactly the articles carrying it, once per occurrence |
| `Navigation.AllCategoryShadowed` | frontend/index.js:79 | a real category named `all` has two `all` entries and its selection shows every article |
| `Cards.Excerpt` | frontend/index.js:104 | the excerpt is the first min(150, length) characters of the body followed by `...`; a body of at most 150 characters is kept whole |
| `Cards.Tags` | frontend/index.js:110 | one chip per `|`-piece, in order, each the trimmed piece and so free of surrounding whitespace |
| `Cards.TagCount` | frontend/index.js:110 | the chip count is the number of pipes plus one, and no chip holds a pipe |
| `Cards.TagsTrimmed` | frontend/index.js:110 | trimming a chip again changes nothing |
| `Cards.CardOf` | frontend/index.js:100-114 | a card carries the article's image, title, source, date and link, the article's excerpt (at most 153 characters) and its trimmed chips, one per label |
| `Cards.TrimAsymmetry` | frontend/index.js:68-110 | for `Bitcoin\| Mining` the chips read `Bitcoin`, `Mining` while the index key is ` Mining` and there is no key `Mining` |
| `Ticker.TickerItemFor` | frontend/index.js:57-60 | the segment carries the upper-cased coin id, and the `price-up` class with `▲` exactly when the change is `>= 0`, `price-down` with `▼` exactly when it is negative |
| `Ticker.UpdateTicker` | frontend/index.js:54-63 | one segment per price entry, in entry order, each `TickerItemFor` its entry |
| `Ticker.FallingBitcoin` | frontend/index.js:56-60 | bitcoin with a change of -2.345 gives a `BITCOIN` segment flagged down |
| `Page.LoadPage` | frontend/index.js:134-178 | a failed fetch shows the generic error; the no-news message appears iff no fetched article is from today; the page is ready iff some article is from today and none of today's labels is an inherited `Object.prototype` name, and otherwise that throw shows the generic error; a ready page holds exactly the today-filter of the fetch, in order and with repetitions, the map model's index of it (each label's list its per-occurrence articles), that index's navigation, and shows all of today's articles |
| `Page.Click` | frontend/index.js:149-159 | a click changes only the shown articles, to the selection for the clicked category |
| `Page.ThreeArticles` | frontend/index.js:134-159 | one article from yesterday and two from today labelled `Bitcoin` and `Bitcoin\|Mining`: two are shown, the navigation is all, Bitcoin, Mining, and selecting Mining shows one |
| `Page.ConstructorPageFails` | frontend/index.js:144-178 | one article of today labelled `constructor` makes the page show the generic load error |

## Findings

| source | as written | input that shows it | evidently intended | confidence | as-written member | corrected member |
|---|---|---|---|---|---|---|
| frontend/index.js:66-72 | `categories` is a plain `{}`, so `!categories[category]` is false for names inherited from `Object.prototype` and `categories[category].push` is then not a function: `categorizeNews` throws a `TypeError`, which `init` turns into the generic load error | an article of today whose `categories` is `constructor` (likewise `toString`, `valueOf`, `__proto__`, …) | a dictionary lookup that sees only labels already inserted, so the article is filed under `constructor` | not executed | `Categories.CategorizeAsWritten`, with `Categories.ConstructorLabelThrows` and `Page.ConstructorPageFails` | `Categories.Categorize` |

`Page.LoadPage` follows the code as written: it categorizes with
`Categories.CategorizeAsWritten`, and on a ready page the index is the one
the corrected `Categories.Categorize` computes, which the navigation and
the click selection use.

## Left out

- `fetchNews` and `fetchPrices` (frontend/index.js:27-52): HTTP requests and JSON parsing. The news outcome enters `Page.LoadPage` as a parameter; prices enter `Ticker.UpdateTicker` as a parameter.
- All DOM work: `innerHTML` writes, element creation, showing and hiding the loading and error elements, and the `event.target` inspection of the click handler. The renderer is modelled as values (navigation entries, cards, ticker segments). HTML escaping of interpolated fields is not modelled either.
- The startup price fetch and the five-minute `setInterval` refresh in `init` (frontend/index.js:164-171): async sequencing and timers. A failed startup price fetch lands in the same `catch` (frontend/index.js:174-179), so the generic error appears beside news already shown. A failed refresh is an unhandled rejection. `Page.LoadPage` models neither; it covers only the news fetch.
- Number and date formatting: `toFixed(2)`, `Math.abs` on the change, and `toLocaleString()` on the date. Prices are modelled only through the sign decision, and cards carry the raw timestamp.
- Real local time and daylight saving behind `Date.setHours(0,0,0,0)`: the day is an injected `dayOf` function, with `News.LocalDay` as a fixed-offset instance. Times are in seconds; the source compares milliseconds, which gives the same days.
- The `Object.keys` and `Object.entries` ordering rule that puts integer-like keys first in ascending order: the index keeps plain insertion order.
- Categories.CategorizeAsWritten: models only the inherited-name lookup failure. The icon lookup `categoryIcons[category]` for such names would also find inherited members, but the page never gets that far.
- Cards.Excerpt: counts Unicode scalar values. JavaScript's `substring` counts UTF-16 code units, so the two differ for characters outside the Basic Multilingual Plane.
- JsStrings.ToUpper: upper-cases ASCII letters only. JavaScript's `toUpperCase` applies full Unicode case mapping; the coin ids the endpoint uses are lower-case ASCII.
- Ticker.TickerItemFor: changes are exact reals, so there is no NaN. In JavaScript a NaN change fails `>= 0` and would be flagged down.

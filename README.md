# TLDR headline resolver and stock ticker, modelled in Dafny

This project models the two pieces of logic in the home page of the TLDR
landing site:

- **`getTLDRTop`** (app/page.tsx) resolves the headline shown on the page. It
  tries three fallible strategies in order and returns the first `TLDR`
  record one of them produces. If none does, it returns a constant record.
  - **A:** a JSON endpoint, probed through alias chains.
  - **B:** an RSS feed, cut up with three regular expressions.
  - **C:** the home page HTML, searched for the first news anchor.
- **`Ticker`** (app/components/Ticker.tsx) polls a quote service. It keeps
  `quotes` and `loading` as component state, and each effect has its own
  `mounted` guard. It derives a doubled list for the scrolling marquee, and
  it picks a percentage and an up/down direction for each quote.

Each `fetch` outcome is an input value, `Response<T>` (threw, not ok, or ok
with a body). The regular expressions are hand-written string functions,
one per concrete pattern, with the JavaScript engine's semantics for that
pattern:

- the leftmost start position wins (`Scan.First`);
- greedy `[^>]+` backtracks from the right (`Scan.Last`);
- lazy `(.*?)` stops at the first delimiter and never crosses a line
  terminator (`Scan.LazyUntil`);
- the `i` flag folds ASCII case.

JSON values, `undefined`, truthiness, optional chaining, `||` and `String()`
live in module `Js`. `Js.Get` is the definition of `v?.key`: only an object
holding its own `key` gives a value, and anything else gives `undefined`.
`String()` of a parsed value throws a `TypeError` when the value is an
object with its own `toString` key, or an array holding one.

The ticker has two forms:

- a pure state machine, `Ticker.Step` and `Ticker.Run`, over events: a
  request of effect *n* completed, a request of effect *n* threw, cleanup,
  or the symbol list changed;
- a class, `Ticker.Poller`, whose fields the methods update in place, and
  whose every method is tied to `Step`.

A timer tick is one more call of `Respond` or `Fail`.

Modules:

| module | contents |
|---|---|
| `Wrappers` | `Option` and `Hit` |
| `Scan` | string search |
| `Text` | `trim` and the tag-stripping `replace` |
| `Js` | JavaScript values |
| `Tldr` | the record and the fallback |
| `Api`, `Feed`, `Scrape` | strategies A, B and C |
| `Resolver` | the first-success chain |
| `Ticker` | the poller |

### Where the code differs from the usual description of it

The model follows the code in each of these cases.

- **Strategy A checks truthiness before conversion.** It tests `title` and
  `url` for truthiness before converting them with `String()`. A truthy
  non-string therefore succeeds even when its text is empty: a title of `[]`
  gives the title `""` (`Api.EmptyArrayTitle`). It is not true that
  "both are non-empty strings".
- **Strategy A keeps the raw summary.** The summary it returns is the raw
  JSON value the alias chain picks (for example a number or an object). It
  is not converted to a string.
- **A missing `rawHref` is not caught.** In strategy C, when no exact-case
  `href="…"` can be found again inside the case-insensitive match,
  `rawHref` is `undefined`. The url then becomes `https://tldr.tech` followed
  by the text `undefined`.
- **A non-array quote payload keeps the quotes.** When a quote response is
  not an array, the ticker's `quotes` are left as they were, and only
  `loading` becomes false. They are not cleared.

## Model

| member | source | states |
|---|---|---|
| `Js.Or` | app/page.tsx:23-34 | the logical-or operator gives one of its two operands, and its result is truthy exactly when either operand is |
| `Js.OrAssociative` | app/page.tsx:23-34 | a chain of logical-or operators gives the same value however it is grouped |
| `Js.OrSkipsFalsy` | app/page.tsx:23-34 | a falsy value at the head of a chain is skipped, and a truthy one is the value of the whole chain |
| `Js.ToText` | app/page.tsx:30-39 | `String()` throws exactly for an object with its own `toString` key or an array holding one, and gives a string as it is |
| `Api.FirstItem` | app/page.tsx:23-27 | the first item is `items[0]` if truthy, else `stories[0]` if truthy, else `sections[0].items[0]` if truthy, else the document itself |
| `Api.AliasOrder` | app/page.tsx:28-29 | the title is `first.title` when truthy, else the root `title`; the url is `first.url`, else `first.link`, else the root `link` |
| `Api.SummaryValue` | app/page.tsx:34 | the summary is the item's `summary` when truthy, else the item's `tldr` when truthy, else the document's `summary` when truthy, else `null`; it is always `null` or truthy |
| `Api.Attempt` | app/page.tsx:15-41 | strategy A succeeds exactly when the response is ok, both title and url are truthy and `String()` throws for neither; it then returns their `String()` texts, the summary chain's value and source `api` |
| `Api.OwnToStringFails` | app/page.tsx:30-39 | `{"title": {"toString": 1}, "url": "u"}` gives no headline: `String()` throws and the strategy fails |
| `Api.StringFieldsGiveNonEmptyHeadline` | app/page.tsx:28-33 | when title and url are strings, a successful result has a non-empty title and url |
| `Api.EmptyArrayTitle` | app/page.tsx:28-33 | a truthy but empty value such as `[]` as the title still succeeds, with the empty title |
| `Api.ItemsHeadIsUsed` | app/page.tsx:23-36 | a document whose `items[0]` has non-empty string title and url yields exactly those, tagged `api` |
| `Feed.ItemSpan` | app/page.tsx:51 | the item block runs from the first `<item>` to the nearest `</item>` after it; it is the leftmost, shortest match, and there is none exactly when no `<item>` is followed by `</item>` |
| `Feed.BlockIsItsOwnBlock` | app/page.tsx:51 | cutting the item block out of the block itself gives the block again |
| `Feed.OnlyTheBlockMatters` | app/page.tsx:51-60 | the feed result depends only on the first item block: text outside it is never used |
| `Feed.NoTitleWithoutTag` | app/page.tsx:52-54 | neither title alternative matches where no `<title>` starts |
| `Feed.Enclosed` | app/page.tsx:52-55 | a lazy capture between an opening text and a delimiter ends at the first delimiter on its line and captures exactly the text before it |
| `Feed.CdataTitleIsUnwrapped` | app/page.tsx:52-56 | a first `<title>` holding `<![CDATA[x]]>` yields `x`, and yields no title when `x` is empty (the plain alternative is not tried again at that tag) |
| `Feed.PlainTitleIsTaken` | app/page.tsx:52-56 | a first `<title>x</title>` that is not CDATA yields `x` |
| `Feed.LinkIsTaken` | app/page.tsx:55-57 | the first `<link>x</link>` yields `x` |
| `Feed.Attempt` | app/page.tsx:44-62 | strategy B succeeds exactly when the feed is ok, has an item block, and that block has a non-empty title and link; the record then holds them with a null summary and source `rss` |
| `Scrape.RestAt` | app/page.tsx:70 | a match of the tail of the pattern after `href="` lays out, case-insensitively: `href="`, the news root and `news`; the first `"` after them; the first `>` after that, just before the text; and the first `</a>` after the text, with no line terminator in the text |
| `Scrape.RestAtIs` | app/page.tsx:70 | conversely, wherever those pieces are laid out, the tail of the pattern matches with exactly that layout |
| `Scrape.TagEnd` | app/page.tsx:70 | `[^>]+` after `<a` can reach no further than the first `>` after `<a`, or the end of the page |
| `Scrape.AnchorAt` | app/page.tsx:70 | a match at a position starts with `<a` there and then has no `>` until its `href="`; that `href="` is the last one before the tag's first `>` from which the tail matches, and the match is that tail's; there is no match exactly when `<a` is missing or no `href="` in reach lets the tail match |
| `Scrape.AnchorAtIs` | app/page.tsx:70 | conversely, the last `href="` in reach from which the tail matches decides the match |
| `Scrape.FindAnchor` | app/page.tsx:69-71 | the match used is the leftmost position at which the anchor pattern matches, and there is none exactly when it matches nowhere |
| `Scrape.FindAnchorIs` | app/page.tsx:69-71 | conversely, the leftmost position at which the pattern matches is the match used |
| `Scrape.HrefValueAt` | app/page.tsx:73 | `href="([^"]+)"` at a position gives a non-empty value without `"`, with `href="` before it and `"` after it |
| `Scrape.HrefValueAtIs` | app/page.tsx:73 | conversely, where `href="`, such a value and `"` occur, that value is taken |
| `Scrape.RawHref` | app/page.tsx:73 | `rawHref` is the value at the leftmost position where the href pattern matches, and is missing exactly when it matches nowhere in the anchor |
| `Scrape.RawHrefIs` | app/page.tsx:73 | conversely, the leftmost `href="value"` supplies `rawHref` |
| `Scrape.AbsoluteHref` | app/page.tsx:73-76 | a link starting with `http` is kept, any other is prefixed with `https://tldr.tech`, a missing one becomes `https://tldr.techundefined`; the result always starts with `http` |
| `Scrape.AbsoluteHrefIdempotent` | app/page.tsx:74-76 | making an already absolute link absolute changes nothing |
| `Scrape.RelativeNewsLinkIsAbsolute` | app/page.tsx:74-76 | a site-relative `/news…` link becomes `https://tldr.tech/news…` |
| `Scrape.AnchorTitle` | app/page.tsx:77-78 | the title is the inner text without tags, trimmed, or `Latest from TLDR Tech` when that is empty; it is never empty and holds no tag |
| `Scrape.Attempt` | app/page.tsx:65-87 | strategy C succeeds exactly when the page is ok and holds a matching anchor; the record's title comes from the first match's inner text, its url from the `rawHref` of that match made absolute, with a null summary and source `html-scrape` |
| `Scrape.NewsAnchorIsTaken` | app/page.tsx:65-87 | when the page's first `<a` is `<a href="h">x</a>`, where `h` starts with `/news` or `https://tldr.tech/news` and holds no `"`, and `x` is on one line and holds no `</a>`, strategy C gives the title made from `x` and the absolute form of `h` |
| `Text.Trim` | app/page.tsx:78 | `trim()` gives the slice of the input between its leading and trailing white space; it is empty exactly when the input is all white space |
| `Text.LeadingSpace` | app/page.tsx:78 | the length of the white-space prefix that `trim()` removes |
| `Text.TrailingSpace` | app/page.tsx:78 | the length of the white-space suffix that `trim()` removes |
| `Text.StripTagsLeavesNoTags` | app/page.tsx:78 | after `replace(/<[^>]+>/g, "")` no `<…>` tag is left |
| `Text.StripTagsIdempotent` | app/page.tsx:78 | stripping tags twice is stripping them once |
| `Text.StripTagsOfTagFree` | app/page.tsx:78 | text without tags is left unchanged |
| `Text.StripTagsWithoutClose` | app/page.tsx:78 | text without any `>` is left unchanged |
| `Text.StripTagsDropsTag` | app/page.tsx:78 | a leading tag `<t>` is removed exactly up to its own first `>`, and stripping continues after it |
| `Text.StripTagsKeepsHead` | app/page.tsx:78 | a leading character other than `<` is kept |
| `Resolver.FirstSuccess` | app/page.tsx:15-95 | the first present outcome wins, and the default is returned when every outcome is absent |
| `Resolver.GetTLDRTop` | app/page.tsx:13-96 | strategies are tried in the order A, B, C; the first success is returned, otherwise the fallback record; the result never fails, and only an `api` result can have an empty title or url |
| `Resolver.SourceTellsTheStrategy` | app/page.tsx:35-94 | the source tag is `api`, `rss`, `html-scrape` or `fallback` exactly when that strategy is the first to succeed |
| `Resolver.LaterOutcomesAreIgnored` | app/page.tsx:30-36 | once a strategy succeeds, the outcomes of the later fetches do not affect the result |
| `Resolver.FailuresGiveTheFallback` | app/page.tsx:89-95 | when all three fetches fail, the result is exactly the fallback record: `Latest from TLDR Tech`, `https://tldr.tech/`, the fixed summary, source `fallback` |
| `Ticker.Marquee` | app/components/Ticker.tsx:42 | the marquee is twice as long as the quotes, even, empty exactly when they are, and the element one full length of the quotes after element `i` equals it |
| `Ticker.RatioSign` | app/components/Ticker.tsx:58-60 | for a non-zero price, `change / price * 100 >= 0` exactly when change and price do not have opposite signs |
| `Ticker.Direction` | app/components/Ticker.tsx:54-60 | "up" follows the reported percentage when present, else the signs of change and price (on a zero price, taken as positive zero, only a positive change is "up"), else zero counts as "up" |
| `Ticker.PercentExamples` | app/components/Ticker.tsx:54-60 | a reported 2% is "up"; a change of -5 on 100 is -5% and "down"; a quote with no numbers is 0% and "up" |
| `Ticker.LiveCompletion` | app/components/Ticker.tsx:25-29 | while its effect is mounted, an array replaces the quotes as it is, a non-array leaves them, and a throw empties them; all three end loading |
| `Ticker.OnlyLiveCompletionsChangeQuotes` | app/components/Ticker.tsx:25-29 | the quotes and the loading flag change only through a completion of the mounted effect, and loading never goes from false to true |
| `Ticker.LoadingNeverReturns` | app/components/Ticker.tsx:14-29 | once loading has ended it stays ended after any events |
| `Ticker.AlwaysConsistent` | app/components/Ticker.tsx:13-37 | the poller starts with no quotes and loading, and after any events its timer runs exactly while its effect is mounted |
| `Ticker.ConsistentRun` | app/components/Ticker.tsx:33-37 | events keep the timer in step with the `mounted` flag |
| `Ticker.DeadStaysDead` | app/components/Ticker.tsx:17-39 | an effect that was cleaned up is never mounted again |
| `Ticker.LateCompletionIsIgnored` | app/components/Ticker.tsx:25-37 | a request of a cleaned-up effect that completes or throws later changes nothing |
| `Ticker.UnmountFreezesTheTicker` | app/components/Ticker.tsx:25-37 | after unmounting from a consistent state, no completion changes the quotes or the loading flag, the effect stays unmounted and the timer stays stopped |
| `Ticker.Poller.constructor` | app/components/Ticker.tsx:13-17 | the poller starts with no quotes, loading, its first effect mounted and its timer running |
| `Ticker.Poller.Respond` | app/components/Ticker.tsx:23-29 | a completion of the mounted effect replaces the quotes with an array payload, keeps them otherwise, and ends loading; any other completion changes nothing |
| `Ticker.Poller.Fail` | app/components/Ticker.tsx:26-29 | a failure of the mounted effect empties the quotes and ends loading; any other failure changes nothing |
| `Ticker.Poller.Cleanup` | app/components/Ticker.tsx:35-37 | cleanup clears `mounted` and stops the timer, and changes nothing else |
| `Ticker.Poller.Restart` | app/components/Ticker.tsx:16-39 | a change of symbols retires the current effect and starts the next one, mounted and polling; the quotes and the loading flag carry over |

## Left out

- **Network access and timers.** `fetch`, its headers and cache options, the
  URL built from the symbols, and `setInterval`/`clearInterval` are not
  modelled. Each fetch outcome is an input. A timer tick is one more
  completion event. The interval is only a `polling` flag.
- **Presentation.** `Page`, the JSX, the CSS, the static content, `toFixed(2)`,
  the row keys and React's `useMemo`/`useEffect` scheduling are not part of
  this model.
- **`String()` of a number.** JavaScript's number-to-text algorithm is the
  parameter `showNumber`. Numbers are reals, so signed zero, rounding and
  precision are not modelled.
- **The percentage is computed on reals.** `change / price * 100` is real
  arithmetic, not IEEE division. A zero price gives an infinity or NaN the
  way JavaScript does for a positive zero, but rounding is not modelled.
  A price of `-0`, which `JSON.parse("-0")` produces, is not: in JavaScript
  `-5 / -0 * 100` is `+Infinity` and "up", while the model gives minus
  infinity and "down".
- **`typeof` on quote fields.** Each numeric quote field is an `Option<real>`:
  present, or absent or of another type. A non-object element of a quote
  array is not modelled.
- **Overlapping requests.** Two requests of the same mounted effect complete
  in the order the events list them, and the last one wins. Which order a
  real network produces is not modelled.
- **Characters, not UTF-16 code units.** Strings are sequences of Dafny
  characters, not UTF-16 code units. Surrogate pairs are not modelled.
- **Only the concrete patterns.** Only the six patterns in the source are
  modelled, not a general regular-expression engine. They include the
  lazy, greedy and case-insensitive parts those patterns use.
- **Only the JSON fields that are read.** `Js.Get` covers own string-keyed
  properties only. Inherited properties are not modelled. One of them does
  change the result: `String.prototype.link`, a legacy string method. For
  `{"items": ["x"], "title": "T"}`, `first` is the string `"x"`, so
  `first?.link` is a function. Strategy A then succeeds with the url
  `function link() { [native code] }`, but the model's strategy A fails.
- **The JSON parse is an input.** `res.json()` rejecting is the `Threw`
  outcome.

# Market X-Ray in Dafny

Market X-Ray is a browser extension with a Cloudflare worker behind it. It finds `$TICKER`
mentions on social-media pages and shows a tooltip with the option chain's "max pain"
price. The extension's background script is the "data mule". It takes a crumb (an
anti-forgery token) from a Yahoo Finance quote page, fetches the option chain with it,
and posts the raw chain to the worker. The worker computes the max-pain strike, stores the
analysis in its KV cache and answers with it. The content script falls back to the
worker's cached GET route when the job fails, and then to a locally generated mock.

This project models those three parts:

- `max_pain.dfy` (module `MaxPain`): the worker's `calculateMaxPainFromOptions`, as
  methods with the source's loops. They are proved against a pain function: the result is
  a strike of the chain, no strike has less pain, a tie goes to the lowest strike, and the
  strike count is the number of distinct strikes.
- `worker.dfy` (module `Worker`):
  - the cache key and the insight table;
  - `POST /api/analyze` as a method over a map that stands for the KV namespace;
  - `GET /api/max-pain/:symbol`;
  - the round trip through the cache.
- `crumb.dfy` (module `Crumb`): the crumb hunt's text processing.
  - Page text is a sequence of UTF-16 code units.
  - The primary pattern and the `CrumbStore` fallback pattern are hand-written scanners.
    Each is proved sound and complete against a predicate that says what the regular
    expression matches.
  - `\uXXXX` decoding is proved to undo an escaper.
- `background.dfy` (modules `BackgroundText`, `Background`):
  - the crumb store as a class with the two module variables;
  - `getValidCrumb` with its 30-minute lifetime;
  - the ordered alternative pages;
  - the status classification and the invalidation rules of `handleDataMuleWithCrumb`;
  - the extension state with its message handler.
- `content.dfy` (module `Content`):
  - `extractTickers`, as a `while` loop proved equal to a scan-and-deduplicate
    specification;
  - the domain whitelist;
  - the mock's range table and sentiment table;
  - the three tiers of `fetchMaxPainData`;
  - the geometry of the tooltip's bar.
- `js.dfy` (module `Js`): the JavaScript behaviour the others rely on. Numbers keep
  `Infinity` and `NaN`, because a zero price is divided by unchecked. It also has ASCII
  `toUpperCase`, `includes`, the leftmost match of a pattern, and the decimal text of a
  status code.

The network, the clock, `Math.random` and Chrome's APIs are parameters:
- a quote page is what `fetch` delivered for a symbol;
- an API reply is a status plus the parsed body, or the exception thrown;
- the draws and the clock's text are arguments.

## Model

| member | source | states |
|---|---|---|
| MaxPain.SortedDistinct | cloudflare-worker/src/worker.js:50-51 | `[...new Set(strikes)].sort(...)` is strictly increasing and holds exactly the values of its input |
| MaxPain.StrikeCount | cloudflare-worker/src/worker.js:50-51 | the number of sorted distinct strikes equals the size of the set of strikes of both lists |
| MaxPain.TotalPain | cloudflare-worker/src/worker.js:58-72 | the two `forEach` loops add up `Pain`: `(K - strike) * OI` for calls below `K`, `(strike - K) * OI` for puts above it, and missing open interest counts as 0 |
| MaxPain.FirstMinimum | cloudflare-worker/src/worker.js:53-78 | over ascending strikes, the loop that starts at `Infinity` and updates on strict `<` returns a strike of the list and its pain; no strike has less pain, and every lower strike has strictly more |
| MaxPain.FirstMinimumIsMaxPain | cloudflare-worker/src/worker.js:74-77 | a first minimum over the distinct strikes is the max-pain price of the whole chain |
| MaxPain.CalculateMaxPainFromOptions | cloudflare-worker/src/worker.js:41-89 | fails exactly when the entry is missing (TypeError) or either list is missing or empty; otherwise it returns the max-pain strike, its pain and the number of distinct strikes |
| MaxPain.PainNonNegative | cloudflare-worker/src/worker.js:57-73 | pain is never negative |
| MaxPain.MaxPainUnique | cloudflare-worker/src/worker.js:74-77 | minimality plus the lowest-strike tie-break determine a single max-pain price |
| MaxPain.SampleChainMaxPain | cloudflare-worker/src/worker.js:57-78 | for the three-strike chain of the worker's test fixture, the pains at 145, 150 and 155 are 17000, 9000 and 20000, so the answer is 150 |
| MaxPain.MissingOpenInterestCountsAsZero | cloudflare-worker/src/worker.js:61-72 | a chain whose rows carry no open interest has zero pain, and its only strike, 150, is the answer |
| Worker.GetCacheKey | cloudflare-worker/src/worker.js:26-28 | the key is `max-pain:` followed by the symbol, with the symbol's length |
| Worker.CacheKeySharedIffSameUpper | cloudflare-worker/src/worker.js:26-28 | two symbols share a key if and only if they are equal once upper-cased |
| Worker.CacheKeyCaseInsensitive | cloudflare-worker/src/worker.js:26-28 | a symbol and its upper-cased form address the same entry |
| Worker.AnalyzeData | cloudflare-worker/src/worker.js:31-38 | with `d = (price - maxPain) / price * 100`: above 10 is significantly above; (5, 10] is moderately above; below -10 is significantly below; [-10, -5) is moderately below; [-5, 5] is pinned. A zero price decides by the sign of max pain (`Infinity`/`NaN`) |
| Worker.AnalyzeDataBoundaries | cloudflare-worker/src/worker.js:31-38 | exactly 10% is "moderately", exactly 5% is "pinned", and 11% is "significantly", on both sides |
| Worker.DeviationSign | cloudflare-worker/src/worker.js:128 | for a positive price the reported percentage is finite, and has the sign of `price - maxPain` |
| Worker.HandleAnalyze | cloudflare-worker/src/worker.js:92-170 | 400 if and only if a field or the chain structure is missing; 500 if and only if the calculation throws; otherwise 200 with the max-pain strike, the insight, the percentage and the upper-cased symbol. On 200 the analysis is stored with `cached: true` under the key; on any failure the cache is unchanged |
| Worker.HandleGetMaxPain | cloudflare-worker/src/worker.js:173-208 | 400 if and only if the symbol is empty or longer than 5; 200 if and only if the key is cached, serving the record with `cached: true`; otherwise 404 naming the upper-cased symbol |
| Worker.StoredRecordIsServed | cloudflare-worker/src/worker.js:143-198 | a record stored for a symbol is what a GET for any spelling of it serves |
| Worker.AnalyzeThenGet | cloudflare-worker/src/worker.js:92-198 | round trip: a successful analysis followed by a GET answers 200 with the analysis just computed; a failed one leaves the GET's answer as before |
| Crumb.PrimaryAtIsPrimaryMatch | chrome-extension/background.js:122 | the scanner for `"crumb":"([A-Za-z0-9.\-_]+)"` at a position answers a capture if and only if the pattern matches there with that capture |
| Crumb.FallbackAtSound | chrome-extension/background.js:137 | every capture of the `"CrumbStore":\s*{\s*"crumb":\s*"([^"]+)"` scanner is a match of that pattern, white space included |
| Crumb.FallbackAtComplete | chrome-extension/background.js:137 | every match of the fallback pattern is found by the scanner with the same capture |
| Crumb.Decode | chrome-extension/background.js:127-129 | decoding never lengthens the text, and empties only the empty text |
| Crumb.DecodeWithoutBackslash | chrome-extension/background.js:127-129 | text without a backslash decodes to itself |
| Crumb.EscapedUnitOfEscape | chrome-extension/background.js:127-129 | `parseInt(hex, 16)` of the four hex digits of a code unit, each in either case, gives the code unit back |
| Crumb.DecodeEscapeThen | chrome-extension/background.js:127-129 | an escape with digits in either case becomes the unit it names, and what follows is decoded on its own |
| Crumb.DecodeEscapeAll | chrome-extension/background.js:127-129 | decoding undoes escaping every unit as `\uXXXX`, for any text and any choice of digit case |
| Crumb.DecodeAppend | chrome-extension/background.js:127-129 | text without a backslash is copied unchanged in front of the decoding of whatever follows |
| Crumb.BareBackslashKept | chrome-extension/background.js:127-129 | a backslash that starts no escape is copied, and decoding resumes after it |
| Crumb.DecodeMixed | chrome-extension/background.js:127-129 | plain text, an escape and the rest decode part by part, so escapes mixed with other units decode in place |
| Crumb.DecodeExamples | chrome-extension/background.js:126-129 | `\u002F` (upper-case digit) decodes to `/`, `a\u002Fb` to `a/b`, and a backslash before `a` stays as it is |
| Crumb.PrimaryCaptureHasNoBackslash | chrome-extension/background.js:122-129 | a primary capture is non-empty and is its own decoding |
| Crumb.CrumbFromPage | chrome-extension/background.js:113-153 | a thrown fetch or a non-OK page gives null; otherwise the primary capture if there is one, else the decoded fallback capture, else null; a crumb is never empty |
| Background.FreshnessBoundary | chrome-extension/background.js:157-164 | a crumb stored 29 minutes ago is served; one stored exactly 30 minutes ago, or longer, is not; no crumb is never fresh |
| Background.AlternativeCrumb | chrome-extension/background.js:203-213 | an alternative page yields a crumb if and only if it is OK and the primary pattern matches; then it yields the primary capture |
| Background.FirstSomeIsFirst | chrome-extension/background.js:193-220 | the first-found search answers if and only if some page yields, with a page before which none yields, and looks at every page exactly when only the last one (or none) yields |
| Background.TryInOrder | chrome-extension/background.js:193-220 | the loop over the symbols answers the first crumb in list order, and fetches exactly the pages up to and including that one |
| Background.FetchCrumbFromAlternative | chrome-extension/background.js:190-221 | the same, over MSFT, GOOGL, AMZN, TSLA, NVDA |
| Background.Acquire | chrome-extension/background.js:166-184 | a refill takes the AAPL page's crumb, else the first alternative crumb |
| Background.AcquireVisits | chrome-extension/background.js:166-184 | a refill visits AAPL first, and only AAPL exactly when AAPL yields a crumb |
| Background.ErrorText | chrome-extension/background.js:314 | `error.toString()` begins with the error's name and ends with its message, is the bare name exactly when the message is empty, and has the `: ` separator exactly when both are non-empty |
| Background.OneOptionRequest | chrome-extension/background.js:238-266 | the job asks for the option chain exactly once, right after the crumb hunt's quote pages, and fetches no quote page after it: a refusal or a 429 is not retried |
| Background.ValidCrumbOutcome | chrome-extension/background.js:157-187 | a fresh stored crumb is answered as is; otherwise the refill's crumb, or the error "Failed to obtain valid crumb from Yahoo Finance" |
| Background.Classify | chrome-extension/background.js:254-270 | 401 and 403 are refusals, 429 is rate limiting, other non-2xx statuses are rejections, and 2xx is accepted |
| Background.ShouldInvalidate | chrome-extension/background.js:310 | true if and only if the message contains "Crumb might be invalid", "401" or "403" |
| Background.AfterCrumb | chrome-extension/background.js:238-305 | the whole request list: the option-chain request once, then a 5-second wait exactly on 429, then the worker post exactly when the chain arrived, and never a second option-chain or quote-page request. The fixed error messages cover refusal, rate limiting, rejection and worker failure. The worker is posted the upper-cased ticker and the raw chain exactly when the chain arrived; success comes exactly when both replies are OK |
| Background.CrumbStore.constructor | chrome-extension/background.js:17-18 | the store starts empty, stamped 0 |
| Background.CrumbStore.FetchCrumb | chrome-extension/background.js:94-154 | answers the AAPL page's crumb and stamps `crumbLastFetched` with its own clock only on success |
| Background.CrumbStore.GetValidCrumb | chrome-extension/background.js:157-187 | answers `ValidCrumbOutcome` and visits no page when fresh. A refill stores the crumb stamped with the `now` read on entry; a total failure leaves both fields unchanged |
| Background.CrumbStore.Invalidate | chrome-extension/background.js:257-258 | the store becomes empty, stamped 0 |
| Background.CrumbStore.Fail | chrome-extension/background.js:307-315 | the catch block empties the store exactly when `ShouldInvalidate` holds of the message, and answers the error's text |
| Background.CrumbStore.HandleDataMuleWithCrumb | chrome-extension/background.js:224-316 | a crumb failure answers its text and keeps the store. Otherwise it answers `{success: true, data}` or the error's text; the store is emptied exactly when the message calls for it, else holds the crumb in use; the requests made are listed in order |
| Background.RefusalInvalidates | chrome-extension/background.js:254-260 | the refusal's own message names an invalid crumb, so the catch block clears the store too |
| Background.WorkerRefusalInvalidates | chrome-extension/background.js:293-313 | a worker failing with 401 or 403 clears the crumb store as well, since the catch block reads only the message |
| Background.RateLimitKeepsCrumb | chrome-extension/background.js:262-266 | being rate limited does not clear the store |
| Background.CrumbFailureKeepsCrumb | chrome-extension/background.js:186 | finding no crumb at all does not clear the store |
| Background.Merge | chrome-extension/background.js:333 | the spread merge has every key of either side, the update's value winning |
| Background.MergeIdempotent | chrome-extension/background.js:333 | sending the same preferences twice is sending them once |
| Background.BadgeText | chrome-extension/background.js:63-71 | the badge reads "ON" if and only if enabled, else "OFF" |
| Background.ExtensionState.constructor | chrome-extension/background.js:7-14 | enabled, with the default preferences |
| Background.ExtensionState.LoadPreferences | chrome-extension/background.js:22-30 | a stored flag replaces the current one; stored preferences are merged over the current ones |
| Background.ExtensionState.ToggleEnabled | chrome-extension/background.js:41-60 | the flag becomes the given value, preferences are kept, and the badge shows it |
| Background.ExtensionState.ActionClicked | chrome-extension/background.js:88-91 | a click negates the flag |
| Background.ExtensionState.UpdatePreferences | chrome-extension/background.js:332-336 | a shallow merge over the current preferences; the flag is kept |
| Background.OnMessage | chrome-extension/background.js:319-349 | GET_STATE answers the state unchanged; TOGGLE_ENABLED and UPDATE_PREFERENCES change only their field and answer success; FETCH answers exactly the job's response and leaves the crumb store as the job does (`MuleResult`); any other type answers "Unknown message type" and changes nothing |
| Content.TickerAt | chrome-extension/content.js:9 | a ticker found at a position is a `$`, one to five capitals and a word boundary |
| Content.TickerMatchIsTickerAt | chrome-extension/content.js:9 | every match of `\$([A-Z]{1,5})\b` is found, with its capture |
| Content.SixCapitalsContributeNothing | chrome-extension/content.js:9 | a `$` followed by six capitals starts no match |
| Content.WordCharAfterCapitalsContributesNothing | chrome-extension/content.js:9 | capitals followed by a lower-case letter, a digit or `_` start no match |
| Content.UpperOfCapitals | chrome-extension/content.js:47 | upper-casing a capture changes nothing |
| Content.ScanSound | chrome-extension/content.js:46-48 | every ticker the successive `exec` calls yield is the capture of a match |
| Content.ScanComplete | chrome-extension/content.js:46-48 | every match is yielded by the successive `exec` calls: resuming at a match's end skips nothing |
| Content.DedupIsASet | chrome-extension/content.js:44-49 | the `Set` holds each added value once |
| Content.DedupKeepsFirstOccurrenceOrder | chrome-extension/content.js:44-49 | `Array.from` of the `Set` lists values in the order of their first occurrence |
| Content.TickersOfText | chrome-extension/content.js:43-50 | the tickers of a text are exactly the captures of its matches, without duplicates, in first-occurrence order |
| Content.ExtractTickers | chrome-extension/content.js:43-50 | the `while` loop returns the deduplicated scan |
| Content.IsWhitelistedDomain | chrome-extension/content.js:29-32 | true if and only if some listed domain occurs as a substring of the host name |
| Content.DropboxIsWhitelisted | chrome-extension/content.js:29-32 | "dropbox.com" passes the check, because it contains "x.com" |
| Content.IsWhitelistedHost | chrome-extension/content.js:29-32 | the intended check: the host is a listed domain or a sub-domain of one |
| Content.DropboxIsNotWhitelistedHost | chrome-extension/content.js:29-32 | "dropbox.com" fails the intended check |
| Content.SubdomainsAreWhitelistedHosts | chrome-extension/content.js:29-32 | every listed domain and each of its sub-domains passes the intended check |
| Content.WhitelistedHostIsWhitelisted | chrome-extension/content.js:29-32 | the intended check only narrows the written one |
| Content.SentimentTable | chrome-extension/content.js:73-105 | for a positive price: above max pain is bearish above 10%, slightly bearish in (5%, 10%]; below is bullish and slightly bullish by the same strict thresholds; neutral exactly when within 5% |
| Content.SentimentAgreesWithWorker | chrome-extension/content.js:73-105 | for every non-negative price the mock's sentiment corresponds to the worker's `analyzeData` band |
| Content.SentimentExamples | cloudflare-worker/test/max-pain.test.js:199-215 | (200, 150) is bearish, (100, 150) bullish, (150, 152) neutral |
| Content.RangeFor | chrome-extension/content.js:55-68 | every range is a proper interval of prices between 50 and 700 |
| Content.RangeLookup | chrome-extension/content.js:68 | the lookup ignores case; a ticker with an entry gets the upper-cased ticker's whole entry (min, max and name), and one without gets DEFAULT {50, 200, "Stock"} |
| Content.RangeExamples | chrome-extension/content.js:55-68 | "tsla" finds Tesla's range, "XYZ" the default |
| Content.DrawPrice | chrome-extension/content.js:69 | the drawn price lies in `[min, max)` |
| Content.DrawMaxPain | chrome-extension/content.js:71 | the drawn max pain lies in `[0.95 * price, 1.05 * price)` |
| Content.NearMaxPainPercentage | chrome-extension/content.js:71-74 | such a max pain is at most 5% away in the reported percentage |
| Content.GenerateLocalMockData | chrome-extension/content.js:53-121 | upper-cased symbol, `cached: false`, source `local-mock-data`; price in the ticker's range; max pain within 5% of it; difference is price minus max pain |
| Content.MockIsNeutral | chrome-extension/content.js:71-105 | the mock's sentiment is always neutral, with the "exactly at" text when the two are equal and the "near" text otherwise |
| Content.FromAnalysis | chrome-extension/content.js:151-165 | the job's analysis is renamed for the tooltip: sentiment neutral, the insight or "No analysis available", difference `price - maxPain`, the worker's percentage and timestamp |
| Content.Spread | chrome-extension/content.js:182-185 | the cache body spread as is has no `underlyingPrice` and no `analysis` |
| Content.FetchMaxPainData | chrome-extension/content.js:124-198 | rejects exactly on `lastError`. The source is `data-mule` exactly when the job succeeded; `worker-cache-fallback` exactly when it did not and the GET was OK; `local-mock-data` otherwise. The job's tier is `FromAnalysis` of its data (neutral, difference price − max pain), the GET tier is its body spread, and the last tier is `GenerateLocalMockData` of the draws |
| Content.BarPosition | chrome-extension/content.js:228 | a price at most half the span from max pain sits between 25% and 75% of the bar, at 50% exactly when equal, above 50% exactly when higher |
| Content.BarFor | chrome-extension/content.js:219-231 | max pain sits at the midpoint and position 50, with the price inside the bar. The price position is in [25, 75], so the clamp to [0, 100] never acts, and it is `NaN` only when the price equals a non-positive max pain. "Above" exactly when the price exceeds max pain |
| Content.CreateTooltip | chrome-extension/content.js:218-236 | the tooltip can be drawn if and only if `analysis`, the price and max pain are all present; then its bar is `BarFor` |
| Content.MockRenders | chrome-extension/content.js:218-231 | the mock's tooltip is always drawn, with the price in the middle half of the bar |
| Content.RendersIffNotFromCache | chrome-extension/content.js:142-193 | as written, a resolved result can be drawn exactly when it did not come from the worker's cache |
| Content.CacheFallbackCannotRender | chrome-extension/content.js:180-186 | a failed job followed by a cache hit resolves with the cached max pain and `cached`, and its tooltip cannot be drawn |
| Content.FetchMaxPainDataFixed | chrome-extension/content.js:180-186 | the corrected fallback tier keeps the same tier order, and maps the cached body with `FromAnalysis`, keeping its `cached` flag |
| Content.FixedFetchAlwaysRenders | chrome-extension/content.js:167-193 | with the correction every resolved result can be drawn, and a cache hit keeps its `cached` flag |

## Left out

- The DOM and the UI are not modelled: `scanForTickers`, the tree walker and the mutation observer, `debounce`, `showTooltip`, `positionTooltip`, the tooltip's HTML and colours, and `popup.js`. They are presentation and event glue.
- Network, storage and tab calls are not modelled as calls. Their results are inputs: `fetch`, `chrome.runtime`, `chrome.tabs`, `chrome.storage` writes (`savePreferences`) and the broadcast of `TOGGLE_ENABLED` to the tabs.
- `chrome.tabs.onUpdated` and `chrome.runtime.onInstalled` are not modelled. They only log or open a page.
- The router, the CORS handler and the health route are not modelled.
- KV expiry (`expirationTtl: 3600`) is not modelled. The platform enforces it, so the cache is a plain map.
- The GET route's 500 branch is not modelled. It is reached only when the KV read throws, which is I/O.
- A request body that is not JSON is not modelled; requests arrive parsed. The same holds for a non-string `symbol` and a missing `regularMarketPrice`.
- A fallback body whose `.json()` fails is not modelled. Bodies arrive parsed; in the source such a body would lead to the mock.
- Waits are steps, not time. The 5-second wait after a 429 is a `Wait(5000)` effect, and the 5-second abort of the fallback `fetch` is a fallback that did not arrive.
- Concurrency is not modelled. This covers interleaved jobs sharing the crumb store and any coalescing of crumb hunts, which the source does not do either.
- Finite numbers are exact reals. Double rounding is not modelled, and neither are `NaN` strikes.
- The test file's `calculateMaxPainTest` is a test double with a different pain formula. It is used only for its fixtures and its sentiment examples.
- Worker.HandleAnalyze: `percentageDiff` is the exact number, not the one-decimal string that `toFixed(1)` produces.
- Content.SentimentOf: it compares the exact percentage with 10 and 5, where the source compares the one-decimal string. For instance 10.04 rounds to "10.0" and is not bearish in the source.
- Content.GenerateLocalMockData: price and max pain are not rounded to cents. The four non-neutral analysis texts are kept as their sentiment, without the formatted numbers.
- Content.FromAnalysis: the recomputation behind `result.percentageDiff ||` is not modelled. The worker's percentage string is never empty, so the source never takes it.
- Background.OnMessage: for FETCH_YAHOO_FINANCE_DATA it states the reply and the crumb store's new entry, but not the fetches and the wait the job makes. Those are the effect list in the contract of `Background.CrumbStore.HandleDataMuleWithCrumb`.
- Worker.GetCacheKey: `toUpperCase` is modelled for ASCII letters only, and a symbol's length counts characters, not UTF-16 units. So for symbols with other cased letters (`ß`, `é`) or characters outside the Basic Multilingual Plane, the key, `Worker.CacheKeySharedIffSameUpper` and `Worker.CacheKeyCaseInsensitive` can differ from the source. The extension only sends `$` captures of one to five capitals A-Z, which are unaffected.
- Worker.HandleGetMaxPain: the length test at cloudflare-worker/src/worker.js:176 counts characters, not UTF-16 units, so a symbol with a character outside the Basic Multilingual Plane can get 404 or 200 here where the source answers 400. The same ASCII-only upper-casing applies to `Content.RangeFor` and `Worker.HandleAnalyze`.
- Background.Message: an absent `enabled` in a TOGGLE_ENABLED message is read as false. The source stores `undefined`, which the badge then treats as off.

## Findings

| source | as written | input that shows it | evidently intended | confidence | as-written member | corrected member |
|---|---|---|---|---|---|---|
| chrome-extension/content.js:182-185 | when the job fails and the worker's GET hits, the worker's body is resolved as it is. Its fields are `price` and `insight`, so `underlyingPrice` and `analysis` are absent, and `createTooltip` throws on `analysis.sentiment` (line 236) | a failed job, then a GET for a ticker the worker holds | map the cached analysis as the job's tier does, keeping its `cached` flag | high; not executed | Content.CacheFallbackCannotRender | Content.FixedFetchAlwaysRenders |
| chrome-extension/content.js:29-32 | the host check is a substring test, so an unrelated host containing a listed domain passes | host name `dropbox.com` (contains `x.com`) | accept a listed domain or a sub-domain of one | medium; not executed | Content.DropboxIsWhitelisted | Content.IsWhitelistedHost |

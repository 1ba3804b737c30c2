/** The content script's own logic: finding `$TICKER` mentions in page text, deciding
    whether a host is one the script works on, the local mock analysis, the order in which
    `fetchMaxPainData` falls back from the background job to the worker's cache to the mock,
    and the arithmetic that places the price on the tooltip's bar. */
module Content {
  import opened Js
  import Worker
  import Background
  import Crumb

  // ---------------------------------------------------------------------------------------
  // Tickers: `/\$([A-Z]{1,5})\b/g`

  predicate IsCapital(c: char)
  {
    'A' <= c <= 'Z'
  }

  /** `\w` of a regular expression without the `u` flag. */
  predicate IsWordChar(c: char)
  {
    'A' <= c <= 'Z' || 'a' <= c <= 'z' || '0' <= c <= '9' || c == '_'
  }

  /** Where the run of capitals starting at `i` ends. */
  function CapitalsEnd(text: string, i: nat): (j: nat)
    requires i <= |text|
    ensures i <= j <= |text|
    ensures forall k :: i <= k < j ==> IsCapital(text[k])
    ensures j == |text| || !IsCapital(text[j])
    decreases |text| - i
  {
    if i < |text| && IsCapital(text[i]) then CapitalsEnd(text, i + 1) else i
  }

  /** A run of capitals from `i` to `j` that stops at `j` is what `CapitalsEnd` finds. */
  lemma {:induction false} CapitalsEndExact(text: string, i: nat, j: nat)
    requires i <= j <= |text|
    requires forall k :: i <= k < j ==> IsCapital(text[k])
    requires j == |text| || !IsCapital(text[j])
    ensures CapitalsEnd(text, i) == j
    decreases j - i
  {
    if i < j {
      CapitalsEndExact(text, i + 1, j);
    }
  }

  /** The ticker pattern says, of index `p`: a `$`, one to five capitals, then a word
      boundary, which after a capital means the end of the text or a non-word character. */
  ghost predicate TickerMatch(text: string, p: nat, c: string)
  {
    && p < |text| && text[p] == '$'
    && 1 <= |c| <= 5
    && p + 1 + |c| <= |text| && text[p + 1..p + 1 + |c|] == c
    && (forall k :: 0 <= k < |c| ==> IsCapital(c[k]))
    && (p + 1 + |c| == |text| || !IsWordChar(text[p + 1 + |c|]))
  }

  /** The pattern tried at index `p`, giving its capture. The greedy `{1,5}` can back off,
      but a shorter run of capitals is followed by a capital, where `\b` fails, so only the
      whole run can match. */
  function TickerAt(text: string, p: nat): (r: Option<string>)
    ensures r.Some? ==> TickerMatch(text, p, r.value)
  {
    if p < |text| && text[p] == '$' then
      var e := CapitalsEnd(text, p + 1);
      if p + 1 < e <= p + 6 && (e == |text| || !IsWordChar(text[e])) then Some(text[p + 1..e])
      else None
    else None
  }

  /** Every match of the pattern is found by `TickerAt`. */
  lemma TickerMatchIsTickerAt(text: string, p: nat, c: string)
    requires TickerMatch(text, p, c)
    ensures TickerAt(text, p) == Some(c)
  {
    forall k | p + 1 <= k < p + 1 + |c|
      ensures IsCapital(text[k])
    {
      assert text[k] == c[k - (p + 1)];
    }
    CapitalsEndExact(text, p + 1, p + 1 + |c|);
  }

  /** A `$` followed by six capitals starts no match. */
  lemma SixCapitalsContributeNothing(text: string, p: nat)
    requires p + 6 < |text| && text[p] == '$'
    requires forall k :: p + 1 <= k <= p + 6 ==> IsCapital(text[k])
    ensures TickerAt(text, p) == None
  {
    var e := CapitalsEnd(text, p + 1);
    if e <= p + 6 {
      assert false;
    }
  }

  /** Capitals followed by a lower-case letter, a digit or `_` start no match. */
  lemma WordCharAfterCapitalsContributesNothing(text: string, p: nat, j: nat)
    requires p < j < |text| && text[p] == '$'
    requires forall k :: p + 1 <= k < j ==> IsCapital(text[k])
    requires IsWordChar(text[j]) && !IsCapital(text[j])
    ensures TickerAt(text, p) == None
  {
    CapitalsEndExact(text, p + 1, j);
  }

  /** Upper-casing a run of capitals changes nothing: `toUpperCase` on a capture is the
      capture itself. */
  lemma UpperOfCapitals(c: string)
    requires forall k :: 0 <= k < |c| ==> IsCapital(c[k])
    ensures Upper(c) == c
  {
  }

  /** One `exec` call of the global pattern with `lastIndex` = `from`. */
  function NextTicker(text: string, from: nat): Option<Match<char>>
  {
    Leftmost(text, from, TickerAt)
  }

  /** Where the next `exec` starts after a match: `lastIndex` is set to the match's end. */
  function ResumeAt(m: Match<char>): nat
  {
    m.start + 1 + |m.capture|
  }

  /** The upper-cased captures of the successive `exec` calls from `lastIndex` = `from`
      until one returns null. */
  function Scan(text: string, from: nat): seq<string>
    decreases |text| + 1 - from
  {
    match NextTicker(text, from)
    case None => []
    case Some(m) => [Upper(m.capture)] + Scan(text, ResumeAt(m))
  }

  /** One `exec` call that matches: its capture heads the rest of the scan. */
  lemma ScanStep(text: string, from: nat)
    requires NextTicker(text, from).Some?
    ensures Scan(text, from) == [Upper(NextTicker(text, from).value.capture)] + Scan(text, ResumeAt(NextTicker(text, from).value))
  {
  }

  lemma ScanAdvance(text: string, seen: seq<string>, from: nat)
    requires NextTicker(text, from).Some?
    ensures seen + Scan(text, from) ==
      (seen + [Upper(NextTicker(text, from).value.capture)]) + Scan(text, ResumeAt(NextTicker(text, from).value))
  {
    ScanStep(text, from);
  }

  /** Everything the scan from `from` yields is the capture of a match at or after `from`. */
  lemma {:induction false} ScanSound(text: string, from: nat)
    ensures forall t :: t in Scan(text, from) ==> exists p :: from <= p && TickerAt(text, p) == Some(t)
    decreases |text| + 1 - from
  {
    if NextTicker(text, from).Some? {
      var m := NextTicker(text, from).value;
      ScanSound(text, ResumeAt(m));
      ScanStep(text, from);
      UpperOfCapitals(m.capture);
      forall t | t in Scan(text, from)
        ensures exists p :: from <= p && TickerAt(text, p) == Some(t)
      {
        if t !in Scan(text, ResumeAt(m)) {
          assert t == m.capture;
          assert TickerAt(text, m.start) == Some(t);
        }
      }
    }
  }

  /** Every match at or after `from` is found by the scan from `from`: resuming at the end
      of a match skips nothing, since a `$` cannot sit inside a run of capitals. */
  lemma {:induction false} ScanComplete(text: string, from: nat, p: nat)
    requires from <= p && TickerAt(text, p).Some?
    ensures TickerAt(text, p).value in Scan(text, from)
    decreases |text| + 1 - from
  {
    assert NextTicker(text, from).Some? by {
      assert p < |text|;
    }
    var m := NextTicker(text, from).value;
    ScanStep(text, from);
    UpperOfCapitals(m.capture);
    if p != m.start {
      assert m.start < p;
      assert ResumeAt(m) <= p by {
        if p < ResumeAt(m) {
          assert false;
        }
      }
      ScanComplete(text, ResumeAt(m), p);
    }
  }

  /** The position of the first `x` in `xs`, or `|xs|` when there is none. */
  function IndexOf<T(==)>(xs: seq<T>, x: T): (k: nat)
    ensures k <= |xs| && x !in xs[..k]
    ensures k < |xs| <==> x in xs
    ensures k < |xs| ==> xs[k] == x
  {
    if xs == [] then 0
    else if xs[0] == x then 0
    else
      var k := 1 + IndexOf(xs[1..], x);
      assert xs[..k] == [xs[0]] + xs[1..][..k - 1];
      k
  }

  lemma {:induction false} IndexOfUnique<T>(xs: seq<T>, x: T, k: nat)
    requires k < |xs| && xs[k] == x && x !in xs[..k]
    ensures IndexOf(xs, x) == k
  {
    if k > 0 {
      assert xs[0] in xs[..k];
      assert xs[1..][..k - 1] == xs[..k][1..];
      IndexOfUnique(xs[1..], x, k - 1);
    }
  }

  /** Appending leaves the first occurrence of an element already present where it was. */
  lemma IndexOfAppend<T>(xs: seq<T>, y: T, x: T)
    requires x in xs
    ensures IndexOf(xs + [y], x) == IndexOf(xs, x)
  {
    var k := IndexOf(xs, x);
    assert (xs + [y])[..k] == xs[..k];
    IndexOfUnique(xs + [y], x, k);
  }

  /** `Set.prototype.add` on a set kept as its elements in insertion order. */
  function Add(elements: seq<string>, x: string): seq<string>
  {
    if x in elements then elements else elements + [x]
  }

  /** What `Array.from` gives back of a fresh `Set` after adding `xs` in order. */
  function Dedup(xs: seq<string>): seq<string>
    decreases |xs|
  {
    if xs == [] then [] else Add(Dedup(xs[..|xs| - 1]), xs[|xs| - 1])
  }

  lemma DedupSnoc(xs: seq<string>, x: string)
    ensures Dedup(xs + [x]) == Add(Dedup(xs), x)
  {
    assert (xs + [x])[..|xs|] == xs;
  }

  /** The set holds each added value, once. */
  lemma {:induction false} DedupIsASet(xs: seq<string>)
    ensures forall x :: x in Dedup(xs) <==> x in xs
    ensures forall i, j :: 0 <= i < j < |Dedup(xs)| ==> Dedup(xs)[i] != Dedup(xs)[j]
    decreases |xs|
  {
    if xs != [] {
      var ys, x := xs[..|xs| - 1], xs[|xs| - 1];
      assert xs == ys + [x];
      DedupIsASet(ys);
    }
  }

  /** The values come out in the order of their first occurrence. */
  lemma {:induction false} DedupKeepsFirstOccurrenceOrder(xs: seq<string>)
    ensures forall x :: x in Dedup(xs) ==> x in xs
    ensures forall i, j :: 0 <= i < j < |Dedup(xs)| ==> IndexOf(xs, Dedup(xs)[i]) < IndexOf(xs, Dedup(xs)[j])
    decreases |xs|
  {
    DedupIsASet(xs);
    if xs != [] {
      var ys, x := xs[..|xs| - 1], xs[|xs| - 1];
      assert xs == ys + [x];
      var d := Dedup(ys);
      DedupIsASet(ys);
      DedupKeepsFirstOccurrenceOrder(ys);
      forall y | y in ys
        ensures IndexOf(xs, y) == IndexOf(ys, y)
      {
        IndexOfAppend(ys, x, y);
      }
      if x !in d {
        assert x !in xs[..|ys|];
        IndexOfUnique(xs, x, |ys|);
      }
    }
  }

  /** The tickers a text mentions: every match's capture, each once, in the order the
      matches appear. */
  lemma TickersOfText(text: string)
    ensures forall t :: t in Dedup(Scan(text, 0)) <==> exists p :: TickerAt(text, p) == Some(t)
    ensures forall i, j :: 0 <= i < j < |Dedup(Scan(text, 0))| ==> Dedup(Scan(text, 0))[i] != Dedup(Scan(text, 0))[j]
    ensures forall i, j :: 0 <= i < j < |Dedup(Scan(text, 0))| ==>
      IndexOf(Scan(text, 0), Dedup(Scan(text, 0))[i]) < IndexOf(Scan(text, 0), Dedup(Scan(text, 0))[j])
  {
    forall t
      ensures t in Scan(text, 0) <==> exists p :: TickerAt(text, p) == Some(t)
    {
      ScanSound(text, 0);
      if p :| TickerAt(text, p) == Some(t) {
        ScanComplete(text, 0, p);
      }
    }
    DedupIsASet(Scan(text, 0));
    DedupKeepsFirstOccurrenceOrder(Scan(text, 0));
  }

  /** `extractTickers`: `exec` from the last match's end until it returns null, adding each
      upper-cased capture to a set, whose elements are returned in insertion order. */
  method ExtractTickers(text: string) returns (tickers: seq<string>)
    ensures tickers == Dedup(Scan(text, 0))
  {
    tickers := [];
    ghost var seen: seq<string> := [];
    var lastIndex: nat := 0;
    var m := NextTicker(text, lastIndex);
    while m.Some?
      invariant lastIndex <= |text| + 1
      invariant m == NextTicker(text, lastIndex)
      invariant Scan(text, 0) == seen + Scan(text, lastIndex)
      invariant tickers == Dedup(seen)
      decreases |text| + 1 - lastIndex
    {
      var t := Upper(m.value.capture);
      tickers := Add(tickers, t);
      ScanAdvance(text, seen, lastIndex);
      DedupSnoc(seen, t);
      seen := seen + [t];
      lastIndex := ResumeAt(m.value);
      m := NextTicker(text, lastIndex);
    }
    assert seen + [] == seen;
  }

  // ---------------------------------------------------------------------------------------
  // Hosts

  const WHITELIST_DOMAINS: seq<string> := ["twitter.com", "x.com", "reddit.com"]

  /** `isWhitelistedDomain`: some listed domain occurs anywhere in the host name. */
  function IsWhitelistedDomain(hostname: string): (r: bool)
    ensures r <==> exists i :: 0 <= i < |WHITELIST_DOMAINS| && Contains(hostname, WHITELIST_DOMAINS[i])
  {
    exists i | 0 <= i < |WHITELIST_DOMAINS| :: Includes(hostname, WHITELIST_DOMAINS[i])
  }

  /** The substring test lets in an unrelated host whose name happens to contain "x.com". */
  lemma DropboxIsWhitelisted()
    ensures IsWhitelistedDomain("dropbox.com")
  {
    var host := "dropbox.com";
    assert host[6..11] == "x.com";
    IncludesAt(host, WHITELIST_DOMAINS[1], 6);
  }

  /** `hostname` is `domain` or one of its sub-domains. */
  predicate IsHostOf(hostname: string, domain: string)
  {
    hostname == domain || (|hostname| > |domain| && hostname[|hostname| - |domain| - 1..] == "." + domain)
  }

  /** The host check as intended: the host is a listed domain or a sub-domain of one. */
  function IsWhitelistedHost(hostname: string): (r: bool)
    ensures r <==> exists i :: 0 <= i < |WHITELIST_DOMAINS| && IsHostOf(hostname, WHITELIST_DOMAINS[i])
  {
    exists i | 0 <= i < |WHITELIST_DOMAINS| :: IsHostOf(hostname, WHITELIST_DOMAINS[i])
  }

  lemma DropboxIsNotWhitelistedHost()
    ensures !IsWhitelistedHost("dropbox.com")
  {
    var host := "dropbox.com";
    assert host[5] != '.';
    assert host[0] != '.';
  }

  /** Every listed domain and every sub-domain of one is accepted. */
  lemma SubdomainsAreWhitelistedHosts(i: nat, sub: string)
    requires i < |WHITELIST_DOMAINS|
    ensures IsWhitelistedHost(WHITELIST_DOMAINS[i])
    ensures IsWhitelistedHost(sub + "." + WHITELIST_DOMAINS[i])
  {
    var d := WHITELIST_DOMAINS[i];
    var h := sub + "." + d;
    assert h[|h| - |d| - 1..] == "." + d;
    assert IsHostOf(h, d);
  }

  /** The intended check only narrows the written one. */
  lemma WhitelistedHostIsWhitelisted(hostname: string)
    requires IsWhitelistedHost(hostname)
    ensures IsWhitelistedDomain(hostname)
  {
    var i :| 0 <= i < |WHITELIST_DOMAINS| && IsHostOf(hostname, WHITELIST_DOMAINS[i]);
    var d := WHITELIST_DOMAINS[i];
    var k := |hostname| - |d|;
    assert hostname[k..] == d by {
      if hostname != d {
        assert hostname[k..] == hostname[k - 1..][1..];
      }
    }
    assert OccursAt(hostname, d, k);
  }

  // ---------------------------------------------------------------------------------------
  // Sentiment

  /** The sentiments of the script: 'bearish', 'slightly bearish', 'neutral',
      'slightly bullish' and 'bullish'. */
  datatype Sentiment = Bearish | SlightlyBearish | Neutral | SlightlyBullish | Bullish

  /** The text of an analysis: a literal, or one of the four mock texts that interpolate the
      rounded percentage and the target price, whose rendering is not modelled. */
  datatype Commentary = Text(text: string) | Formatted(sentiment: Sentiment)

  const NEAR_TEXT: string := "Price is near Max Pain. Low volatility expected as price is pinned around current levels."
  const EXACT_TEXT: string := "Price is exactly at Max Pain. Maximum pain for option holders at current price level."
  const NO_ANALYSIS_TEXT: string := "No analysis available"

  /** `Math.abs((priceDiff / price) * 100)`: the distance of the price from max pain in
      percent of the price. The script compares the one-decimal string of it with the
      thresholds; the exact value is kept here. */
  function PercentageDiff(price: real, maxPain: real): Num
  {
    Abs(Scale(Div(price - maxPain, price), 100.0))
  }

  /** The branches of the mock: the sign of the difference picks the side, the unsigned
      percentage the strength, against the strict thresholds 10 and 5. */
  function SentimentOf(priceDiff: real, percentageDiff: Num): Sentiment
  {
    if priceDiff > 0.0 then
      if Gt(percentageDiff, 10.0) then Bearish
      else if Gt(percentageDiff, 5.0) then SlightlyBearish
      else Neutral
    else if priceDiff < 0.0 then
      if Gt(percentageDiff, 10.0) then Bullish
      else if Gt(percentageDiff, 5.0) then SlightlyBullish
      else Neutral
    else Neutral
  }

  /** The analysis text of each branch; only the two neutral ones carry no numbers. */
  function CommentaryOf(priceDiff: real, sentiment: Sentiment): Commentary
  {
    if sentiment != Neutral then Formatted(sentiment)
    else if priceDiff == 0.0 then Text(EXACT_TEXT)
    else Text(NEAR_TEXT)
  }

  function MockSentiment(price: real, maxPain: real): Sentiment
  {
    SentimentOf(price - maxPain, PercentageDiff(price, maxPain))
  }

  /** For a positive price the sentiment is the table of the mock, written with the percentage
      as a plain real. */
  lemma SentimentTable(price: real, maxPain: real)
    requires price > 0.0
    ensures var pct := AbsReal(price - maxPain) / price * 100.0;
      && (MockSentiment(price, maxPain) == Bearish <==> price > maxPain && pct > 10.0)
      && (MockSentiment(price, maxPain) == SlightlyBearish <==> price > maxPain && 5.0 < pct <= 10.0)
      && (MockSentiment(price, maxPain) == Bullish <==> price < maxPain && pct > 10.0)
      && (MockSentiment(price, maxPain) == SlightlyBullish <==> price < maxPain && 5.0 < pct <= 10.0)
      && (MockSentiment(price, maxPain) == Neutral <==> pct <= 5.0)
  {
    PercentOfPositive(price - maxPain, price);
  }

  lemma PercentOfPositive(d: real, price: real)
    requires price > 0.0
    ensures PercentageDiff(price, d * -1.0 + price) == Finite(AbsReal(d) / price * 100.0)
  {
    assert price - (d * -1.0 + price) == d;
    if d < 0.0 {
      assert d / price * 100.0 == -(AbsReal(d) / price * 100.0);
    }
  }

  /** The worker's insight that corresponds to each sentiment. */
  function SentimentOfInsight(i: Worker.Insight): Sentiment
  {
    match i
    case SignificantlyAbove => Bearish
    case ModeratelyAbove => SlightlyBearish
    case SignificantlyBelow => Bullish
    case ModeratelyBelow => SlightlyBullish
    case Pinned => Neutral
  }

  /** The client's table and the worker's `analyzeData` agree for every price that is not
      negative, the zero price included, although one compares an unsigned percentage with
      strict thresholds and the other a signed one in bands. */
  lemma SentimentAgreesWithWorker(price: real, maxPain: real)
    requires price >= 0.0
    ensures MockSentiment(price, maxPain) == SentimentOfInsight(Worker.AnalyzeData(price, maxPain))
  {
    if price > 0.0 {
      SentimentTable(price, maxPain);
      var d := (price - maxPain) / price * 100.0;
      if price < maxPain {
        assert AbsReal(price - maxPain) / price * 100.0 == -d;
      } else {
        assert AbsReal(price - maxPain) / price * 100.0 == d;
      }
    }
  }

  lemma SentimentExamples()
    ensures MockSentiment(200.0, 150.0) == Bearish
    ensures MockSentiment(100.0, 150.0) == Bullish
    ensures MockSentiment(150.0, 152.0) == Neutral
  {
  }

  // ---------------------------------------------------------------------------------------
  // The local mock

  datatype PriceRange = PriceRange(min: real, max: real, name: string)

  const STOCK_PRICE_RANGES: map<string, PriceRange> := map[
    "AAPL" := PriceRange(170.0, 220.0, "Apple"),
    "TSLA" := PriceRange(180.0, 250.0, "Tesla"),
    "META" := PriceRange(300.0, 400.0, "Meta"),
    "GOOGL" := PriceRange(130.0, 160.0, "Google"),
    "MSFT" := PriceRange(350.0, 450.0, "Microsoft"),
    "AMZN" := PriceRange(150.0, 200.0, "Amazon"),
    "NVDA" := PriceRange(400.0, 600.0, "NVIDIA"),
    "NFLX" := PriceRange(500.0, 700.0, "Netflix"),
    "DEFAULT" := PriceRange(50.0, 200.0, "Stock")]

  /** The range of the upper-cased ticker, or the default one. Every range is a proper
      interval of positive prices. */
  function RangeFor(ticker: string): (r: PriceRange)
    ensures 50.0 <= r.min < r.max <= 700.0
  {
    if Upper(ticker) in STOCK_PRICE_RANGES then STOCK_PRICE_RANGES[Upper(ticker)]
    else STOCK_PRICE_RANGES["DEFAULT"]
  }

  /** The lookup ignores case, and a ticker without an entry gets the default range. */
  lemma RangeLookup(ticker: string)
    ensures RangeFor(Upper(ticker)) == RangeFor(ticker)
    ensures Upper(ticker) !in STOCK_PRICE_RANGES ==> RangeFor(ticker) == PriceRange(50.0, 200.0, "Stock")
    ensures Upper(ticker) in STOCK_PRICE_RANGES ==> RangeFor(ticker) == STOCK_PRICE_RANGES[Upper(ticker)]
  {
    UpperIdempotent(ticker);
  }

  lemma RangeExamples()
    ensures RangeFor("tsla") == PriceRange(180.0, 250.0, "Tesla")
    ensures RangeFor("XYZ") == PriceRange(50.0, 200.0, "Stock")
  {
    assert Upper("tsla") == "TSLA";
    assert Upper("XYZ") == "XYZ";
  }

  /** What `createTooltip` reads of the analysis. */
  datatype ClientAnalysis = ClientAnalysis(sentiment: Sentiment, analysis: Commentary, difference: Num, percentageDiff: Num)

  /** The object `fetchMaxPainData` resolves with; None stands for a field that is absent
      (undefined), and an absent `cached` reads as false. */
  datatype TooltipData = TooltipData(
    symbol: Option<string>,
    maxPain: Option<real>,
    underlyingPrice: Option<real>,
    analysis: Option<ClientAnalysis>,
    cached: bool,
    source: string,
    timestamp: Option<string>)

  /** `range.max - range.min` */
  function Width(range: PriceRange): real
  {
    range.max - range.min
  }

  lemma ProductBelow(r: real, w: real)
    requires 0.0 <= r < 1.0 && w > 0.0
    ensures 0.0 <= r * w < w
  {
    if r > 0.0 {
      assert r * w > 0.0;
    }
  }

  lemma DrawBelow(x: real, lo: real, hi: real, r: real, w: real)
    requires w == hi - lo && w > 0.0 && 0.0 <= r < 1.0 && x == lo + r * w
    ensures lo <= x < hi
  {
    ProductBelow(r, w);
  }

  /** `min + Math.random() * (max - min)`, with the draw `r`: a price in `[min, max)`. */
  function DrawPrice(range: PriceRange, r: real): (price: real)
    requires range.min < range.max && 0.0 <= r < 1.0
    ensures range.min <= price < range.max
  {
    DrawBelow(range.min + r * Width(range), range.min, range.max, r, Width(range));
    range.min + r * Width(range)
  }

  lemma FactorBounds(price: real, r: real)
    requires price > 0.0 && 0.0 <= r < 1.0
    ensures price * 0.95 <= price * (0.95 + r * 0.1) < price * 1.05
  {
    assert price * (0.95 + r * 0.1) == price * 0.95 + price * r * 0.1;
    assert price * r < price * 1.0;
  }

  /** `price * (0.95 + Math.random() * 0.1)`, with the draw `r`: a max pain from 5% below
      to 5% above the price. */
  function DrawMaxPain(price: real, r: real): (maxPain: real)
    requires price > 0.0 && 0.0 <= r < 1.0
    ensures price * 0.95 <= maxPain < price * 1.05
  {
    FactorBounds(price, r);
    price * (0.95 + r * 0.1)
  }

  /** A max pain within 5% of a positive price is at most 5% away in the percentage. */
  lemma NearMaxPainPercentage(price: real, maxPain: real)
    requires price > 0.0 && price * 0.95 <= maxPain < price * 1.05
    ensures PercentageDiff(price, maxPain).Finite? && PercentageDiff(price, maxPain).r <= 5.0
  {
    assert -0.05 <= (price - maxPain) / price <= 0.05;
  }

  /** `generateLocalMockData(ticker)`, with the two `Math.random()` draws `r1` and `r2` and
      the clock's text `now` as parameters: a price drawn in the ticker's range and a max
      pain within 5% below to 5% above it. */
  function GenerateLocalMockData(ticker: string, r1: real, r2: real, now: string): (d: TooltipData)
    requires 0.0 <= r1 < 1.0 && 0.0 <= r2 < 1.0
    ensures d.symbol == Some(Upper(ticker)) && !d.cached && d.source == "local-mock-data"
    ensures d.timestamp == Some(now)
    ensures d.underlyingPrice.Some? && d.maxPain.Some? && d.analysis.Some?
    ensures RangeFor(ticker).min <= d.underlyingPrice.value < RangeFor(ticker).max
    ensures d.underlyingPrice.value * 0.95 <= d.maxPain.value < d.underlyingPrice.value * 1.05
    ensures d.analysis.value.difference == Finite(d.underlyingPrice.value - d.maxPain.value)
  {
    var range := RangeFor(ticker);
    var price := DrawPrice(range, r1);
    var maxPain := DrawMaxPain(price, r2);
    var priceDiff := price - maxPain;
    var percentageDiff := PercentageDiff(price, maxPain);
    var sentiment := SentimentOf(priceDiff, percentageDiff);
    TooltipData(
      Some(Upper(ticker)), Some(maxPain), Some(price),
      Some(ClientAnalysis(sentiment, CommentaryOf(priceDiff, sentiment), Finite(priceDiff), percentageDiff)),
      false, "local-mock-data", Some(now))
  }

  /** The mock never leaves the neutral band: a max pain within 5% of the price is at most
      5% away, and the thresholds are strict, so the analysis is always one of the two
      neutral texts. */
  lemma MockIsNeutral(ticker: string, r1: real, r2: real, now: string)
    requires 0.0 <= r1 < 1.0 && 0.0 <= r2 < 1.0
    ensures var d := GenerateLocalMockData(ticker, r1, r2, now);
      && d.analysis.value.sentiment == Neutral
      && d.analysis.value.analysis == Text(if d.underlyingPrice == d.maxPain then EXACT_TEXT else NEAR_TEXT)
      && d.analysis.value.percentageDiff.Finite? && d.analysis.value.percentageDiff.r <= 5.0
  {
    var d := GenerateLocalMockData(ticker, r1, r2, now);
    NearMaxPainPercentage(d.underlyingPrice.value, d.maxPain.value);
  }


  // ---------------------------------------------------------------------------------------
  // Tiers of `fetchMaxPainData`

  /** What the callback of `chrome.runtime.sendMessage` sees: `chrome.runtime.lastError`, or
      a response, which may be undefined. */
  datatype Delivery = LastError | Delivered(response: Option<Background.MuleResponse>)

  /** `response && response.success` */
  predicate MuleSucceeded(delivery: Delivery)
  {
    delivery.Delivered? && delivery.response.Some? && delivery.response.value.MuleSuccess?
  }

  /** The analysis fields of a worker body; a cache hit spreads the stored analysis. */
  function BodyAnalysis(body: Worker.Body): Option<Worker.Analysis>
  {
    match body
    case AnalysisBody(a) => Some(a)
    case CacheHit(record, _) => Some(record.data)
    case ErrorBody(_, _, _) => None
  }

  /** The `symbol` field of a worker body; a 404 body names the upper-cased symbol too. */
  function BodySymbol(body: Worker.Body): Option<string>
  {
    match body
    case ErrorBody(_, _, symbol) => symbol
    case _ => Some(BodyAnalysis(body).value.symbol)
  }

  /** The `cached` field of a worker body, read for its truthiness. */
  predicate BodyCached(body: Worker.Body)
  {
    body.CacheHit? && body.record.cached
  }

  /** The object the script builds from a worker analysis in `data`: the fields renamed
      for the tooltip, the sentiment always neutral, the insight as the text (or a
      placeholder when it is empty or absent), and the difference of price and max pain. */
  function FromAnalysis(data: Worker.Body, cached: bool, source: string): (d: TooltipData)
    ensures d.source == source && d.cached == cached && d.symbol == BodySymbol(data)
    ensures d.analysis.Some? && d.analysis.value.sentiment == Neutral
    ensures d.underlyingPrice.Some? <==> BodyAnalysis(data).Some?
    ensures d.maxPain.Some? <==> BodyAnalysis(data).Some?
    ensures BodyAnalysis(data).Some? ==>
      var a := BodyAnalysis(data).value;
      && d.underlyingPrice == Some(a.price) && d.maxPain == Some(a.maxPain)
      && d.analysis.value.difference == Finite(a.price - a.maxPain)
      && d.analysis.value.analysis == Text(if a.insight == [] then NO_ANALYSIS_TEXT else a.insight)
      && d.analysis.value.percentageDiff == a.percentageDiff
      && d.timestamp == Some(a.timestamp)
  {
    var a := BodyAnalysis(data);
    TooltipData(
      BodySymbol(data),
      if a.Some? then Some(a.value.maxPain) else None,
      if a.Some? then Some(a.value.price) else None,
      Some(ClientAnalysis(
        Neutral,
        Text(if a.Some? && a.value.insight != [] then a.value.insight else NO_ANALYSIS_TEXT),
        if a.Some? then Finite(a.value.price - a.value.maxPain) else NaN,
        if a.Some? then a.value.percentageDiff else NaN)),
      cached, source,
      if a.Some? then Some(a.value.timestamp) else None)
  }

  /** `{...cachedResult, source: 'worker-cache-fallback'}`: the worker's body as it is, whose
      fields are named `price` and `insight`, so `underlyingPrice` and `analysis` are absent. */
  function Spread(body: Worker.Body): (d: TooltipData)
    ensures d.underlyingPrice.None? && d.analysis.None?
    ensures d.source == "worker-cache-fallback" && d.symbol == BodySymbol(body) && d.cached == BodyCached(body)
    ensures d.maxPain.Some? <==> BodyAnalysis(body).Some?
  {
    var a := BodyAnalysis(body);
    TooltipData(
      BodySymbol(body),
      if a.Some? then Some(a.value.maxPain) else None,
      None, None,
      BodyCached(body), "worker-cache-fallback",
      if a.Some? then Some(a.value.timestamp) else None)
  }

  /** Whether the fallback `fetch` resolved with `response.ok`; None stands for a `fetch`
      that rejected (the network, or the abort after 5 seconds). */
  predicate FallbackOk(fallback: Option<Worker.Response>)
  {
    fallback.Some? && Crumb.IsOk(fallback.value.status)
  }

  /** `fetchMaxPainData(ticker)`: None when the promise rejects. The background job's success
      is used first; then an OK answer of the worker's cached GET; then the local mock, with
      the draws `r1`, `r2` and the clock's text `now`. */
  function FetchMaxPainData(ticker: string, delivery: Delivery, fallback: Option<Worker.Response>,
                            r1: real, r2: real, now: string): (r: Option<TooltipData>)
    requires 0.0 <= r1 < 1.0 && 0.0 <= r2 < 1.0
    ensures r.None? <==> delivery.LastError?
    ensures r.Some? ==> (r.value.source == "data-mule" <==> MuleSucceeded(delivery))
    ensures r.Some? ==> (r.value.source == "worker-cache-fallback" <==> !MuleSucceeded(delivery) && FallbackOk(fallback))
    ensures r.Some? ==> (r.value.source == "local-mock-data" <==> !MuleSucceeded(delivery) && !FallbackOk(fallback))
    ensures MuleSucceeded(delivery) ==> r == Some(FromAnalysis(delivery.response.value.data, false, "data-mule"))
    ensures delivery.Delivered? && !MuleSucceeded(delivery) && FallbackOk(fallback) ==>
      r == Some(Spread(fallback.value.body))
    ensures delivery.Delivered? && !MuleSucceeded(delivery) && !FallbackOk(fallback) ==>
      r == Some(GenerateLocalMockData(ticker, r1, r2, now))
  {
    match delivery
    case LastError => None
    case Delivered(response) =>
      if MuleSucceeded(delivery) then Some(FromAnalysis(response.value.data, false, "data-mule"))
      else if FallbackOk(fallback) then Some(Spread(fallback.value.body))
      else Some(GenerateLocalMockData(ticker, r1, r2, now))
  }

  // ---------------------------------------------------------------------------------------
  // The tooltip's bar

  /** The numbers `createTooltip` places on its bar, and whether it says "Above". */
  datatype Bar = Bar(minPrice: real, maxPrice: real, pricePosition: Num, maxPainPosition: real, above: bool)

  lemma ProductPositive(a: real, b: real)
    requires a > 0.0 && b > 0.0
    ensures a * b > 0.0
  {
  }

  /** Multiplying by a positive `range` keeps the order of `q` and `c`. */
  lemma ScaleOrder(q: real, c: real, range: real)
    requires range > 0.0
    ensures q > c <==> q * range > c * range
    ensures q < c <==> q * range < c * range
  {
    if q > c {
      ProductPositive(q - c, range);
      assert (q - c) * range == q * range - c * range;
    }
    if q < c {
      ProductPositive(c - q, range);
      assert (c - q) * range == c * range - q * range;
    }
  }

  /** The fraction `q` of the bar at which a price `d` away from the middle sits. */
  lemma BarFraction(q: real, d: real, range: real)
    requires range > 0.0 && q * (2.0 * range) == d + range && -range <= 2.0 * d <= range
    ensures 0.25 <= q <= 0.75
    ensures q == 0.5 <==> d == 0.0
    ensures q > 0.5 <==> d > 0.0
  {
    assert 2.0 * (q * range) == d + range;
    ScaleOrder(q, 0.25, range);
    ScaleOrder(q, 0.75, range);
    ScaleOrder(q, 0.5, range);
  }

  lemma BarPosition(d: real, range: real)
    requires range > 0.0 && -range <= 2.0 * d <= range
    ensures 25.0 <= (d + range) / (2.0 * range) * 100.0 <= 75.0
    ensures (d + range) / (2.0 * range) * 100.0 == 50.0 <==> d == 0.0
    ensures (d + range) / (2.0 * range) * 100.0 > 50.0 <==> d > 0.0
  {
    BarFraction((d + range) / (2.0 * range), d, range);
  }

  /** The bar for a price and a max pain. The bar spans `range` on each side of max pain, at
      least twice the distance of the price, so max pain sits at the middle and the price
      within the middle half, and the clamping to `[0, 100]` never acts. Only a price equal
      to a max pain that is not positive makes the span empty, and the position NaN. */
  function BarFor(price: real, maxPain: real): (b: Bar)
    ensures b.minPrice + b.maxPrice == 2.0 * maxPain && b.maxPainPosition == 50.0
    ensures b.minPrice <= price <= b.maxPrice
    ensures b.pricePosition.NaN? <==> price == maxPain && maxPain <= 0.0
    ensures !b.pricePosition.NaN? ==> b.pricePosition.Finite? && 25.0 <= b.pricePosition.r <= 75.0
    ensures !b.pricePosition.NaN? ==> (b.pricePosition.r == 50.0 <==> price == maxPain)
    ensures !b.pricePosition.NaN? ==> (b.pricePosition.r > 50.0 <==> price > maxPain)
    ensures b.above <==> price > maxPain
  {
    var priceDiff := price - maxPain;
    var range := MaxReal(AbsReal(priceDiff) * 2.0, maxPain * 0.2);
    var minPrice := maxPain - range;
    var maxPrice := maxPain + range;
    var pricePosition := MaxWith(MinWith(Scale(Div(price - minPrice, maxPrice - minPrice), 100.0), 100.0), 0.0);
    if range > 0.0 then
      BarPosition(priceDiff, range);
      Bar(minPrice, maxPrice, pricePosition, 50.0, priceDiff > 0.0)
    else
      Bar(minPrice, maxPrice, pricePosition, 50.0, priceDiff > 0.0)
  }

  /** `createTooltip(data)` up to its HTML: it throws a TypeError (None) when `analysis` is
      absent (reading `analysis.sentiment`), or when the price or max pain is absent
      (calling `toFixed` on undefined). */
  function CreateTooltip(data: TooltipData): (b: Option<Bar>)
    ensures b.Some? <==> data.analysis.Some? && data.underlyingPrice.Some? && data.maxPain.Some?
    ensures b.Some? ==> b.value == BarFor(data.underlyingPrice.value, data.maxPain.value)
  {
    if data.analysis.Some? && data.underlyingPrice.Some? && data.maxPain.Some? then
      Some(BarFor(data.underlyingPrice.value, data.maxPain.value))
    else None
  }

  /** The bar of the local mock always shows a position in the middle half of the bar. */
  lemma MockRenders(ticker: string, r1: real, r2: real, now: string)
    requires 0.0 <= r1 < 1.0 && 0.0 <= r2 < 1.0
    ensures var b := CreateTooltip(GenerateLocalMockData(ticker, r1, r2, now));
      b.Some? && b.value.pricePosition.Finite? && 25.0 <= b.value.pricePosition.r <= 75.0
  {
  }

  /** As written, the tooltip can be drawn exactly when the data did not come from the
      worker's cache: a worker analysis from the job and the mock render, while the
      spread cache body never does. */
  lemma RendersIffNotFromCache(ticker: string, delivery: Delivery, fallback: Option<Worker.Response>,
                               r1: real, r2: real, now: string)
    requires 0.0 <= r1 < 1.0 && 0.0 <= r2 < 1.0
    requires !delivery.LastError?
    requires MuleSucceeded(delivery) ==> BodyAnalysis(delivery.response.value.data).Some?
    ensures var d := FetchMaxPainData(ticker, delivery, fallback, r1, r2, now);
      CreateTooltip(d.value).Some? <==> d.value.source != "worker-cache-fallback"
  {
  }

  /** A failed job followed by a cache hit of the worker's GET gives data whose tooltip
      cannot be drawn, whatever the worker holds. */
  lemma CacheFallbackCannotRender(ticker: string, delivery: Delivery, cache: Worker.Cache,
                                  r1: real, r2: real, now: string, later: string)
    requires 0.0 <= r1 < 1.0 && 0.0 <= r2 < 1.0
    requires delivery.Delivered? && !MuleSucceeded(delivery)
    requires 1 <= |ticker| <= 5 && Worker.GetCacheKey(ticker) in cache
    ensures var d := FetchMaxPainData(ticker, delivery, Some(Worker.HandleGetMaxPain(ticker, cache, now)), r1, r2, later);
      && d.Some? && d.value.source == "worker-cache-fallback"
      && d.value.maxPain == Some(cache[Worker.GetCacheKey(ticker)].data.maxPain)
      && d.value.cached
      && CreateTooltip(d.value).None?
  {
  }

  /** The fallback tier as intended: the cached analysis is mapped like the job's, and
      keeps its `cached` flag. */
  function FetchMaxPainDataFixed(ticker: string, delivery: Delivery, fallback: Option<Worker.Response>,
                                 r1: real, r2: real, now: string): (r: Option<TooltipData>)
    requires 0.0 <= r1 < 1.0 && 0.0 <= r2 < 1.0
    ensures r.None? <==> delivery.LastError?
    ensures r.Some? ==> (r.value.source == "data-mule" <==> MuleSucceeded(delivery))
    ensures r.Some? ==> (r.value.source == "worker-cache-fallback" <==> !MuleSucceeded(delivery) && FallbackOk(fallback))
    ensures r.Some? ==> (r.value.source == "local-mock-data" <==> !MuleSucceeded(delivery) && !FallbackOk(fallback))
    ensures MuleSucceeded(delivery) ==> r == Some(FromAnalysis(delivery.response.value.data, false, "data-mule"))
    ensures delivery.Delivered? && !MuleSucceeded(delivery) && FallbackOk(fallback) ==>
      r == Some(FromAnalysis(fallback.value.body, BodyCached(fallback.value.body), "worker-cache-fallback"))
    ensures delivery.Delivered? && !MuleSucceeded(delivery) && !FallbackOk(fallback) ==>
      r == Some(GenerateLocalMockData(ticker, r1, r2, now))
  {
    match delivery
    case LastError => None
    case Delivered(response) =>
      if MuleSucceeded(delivery) then Some(FromAnalysis(response.value.data, false, "data-mule"))
      else if FallbackOk(fallback) then
        Some(FromAnalysis(fallback.value.body, BodyCached(fallback.value.body), "worker-cache-fallback"))
      else Some(GenerateLocalMockData(ticker, r1, r2, now))
  }

  /** With the fix, every outcome that resolves renders when the job and the worker answer
      as they do: the job with an analysis, the worker's GET with its cache hit or an error
      status. */
  lemma FixedFetchAlwaysRenders(ticker: string, delivery: Delivery, cache: Worker.Cache, reached: bool,
                                r1: real, r2: real, now: string, later: string)
    requires 0.0 <= r1 < 1.0 && 0.0 <= r2 < 1.0
    requires !delivery.LastError?
    requires MuleSucceeded(delivery) ==> BodyAnalysis(delivery.response.value.data).Some?
    ensures var fallback := if reached then Some(Worker.HandleGetMaxPain(ticker, cache, now)) else None;
      var d := FetchMaxPainDataFixed(ticker, delivery, fallback, r1, r2, later);
      && CreateTooltip(d.value).Some?
      && (!MuleSucceeded(delivery) && FallbackOk(fallback) ==> d.value.cached)
  {
  }
}

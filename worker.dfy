/** The Cloudflare worker: the cache key, the insight table, and the two routes that
    matter, `POST /api/analyze` (compute from the raw chain the extension forwards and
    store the result) and `GET /api/max-pain/:symbol` (serve a stored result). The KV
    namespace `env.CACHE` is a map from key to the stored record; its expiry is the
    platform's and is not part of this model. */
module Worker {
  import opened Js
  import opened MaxPain

  const CACHE_KEY_PREFIX: string := "max-pain:"

  /** `getCacheKey`: the prefix followed by the upper-cased symbol. */
  function GetCacheKey(symbol: string): (key: string)
    ensures |key| == |CACHE_KEY_PREFIX| + |symbol|
    ensures key[..|CACHE_KEY_PREFIX|] == CACHE_KEY_PREFIX
  {
    CACHE_KEY_PREFIX + Upper(symbol)
  }

  /** Two symbols share a cache entry exactly when they agree once upper-cased. */
  lemma CacheKeySharedIffSameUpper(a: string, b: string)
    ensures GetCacheKey(a) == GetCacheKey(b) <==> Upper(a) == Upper(b)
  {
    if GetCacheKey(a) == GetCacheKey(b) {
      assert Upper(a) == GetCacheKey(a)[|CACHE_KEY_PREFIX|..];
      assert Upper(b) == GetCacheKey(b)[|CACHE_KEY_PREFIX|..];
    }
  }

  /** A symbol and its upper-cased form address the same entry. */
  lemma CacheKeyCaseInsensitive(symbol: string)
    ensures GetCacheKey(Upper(symbol)) == GetCacheKey(symbol)
  {
    UpperIdempotent(symbol);
  }

  /** The five insights `analyzeData` can return. */
  datatype Insight = SignificantlyAbove | ModeratelyAbove | SignificantlyBelow | ModeratelyBelow | Pinned

  function InsightText(i: Insight): string
  {
    match i
    case SignificantlyAbove => "Price significantly above Max Pain. Strong downward pressure expected."
    case ModeratelyAbove => "Price moderately above Max Pain. Some downward pressure expected."
    case SignificantlyBelow => "Price significantly below Max Pain. Strong upward pressure expected."
    case ModeratelyBelow => "Price moderately below Max Pain. Some upward pressure expected."
    case Pinned => "Price pinned at Max Pain. Low volatility expected."
  }

  /** `((price - maxPain) / price) * 100`, the signed distance of the price from max pain in
      percent of the price; a zero price gives an infinity or NaN as in JavaScript. */
  function Deviation(price: real, maxPain: real): Num
  {
    Scale(Div(price - maxPain, price), 100.0)
  }

  /** `analyzeData`: the insight is chosen by which band the deviation falls in, checked
      from the top: above 10, above 5, below -10, below -5, otherwise pinned. */
  function AnalyzeData(price: real, maxPain: real): (r: Insight)
    ensures price != 0.0 ==>
      var d := (price - maxPain) / price * 100.0;
      && (r == SignificantlyAbove <==> d > 10.0)
      && (r == ModeratelyAbove <==> 5.0 < d <= 10.0)
      && (r == SignificantlyBelow <==> d < -10.0)
      && (r == ModeratelyBelow <==> -10.0 <= d < -5.0)
      && (r == Pinned <==> -5.0 <= d <= 5.0)
    ensures price == 0.0 ==>
      && (r == SignificantlyAbove <==> maxPain < 0.0)
      && (r == SignificantlyBelow <==> maxPain > 0.0)
      && (r == Pinned <==> maxPain == 0.0)
  {
    var diff := Deviation(price, maxPain);
    if Gt(diff, 10.0) then SignificantlyAbove
    else if Gt(diff, 5.0) then ModeratelyAbove
    else if Lt(diff, -10.0) then SignificantlyBelow
    else if Lt(diff, -5.0) then ModeratelyBelow
    else Pinned
  }

  /** The bands are closed towards zero: exactly 10% is "moderately", exactly 5% is pinned. */
  lemma AnalyzeDataBoundaries()
    ensures AnalyzeData(100.0, 90.0) == ModeratelyAbove
    ensures AnalyzeData(100.0, 95.0) == Pinned
    ensures AnalyzeData(100.0, 110.0) == ModeratelyBelow
    ensures AnalyzeData(100.0, 105.0) == Pinned
    ensures AnalyzeData(100.0, 89.0) == SignificantlyAbove
    ensures AnalyzeData(100.0, 111.0) == SignificantlyBelow
  {
  }

  /** For a positive price the reported percentage has the sign of `price - maxPain`. */
  lemma DeviationSign(price: real, maxPain: real)
    requires price > 0.0
    ensures Deviation(price, maxPain).Finite?
    ensures Gt(Deviation(price, maxPain), 0.0) <==> price > maxPain
    ensures Lt(Deviation(price, maxPain), 0.0) <==> price < maxPain
  {
    var d := (price - maxPain) / price;
    if price > maxPain {
      assert d > 0.0;
    } else if price < maxPain {
      assert d < 0.0;
    }
  }

  datatype Quote = Quote(regularMarketPrice: real)
  datatype ChainResult = ChainResult(quote: Option<Quote>, options: Option<seq<Expiration>>)
  datatype OptionChain = OptionChain(result: Option<seq<ChainResult>>)
  datatype RawData = RawData(optionChain: Option<OptionChain>)

  /** The JSON body of `POST /api/analyze`; an absent or empty `symbol` or `timestamp` is
      the empty string, both being falsy. */
  datatype AnalyzeRequest = AnalyzeRequest(symbol: string, rawData: Option<RawData>, timestamp: string)

  /** The worker's answer to a successful analysis. */
  datatype Analysis = Analysis(
    symbol: string,
    price: real,
    maxPain: real,
    dataSource: string,
    insight: string,
    percentageDiff: Num,
    strikesAnalyzed: nat,
    timestamp: string)

  /** What `env.CACHE` holds under a key: the analysis and its `cached` flag. */
  datatype CachedRecord = CachedRecord(data: Analysis, cached: bool)

  type Cache = map<string, CachedRecord>

  /** A response body; `message` is None where the text is the engine's own TypeError text. */
  datatype Body =
    | AnalysisBody(analysis: Analysis)
    | CacheHit(record: CachedRecord, cacheTimestamp: string)
    | ErrorBody(error: string, message: Option<string>, symbol: Option<string>)

  datatype Response = Response(status: nat, body: Body)

  /** `rawData.optionChain && rawData.optionChain.result && rawData.optionChain.result.length > 0` */
  predicate HasResult(raw: RawData)
  {
    raw.optionChain.Some? && raw.optionChain.value.result.Some? && |raw.optionChain.value.result.value| > 0
  }

  function FirstResult(raw: RawData): ChainResult
    requires HasResult(raw)
  {
    raw.optionChain.value.result.value[0]
  }

  /** `result.options[0]`: None when the entry is undefined; a missing `options` array
      throws before that and is handled by the caller. */
  function NearestExpiration(r: ChainResult): Option<Expiration>
    requires r.options.Some?
  {
    if |r.options.value| > 0 then Some(r.options.value[0]) else None
  }

  /** The request reaches the calculation. */
  predicate WellFormed(req: AnalyzeRequest)
  {
    req.symbol != [] && req.rawData.Some? && HasResult(req.rawData.value)
  }

  /** The calculation succeeds: the quote and options are there and the chain is usable. */
  predicate Computable(req: AnalyzeRequest)
  {
    && WellFormed(req)
    && FirstResult(req.rawData.value).quote.Some?
    && FirstResult(req.rawData.value).options.Some?
    && Sufficient(NearestExpiration(FirstResult(req.rawData.value)))
  }

  function BadRequest(error: string): Response
  {
    Response(400, ErrorBody(error, None, None))
  }

  function AnalyzeFailure(message: Option<string>): Response
  {
    Response(500, ErrorBody("Failed to process analyze request", message, None))
  }

  /** `POST /api/analyze`. 400 for a missing field or an unusable structure, 500 when the
      calculation throws, and otherwise 200 with the analysis, which is also stored with
      `cached: true` under the symbol's key; nothing is stored on failure. */
  method HandleAnalyze(req: AnalyzeRequest, cache: Cache, now: string) returns (resp: Response, cache': Cache)
    ensures resp.status in {200, 400, 500}
    ensures resp.status == 400 <==> !WellFormed(req)
    ensures resp.status == 500 <==> WellFormed(req) && !Computable(req)
    ensures resp.status != 200 ==> cache' == cache
    ensures resp.status == 200 ==>
      var r := FirstResult(req.rawData.value);
      var calls := NearestExpiration(r).value.calls.value;
      var puts := NearestExpiration(r).value.puts.value;
      var price := r.quote.value.regularMarketPrice;
      && resp.body.AnalysisBody?
      && var a := resp.body.analysis;
      && a.symbol == Upper(req.symbol)
      && a.price == price
      && IsMaxPain(calls, puts, a.maxPain)
      && a.strikesAnalyzed == |StrikeSet(calls, puts)|
      && a.insight == InsightText(AnalyzeData(price, a.maxPain))
      && a.percentageDiff == Deviation(price, a.maxPain)
      && a.timestamp == (if req.timestamp == [] then now else req.timestamp)
      && cache' == cache[GetCacheKey(req.symbol) := CachedRecord(a, true)]
  {
    cache' := cache;
    if req.symbol == [] || req.rawData.None? {
      return BadRequest("Missing required fields: symbol and rawData"), cache';
    }
    var raw := req.rawData.value;
    if !HasResult(raw) {
      return BadRequest("Invalid Yahoo Finance data structure"), cache';
    }
    var result := FirstResult(raw);
    if result.quote.None? || result.options.None? {
      // reading a property of undefined throws a TypeError inside the try block
      return AnalyzeFailure(None), cache';
    }
    var currentPrice := result.quote.value.regularMarketPrice;
    var maxPainResult := CalculateMaxPainFromOptions(NearestExpiration(result));
    if maxPainResult.Err? {
      var message := if maxPainResult.error == InsufficientData
        then Some("Insufficient options data for calculation") else None;
      return AnalyzeFailure(message), cache';
    }
    var computed := maxPainResult.value;
    var insight := InsightText(AnalyzeData(currentPrice, computed.maxPain));
    var percentageDiff := Deviation(currentPrice, computed.maxPain);
    var responseData := Analysis(
      Upper(req.symbol), currentPrice, computed.maxPain, "client_mule", insight,
      percentageDiff, computed.strikesAnalyzed,
      if req.timestamp == [] then now else req.timestamp);
    cache' := cache[GetCacheKey(req.symbol) := CachedRecord(responseData, true)];
    resp := Response(200, AnalysisBody(responseData));
  }

  /** `GET /api/max-pain/:symbol`: 400 for an empty or over-long symbol, 200 with the stored
      record marked cached on a hit, 404 naming the upper-cased symbol on a miss. */
  function HandleGetMaxPain(symbol: string, cache: Cache, now: string): (resp: Response)
    ensures resp.status == 400 <==> symbol == [] || |symbol| > 5
    ensures resp.status == 404 <==> 1 <= |symbol| <= 5 && GetCacheKey(symbol) !in cache
    ensures resp.status == 200 <==> 1 <= |symbol| <= 5 && GetCacheKey(symbol) in cache
    ensures resp.status == 200 ==>
      resp.body == CacheHit(CachedRecord(cache[GetCacheKey(symbol)].data, true), now)
    ensures resp.status == 404 ==> resp.body.ErrorBody? && resp.body.symbol == Some(Upper(symbol))
  {
    if symbol == [] || |symbol| > 5 then
      Response(400, ErrorBody("Invalid symbol format", None, None))
    else
      var cacheKey := GetCacheKey(symbol);
      if cacheKey in cache then
        Response(200, CacheHit(CachedRecord(cache[cacheKey].data, true), now))
      else
        Response(404, ErrorBody("No cached data available",
          Some("Worker now operates in data mule mode. Please use frontend to fetch data."),
          Some(Upper(symbol))))
  }

  /** A record stored for `symbol` is what a later GET for any spelling of it serves. */
  lemma StoredRecordIsServed(cache: Cache, symbol: string, a: Analysis, query: string, now: string)
    requires Upper(query) == Upper(symbol)
    requires 1 <= |query| <= 5
    ensures HandleGetMaxPain(query, cache[GetCacheKey(symbol) := CachedRecord(a, true)], now)
      == Response(200, CacheHit(CachedRecord(a, true), now))
  {
    CacheKeySharedIffSameUpper(query, symbol);
  }

  /** The round trip through the cache: a successful analysis followed by a GET for any
      spelling of the same symbol answers 200 with the analysis just computed. */
  method AnalyzeThenGet(req: AnalyzeRequest, cache: Cache, query: string, now: string, later: string)
    returns (posted: Response, got: Response)
    requires Upper(query) == Upper(req.symbol) && 1 <= |query| <= 5
    ensures posted.status == 200 <==> Computable(req)
    ensures posted.status == 200 ==>
      && posted.body.AnalysisBody?
      && got == Response(200, CacheHit(CachedRecord(posted.body.analysis, true), later))
    ensures posted.status != 200 ==> got == HandleGetMaxPain(query, cache, later)
  {
    var cache';
    posted, cache' := HandleAnalyze(req, cache, now);
    got := HandleGetMaxPain(query, cache', later);
    if posted.status == 200 {
      StoredRecordIsServed(cache, req.symbol, posted.body.analysis, query, later);
    }
  }
}

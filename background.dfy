/** The extension's background script: the crumb store with its thirty-minute lifetime,
    the hunt for a crumb across Yahoo quote pages, the "data mule" job that fetches an
    option chain with the crumb and hands it to the worker, and the extension state that
    the popup and the content scripts change by message. The network, the clock and
    Chrome's storage and tab APIs are parameters: a quote page is what `fetch` delivered
    for a symbol, and an API reply is what `fetch` and `.json()` produced. */
/** The fixed error texts of the background script. The longer one is written in two
    pieces so that facts about its characters can be proved piece by piece. */
module BackgroundText {
  const CRUMB_FAILURE: string := "Failed to obtain" + " valid crumb from Yahoo Finance"

  const RATE_LIMITED: string := "Rate limited by Yahoo Finance"
}

module Background {
  import opened Js
  import opened Crumb
  import opened BackgroundText
  import Worker

  /** Thirty minutes, in milliseconds. */
  const CRUMB_CACHE_TTL: int := 30 * 60 * 1000

  /** The page `fetchCrumb` visits first. */
  const PRIMARY_STOCK: string := "AAPL"

  /** The pages `fetchCrumbFromAlternative` tries, in order. */
  const ALTERNATIVE_STOCKS: seq<string> := ["MSFT", "GOOGL", "AMZN", "TSLA", "NVDA"]

  /** The quote pages as the network would deliver them, by symbol. */
  type Pages = string -> Page

  /** `cachedCrumb && (now - crumbLastFetched) < CRUMB_CACHE_TTL`: a stored, non-empty crumb
      younger than the lifetime. */
  predicate IsFresh(cachedCrumb: Option<JsText>, crumbLastFetched: int, now: int)
  {
    cachedCrumb.Some? && cachedCrumb.value != [] && now - crumbLastFetched < CRUMB_CACHE_TTL
  }

  /** A crumb fetched one minute short of the lifetime is served from the store; one
      fetched exactly the lifetime ago, or longer, is not. */
  lemma FreshnessBoundary(c: JsText, last: int)
    requires c != []
    ensures IsFresh(Some(c), last, last + 29 * 60 * 1000)
    ensures !IsFresh(Some(c), last, last + 30 * 60 * 1000)
    ensures !IsFresh(Some(c), last, last + 31 * 60 * 1000)
    ensures !IsFresh(None, last, last)
  {
  }

  /** What one alternative page yields: its decoded primary capture, if the page is OK.
      The fallback pattern is not tried on these pages. */
  function AlternativeCrumb(page: Page): (r: Option<JsText>)
    ensures r.Some? <==> page.Page? && IsOk(page.status) && PrimaryCapture(page.body).Some?
    ensures r.Some? ==> r == PrimaryCapture(page.body) && |r.value| > 0
  {
    if page.FetchThrew? || !IsOk(page.status) then None
    else
      match PrimaryCapture(page.body)
      case Some(raw) =>
        PrimaryCaptureHasNoBackslash(page.body);
        Some(Decode(raw))
      case None => None
  }

  /** What each of `stocks` would yield, in order. */
  function Yields(stocks: seq<string>, pages: Pages): (r: seq<Option<JsText>>)
    ensures |r| == |stocks|
    ensures forall i :: 0 <= i < |stocks| ==> r[i] == AlternativeCrumb(pages(stocks[i]))
  {
    seq(|stocks|, i requires 0 <= i < |stocks| => AlternativeCrumb(pages(stocks[i])))
  }

  /** The index of the first present entry, or the length if there is none. */
  function FirstSomeIndex<T>(s: seq<Option<T>>): (k: nat)
    ensures k <= |s|
    ensures forall j :: 0 <= j < k ==> s[j].None?
    ensures k < |s| ==> s[k].Some?
  {
    if s == [] then 0
    else if s[0].Some? then 0
    else 1 + FirstSomeIndex(s[1..])
  }

  /** The first present entry: `for (...) { if (found) return found }; return null`. */
  function FirstSome<T>(s: seq<Option<T>>): Option<T>
  {
    var k := FirstSomeIndex(s);
    if k < |s| then s[k] else None
  }

  /** How many entries such a loop looks at. */
  function LookedAt<T>(s: seq<Option<T>>): nat
  {
    var k := FirstSomeIndex(s);
    if k < |s| then k + 1 else |s|
  }

  /** `FirstSome` answers exactly when some entry is present, and then it is an entry
      before which every entry is absent; it looks at every entry exactly when none is. */
  lemma FirstSomeIsFirst<T>(s: seq<Option<T>>)
    ensures FirstSome(s).None? <==> forall i :: 0 <= i < |s| ==> s[i].None?
    ensures FirstSome(s).Some? ==>
      exists i :: 0 <= i < |s| && FirstSome(s) == s[i] && forall j :: 0 <= j < i ==> s[j].None?
    ensures LookedAt(s) == |s| <==> FirstSome(s).None? || FirstSomeIndex(s) == |s| - 1
  {
    var k := FirstSomeIndex(s);
    if k < |s| {
      assert FirstSome(s) == s[k];
    }
  }

  /** `fetchCrumbFromAlternative`: the alternative pages in order, the first crumb wins, and
      no page after it is visited. */
  method FetchCrumbFromAlternative(pages: Pages) returns (r: Option<JsText>, visited: seq<string>)
    ensures r == FirstSome(Yields(ALTERNATIVE_STOCKS, pages))
    ensures visited == ALTERNATIVE_STOCKS[..LookedAt(Yields(ALTERNATIVE_STOCKS, pages))]
  {
    r, visited := TryInOrder(ALTERNATIVE_STOCKS, pages);
  }

  /** The loop of `fetchCrumbFromAlternative` over its list of symbols: each page is
      fetched in turn, and the first crumb ends the loop. */
  method TryInOrder(stocks: seq<string>, pages: Pages) returns (r: Option<JsText>, visited: seq<string>)
    ensures r == FirstSome(Yields(stocks, pages))
    ensures visited == stocks[..LookedAt(Yields(stocks, pages))]
  {
    ghost var ys := Yields(stocks, pages);
    visited := [];
    var i := 0;
    while i < |stocks|
      invariant 0 <= i <= |stocks|
      invariant visited == stocks[..i]
      invariant i <= FirstSomeIndex(ys)
    {
      var stock := stocks[i];
      visited := visited + [stock];
      var found := AlternativeCrumb(pages(stock));
      if found.Some? {
        assert ys[i] == found && FirstSomeIndex(ys) == i;
        assert LookedAt(ys) == i + 1;
        return found, visited;
      }
      i := i + 1;
    }
    assert FirstSomeIndex(ys) == |ys| && LookedAt(ys) == |stocks|;
    assert visited == stocks[..|stocks|];
    r := None;
  }

  /** Where the crumb comes from when the store cannot serve it: the AAPL page (either
      pattern), else the first alternative page (primary pattern only). */
  function Acquire(pages: Pages): (r: Option<JsText>)
    ensures r.Some? ==> |r.value| > 0
    ensures CrumbFromPage(pages(PRIMARY_STOCK)).Some? ==> r == CrumbFromPage(pages(PRIMARY_STOCK))
    ensures CrumbFromPage(pages(PRIMARY_STOCK)).None? ==> r == FirstSome(Yields(ALTERNATIVE_STOCKS, pages))
  {
    var first := CrumbFromPage(pages(PRIMARY_STOCK));
    if first.Some? then first else FirstSome(Yields(ALTERNATIVE_STOCKS, pages))
  }

  /** The pages a refill visits, in order. */
  function AcquireVisits(pages: Pages): (r: seq<string>)
    ensures |r| >= 1 && r[0] == PRIMARY_STOCK
    ensures CrumbFromPage(pages(PRIMARY_STOCK)).Some? <==> |r| == 1
  {
    if CrumbFromPage(pages(PRIMARY_STOCK)).Some? then [PRIMARY_STOCK]
    else [PRIMARY_STOCK] + ALTERNATIVE_STOCKS[..LookedAt(Yields(ALTERNATIVE_STOCKS, pages))]
  }

  /** A JavaScript error: its constructor's name and its message. */
  datatype JsError = JsError(name: string, message: string)

  /** `Error.prototype.toString`: the text begins with the error's name and ends with its
      message, so the reply the data mule sends carries both; it is the bare name exactly
      when the message is empty, and the `: ` between them appears only when both are
      there. */
  function ErrorText(e: JsError): (r: string)
    ensures |e.name| + |e.message| <= |r|
    ensures r[..|e.name|] == e.name && r[|r| - |e.message|..] == e.message
    ensures r == e.name <==> e.message == []
    ensures |r| == |e.name| + |e.message| <==> e.name == [] || e.message == []
  {
    if e.name == [] then e.message
    else if e.message == [] then e.name
    else e.name + ": " + e.message
  }

  /** What `getValidCrumb` answers, as a function of the store and the world. */
  function ValidCrumbOutcome(cachedCrumb: Option<JsText>, crumbLastFetched: int, now: int, pages: Pages): (r: Result<JsText, JsError>)
    ensures r.Ok? ==> |r.value| > 0
    ensures IsFresh(cachedCrumb, crumbLastFetched, now) ==> r == Ok(cachedCrumb.value)
    ensures !IsFresh(cachedCrumb, crumbLastFetched, now) ==>
      r == (if Acquire(pages).Some? then Ok(Acquire(pages).value) else Err(JsError("Error", CRUMB_FAILURE)))
  {
    if IsFresh(cachedCrumb, crumbLastFetched, now) then Ok(cachedCrumb.value)
    else match Acquire(pages)
      case Some(c) => Ok(c)
      case None => Err(JsError("Error", CRUMB_FAILURE))
  }

  /** The reply to the option-chain request or to the worker request: the exception `fetch`
      threw, or a status with its text and what `.json()` produced. */
  datatype Reply<T> = Threw(error: JsError) | Replied(status: nat, statusText: string, body: Result<T, JsError>)

  /** What the background script asks of the outside world, in order. */
  datatype Effect =
    | FetchQuotePage(symbol: string)
    | FetchOptions(ticker: string, crumb: JsText)
    | Wait(ms: nat)
    | PostAnalyze(request: Worker.AnalyzeRequest)

  /** How the data mule treats the status of the option-chain reply. */
  datatype StatusClass = Refused | RateLimited | Rejected | Accepted

  function Classify(status: nat): (c: StatusClass)
    ensures c == Refused <==> status == 401 || status == 403
    ensures c == RateLimited <==> status == 429
    ensures c == Accepted <==> IsOk(status)
    ensures c == Rejected <==> !IsOk(status) && status !in {401, 403, 429}
  {
    if status == 401 || status == 403 then Refused
    else if status == 429 then RateLimited
    else if !IsOk(status) then Rejected
    else Accepted
  }

  function RefusedMessage(status: nat): string
  {
    "Yahoo API refused: " + Decimal(status) + " (Crumb might be invalid)"
  }

  function ApiErrorMessage(status: nat, statusText: string): string
  {
    "Yahoo API error: " + Decimal(status) + " " + statusText
  }

  function WorkerFailedMessage(status: nat): string
  {
    "Worker calculation failed: " + Decimal(status)
  }

  /** The catch block's test: an error whose message mentions an invalid crumb, or 401 or
      403 anywhere, clears the store. */
  function ShouldInvalidate(message: string): (r: bool)
    ensures r <==> Contains(message, "Crumb might be invalid") || Contains(message, "401") || Contains(message, "403")
  {
    Includes(message, "Crumb might be invalid") || Includes(message, "401") || Includes(message, "403")
  }

  /** The quote-page requests of a crumb hunt, one per page visited. */
  function PageFetches(symbols: seq<string>): (r: seq<Effect>)
    ensures |r| == |symbols|
    ensures forall i :: 0 <= i < |symbols| ==> r[i] == FetchQuotePage(symbols[i])
  {
    if symbols == [] then [] else [FetchQuotePage(symbols[0])] + PageFetches(symbols[1..])
  }

  /** The outcome of the job once a crumb is in hand, and the requests it made. */
  datatype Step = Step(outcome: Result<Worker.Body, JsError>, effects: seq<Effect>)

  function Waits(effects: seq<Effect>): nat
  {
    if effects == [] then 0 else (if effects[0].Wait? then 1 else 0) + Waits(effects[1..])
  }

  /** The part of `handleDataMuleWithCrumb` after `getValidCrumb`: the option-chain request
      with the crumb, its status handling, and the hand-off to the worker. */
  function AfterCrumb(ticker: string, crumb: JsText, api: Reply<Worker.RawData>, worker: Reply<Worker.Body>, timestamp: string): (r: Step)
    ensures |r.effects| >= 1 && r.effects[0] == FetchOptions(ticker, crumb)
    ensures forall i :: 0 < i < |r.effects| ==> !r.effects[i].FetchOptions? && !r.effects[i].FetchQuotePage?
    ensures r.effects ==
      [FetchOptions(ticker, crumb)]
      + (if api.Replied? && api.status == 429 then [Wait(5000)] else [])
      + (if api.Replied? && IsOk(api.status) && api.body.Ok?
         then [PostAnalyze(Worker.AnalyzeRequest(Upper(ticker), Some(api.body.value), timestamp))] else [])
    ensures Waits(r.effects) == (if api.Replied? && api.status == 429 then 1 else 0)
    ensures r.outcome.Ok? <==>
      && api.Replied? && IsOk(api.status) && api.body.Ok?
      && worker.Replied? && IsOk(worker.status) && worker.body.Ok?
    ensures r.outcome.Ok? ==> r.outcome.value == worker.body.value
    ensures api.Replied? && Classify(api.status) == Refused ==>
      r.outcome == Err(JsError("Error", RefusedMessage(api.status)))
    ensures api.Replied? && Classify(api.status) == RateLimited ==>
      r.outcome == Err(JsError("Error", RATE_LIMITED))
    ensures api.Replied? && Classify(api.status) == Rejected ==>
      r.outcome == Err(JsError("Error", ApiErrorMessage(api.status, api.statusText)))
    ensures (exists req :: PostAnalyze(req) in r.effects) <==> api.Replied? && IsOk(api.status) && api.body.Ok?
    ensures api.Replied? && IsOk(api.status) && api.body.Ok? ==>
      PostAnalyze(Worker.AnalyzeRequest(Upper(ticker), Some(api.body.value), timestamp)) in r.effects
    ensures api.Replied? && IsOk(api.status) && api.body.Ok? && worker.Replied? && !IsOk(worker.status) ==>
      r.outcome == Err(JsError("Error", WorkerFailedMessage(worker.status)))
  {
    var ask := [FetchOptions(ticker, crumb)];
    match api
    case Threw(e) => Step(Err(e), ask)
    case Replied(status, statusText, json) =>
      match Classify(status)
      case Refused => Step(Err(JsError("Error", RefusedMessage(status))), ask)
      case RateLimited =>
        var waited := ask + [Wait(5000)];
        assert waited[1..] == [Wait(5000)] && Waits(waited[1..]) == 1;
        Step(Err(JsError("Error", RATE_LIMITED)), waited)
      case Rejected => Step(Err(JsError("Error", ApiErrorMessage(status, statusText))), ask)
      case Accepted =>
        match json
        case Err(e) => Step(Err(e), ask)
        case Ok(raw) =>
          var post := PostAnalyze(Worker.AnalyzeRequest(Upper(ticker), Some(raw), timestamp));
          var sent := ask + [post];
          assert sent[1..] == [post] && Waits(sent[1..]) == 0 && post in sent;
          match worker
          case Threw(e) => Step(Err(e), sent)
          case Replied(wStatus, _, wJson) =>
            if !IsOk(wStatus) then Step(Err(JsError("Error", WorkerFailedMessage(wStatus))), sent)
            else Step(wJson, sent)
  }

  /** The whole job asks for the option chain once, after every quote page of the crumb
      hunt, and visits no quote page after it: a refusal or a 429 is not retried. */
  lemma {:induction false} OneOptionRequest(visits: seq<string>, ticker: string, crumb: JsText,
                                            api: Reply<Worker.RawData>, worker: Reply<Worker.Body>, timestamp: string)
    ensures var e := PageFetches(visits) + AfterCrumb(ticker, crumb, api, worker, timestamp).effects;
      && e[|visits|] == FetchOptions(ticker, crumb)
      && (forall i :: 0 <= i < |e| && i != |visits| ==> !e[i].FetchOptions?)
      && (forall i :: |visits| <= i < |e| ==> !e[i].FetchQuotePage?)
  {
    var pages := PageFetches(visits);
    var step := AfterCrumb(ticker, crumb, api, worker, timestamp).effects;
    var e := pages + step;
    forall i | 0 <= i < |e| && i != |visits|
      ensures !e[i].FetchOptions?
    {
      if i < |visits| {
        assert e[i] == pages[i] == FetchQuotePage(visits[i]);
      } else {
        assert e[i] == step[i - |visits|];
      }
    }
    forall i | |visits| <= i < |e|
      ensures !e[i].FetchQuotePage?
    {
      assert e[i] == step[i - |visits|];
    }
  }

  /** What the job answers: `{success: true, data}` or `{success: false, error}`. */
  datatype MuleResponse = MuleSuccess(data: Worker.Body) | MuleFailure(error: string)

  /** The crumb store: the module-level `cachedCrumb` and `crumbLastFetched`. */
  class CrumbStore {
    var cachedCrumb: Option<JsText>
    var crumbLastFetched: int

    /** Only truthy crumbs are ever stored. */
    ghost predicate Valid()
      reads this
    {
      cachedCrumb.Some? ==> cachedCrumb.value != []
    }

    constructor()
      ensures Valid()
      ensures cachedCrumb == None && crumbLastFetched == 0
    {
      cachedCrumb := None;
      crumbLastFetched := 0;
    }

    /** `fetchCrumb`: the crumb of the AAPL page; on success it stamps `crumbLastFetched`
        with the clock it reads, `clock`. */
    method FetchCrumb(page: Page, clock: int) returns (r: Option<JsText>)
      modifies this
      ensures r == CrumbFromPage(page)
      ensures cachedCrumb == old(cachedCrumb)
      ensures crumbLastFetched == if r.Some? then clock else old(crumbLastFetched)
    {
      r := CrumbFromPage(page);
      if r.Some? {
        crumbLastFetched := clock;
      }
    }

    /** `getValidCrumb`, entered at time `now`. A fresh stored crumb is served without a
        visit; otherwise the refill's crumb is stored and stamped with `now` (not with the
        later clock `fetchCrumb` reads); if no page yields one, the store is left as it was
        and the call fails. */
    method GetValidCrumb(now: int, clock: int, pages: Pages) returns (r: Result<JsText, JsError>, visited: seq<string>)
      requires Valid()
      modifies this
      ensures Valid()
      ensures r == ValidCrumbOutcome(old(cachedCrumb), old(crumbLastFetched), now, pages)
      ensures visited == if IsFresh(old(cachedCrumb), old(crumbLastFetched), now) then [] else AcquireVisits(pages)
      ensures r.Ok? && !IsFresh(old(cachedCrumb), old(crumbLastFetched), now) ==>
        cachedCrumb == Some(r.value) && crumbLastFetched == now
      ensures r.Err? || IsFresh(old(cachedCrumb), old(crumbLastFetched), now) ==>
        cachedCrumb == old(cachedCrumb) && crumbLastFetched == old(crumbLastFetched)
    {
      if cachedCrumb.Some? && cachedCrumb.value != [] && now - crumbLastFetched < CRUMB_CACHE_TTL {
        return Ok(cachedCrumb.value), [];
      }
      var newCrumb := FetchCrumb(pages(PRIMARY_STOCK), clock);
      visited := [PRIMARY_STOCK];
      if newCrumb.Some? {
        cachedCrumb := newCrumb;
        crumbLastFetched := now;
        return Ok(newCrumb.value), visited;
      }
      var fallbackCrumb, more := FetchCrumbFromAlternative(pages);
      visited := visited + more;
      if fallbackCrumb.Some? {
        cachedCrumb := fallbackCrumb;
        crumbLastFetched := now;
        return Ok(fallbackCrumb.value), visited;
      }
      r := Err(JsError("Error", CRUMB_FAILURE));
    }

    /** Empties the store, so that the next `getValidCrumb` refills it. */
    method Invalidate()
      modifies this
      ensures Valid()
      ensures cachedCrumb == None && crumbLastFetched == 0
    {
      cachedCrumb := None;
      crumbLastFetched := 0;
    }

    /** `handleDataMuleWithCrumb(ticker)`. Every failure is answered, not thrown, as the
        error's text; an error whose message `ShouldInvalidate` names empties the store,
        and so does a 401 or 403 from the option-chain API before that. */
    method HandleDataMuleWithCrumb(ticker: string, now: int, clock: int, pages: Pages,
                                   api: Reply<Worker.RawData>, worker: Reply<Worker.Body>, timestamp: string)
      returns (resp: MuleResponse, effects: seq<Effect>)
      requires Valid()
      modifies this
      ensures Valid()
      ensures
        var crumb := ValidCrumbOutcome(old(cachedCrumb), old(crumbLastFetched), now, pages);
        var visits := if IsFresh(old(cachedCrumb), old(crumbLastFetched), now) then [] else AcquireVisits(pages);
        var pageEffects := PageFetches(visits);
        match crumb
        case Err(e) =>
          && resp == MuleFailure(ErrorText(e))
          && effects == pageEffects
          && cachedCrumb == old(cachedCrumb) && crumbLastFetched == old(crumbLastFetched)
        case Ok(c) =>
          var step := AfterCrumb(ticker, c, api, worker, timestamp);
          && effects == pageEffects + step.effects
          && (step.outcome.Ok? ==> resp == MuleSuccess(step.outcome.value))
          && (step.outcome.Err? ==> resp == MuleFailure(ErrorText(step.outcome.error)))
          && (step.outcome.Err? && ShouldInvalidate(step.outcome.error.message) ==>
                cachedCrumb == None && crumbLastFetched == 0)
          && (step.outcome.Ok? || !ShouldInvalidate(step.outcome.error.message) ==>
                cachedCrumb == (if IsFresh(old(cachedCrumb), old(crumbLastFetched), now) then old(cachedCrumb) else Some(c))
                && crumbLastFetched == (if IsFresh(old(cachedCrumb), old(crumbLastFetched), now) then old(crumbLastFetched) else now))
    {
      var crumb, visits := GetValidCrumb(now, clock, pages);
      effects := PageFetches(visits);
      if crumb.Err? {
        CrumbFailureKeepsCrumb();
        resp := Fail(crumb.error);
        return;
      }
      var step := AfterCrumb(ticker, crumb.value, api, worker, timestamp);
      effects := effects + step.effects;
      if api.Replied? && Classify(api.status) == Refused {
        Invalidate();
        RefusalInvalidates(api.status);
      }
      if step.outcome.Ok? {
        resp := MuleSuccess(step.outcome.value);
      } else {
        resp := Fail(step.outcome.error);
      }
    }

    /** The catch block: the store is emptied when the message calls for it, and the error
        is answered as its text. */
    method Fail(e: JsError) returns (resp: MuleResponse)
      requires Valid()
      modifies this
      ensures Valid()
      ensures resp == MuleFailure(ErrorText(e))
      ensures ShouldInvalidate(e.message) ==> cachedCrumb == None && crumbLastFetched == 0
      ensures !ShouldInvalidate(e.message) ==>
        cachedCrumb == old(cachedCrumb) && crumbLastFetched == old(crumbLastFetched)
    {
      if ShouldInvalidate(e.message) {
        Invalidate();
      }
      resp := MuleFailure(ErrorText(e));
    }
  }

  /** A refusal's own message names an invalid crumb, so the catch block empties the store
      too. */
  lemma RefusalInvalidates(status: nat)
    ensures ShouldInvalidate(RefusedMessage(status))
  {
    var prefix := "Yahoo API refused: " + Decimal(status) + " (";
    var m := RefusedMessage(status);
    assert m == prefix + "Crumb might be invalid)";
    assert m[|prefix|..|prefix| + |"Crumb might be invalid"|] == "Crumb might be invalid";
    IncludesAt(m, "Crumb might be invalid", |prefix|);
  }

  /** A worker that fails with 401 or 403 also empties the crumb store: the catch block
      tests the message, not where the status came from. */
  lemma WorkerRefusalInvalidates()
    ensures ShouldInvalidate(WorkerFailedMessage(401))
    ensures ShouldInvalidate(WorkerFailedMessage(403))
  {
    DecimalThreeDigits(401);
    DecimalThreeDigits(403);
    var prefix := "Worker calculation failed: ";
    assert WorkerFailedMessage(401)[|prefix|..|prefix| + 3] == "401";
    assert WorkerFailedMessage(403)[|prefix|..|prefix| + 3] == "403";
    IncludesAt(WorkerFailedMessage(401), "401", |prefix|);
    IncludesAt(WorkerFailedMessage(403), "403", |prefix|);
  }

  /** `c` occurs nowhere in `s`. */
  ghost predicate Lacks(s: string, c: char)
  {
    forall k :: 0 <= k < |s| ==> s[k] != c
  }

  lemma LacksAppend(a: string, b: string, c: char)
    requires Lacks(a, c) && Lacks(b, c)
    ensures Lacks(a + b, c)
  {
  }

  /** A text in which the first character of `sub` never occurs does not contain `sub`. */
  lemma AbsentHead(s: string, sub: string)
    requires sub != [] && Lacks(s, sub[0])
    ensures !Contains(s, sub)
  {
    forall i | 0 <= i < |s|
      ensures !OccursAt(s, sub, i)
    {
      if i + |sub| <= |s| {
        assert s[i..i + |sub|][0] == s[i];
      }
    }
  }

  /** Being rate limited leaves the store alone. */
  lemma RateLimitKeepsCrumb()
    ensures !ShouldInvalidate(RATE_LIMITED)
  {
    assert Lacks(RATE_LIMITED, 'C') && Lacks(RATE_LIMITED, '4');
    AbsentHead(RATE_LIMITED, "Crumb might be invalid");
    AbsentHead(RATE_LIMITED, "401");
    AbsentHead(RATE_LIMITED, "403");
  }

  lemma CrumbFailureLacks()
    ensures Lacks(CRUMB_FAILURE, 'C') && Lacks(CRUMB_FAILURE, '4')
  {
    var a, b := "Failed to obtain", " valid crumb from Yahoo Finance";
    assert Lacks(a, 'C') && Lacks(a, '4');
    assert Lacks(b, 'C') && Lacks(b, '4');
    LacksAppend(a, b, 'C');
    LacksAppend(a, b, '4');
  }

  /** Finding no crumb at all leaves the store alone. */
  lemma CrumbFailureKeepsCrumb()
    ensures !ShouldInvalidate(CRUMB_FAILURE)
  {
    CrumbFailureLacks();
    AbsentHead(CRUMB_FAILURE, "Crumb might be invalid");
    AbsentHead(CRUMB_FAILURE, "401");
    AbsentHead(CRUMB_FAILURE, "403");
  }

  /** A preference value: the flags and the domain list the script ships with, or any
      other value a stored or sent preference object carries. */
  datatype PrefValue = Flag(on: bool) | Domains(domains: seq<string>) | Other(text: string)

  type Preferences = map<string, PrefValue>

  const DEFAULT_PREFERENCES: Preferences := map[
    "showTooltips" := Flag(true),
    "autoScan" := Flag(true),
    "whitelistedDomains" := Domains(["twitter.com", "x.com", "reddit.com"])]

  /** `{ ...base, ...update }`: every key of either, the update's value winning. */
  function Merge(base: Preferences, update: Preferences): (m: Preferences)
    ensures m.Keys == base.Keys + update.Keys
    ensures forall k :: k in update ==> m[k] == update[k]
    ensures forall k :: k in base && k !in update ==> m[k] == base[k]
  {
    base + update
  }

  /** Sending the same preferences twice is sending them once. */
  lemma MergeIdempotent(base: Preferences, update: Preferences)
    ensures Merge(Merge(base, update), update) == Merge(base, update)
  {
  }

  /** `updateBadge`: the badge reads ON exactly when the extension is enabled. */
  function BadgeText(enabled: bool): (text: string)
    ensures text == "ON" <==> enabled
    ensures text == "OFF" <==> !enabled
  {
    if enabled then "ON" else "OFF"
  }

  /** The background script's `state` object. */
  class ExtensionState {
    var isEnabled: bool
    var userPreferences: Preferences

    constructor()
      ensures isEnabled && userPreferences == DEFAULT_PREFERENCES
    {
      isEnabled := true;
      userPreferences := DEFAULT_PREFERENCES;
    }

    /** The start-up read of `chrome.storage.local`: a stored flag replaces the default,
        stored preferences are merged over the defaults. */
    method LoadPreferences(storedEnabled: Option<bool>, storedPreferences: Option<Preferences>)
      modifies this
      ensures isEnabled == if storedEnabled.Some? then storedEnabled.value else old(isEnabled)
      ensures userPreferences ==
        if storedPreferences.Some? then Merge(old(userPreferences), storedPreferences.value) else old(userPreferences)
    {
      if storedEnabled.Some? {
        isEnabled := storedEnabled.value;
      }
      if storedPreferences.Some? {
        userPreferences := Merge(userPreferences, storedPreferences.value);
      }
    }

    /** `toggleEnabled(enabled)`: sets the flag and answers the badge text it shows. */
    method ToggleEnabled(enabled: bool) returns (badge: string)
      modifies this
      ensures isEnabled == enabled
      ensures userPreferences == old(userPreferences)
      ensures badge == BadgeText(enabled)
    {
      isEnabled := enabled;
      badge := BadgeText(isEnabled);
    }

    /** A click on the toolbar button flips the flag. */
    method ActionClicked() returns (badge: string)
      modifies this
      ensures isEnabled == !old(isEnabled)
      ensures userPreferences == old(userPreferences)
      ensures badge == BadgeText(isEnabled)
    {
      badge := ToggleEnabled(!isEnabled);
    }

    /** `UPDATE_PREFERENCES`: a shallow merge; an absent object changes nothing. */
    method UpdatePreferences(preferences: Option<Preferences>)
      modifies this
      ensures isEnabled == old(isEnabled)
      ensures userPreferences ==
        if preferences.Some? then Merge(old(userPreferences), preferences.value) else old(userPreferences)
    {
      if preferences.Some? {
        userPreferences := Merge(userPreferences, preferences.value);
      }
    }
  }

  /** A runtime message: its `type` and the fields the handled types read. A missing
      `enabled` reads as false. */
  datatype Message = Message(kind: string, enabled: bool, preferences: Option<Preferences>, ticker: string)

  datatype MessageReply =
    | StateReply(isEnabled: bool, userPreferences: Preferences)
    | Done
    | MuleReply(response: MuleResponse)
    | Unknown(error: string)

  /** Everything the data mule reads from the outside world. */
  datatype World = World(
    now: int, clock: int, pages: Pages,
    api: Reply<Worker.RawData>, worker: Reply<Worker.Body>, timestamp: string)

  /** The reply of `handleDataMuleWithCrumb` and the crumb store's new entry, from the entry
      it starts with and the world it meets. */
  function MuleResult(cachedCrumb: Option<JsText>, crumbLastFetched: int, ticker: string, world: World)
    : (MuleResponse, Option<JsText>, int)
  {
    match ValidCrumbOutcome(cachedCrumb, crumbLastFetched, world.now, world.pages)
    case Err(e) => (MuleFailure(ErrorText(e)), cachedCrumb, crumbLastFetched)
    case Ok(c) =>
      var step := AfterCrumb(ticker, c, world.api, world.worker, world.timestamp);
      var stillFresh := IsFresh(cachedCrumb, crumbLastFetched, world.now);
      var keptCrumb := if stillFresh then cachedCrumb else Some(c);
      var keptStamp := if stillFresh then crumbLastFetched else world.now;
      if step.outcome.Ok? then (MuleSuccess(step.outcome.value), keptCrumb, keptStamp)
      else if ShouldInvalidate(step.outcome.error.message) then (MuleFailure(ErrorText(step.outcome.error)), None, 0)
      else (MuleFailure(ErrorText(step.outcome.error)), keptCrumb, keptStamp)
  }

  /** The `chrome.runtime.onMessage` listener: one branch per message type, and an error
      for any other type; only the matching branch changes anything. */
  method OnMessage(ext: ExtensionState, store: CrumbStore, msg: Message, world: World)
    returns (reply: MessageReply, badge: Option<string>)
    requires store.Valid()
    modifies ext, store
    ensures store.Valid()
    ensures msg.kind == "GET_STATE" ==>
      && reply == StateReply(old(ext.isEnabled), old(ext.userPreferences))
      && unchanged(ext) && unchanged(store) && badge.None?
    ensures msg.kind == "TOGGLE_ENABLED" ==>
      && reply == Done && ext.isEnabled == msg.enabled && ext.userPreferences == old(ext.userPreferences)
      && unchanged(store) && badge == Some(BadgeText(msg.enabled))
    ensures msg.kind == "UPDATE_PREFERENCES" ==>
      && reply == Done && ext.isEnabled == old(ext.isEnabled)
      && ext.userPreferences == (if msg.preferences.Some? then Merge(old(ext.userPreferences), msg.preferences.value) else old(ext.userPreferences))
      && unchanged(store) && badge.None?
    ensures msg.kind == "FETCH_YAHOO_FINANCE_DATA" ==>
      var (response, crumb, stamp) := MuleResult(old(store.cachedCrumb), old(store.crumbLastFetched), msg.ticker, world);
      && reply == MuleReply(response) && store.cachedCrumb == crumb && store.crumbLastFetched == stamp
      && unchanged(ext) && badge.None?
    ensures msg.kind !in {"GET_STATE", "TOGGLE_ENABLED", "UPDATE_PREFERENCES", "FETCH_YAHOO_FINANCE_DATA"} ==>
      reply == Unknown("Unknown message type") && unchanged(ext) && unchanged(store) && badge.None?
  {
    badge := None;
    if msg.kind == "GET_STATE" {
      reply := StateReply(ext.isEnabled, ext.userPreferences);
    } else if msg.kind == "TOGGLE_ENABLED" {
      var text := ext.ToggleEnabled(msg.enabled);
      badge := Some(text);
      reply := Done;
    } else if msg.kind == "UPDATE_PREFERENCES" {
      ext.UpdatePreferences(msg.preferences);
      reply := Done;
    } else if msg.kind == "FETCH_YAHOO_FINANCE_DATA" {
      var response, _ := store.HandleDataMuleWithCrumb(
        msg.ticker, world.now, world.clock, world.pages, world.api, world.worker, world.timestamp);
      reply := MuleReply(response);
    } else {
      reply := Unknown("Unknown message type");
    }
  }
}

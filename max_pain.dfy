/** The worker's max-pain calculation: for every distinct strike of the nearest expiration,
    the total payout to option holders if the underlying settles there, and the strike
    where that payout is least. */
module MaxPain {
  import opened Js

  /** One row of the chain. Upstream may leave `openInterest` out. */
  datatype Contract = Contract(strike: real, openInterest: Option<nat>)

  /** The nearest expiration entry; either list may be absent from the JSON. */
  datatype Expiration = Expiration(calls: Option<seq<Contract>>, puts: Option<seq<Contract>>)

  /** What the calculation throws: a TypeError when there is no expiration entry to
      destructure, and its own error when either list is missing or empty. */
  datatype CalcError = TypeError | InsufficientData

  datatype Calculation = Calculation(maxPain: real, minPainValue: real, strikesAnalyzed: nat)

  /** `openInterest || 0`. */
  function OpenInterest(c: Contract): nat
  {
    match c.openInterest
    case Some(n) => n
    case None => 0
  }

  /** A call pays `(k - strike) * OI` when the underlying settles at `k` above its strike. */
  function CallTerm(c: Contract, k: real): real
  {
    if k > c.strike then (k - c.strike) * OpenInterest(c) as real else 0.0
  }

  /** A put pays `(strike - k) * OI` when the underlying settles at `k` below its strike. */
  function PutTerm(p: Contract, k: real): real
  {
    if k < p.strike then (p.strike - k) * OpenInterest(p) as real else 0.0
  }

  function CallPain(calls: seq<Contract>, k: real): real
  {
    if calls == [] then 0.0 else CallPain(calls[..|calls| - 1], k) + CallTerm(calls[|calls| - 1], k)
  }

  function PutPain(puts: seq<Contract>, k: real): real
  {
    if puts == [] then 0.0 else PutPain(puts[..|puts| - 1], k) + PutTerm(puts[|puts| - 1], k)
  }

  /** The total pain of settling at `k`. */
  function Pain(calls: seq<Contract>, puts: seq<Contract>, k: real): real
  {
    CallPain(calls, k) + PutPain(puts, k)
  }

  function StrikesOf(cs: seq<Contract>): (r: seq<real>)
    ensures |r| == |cs| && forall i :: 0 <= i < |cs| ==> r[i] == cs[i].strike
  {
    if cs == [] then [] else [cs[0].strike] + StrikesOf(cs[1..])
  }

  /** Every strike of either list, with repetitions. */
  function AllStrikes(calls: seq<Contract>, puts: seq<Contract>): seq<real>
  {
    StrikesOf(calls) + StrikesOf(puts)
  }

  function StrikeSet(calls: seq<Contract>, puts: seq<Contract>): set<real>
  {
    set k | k in AllStrikes(calls, puts)
  }

  ghost predicate StrictlyIncreasing(s: seq<real>)
  {
    forall i, j :: 0 <= i < j < |s| ==> s[i] < s[j]
  }

  /** The source's `[...new Set(strikes)].sort((a, b) => a - b)` keeps each value once,
      in ascending order. */
  function Insert(sorted: seq<real>, x: real): (r: seq<real>)
    requires StrictlyIncreasing(sorted)
    ensures StrictlyIncreasing(r)
    ensures forall y :: y in r <==> y in sorted || y == x
  {
    if sorted == [] then [x]
    else if x < sorted[0] then [x] + sorted
    else if x == sorted[0] then sorted
    else
      var rest := Insert(sorted[1..], x);
      assert forall k :: 0 <= k < |rest| ==> sorted[0] < rest[k] by {
        forall k | 0 <= k < |rest|
          ensures sorted[0] < rest[k]
        {
          assert rest[k] in rest;
          if rest[k] != x {
            var i :| 0 <= i < |sorted[1..]| && sorted[1..][i] == rest[k];
            assert sorted[i + 1] == rest[k];
          }
        }
      }
      [sorted[0]] + rest
  }

  function SortedDistinct(xs: seq<real>): (r: seq<real>)
    ensures StrictlyIncreasing(r)
    ensures forall y :: y in r <==> y in xs
  {
    if xs == [] then [] else Insert(SortedDistinct(xs[..|xs| - 1]), xs[|xs| - 1])
  }

  /** A sequence without repetitions has as many elements as the set of its elements. */
  lemma {:induction false} DistinctCardinality(s: seq<real>)
    requires StrictlyIncreasing(s)
    ensures |set k | k in s| == |s|
  {
    if s != [] {
      DistinctCardinality(s[1..]);
      assert (set k | k in s) == {s[0]} + (set k | k in s[1..]);
      assert s[0] !in s[1..];
    }
  }

  /** The number of distinct strikes the calculation reports is the size of the strike set. */
  lemma StrikeCount(calls: seq<Contract>, puts: seq<Contract>)
    ensures |SortedDistinct(AllStrikes(calls, puts))| == |StrikeSet(calls, puts)|
  {
    var unique := SortedDistinct(AllStrikes(calls, puts));
    DistinctCardinality(unique);
    assert (set k | k in unique) == StrikeSet(calls, puts);
  }

  /** `m` is the max-pain price: a strike of the chain, no strike has smaller pain, and
      every lower strike has strictly larger pain (the first minimiser in ascending order). */
  ghost predicate IsMaxPain(calls: seq<Contract>, puts: seq<Contract>, m: real)
  {
    && m in AllStrikes(calls, puts)
    && (forall k :: k in AllStrikes(calls, puts) ==> Pain(calls, puts, m) <= Pain(calls, puts, k))
    && (forall k :: k in AllStrikes(calls, puts) && k < m ==> Pain(calls, puts, m) < Pain(calls, puts, k))
  }

  predicate Sufficient(options: Option<Expiration>)
  {
    && options.Some?
    && options.value.calls.Some? && |options.value.calls.value| > 0
    && options.value.puts.Some? && |options.value.puts.value| > 0
  }

  /** The two `forEach` loops that add up the pain of settling at `k`. */
  method TotalPain(calls: seq<Contract>, puts: seq<Contract>, k: real) returns (total: real)
    ensures total == Pain(calls, puts, k)
  {
    total := 0.0;
    for j := 0 to |calls|
      invariant total == CallPain(calls[..j], k)
    {
      assert calls[..j + 1][..j] == calls[..j];
      if k > calls[j].strike {
        total := total + (k - calls[j].strike) * OpenInterest(calls[j]) as real;
      }
    }
    assert calls[..|calls|] == calls;
    for j := 0 to |puts|
      invariant total == CallPain(calls, k) + PutPain(puts[..j], k)
    {
      assert puts[..j + 1][..j] == puts[..j];
      if k < puts[j].strike {
        total := total + (puts[j].strike - k) * OpenInterest(puts[j]) as real;
      }
    }
    assert puts[..|puts|] == puts;
  }

  /** `calculateMaxPainFromOptions`: fails exactly when the chain is unusable; otherwise
      returns the max-pain strike, its pain, and the number of distinct strikes. */
  method CalculateMaxPainFromOptions(options: Option<Expiration>) returns (r: Result<Calculation, CalcError>)
    ensures r.Err? <==> !Sufficient(options)
    ensures r == Err(TypeError) <==> options.None?
    ensures r.Ok? ==>
      var calls, puts := options.value.calls.value, options.value.puts.value;
      && IsMaxPain(calls, puts, r.value.maxPain)
      && r.value.minPainValue == Pain(calls, puts, r.value.maxPain)
      && r.value.strikesAnalyzed == |StrikeSet(calls, puts)|
  {
    if options.None? {
      return Err(TypeError);
    }
    var chain := options.value;
    if chain.calls.None? || chain.puts.None? || |chain.calls.value| == 0 || |chain.puts.value| == 0 {
      return Err(InsufficientData);
    }
    var calls, puts := chain.calls.value, chain.puts.value;
    var allStrikes := AllStrikes(calls, puts);
    var uniqueStrikes := SortedDistinct(allStrikes);
    assert allStrikes[0] in uniqueStrikes;
    var maxPainStrike, minPain := FirstMinimum(calls, puts, uniqueStrikes);
    FirstMinimumIsMaxPain(calls, puts, uniqueStrikes, maxPainStrike);
    StrikeCount(calls, puts);
    return Ok(Calculation(maxPainStrike, minPain, |uniqueStrikes|));
  }

  /** The loop of `calculateMaxPainFromOptions` over the distinct strikes: starting from an
      infinite minimum, a strike replaces the current one only when its pain is strictly
      smaller, so in ascending order the first strike of least pain wins. */
  method FirstMinimum(calls: seq<Contract>, puts: seq<Contract>, strikes: seq<real>) returns (maxPainStrike: real, minPainValue: real)
    requires |strikes| > 0 && StrictlyIncreasing(strikes)
    ensures maxPainStrike in strikes && minPainValue == Pain(calls, puts, maxPainStrike)
    ensures forall j :: 0 <= j < |strikes| ==> minPainValue <= Pain(calls, puts, strikes[j])
    ensures forall j :: 0 <= j < |strikes| && strikes[j] < maxPainStrike ==> minPainValue < Pain(calls, puts, strikes[j])
  {
    var minPain: Num := PosInf;
    maxPainStrike := 0.0;
    for i := 0 to |strikes|
      invariant i == 0 ==> minPain == PosInf
      invariant i > 0 ==> minPain == Finite(Pain(calls, puts, maxPainStrike))
      invariant i > 0 ==> maxPainStrike in strikes[..i]
      invariant forall j :: 0 <= j < i ==> Pain(calls, puts, maxPainStrike) <= Pain(calls, puts, strikes[j])
      invariant forall j :: 0 <= j < i && strikes[j] < maxPainStrike ==>
        Pain(calls, puts, maxPainStrike) < Pain(calls, puts, strikes[j])
    {
      var candidatePrice := strikes[i];
      var totalPain := TotalPain(calls, puts, candidatePrice);
      if minPain == PosInf || totalPain < minPain.r {
        minPain := Finite(totalPain);
        maxPainStrike := candidatePrice;
      }
    }
    minPainValue := minPain.r;
  }

  /** A minimum over the distinct strikes, first in ascending order, is the max-pain price
      of the whole chain. */
  lemma FirstMinimumIsMaxPain(calls: seq<Contract>, puts: seq<Contract>, strikes: seq<real>, m: real)
    requires forall k :: k in strikes <==> k in AllStrikes(calls, puts)
    requires m in strikes
    requires forall j :: 0 <= j < |strikes| ==> Pain(calls, puts, m) <= Pain(calls, puts, strikes[j])
    requires forall j :: 0 <= j < |strikes| && strikes[j] < m ==> Pain(calls, puts, m) < Pain(calls, puts, strikes[j])
    ensures IsMaxPain(calls, puts, m)
  {
  }

  /** Open interest is never negative, so neither is pain. */
  lemma {:induction false} PainNonNegative(calls: seq<Contract>, puts: seq<Contract>, k: real)
    ensures Pain(calls, puts, k) >= 0.0
  {
    CallPainNonNegative(calls, k);
    PutPainNonNegative(puts, k);
  }

  lemma {:induction false} CallPainNonNegative(calls: seq<Contract>, k: real)
    ensures CallPain(calls, k) >= 0.0
  {
    if calls != [] {
      CallPainNonNegative(calls[..|calls| - 1], k);
    }
  }

  lemma {:induction false} PutPainNonNegative(puts: seq<Contract>, k: real)
    ensures PutPain(puts, k) >= 0.0
  {
    if puts != [] {
      PutPainNonNegative(puts[..|puts| - 1], k);
    }
  }

  /** The max-pain price is determined by the chain: the minimality and the tie-break
      together leave a single candidate. */
  lemma MaxPainUnique(calls: seq<Contract>, puts: seq<Contract>, m1: real, m2: real)
    requires IsMaxPain(calls, puts, m1) && IsMaxPain(calls, puts, m2)
    ensures m1 == m2
  {
  }

  /** The worked chain of the worker's test suite (price 150.50): the pains at 145, 150 and
      155 are 17000, 9000 and 20000, so the max-pain price is 150. */
  lemma SampleChainMaxPain(m: real)
    requires IsMaxPain(SampleCalls(), SamplePuts(), m)
    ensures m == 150.0
  {
    var calls, puts := SampleCalls(), SamplePuts();
    forall k | k in [145.0, 150.0, 155.0]
      ensures Pain(calls, puts, k) ==
        CallTerm(calls[0], k) + CallTerm(calls[1], k) + CallTerm(calls[2], k)
        + PutTerm(puts[0], k) + PutTerm(puts[1], k) + PutTerm(puts[2], k)
    {
      ThreeRowPain(calls, puts, k);
    }
    assert Pain(calls, puts, 145.0) == 17000.0;
    assert Pain(calls, puts, 150.0) == 9000.0;
    assert Pain(calls, puts, 155.0) == 20000.0;
    assert AllStrikes(calls, puts) == [145.0, 150.0, 155.0, 145.0, 150.0, 155.0];
    assert 150.0 in AllStrikes(calls, puts);
  }

  lemma ThreeRowPain(calls: seq<Contract>, puts: seq<Contract>, k: real)
    requires |calls| == 3 && |puts| == 3
    ensures Pain(calls, puts, k) ==
      CallTerm(calls[0], k) + CallTerm(calls[1], k) + CallTerm(calls[2], k)
      + PutTerm(puts[0], k) + PutTerm(puts[1], k) + PutTerm(puts[2], k)
  {
    assert calls[..2][..1] == calls[..1] && calls[..1][..0] == [];
    assert puts[..2][..1] == puts[..1] && puts[..1][..0] == [];
    assert CallPain(calls[..1], k) == CallTerm(calls[0], k);
    assert CallPain(calls[..2], k) == CallTerm(calls[0], k) + CallTerm(calls[1], k);
    assert calls[..|calls| - 1] == calls[..2];
    assert PutPain(puts[..1], k) == PutTerm(puts[0], k);
    assert PutPain(puts[..2], k) == PutTerm(puts[0], k) + PutTerm(puts[1], k);
    assert puts[..|puts| - 1] == puts[..2];
  }

  function SampleCalls(): seq<Contract>
  {
    [Contract(145.0, Some(1000)), Contract(150.0, Some(2000)), Contract(155.0, Some(1500))]
  }

  function SamplePuts(): seq<Contract>
  {
    [Contract(145.0, Some(1200)), Contract(150.0, Some(1800)), Contract(155.0, Some(800))]
  }

  /** A chain whose rows carry no open interest has zero pain everywhere, and its single
      strike is the answer. */
  lemma MissingOpenInterestCountsAsZero(m: real)
    requires IsMaxPain([Contract(150.0, None)], [Contract(150.0, None)], m)
    ensures m == 150.0
    ensures Pain([Contract(150.0, None)], [Contract(150.0, None)], m) == 0.0
  {
  }
}

/** The few pieces of JavaScript's built-in behaviour that the extension and the worker
    rely on: numbers with their special values, ASCII upper-casing, substring search and
    the decimal rendering of a status code. */
module Js {

  datatype Option<+T> = None | Some(value: T)

  datatype Result<+T, +E> = Ok(value: T) | Err(error: E)

  /** A JavaScript number. Finite values are kept as exact reals (the double rounding of
      the engine is not modelled); the special values that a division by zero produces
      are kept, because the sources divide by a price that nothing checks. */
  datatype Num = Finite(r: real) | PosInf | NegInf | NaN

  /** `x / y` for two finite operands. */
  function Div(x: real, y: real): Num
  {
    if y != 0.0 then Finite(x / y)
    else if x > 0.0 then PosInf
    else if x < 0.0 then NegInf
    else NaN
  }

  /** `n * k` for a finite, positive constant `k`. */
  function Scale(n: Num, k: real): Num
    requires k > 0.0
  {
    match n
    case Finite(r) => Finite(r * k)
    case _ => n
  }

  function Abs(n: Num): Num
  {
    match n
    case Finite(r) => Finite(if r < 0.0 then -r else r)
    case NegInf => PosInf
    case _ => n
  }

  /** `n > c`; every comparison with NaN is false. */
  predicate Gt(n: Num, c: real)
  {
    match n
    case Finite(r) => r > c
    case PosInf => true
    case _ => false
  }

  /** `n < c`; every comparison with NaN is false. */
  predicate Lt(n: Num, c: real)
  {
    match n
    case Finite(r) => r < c
    case NegInf => true
    case _ => false
  }

  /** `Math.max(n, c)`: NaN if `n` is NaN. */
  function MaxWith(n: Num, c: real): Num
  {
    match n
    case Finite(r) => Finite(if r < c then c else r)
    case NegInf => Finite(c)
    case _ => n
  }

  /** `Math.min(n, c)`: NaN if `n` is NaN. */
  function MinWith(n: Num, c: real): Num
  {
    match n
    case Finite(r) => Finite(if r > c then c else r)
    case PosInf => Finite(c)
    case _ => n
  }

  function MaxReal(a: real, b: real): real
  {
    if a < b then b else a
  }

  function AbsReal(a: real): real
  {
    if a < 0.0 then -a else a
  }

  /** `String.prototype.toUpperCase` on the ASCII letters; every other character is kept. */
  function UpperChar(c: char): char
  {
    if 'a' <= c <= 'z' then (c as int - 'a' as int + 'A' as int) as char else c
  }

  function Upper(s: string): (r: string)
    ensures |r| == |s|
    ensures forall i :: 0 <= i < |s| ==> r[i] == UpperChar(s[i])
  {
    if s == [] then [] else [UpperChar(s[0])] + Upper(s[1..])
  }

  /** Upper-casing twice is upper-casing once: an upper-cased symbol is its own key. */
  lemma UpperIdempotent(s: string)
    ensures Upper(Upper(s)) == Upper(s)
  {
  }

  /** `sub` occurs in `s` starting at index `i`. */
  ghost predicate OccursAt(s: string, sub: string, i: int)
  {
    0 <= i && i + |sub| <= |s| && s[i..i + |sub|] == sub
  }

  ghost predicate Contains(s: string, sub: string)
  {
    exists i :: OccursAt(s, sub, i)
  }

  /** `s.includes(sub)`, by trying every start position from `from` on. */
  function IncludesFrom(s: string, sub: string, from: nat): (r: bool)
    requires from <= |s|
    ensures r <==> exists i :: from <= i && OccursAt(s, sub, i)
    decreases |s| - from
  {
    if from + |sub| > |s| then false
    else if s[from..from + |sub|] == sub then assert OccursAt(s, sub, from); true
    else IncludesFrom(s, sub, from + 1)
  }

  function Includes(s: string, sub: string): (r: bool)
    ensures r <==> Contains(s, sub)
  {
    IncludesFrom(s, sub, 0)
  }

  /** A witness is enough to know that `includes` answers true. */
  lemma IncludesAt(s: string, sub: string, i: int)
    requires OccursAt(s, sub, i)
    ensures Includes(s, sub)
  {
  }

  function DigitChar(d: nat): char
    requires d < 10
  {
    ('0' as int + d) as char
  }

  /** The decimal text of a non-negative integer, as a template literal renders it. */
  function Decimal(n: nat): (r: string)
    ensures 1 <= |r|
    ensures forall i :: 0 <= i < |r| ==> '0' <= r[i] <= '9'
  {
    if n < 10 then [DigitChar(n)] else Decimal(n / 10) + [DigitChar(n % 10)]
  }

  /** A three-digit status such as 401 renders as its three digits. */
  lemma DecimalThreeDigits(n: nat)
    requires 100 <= n < 1000
    ensures Decimal(n) == [DigitChar(n / 100), DigitChar(n / 10 % 10), DigitChar(n % 10)]
  {
    assert Decimal(n / 10) == [DigitChar(n / 100), DigitChar(n / 10 % 10)];
  }

  /** A match of a pattern: where it starts and what its group captured. */
  datatype Match<T> = Match(start: nat, capture: seq<T>)

  /** What a non-global `text.match(re)` (or one `re.exec(text)` from `lastIndex`) finds:
      the leftmost position from `from` on where the pattern, tried at a single position by
      `at`, matches. */
  function Leftmost<T>(text: seq<T>, from: nat, at: (seq<T>, nat) -> Option<seq<T>>): (r: Option<Match<T>>)
    ensures r.Some? ==> from <= r.value.start <= |text| && at(text, r.value.start) == Some(r.value.capture)
    ensures r.Some? ==> forall q :: from <= q < r.value.start ==> at(text, q).None?
    ensures r.None? ==> forall q :: from <= q <= |text| ==> at(text, q).None?
    decreases |text| + 1 - from
  {
    if from > |text| then None
    else match at(text, from)
      case Some(c) => Some(Match(from, c))
      case None => Leftmost(text, from + 1, at)
  }
}

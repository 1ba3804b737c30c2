/** The string side of the background script's crumb hunt: the two regular expressions
    that find the crumb in a Yahoo Finance quote page, the `\uXXXX` decoding applied to
    what they capture, and `fetchCrumb` as a function of the page it receives. The text is
    a JavaScript string, so it is kept as UTF-16 code units: a decoded escape may be any
    unit, a lone surrogate included. */
module Crumb {
  import opened Js

  newtype Unit = x: int | 0 <= x < 0x1_0000

  type JsText = seq<Unit>

  const QUOTE: Unit := 0x22
  const BACKSLASH: Unit := 0x5C
  const LOWER_U: Unit := 0x75
  const OPEN_BRACE: Unit := 0x7B

  /** `"crumb":"`, the text before the primary pattern's group. */
  const PRIMARY_KEY: JsText := [0x22, 0x63, 0x72, 0x75, 0x6D, 0x62, 0x22, 0x3A, 0x22]
  /** `"CrumbStore":`, the first key of the fallback pattern. */
  const STORE_KEY: JsText := [0x22, 0x43, 0x72, 0x75, 0x6D, 0x62, 0x53, 0x74, 0x6F, 0x72, 0x65, 0x22, 0x3A]
  /** `"crumb":`, the second key of the fallback pattern. */
  const FIELD_KEY: JsText := [0x22, 0x63, 0x72, 0x75, 0x6D, 0x62, 0x22, 0x3A]

  /** `[A-Za-z0-9\.\-_]` */
  predicate IsCrumbChar(u: Unit)
  {
    (0x41 <= u <= 0x5A) || (0x61 <= u <= 0x7A) || (0x30 <= u <= 0x39) || u == 0x2E || u == 0x2D || u == 0x5F
  }

  /** `\s`: the ECMAScript white space and line terminators. */
  predicate IsSpace(u: Unit)
  {
    || (0x09 <= u <= 0x0D) || u == 0x20 || u == 0xA0 || u == 0x1680
    || (0x2000 <= u <= 0x200A) || u == 0x2028 || u == 0x2029 || u == 0x202F
    || u == 0x205F || u == 0x3000 || u == 0xFEFF
  }

  /** `[^"]` */
  predicate NotQuote(u: Unit)
  {
    u != QUOTE
  }

  /** `[0-9a-fA-F]` */
  predicate IsHex(u: Unit)
  {
    (0x30 <= u <= 0x39) || (0x41 <= u <= 0x46) || (0x61 <= u <= 0x66)
  }

  function HexValue(u: Unit): (v: nat)
    requires IsHex(u)
    ensures v < 16
  {
    if u <= 0x39 then (u - 0x30) as nat
    else if u <= 0x46 then (u - 0x41 + 10) as nat
    else (u - 0x61 + 10) as nat
  }

  /** The end of the longest run of units satisfying `P` from `i` on: a greedy `P*`. */
  function RunEnd(text: JsText, i: nat, P: Unit -> bool): (j: nat)
    requires i <= |text|
    ensures i <= j <= |text|
    ensures forall k :: i <= k < j ==> P(text[k])
    ensures j == |text| || !P(text[j])
    decreases |text| - i
  {
    if i < |text| && P(text[i]) then RunEnd(text, i + 1, P) else i
  }

  /** A run of `w` units satisfying `P` that is followed by a unit that does not, or by the
      end, is exactly what the greedy run consumes. */
  lemma {:induction false} RunEndExact(text: JsText, i: nat, w: JsText, P: Unit -> bool)
    requires HasAt(text, i, w)
    requires forall k :: 0 <= k < |w| ==> P(w[k])
    requires i + |w| == |text| || !P(text[i + |w|])
    ensures RunEnd(text, i, P) == i + |w|
    decreases |w|
  {
    if w != [] {
      assert text[i] == w[0];
      assert HasAt(text, i + 1, w[1..]) by {
        assert text[i + 1..i + 1 + |w[1..]|] == text[i..i + |w|][1..];
      }
      RunEndExact(text, i + 1, w[1..], P);
    }
  }

  /** `text` holds `w` at index `p`. */
  ghost predicate HasAt(text: JsText, p: nat, w: JsText)
  {
    p + |w| <= |text| && text[p..p + |w|] == w
  }

  /** The primary pattern `"crumb":"([A-Za-z0-9\.\-_]+)"` tried at index `p`. */
  function PrimaryAt(text: JsText, p: nat): Option<JsText>
  {
    var s := p + |PRIMARY_KEY|;
    if s > |text| || text[p..s] != PRIMARY_KEY then None
    else
      var e := RunEnd(text, s, IsCrumbChar);
      if s < e < |text| && text[e] == QUOTE then Some(text[s..e]) else None
  }

  /** What the primary pattern means at `p`: the key, a non-empty run of crumb characters
      (the capture), and a closing quote. */
  ghost predicate PrimaryMatch(text: JsText, p: nat, capture: JsText)
  {
    && |capture| > 0
    && (forall k :: 0 <= k < |capture| ==> IsCrumbChar(capture[k]))
    && HasAt(text, p, PRIMARY_KEY)
    && HasAt(text, p + |PRIMARY_KEY|, capture)
    && HasAt(text, p + |PRIMARY_KEY| + |capture|, [QUOTE])
  }

  /** The scanner for the primary pattern answers exactly the matches the pattern means. */
  lemma PrimaryAtIsPrimaryMatch(text: JsText, p: nat, capture: JsText)
    ensures PrimaryAt(text, p) == Some(capture) <==> PrimaryMatch(text, p, capture)
  {
    if PrimaryMatch(text, p, capture) {
      var s := p + |PRIMARY_KEY|;
      assert text[s + |capture|] == QUOTE;
      RunEndExact(text, s, capture, IsCrumbChar);
    }
  }

  /** The fallback pattern `"CrumbStore":\s*{\s*"crumb":\s*"([^"]+)"` tried at index `p`,
      one piece at a time. Every `\s*` is followed by a unit that is not white space, so
      the greedy run is the only way it can match. */
  function FallbackAt(text: JsText, p: nat): Option<JsText>
  {
    var a := p + |STORE_KEY|;
    if a > |text| || text[p..a] != STORE_KEY then None
    else AfterStoreKey(text, RunEnd(text, a, IsSpace))
  }

  /** `{\s*"crumb":\s*"([^"]+)"` at `b`. */
  function AfterStoreKey(text: JsText, b: nat): Option<JsText>
    requires b <= |text|
  {
    if b >= |text| || text[b] != OPEN_BRACE then None
    else AfterBrace(text, RunEnd(text, b + 1, IsSpace))
  }

  /** `"crumb":\s*"([^"]+)"` at `c`. */
  function AfterBrace(text: JsText, c: nat): Option<JsText>
    requires c <= |text|
  {
    if c + |FIELD_KEY| > |text| || text[c..c + |FIELD_KEY|] != FIELD_KEY then None
    else AfterFieldKey(text, RunEnd(text, c + |FIELD_KEY|, IsSpace))
  }

  /** `"([^"]+)"` at `d`. */
  function AfterFieldKey(text: JsText, d: nat): Option<JsText>
    requires d <= |text|
  {
    if d >= |text| || text[d] != QUOTE then None
    else
      var e := RunEnd(text, d + 1, NotQuote);
      if d + 1 < e < |text| then Some(text[d + 1..e]) else None
  }

  ghost predicate AllSpace(w: JsText)
  {
    forall k :: 0 <= k < |w| ==> IsSpace(w[k])
  }

  /** What the fallback pattern means at `p`, given the white space it skips. */
  ghost predicate FallbackMatch(text: JsText, p: nat, ws1: JsText, ws2: JsText, ws3: JsText, capture: JsText)
  {
    var a := p + |STORE_KEY|;
    var b := a + |ws1|;
    var c := b + 1 + |ws2|;
    var d := c + |FIELD_KEY| + |ws3|;
    var e := d + 1 + |capture|;
    && AllSpace(ws1) && AllSpace(ws2) && AllSpace(ws3)
    && |capture| > 0
    && (forall k :: 0 <= k < |capture| ==> NotQuote(capture[k]))
    && HasAt(text, p, STORE_KEY) && HasAt(text, a, ws1) && HasAt(text, b, [OPEN_BRACE])
    && HasAt(text, b + 1, ws2) && HasAt(text, c, FIELD_KEY) && HasAt(text, c + |FIELD_KEY|, ws3)
    && HasAt(text, d, [QUOTE]) && HasAt(text, d + 1, capture) && HasAt(text, e, [QUOTE])
  }

  /** Whatever the fallback scanner returns is a match of the fallback pattern. */
  lemma FallbackAtSound(text: JsText, p: nat)
    requires FallbackAt(text, p).Some?
    ensures exists ws1, ws2, ws3 :: FallbackMatch(text, p, ws1, ws2, ws3, FallbackAt(text, p).value)
  {
    var ws1, b := StoreKeySound(text, p);
    var ws2, c := BraceSound(text, b);
    var ws3, d := FieldKeySound(text, c);
    var capture := QuotedCaptureSound(text, d);
    FallbackMatchIntro(text, p, ws1, b, ws2, c, ws3, d, capture);
  }

  lemma FallbackMatchIntro(text: JsText, p: nat, ws1: JsText, b: nat, ws2: JsText, c: nat, ws3: JsText, d: nat, capture: JsText)
    requires b == p + |STORE_KEY| + |ws1| && c == b + 1 + |ws2| && d == c + |FIELD_KEY| + |ws3|
    requires HasAt(text, p, STORE_KEY) && HasAt(text, p + |STORE_KEY|, ws1) && AllSpace(ws1)
    requires HasAt(text, b, [OPEN_BRACE]) && HasAt(text, b + 1, ws2) && AllSpace(ws2)
    requires HasAt(text, c, FIELD_KEY) && HasAt(text, c + |FIELD_KEY|, ws3) && AllSpace(ws3)
    requires HasAt(text, d, [QUOTE]) && HasAt(text, d + 1, capture) && HasAt(text, d + 1 + |capture|, [QUOTE])
    requires |capture| > 0 && forall k :: 0 <= k < |capture| ==> NotQuote(capture[k])
    ensures FallbackMatch(text, p, ws1, ws2, ws3, capture)
  {
  }

  lemma StoreKeySound(text: JsText, p: nat) returns (ws: JsText, b: nat)
    requires FallbackAt(text, p).Some?
    ensures HasAt(text, p, STORE_KEY) && HasAt(text, p + |STORE_KEY|, ws) && AllSpace(ws)
    ensures b == p + |STORE_KEY| + |ws| <= |text| && FallbackAt(text, p) == AfterStoreKey(text, b)
  {
    b := RunEnd(text, p + |STORE_KEY|, IsSpace);
    ws := text[p + |STORE_KEY|..b];
  }

  lemma BraceSound(text: JsText, b: nat) returns (ws: JsText, c: nat)
    requires b <= |text| && AfterStoreKey(text, b).Some?
    ensures HasAt(text, b, [OPEN_BRACE]) && HasAt(text, b + 1, ws) && AllSpace(ws)
    ensures c == b + 1 + |ws| <= |text| && AfterStoreKey(text, b) == AfterBrace(text, c)
  {
    c := RunEnd(text, b + 1, IsSpace);
    ws := text[b + 1..c];
  }

  lemma FieldKeySound(text: JsText, c: nat) returns (ws: JsText, d: nat)
    requires c <= |text| && AfterBrace(text, c).Some?
    ensures HasAt(text, c, FIELD_KEY) && HasAt(text, c + |FIELD_KEY|, ws) && AllSpace(ws)
    ensures d == c + |FIELD_KEY| + |ws| <= |text| && AfterBrace(text, c) == AfterFieldKey(text, d)
  {
    d := RunEnd(text, c + |FIELD_KEY|, IsSpace);
    ws := text[c + |FIELD_KEY|..d];
  }

  lemma QuotedCaptureSound(text: JsText, d: nat) returns (capture: JsText)
    requires d <= |text| && AfterFieldKey(text, d).Some?
    ensures AfterFieldKey(text, d) == Some(capture)
    ensures |capture| > 0 && forall k :: 0 <= k < |capture| ==> NotQuote(capture[k])
    ensures HasAt(text, d, [QUOTE]) && HasAt(text, d + 1, capture) && HasAt(text, d + 1 + |capture|, [QUOTE])
  {
    capture := AfterFieldKey(text, d).value;
  }

  /** Every match of the fallback pattern is found by the scanner, with the same capture. */
  lemma FallbackAtComplete(text: JsText, p: nat, ws1: JsText, ws2: JsText, ws3: JsText, capture: JsText)
    requires FallbackMatch(text, p, ws1, ws2, ws3, capture)
    ensures FallbackAt(text, p) == Some(capture)
  {
    var a := p + |STORE_KEY|;
    var b := a + |ws1|;
    var c := b + 1 + |ws2|;
    var d := c + |FIELD_KEY| + |ws3|;
    QuotedCaptureExact(text, d, capture);
    SpacesThenFieldValue(text, c, ws3);
    SpacesThenFieldKey(text, b, ws2);
    SpacesThenBrace(text, p, ws1);
  }

  lemma QuotedCaptureExact(text: JsText, d: nat, capture: JsText)
    requires HasAt(text, d, [QUOTE]) && HasAt(text, d + 1, capture) && HasAt(text, d + 1 + |capture|, [QUOTE])
    requires |capture| > 0 && forall k :: 0 <= k < |capture| ==> NotQuote(capture[k])
    ensures AfterFieldKey(text, d) == Some(capture)
  {
    assert text[d] == QUOTE && text[d + 1 + |capture|] == QUOTE;
    RunEndExact(text, d + 1, capture, NotQuote);
  }

  lemma SpacesThenFieldValue(text: JsText, c: nat, ws: JsText)
    requires HasAt(text, c, FIELD_KEY) && HasAt(text, c + |FIELD_KEY|, ws) && AllSpace(ws)
    requires HasAt(text, c + |FIELD_KEY| + |ws|, [QUOTE])
    ensures AfterBrace(text, c) == AfterFieldKey(text, c + |FIELD_KEY| + |ws|)
  {
    assert text[c + |FIELD_KEY| + |ws|] == QUOTE;
    RunEndExact(text, c + |FIELD_KEY|, ws, IsSpace);
  }

  lemma SpacesThenFieldKey(text: JsText, b: nat, ws: JsText)
    requires HasAt(text, b, [OPEN_BRACE]) && HasAt(text, b + 1, ws) && AllSpace(ws)
    requires HasAt(text, b + 1 + |ws|, FIELD_KEY)
    ensures AfterStoreKey(text, b) == AfterBrace(text, b + 1 + |ws|)
  {
    assert text[b] == OPEN_BRACE;
    assert text[b + 1 + |ws|] == FIELD_KEY[0] == QUOTE;
    RunEndExact(text, b + 1, ws, IsSpace);
  }

  lemma SpacesThenBrace(text: JsText, p: nat, ws: JsText)
    requires HasAt(text, p, STORE_KEY) && HasAt(text, p + |STORE_KEY|, ws) && AllSpace(ws)
    requires HasAt(text, p + |STORE_KEY| + |ws|, [OPEN_BRACE])
    ensures FallbackAt(text, p) == AfterStoreKey(text, p + |STORE_KEY| + |ws|)
  {
    var a := p + |STORE_KEY|;
    SpacesBeforeBrace(text, a, ws, a + |ws|);
    FallbackAtUnfold(text, p, a);
  }

  lemma SpacesBeforeBrace(text: JsText, a: nat, ws: JsText, b: nat)
    requires HasAt(text, a, ws) && AllSpace(ws) && b == a + |ws|
    requires HasAt(text, b, [OPEN_BRACE])
    ensures RunEnd(text, a, IsSpace) == b
  {
    assert text[b] == OPEN_BRACE;
    RunEndExact(text, a, ws, IsSpace);
  }

  lemma FallbackAtUnfold(text: JsText, p: nat, a: nat)
    requires HasAt(text, p, STORE_KEY) && a == p + |STORE_KEY|
    ensures FallbackAt(text, p) == AfterStoreKey(text, RunEnd(text, a, IsSpace))
  {
  }

  /** `text.match(primary)[1]`: the group of the leftmost primary match. */
  function PrimaryCapture(text: JsText): Option<JsText>
  {
    match Leftmost(text, 0, PrimaryAt)
    case Some(m) => Some(m.capture)
    case None => None
  }

  /** `text.match(fallback)[1]`: the group of the leftmost fallback match. */
  function FallbackCapture(text: JsText): Option<JsText>
  {
    match Leftmost(text, 0, FallbackAt)
    case Some(m) => Some(m.capture)
    case None => None
  }

  /** `\\u([0-9a-fA-F]{4})` at the head of `s`. */
  predicate EscapeAtHead(s: JsText)
  {
    |s| >= 6 && s[0] == BACKSLASH && s[1] == LOWER_U && IsHex(s[2]) && IsHex(s[3]) && IsHex(s[4]) && IsHex(s[5])
  }

  /** The code unit that four hex digits name. */
  function EscapedUnit(s: JsText): Unit
    requires EscapeAtHead(s)
  {
    (HexValue(s[2]) * 0x1000 + HexValue(s[3]) * 0x100 + HexValue(s[4]) * 0x10 + HexValue(s[5])) as Unit
  }

  /** `s.replace(/\\u([0-9a-fA-F]{4})/g, hex => String.fromCharCode(parseInt(hex, 16)))`:
      left to right, each escape becomes the one unit it names, and every other unit is
      copied. A non-empty text never decodes to the empty text. */
  function Decode(s: JsText): (r: JsText)
    ensures |r| <= |s|
    ensures |r| == 0 <==> |s| == 0
  {
    if s == [] then []
    else if EscapeAtHead(s) then [EscapedUnit(s)] + Decode(s[6..])
    else [s[0]] + Decode(s[1..])
  }

  /** Text without a backslash decodes to itself; the primary pattern's character class has
      no backslash, so decoding its capture changes nothing. */
  lemma {:induction false} DecodeWithoutBackslash(s: JsText)
    requires forall k :: 0 <= k < |s| ==> s[k] != BACKSLASH
    ensures Decode(s) == s
  {
    if s != [] {
      DecodeWithoutBackslash(s[1..]);
    }
  }

  /** The case each of an escape's four hex digits is written in: true for upper case. */
  datatype DigitCases = DigitCases(d0: bool, d1: bool, d2: bool, d3: bool)

  function HexDigit(n: nat, upper: bool): (u: Unit)
    requires n < 16
    ensures IsHex(u) && HexValue(u) == n
  {
    if n < 10 then (0x30 + n) as Unit
    else if upper then (0x41 + n - 10) as Unit
    else (0x61 + n - 10) as Unit
  }

  /** `\u` followed by the four hex digits of `u`, each in the case `c` chooses. */
  function EscapeUnit(u: Unit, c: DigitCases): (r: JsText)
    ensures EscapeAtHead(r) && |r| == 6
  {
    var n := u as nat;
    [BACKSLASH, LOWER_U, HexDigit(n / 0x1000, c.d0), HexDigit(n / 0x100 % 0x10, c.d1),
     HexDigit(n / 0x10 % 0x10, c.d2), HexDigit(n % 0x10, c.d3)]
  }

  /** Every unit escaped, the `i`-th with the digit cases `cs[i]`; the inverse of `Decode`. */
  function EscapeAll(s: JsText, cs: seq<DigitCases>): (r: JsText)
    requires |cs| == |s|
    ensures |r| == 6 * |s|
  {
    if s == [] then [] else EscapeUnit(s[0], cs[0]) + EscapeAll(s[1..], cs[1..])
  }

  lemma EscapedUnitOfEscape(u: Unit, c: DigitCases)
    ensures EscapedUnit(EscapeUnit(u, c)) == u
  {
    var n := u as nat;
    var n1 := n / 0x10;
    var n2 := n1 / 0x10;
    assert n == n1 * 0x10 + n % 0x10;
    assert n1 == n2 * 0x10 + n1 % 0x10;
    assert n2 == n2 / 0x10 * 0x10 + n2 % 0x10;
    assert n / 0x100 == n2 && n / 0x1000 == n2 / 0x10;
  }

  /** An escape, whatever the case of its digits, decodes to the unit it names, and what
      follows it is decoded on its own. */
  lemma DecodeEscapeThen(u: Unit, c: DigitCases, y: JsText)
    ensures Decode(EscapeUnit(u, c) + y) == [u] + Decode(y)
  {
    var e := EscapeUnit(u, c) + y;
    assert e[..6] == EscapeUnit(u, c) && e[6..] == y;
    EscapedUnitOfEscape(u, c);
  }

  /** Decoding undoes escaping, for any text, any code unit in it and either case of each
      hex digit. */
  lemma {:induction false} DecodeEscapeAll(s: JsText, cs: seq<DigitCases>)
    requires |cs| == |s|
    ensures Decode(EscapeAll(s, cs)) == s
  {
    if s != [] {
      DecodeEscapeThen(s[0], cs[0], EscapeAll(s[1..], cs[1..]));
      DecodeEscapeAll(s[1..], cs[1..]);
    }
  }

  /** Text without a backslash is copied as it is, whatever follows it. */
  lemma {:induction false} DecodeAppend(x: JsText, y: JsText)
    requires forall k :: 0 <= k < |x| ==> x[k] != BACKSLASH
    ensures Decode(x + y) == x + Decode(y)
  {
    if x != [] {
      assert (x + y)[0] == x[0] && (x + y)[1..] == x[1..] + y;
      DecodeAppend(x[1..], y);
      assert x == [x[0]] + x[1..];
    } else {
      assert x + y == y;
    }
  }

  /** A backslash that starts no escape is copied, and decoding resumes right after it. */
  lemma BareBackslashKept(y: JsText)
    requires !EscapeAtHead([BACKSLASH] + y)
    ensures Decode([BACKSLASH] + y) == [BACKSLASH] + Decode(y)
  {
    assert ([BACKSLASH] + y)[1..] == y;
  }

  /** Plain text, one escape and the rest: each part decodes on its own, so escapes mixed
      with other units decode in place. */
  lemma DecodeMixed(x: JsText, u: Unit, c: DigitCases, y: JsText)
    requires forall k :: 0 <= k < |x| ==> x[k] != BACKSLASH
    ensures Decode(x + EscapeUnit(u, c) + y) == x + [u] + Decode(y)
  {
    assert x + EscapeUnit(u, c) + y == x + (EscapeUnit(u, c) + y);
    DecodeAppend(x, EscapeUnit(u, c) + y);
    DecodeEscapeThen(u, c, y);
  }

  /** The `\u002F` of the comment at background.js:126, with its upper-case digit; the same
      escape between two letters; and a backslash followed by `a`, which is no escape. */
  lemma DecodeExamples()
    ensures Decode([0x5C, 0x75, 0x30, 0x30, 0x32, 0x46]) == [0x2F]
    ensures Decode([0x61, 0x5C, 0x75, 0x30, 0x30, 0x32, 0x46, 0x62]) == [0x61, 0x2F, 0x62]
    ensures Decode([0x5C, 0x61]) == [0x5C, 0x61]
  {
    var slash := EscapeUnit(0x2F, DigitCases(false, false, false, true));
    assert slash == [0x5C, 0x75, 0x30, 0x30, 0x32, 0x46];
    DecodeEscapeThen(0x2F, DigitCases(false, false, false, true), []);
    assert [0x5C, 0x75, 0x30, 0x30, 0x32, 0x46] + [] == slash;
    DecodeMixed([0x61], 0x2F, DigitCases(false, false, false, true), [0x62]);
    assert [0x61] + slash + [0x62] == [0x61, 0x5C, 0x75, 0x30, 0x30, 0x32, 0x46, 0x62];
    assert Decode([0x62]) == [0x62];
    BareBackslashKept([0x61]);
    assert [BACKSLASH] + [0x61] == [0x5C, 0x61];
    assert Decode([0x61]) == [0x61];
  }

  /** A quote page as `fetch` delivered it, or the exception `fetch` threw. */
  datatype Page = Page(status: nat, body: JsText) | FetchThrew

  predicate IsOk(status: nat)
  {
    200 <= status <= 299
  }

  /** `fetchCrumb` on the page it fetched: nothing for a failed or non-OK fetch; otherwise
      the decoded primary capture, else the decoded fallback capture, else nothing. */
  function CrumbFromPage(page: Page): (r: Option<JsText>)
    ensures r.Some? ==> |r.value| > 0
    ensures page.FetchThrew? || !IsOk(page.status) ==> r.None?
    ensures page.Page? && IsOk(page.status) && PrimaryCapture(page.body).Some? ==>
      r == PrimaryCapture(page.body)
    ensures page.Page? && IsOk(page.status) && PrimaryCapture(page.body).None? ==>
      match FallbackCapture(page.body)
      case Some(c) => r == Some(Decode(c))
      case None => r.None?
  {
    if page.FetchThrew? || !IsOk(page.status) then None
    else
      match PrimaryCapture(page.body)
      case Some(raw) =>
        PrimaryCaptureHasNoBackslash(page.body);
        Some(Decode(raw))
      case None =>
        match FallbackCapture(page.body)
        case Some(raw) => Some(Decode(raw))
        case None => None
  }

  /** A primary capture is made of crumb characters and so is its own decoding. */
  lemma PrimaryCaptureHasNoBackslash(text: JsText)
    requires PrimaryCapture(text).Some?
    ensures |PrimaryCapture(text).value| > 0
    ensures Decode(PrimaryCapture(text).value) == PrimaryCapture(text).value
  {
    var m := Leftmost(text, 0, PrimaryAt).value;
    PrimaryAtIsPrimaryMatch(text, m.start, m.capture);
    DecodeWithoutBackslash(m.capture);
  }
}

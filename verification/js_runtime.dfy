/**
 * The pieces of the JavaScript runtime the scraper and the reviews list rely on:
 * `parseInt` with no radix argument, ASCII `toLowerCase`, and `String.prototype.includes`.
 */
module JsRuntime {
  import opened Wrappers

  /** An ASCII decimal digit; also what `\d` matches in a JavaScript regular expression. */
  predicate IsDigit(c: char) {
    '0' <= c <= '9'
  }

  predicate IsHexDigit(c: char) {
    IsDigit(c) || 'a' <= c <= 'f' || 'A' <= c <= 'F'
  }

  /** A digit of the radix `parseInt` settled on: 16 after a `0x` prefix, 10 otherwise. */
  predicate IsRadixDigit(c: char, hex: bool) {
    if hex then IsHexDigit(c) else IsDigit(c)
  }

  function DigitValue(c: char): (d: nat)
    requires IsHexDigit(c)
    ensures d < 16
    ensures IsDigit(c) ==> d < 10
  {
    if IsDigit(c) then c as int - '0' as int
    else if 'a' <= c <= 'f' then c as int - 'a' as int + 10
    else c as int - 'A' as int + 10
  }

  /** The code points ECMAScript's `TrimStart` removes: WhiteSpace and LineTerminator. */
  predicate IsWhitespace(c: char) {
    var u := c as int;
    (0x09 <= u <= 0x0D) || u == 0x20 || u == 0xA0 || u == 0x1680 || (0x2000 <= u <= 0x200A)
    || u == 0x2028 || u == 0x2029 || u == 0x202F || u == 0x205F || u == 0x3000 || u == 0xFEFF
  }

  /** `s` without its leading whitespace. */
  function TrimStart(s: string): (r: string)
    ensures |r| <= |s| && r == s[|s| - |r|..]
    ensures forall i :: 0 <= i < |s| - |r| ==> IsWhitespace(s[i])
    ensures r == [] || !IsWhitespace(r[0])
  {
    if s != [] && IsWhitespace(s[0]) then TrimStart(s[1..]) else s
  }

  /** The length of the longest prefix of `s` made of digits of the radix. */
  function DigitRunLength(s: string, hex: bool): (n: nat)
    ensures n <= |s|
    ensures forall i :: 0 <= i < n ==> IsRadixDigit(s[i], hex)
    ensures n == |s| || !IsRadixDigit(s[n], hex)
  {
    if s != [] && IsRadixDigit(s[0], hex) then 1 + DigitRunLength(s[1..], hex) else 0
  }

  /** The number a run of digits denotes, most significant digit first. */
  function DigitsValue(ds: string, hex: bool): nat
    requires forall i :: 0 <= i < |ds| ==> IsRadixDigit(ds[i], hex)
  {
    if ds == [] then 0
    else
      var last := ds[|ds| - 1];
      assert IsRadixDigit(last, hex);
      DigitsValue(ds[..|ds| - 1], hex) * (if hex then 16 else 10) + DigitValue(last)
  }

  /**
   * `parseInt(s)` with no radix: skip leading whitespace, take an optional sign, switch to
   * radix 16 after a `0x`/`0X` prefix, then read the longest run of digits and ignore the
   * rest. No digit at all gives NaN, written `None`.
   */
  function ParseInt(s: string): (r: Option<int>)
    ensures r.Some? ==> exists i :: 0 <= i < |s| && IsDigit(s[i])
  {
    ParseIntHasDigit(s);
    ParseSigned(TrimStart(s))
  }

  /** A number is only ever read from text that holds a decimal digit. */
  lemma ParseIntHasDigit(s: string)
    ensures ParseSigned(TrimStart(s)).Some? ==> exists i :: 0 <= i < |s| && IsDigit(s[i])
  {
    var t := TrimStart(s);
    if ParseSigned(t).Some? {
      SignedHasDigit(t);
      var i :| 0 <= i < |t| && IsDigit(t[i]);
      assert s[|s| - |t| + i] == t[i];
    }
  }

  lemma SignedHasDigit(t: string)
    requires ParseSigned(t).Some?
    ensures exists i :: 0 <= i < |t| && IsDigit(t[i])
  {
    var off := if t != [] && (t[0] == '-' || t[0] == '+') then 1 else 0;
    var u := t[off..];
    var hex := HasHexPrefix(u);
    var body := if hex then u[2..] else u;
    assert ParseMagnitude(u).Some?;
    assert DigitRunLength(body, hex) > 0;
    assert IsDigit(t[off]);  // the `0` of the prefix, or the first digit read
  }

  /**
   * `parseInt` gives NaN exactly when, once whitespace, the sign and a `0x` prefix are skipped,
   * the text does not go on with a digit of the radix.
   */
  lemma ParseIntNaN(s: string)
    ensures var t := TrimStart(s);
            var u := if t != [] && (t[0] == '-' || t[0] == '+') then t[1..] else t;
            var body := if HasHexPrefix(u) then u[2..] else u;
            ParseInt(s).None? <==> body == [] || !IsRadixDigit(body[0], HasHexPrefix(u))
  {
    var t := TrimStart(s);
    var u := if t != [] && (t[0] == '-' || t[0] == '+') then t[1..] else t;
    match ParseMagnitude(u)
    case None =>
    case Some(m) =>
  }

  /** The sign step of `parseInt`, on text that no longer starts with whitespace. */
  function ParseSigned(t: string): Option<int> {
    var negative := t != [] && t[0] == '-';
    var unsigned := if t != [] && (t[0] == '-' || t[0] == '+') then t[1..] else t;
    match ParseMagnitude(unsigned)
    case None => None
    case Some(m) => Some(if negative then -(m as int) else m)
  }

  predicate HasHexPrefix(u: string) {
    |u| >= 2 && u[0] == '0' && (u[1] == 'x' || u[1] == 'X')
  }

  /** The radix step of `parseInt`, after the sign. */
  function ParseMagnitude(u: string): Option<nat> {
    var hex := HasHexPrefix(u);
    ParseDigits(if hex then u[2..] else u, hex)
  }

  /** The longest run of digits at the front of `body`, or NaN when there is none. */
  function ParseDigits(body: string, hex: bool): Option<nat> {
    var n := DigitRunLength(body, hex);
    if n == 0 then None else Some(DigitsValue(body[..n], hex))
  }

  /** `String(v)` for a field that may be `undefined`. */
  function JsString(v: Option<string>): string {
    v.GetOr("undefined")
  }

  function DigitChar(d: nat): (c: char)
    requires d < 10
    ensures IsDigit(c) && DigitValue(c) == d
  {
    ('0' as int + d) as char
  }

  /** The decimal rendering of a natural number, as the feed writes ratings and vote counts. */
  function DecimalString(n: nat): (s: string)
    ensures |s| >= 1
    ensures forall i :: 0 <= i < |s| ==> IsDigit(s[i])
    ensures n >= 10 ==> |s| >= 2 && s[0] != '0'
  {
    if n < 10 then [DigitChar(n)] else DecimalString(n / 10) + [DigitChar(n % 10)]
  }

  lemma {:induction false} DecimalStringValue(n: nat)
    ensures DigitsValue(DecimalString(n), false) == n
  {
    if n >= 10 {
      var s := DecimalString(n);
      assert s[..|s| - 1] == DecimalString(n / 10);
      DecimalStringValue(n / 10);
    }
  }

  lemma ParseMagnitudeOfDecimal(n: nat)
    ensures ParseMagnitude(DecimalString(n)) == Some(n)
  {
    var s := DecimalString(n);
    DecimalStringValue(n);
    assert !HasHexPrefix(s);
    assert DigitRunLength(s, false) == |s|;
    assert s[..|s|] == s;
  }

  lemma TrimStartNoop(s: string)
    requires s != [] && (s[0] == '-' || IsDigit(s[0]))
    ensures TrimStart(s) == s
  {
  }

  /** Text that starts with a digit is read without the whitespace and sign steps. */
  lemma ParseIntUnsigned(s: string)
    requires s != [] && IsDigit(s[0])
    ensures ParseInt(s) == ParseMagnitude(s)
  {
    TrimStartNoop(s);
    UnsignedMagnitude(s);
  }

  lemma UnsignedMagnitude(t: string)
    requires t != [] && t[0] != '-' && t[0] != '+'
    ensures ParseSigned(t) == ParseMagnitude(t)
  {
    match ParseMagnitude(t)
    case None =>
    case Some(m) =>
  }

  /** A minus sign in front of digits negates what they denote. */
  lemma ParseIntNegative(s: string, m: nat)
    requires s != [] && IsDigit(s[0]) && ParseMagnitude(s) == Some(m)
    ensures ParseInt("-" + s) == Some(-(m as int))
  {
    var t := "-" + s;
    TrimStartNoop(t);
    assert t[1..] == s;
  }

  /** Reading back a decimal rendering, with or without a minus sign, gives the number. */
  lemma ParseIntOfDecimal(n: nat)
    ensures ParseInt(DecimalString(n)) == Some(n)
    ensures ParseInt("-" + DecimalString(n)) == Some(-(n as int))
  {
    ParseMagnitudeOfDecimal(n);
    ParseIntUnsigned(DecimalString(n));
    ParseIntNegative(DecimalString(n), n);
  }

  /**
   * Text after the number is ignored: a decimal rendering followed by anything that does not go
   * on with a digit (or turn a lone `0` into a `0x` prefix) reads as that number, as in "5 stars".
   */
  lemma ParseIntTrailing(n: nat, rest: string)
    requires rest == [] || (!IsDigit(rest[0]) && rest[0] != 'x' && rest[0] != 'X')
    ensures ParseInt(DecimalString(n) + rest) == Some(n)
  {
    var d := DecimalString(n);
    var s := d + rest;
    assert s[0] == d[0];
    TrimStartNoop(s);
    UnsignedMagnitude(s);
    assert !HasHexPrefix(s) by {
      if n < 10 {
        assert |d| == 1;
        assert rest != [] ==> s[1] == rest[0];
      } else {
        assert s[0] == d[0] != '0';
      }
    }
    DigitRunPrefix(d, rest);
    assert s[..|d|] == d;
    DecimalStringValue(n);
  }

  /** A run of digits followed by a non-digit is read up to its end. */
  lemma {:induction false} DigitRunPrefix(d: string, rest: string)
    requires forall i :: 0 <= i < |d| ==> IsDigit(d[i])
    requires rest == [] || !IsDigit(rest[0])
    ensures DigitRunLength(d + rest, false) == |d|
  {
    if d == [] {
      assert d + rest == rest;
    } else {
      assert (d + rest)[1..] == d[1..] + rest;
      DigitRunPrefix(d[1..], rest);
    }
  }

  /** A plus sign in front of digits changes nothing. */
  lemma ParseIntPlusSign(s: string)
    requires s != [] && IsDigit(s[0])
    ensures ParseInt("+" + s) == ParseInt(s)
  {
    var t := "+" + s;
    assert TrimStart(t) == t;
    assert t[1..] == s;
    PlusMagnitude(t);
    ParseIntUnsigned(s);
  }

  lemma PlusMagnitude(t: string)
    requires t != [] && t[0] == '+'
    ensures ParseSigned(t) == ParseMagnitude(t[1..])
  {
    match ParseMagnitude(t[1..])
    case None =>
    case Some(m) =>
  }

  /** Whitespace in front of the text never changes what `parseInt` reads. */
  lemma {:induction false} ParseIntSkipsWhitespace(ws: string, s: string)
    requires forall i :: 0 <= i < |ws| ==> IsWhitespace(ws[i])
    ensures ParseInt(ws + s) == ParseInt(s)
  {
    TrimStartPrefix(ws, s);
  }

  lemma {:induction false} TrimStartPrefix(ws: string, s: string)
    requires forall i :: 0 <= i < |ws| ==> IsWhitespace(ws[i])
    ensures TrimStart(ws + s) == TrimStart(s)
  {
    if ws != [] {
      assert (ws + s)[1..] == ws[1..] + s;
      TrimStartPrefix(ws[1..], s);
    } else {
      assert ws + s == s;
    }
  }

  /** A missing numeric field reaches `parseInt` as the text "undefined", which is NaN. */
  lemma ParseIntUndefined()
    ensures ParseInt(JsString(None)) == None
  {
    var u := "undefined";
    assert u[0] == 'u' && !IsWhitespace(u[0]) && !IsDigit(u[0]);
    assert TrimStart(u) == u;
    assert !HasHexPrefix(u);
    assert DigitRunLength(u, false) == 0;
  }

  function LowerChar(c: char): char {
    if 'A' <= c <= 'Z' then (c as int + 32) as char else c
  }

  /** `toLowerCase`, on the ASCII letters only. */
  function ToLower(s: string): string {
    seq(|s|, i requires 0 <= i < |s| => LowerChar(s[i]))
  }

  /** `t` occurs in `s` starting at index `i`. */
  predicate OccursAt(s: string, t: string, i: int) {
    0 <= i <= |s| - |t| && s[i..i + |t|] == t
  }

  /** `s.includes(t)`: try each starting position from the left. */
  predicate Includes(s: string, t: string)
    decreases |s|
  {
    |t| <= |s| && (s[..|t|] == t || (s != [] && Includes(s[1..], t)))
  }

  /** `Includes` holds exactly when `t` occurs somewhere in `s`. */
  lemma {:induction false} IncludesIffOccurs(s: string, t: string)
    ensures Includes(s, t) <==> exists i :: OccursAt(s, t, i)
  {
    if |t| <= |s| && s[..|t|] != t && s != [] {
      IncludesIffOccurs(s[1..], t);
      if Includes(s[1..], t) {
        var i :| OccursAt(s[1..], t, i);
        assert OccursAt(s, t, i + 1);
      }
      if i :| OccursAt(s, t, i) {
        assert i != 0;
        assert OccursAt(s[1..], t, i - 1);
      }
    } else if |t| <= |s| && s[..|t|] == t {
      assert OccursAt(s, t, 0);
    }
  }

  /** The empty search text is included in every string. */
  lemma IncludesEmpty(s: string)
    ensures Includes(s, "")
  {
    assert s[..0] == "";
  }
}

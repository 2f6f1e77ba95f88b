/** The ECMAScript string operations the pipelines rely on: `String.prototype.trim`
    and the global `parseInt` with no radix argument (section 19.2.5 of ECMA-262).
    Characters stand for UTF-16 code units; surrogate pairs are not distinguished. */
module JsText {
  /** The WhiteSpace and LineTerminator code points of ECMA-262 (sections 12.2
      and 12.3): the characters `trim` removes and `parseInt` skips. */
  predicate IsWhitespace(c: char) {
    || c == '\t' || c == '\n' || c == '\U{B}' || c == '\U{C}' || c == '\r' || c == ' '
    || c == '\U{A0}' || c == '\U{1680}' || ('\U{2000}' <= c <= '\U{200A}')
    || c == '\U{2028}' || c == '\U{2029}' || c == '\U{202F}' || c == '\U{205F}'
    || c == '\U{3000}' || c == '\U{FEFF}'
  }

  predicate AllWhitespace(s: string) {
    forall i :: 0 <= i < |s| ==> IsWhitespace(s[i])
  }

  /** Number of whitespace characters at the front of `s`. */
  function LeadingWhitespace(s: string): (k: nat)
    ensures k <= |s|
    ensures AllWhitespace(s[..k])
    ensures k == |s| || !IsWhitespace(s[k])
  {
    if |s| > 0 && IsWhitespace(s[0]) then
      var k := 1 + LeadingWhitespace(s[1..]);
      assert s[..k] == [s[0]] + s[1..][..k - 1];
      k
    else 0
  }

  /** Number of whitespace characters at the end of `s`. */
  function TrailingWhitespace(s: string): (k: nat)
    ensures k <= |s|
    ensures AllWhitespace(s[|s| - k..])
    ensures k == |s| || !IsWhitespace(s[|s| - k - 1])
  {
    if |s| > 0 && IsWhitespace(s[|s| - 1]) then
      var k := 1 + TrailingWhitespace(s[..|s| - 1]);
      assert s[|s| - k..] == s[..|s| - 1][|s| - k..] + [s[|s| - 1]];
      k
    else 0
  }

  /** `s.trimStart()`, the first step of `parseInt`. */
  function TrimStart(s: string): (r: string)
    ensures |r| <= |s| && r == s[|s| - |r|..]
    ensures AllWhitespace(s[..|s| - |r|])
    ensures r == "" || !IsWhitespace(r[0])
  {
    s[LeadingWhitespace(s)..]
  }

  /** `s.trim()`: the longest middle part of `s` that neither starts nor ends with
      whitespace, everything cut away being whitespace. */
  function Trim(s: string): (r: string)
    ensures exists i, j :: 0 <= i <= j <= |s| && r == s[i..j] && AllWhitespace(s[..i]) && AllWhitespace(s[j..])
    ensures r == "" || (!IsWhitespace(r[0]) && !IsWhitespace(r[|r| - 1]))
  {
    var i := LeadingWhitespace(s);
    var t := s[i..];
    var k := TrailingWhitespace(t);
    var j := |s| - k;
    assert t[..|t| - k] == s[i..j];
    assert t[|t| - k..] == s[j..];
    assert AllWhitespace(s[..i]) && AllWhitespace(s[j..]);
    var r := s[i..j];
    assert r == "" || (r[0] == t[0] && r[|r| - 1] == t[|t| - k - 1]);
    r
  }

  /** The value of `parseInt` with no radix: a number or NaN. */
  datatype Number = NaN | Int(value: int)

  predicate IsDecimalDigit(c: char) {
    '0' <= c <= '9'
  }

  /** A digit of the given radix; `parseInt` only uses radix 10 and 16. */
  predicate IsDigit(c: char, radix: nat) {
    if radix == 16 then IsDecimalDigit(c) || 'a' <= c <= 'f' || 'A' <= c <= 'F'
    else IsDecimalDigit(c)
  }

  function DigitValue(c: char): (d: nat)
    ensures IsDecimalDigit(c) ==> d == c as int - '0' as int
  {
    if IsDecimalDigit(c) then c as int - '0' as int
    else if 'a' <= c <= 'f' then c as int - 'a' as int + 10
    else if 'A' <= c <= 'F' then c as int - 'A' as int + 10
    else 0
  }

  /** Length of the longest prefix of `s` made of radix digits. */
  function DigitRun(s: string, radix: nat): (n: nat)
    ensures n <= |s|
    ensures forall i :: 0 <= i < n ==> IsDigit(s[i], radix)
    ensures n == |s| || !IsDigit(s[n], radix)
  {
    if |s| > 0 && IsDigit(s[0], radix) then 1 + DigitRun(s[1..], radix) else 0
  }

  /** The mathematical value of a digit string, most significant digit first. */
  function DigitsValue(ds: string, radix: nat): nat
  {
    if |ds| == 0 then 0
    else DigitsValue(ds[..|ds| - 1], radix) * radix + DigitValue(ds[|ds| - 1])
  }

  /** Global `parseInt(s)`: skip leading whitespace, read an optional sign, then
      the unsigned part. A number comes only from text holding a decimal digit, and
      a negative one only from text holding a minus sign. */
  function ParseInt(s: string): (r: Number)
    ensures r.Int? ==> exists i :: 0 <= i < |s| && IsDecimalDigit(s[i])
    ensures r.Int? && r.value < 0 ==> exists i :: 0 <= i < |s| && s[i] == '-'
  {
    var t := TrimStart(s);
    var k := |s| - |t|;
    assert forall i :: 0 <= i < |t| ==> t[i] == s[k + i];
    ParseSigned(t)
  }

  function ParseSigned(t: string): (r: Number)
    ensures r.Int? ==> exists i :: 0 <= i < |t| && IsDecimalDigit(t[i])
    ensures r.Int? && r.value < 0 ==> |t| > 0 && t[0] == '-'
  {
    if |t| > 0 && t[0] == '-' then
      var r := Negate(ParseUnsigned(t[1..]));
      assert r.Int? ==> IsDecimalDigit(t[1]);
      r
    else if |t| > 0 && t[0] == '+' then
      var r := ParseUnsigned(t[1..]);
      assert r.Int? ==> IsDecimalDigit(t[1]);
      r
    else ParseUnsigned(t)
  }

  function Negate(x: Number): (r: Number)
    ensures r.NaN? <==> x.NaN?
    ensures x.Int? ==> r.value == -x.value
  {
    match x
    case NaN => NaN
    case Int(v) => Int(-v)
  }

  /** A `0x`/`0X` prefix selects radix 16, otherwise radix 10; then the longest run
      of digits is read, and no digits gives NaN. A number read this way is never
      negative and starts at a decimal digit (the `0` of `0x` included). */
  function ParseUnsigned(u: string): (r: Number)
    ensures r.Int? ==> |u| > 0 && IsDecimalDigit(u[0]) && r.value >= 0
  {
    var hex := |u| >= 2 && u[0] == '0' && (u[1] == 'x' || u[1] == 'X');
    var radix := if hex then 16 else 10;
    var digits := if hex then u[2..] else u;
    var n := DigitRun(digits, radix);
    if n == 0 then NaN else Int(DigitsValue(digits[..n], radix))
  }

  function DigitChar(d: nat): (c: char)
    requires d < 10
    ensures IsDecimalDigit(c) && DigitValue(c) == d
  {
    ('0' as int + d) as char
  }

  /** The shortest decimal numeral of `n`, as `String(n)` writes it. */
  function Decimal(n: nat): (s: string)
    ensures |s| > 0
    ensures forall i :: 0 <= i < |s| ==> IsDecimalDigit(s[i])
    ensures n == 0 <==> s == "0"
  {
    if n < 10 then [DigitChar(n)] else Decimal(n / 10) + [DigitChar(n % 10)]
  }

  lemma {:induction false} DecimalValue(n: nat)
    ensures DigitsValue(Decimal(n), 10) == n
  {
    if n >= 10 {
      var s := Decimal(n);
      assert s[..|s| - 1] == Decimal(n / 10);
      DecimalValue(n / 10);
    }
  }

  /** A digit run stops exactly at the first character that is not a digit. */
  lemma {:induction false} DigitRunOfDigitsThen(ds: string, rest: string, radix: nat)
    requires forall i :: 0 <= i < |ds| ==> IsDigit(ds[i], radix)
    requires rest == "" || !IsDigit(rest[0], radix)
    ensures DigitRun(ds + rest, radix) == |ds|
    decreases |ds|
  {
    if |ds| > 0 {
      assert (ds + rest)[1..] == ds[1..] + rest;
      DigitRunOfDigitsThen(ds[1..], rest, radix);
    } else {
      assert ds + rest == rest;
    }
  }

  /** The unsigned part of `parseInt` reads a decimal numeral and stops at the
      first non-digit, unless the numeral is the `0` of a `0x` prefix. */
  lemma UnsignedReadsDecimal(n: nat, rest: string)
    requires rest == "" || !IsDecimalDigit(rest[0])
    requires n == 0 && rest != "" ==> rest[0] != 'x' && rest[0] != 'X'
    ensures ParseUnsigned(Decimal(n) + rest) == Int(n)
  {
    var d := Decimal(n);
    var u := d + rest;
    NoHexPrefix(n, rest);
    DigitRunOfDigitsThen(d, rest, 10);
    assert u[..|d|] == d;
    DecimalValue(n);
  }

  /** A decimal numeral followed by `rest` never starts with a `0x` prefix, given
      that a bare `0` is not followed by `x`. */
  lemma NoHexPrefix(n: nat, rest: string)
    requires n == 0 && rest != "" ==> rest[0] != 'x' && rest[0] != 'X'
    ensures var u := Decimal(n) + rest;
      !(|u| >= 2 && u[0] == '0' && (u[1] == 'x' || u[1] == 'X'))
  {
    var d := Decimal(n);
    var u := d + rest;
    if |d| >= 2 {
      assert u[1] == d[1];
    } else if n != 0 {
      assert u[0] == d[0];
    }
  }

  /** `parseInt` reads back a decimal numeral, after any leading whitespace and an
      optional sign, and ignores whatever follows the digits, as long as the
      numeral is not the `0` of a `0x` prefix. */
  lemma ParseIntReadsDecimal(ws: string, sign: string, n: nat, rest: string)
    requires AllWhitespace(ws)
    requires sign == "" || sign == "+" || sign == "-"
    requires rest == "" || !IsDecimalDigit(rest[0])
    requires n == 0 && rest != "" ==> rest[0] != 'x' && rest[0] != 'X'
    ensures ParseInt(ws + sign + Decimal(n) + rest) == Int(if sign == "-" then -(n as int) else n)
  {
    var d := Decimal(n);
    SignedReadsDecimal(sign, n, rest);
    TrimStartSigned(ws, sign, d, rest);
    ParseIntAfterTrim(ws + sign + d + rest, sign + (d + rest));
  }

  /** After the whitespace, a signed decimal numeral reads back to its value. */
  lemma SignedReadsDecimal(sign: string, n: nat, rest: string)
    requires sign == "" || sign == "+" || sign == "-"
    requires rest == "" || !IsDecimalDigit(rest[0])
    requires n == 0 && rest != "" ==> rest[0] != 'x' && rest[0] != 'X'
    ensures ParseSigned(sign + (Decimal(n) + rest)) == Int(if sign == "-" then -(n as int) else n)
  {
    UnsignedReadsDecimal(n, rest);
    SignedReadsUnsigned(sign, Decimal(n) + rest);
  }

  /** `parseInt` reads whatever is left once the leading whitespace is gone. */
  lemma ParseIntAfterTrim(s: string, t: string)
    requires TrimStart(s) == t
    ensures ParseInt(s) == ParseSigned(t)
  {
  }

  /** The sign in front of the unsigned part is applied to its value. */
  lemma SignedReadsUnsigned(sign: string, u: string)
    requires sign == "" || sign == "+" || sign == "-"
    requires |u| > 0 && IsDecimalDigit(u[0])
    ensures ParseSigned(sign + u) == if sign == "-" then Negate(ParseUnsigned(u)) else ParseUnsigned(u)
  {
    var t := sign + u;
    if sign == "" {
      assert t == u;
    } else {
      assert t[1..] == u;
    }
  }

  lemma TrimStartSigned(ws: string, sign: string, d: string, rest: string)
    requires AllWhitespace(ws)
    requires sign == "" || sign == "+" || sign == "-"
    requires |d| > 0 && IsDecimalDigit(d[0])
    ensures TrimStart(ws + sign + d + rest) == sign + (d + rest)
  {
    var t := sign + (d + rest);
    assert ws + sign + d + rest == ws + t;
    assert t[0] == if sign == "" then d[0] else sign[0];
    LeadingThenRest(ws, t);
  }

  /** TrimStart drops exactly a whitespace prefix followed by a non-space. */
  lemma {:induction false} LeadingThenRest(ws: string, rest: string)
    requires AllWhitespace(ws)
    requires rest == "" || !IsWhitespace(rest[0])
    ensures TrimStart(ws + rest) == rest
    decreases |ws|
  {
    if |ws| > 0 {
      assert (ws + rest)[1..] == ws[1..] + rest;
      LeadingThenRest(ws[1..], rest);
      assert LeadingWhitespace(ws + rest) == 1 + LeadingWhitespace(ws[1..] + rest);
    } else {
      assert ws + rest == rest;
    }
  }

  /** A text with no decimal digit ("Next", "…", "«") never parses. */
  lemma NoDigitIsNaN(s: string)
    requires forall i :: 0 <= i < |s| ==> !IsDecimalDigit(s[i])
    ensures ParseInt(s) == NaN
  {
    var t := TrimStart(s);
    assert forall i :: 0 <= i < |t| ==> !IsDecimalDigit(t[i]) by {
      forall i | 0 <= i < |t| ensures !IsDecimalDigit(t[i]) {
        assert t[i] == s[|s| - |t| + i];
      }
    }
    var u := if |t| > 0 && (t[0] == '-' || t[0] == '+') then t[1..] else t;
    if |u| > 0 {
      assert u[0] == t[|t| - |u|];
      assert !IsDigit(u[0], 10);
    }
  }
}

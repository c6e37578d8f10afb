/** The slice of JavaScript's runtime that the row codec leans on: `undefined`
    cells, the NaN-or-integer numbers that `parseInt` produces, `parseInt`
    itself (ECMA-262, section 19.2.5) and the decimal rendering of an integer
    by a template literal. */
module JsRuntime {

  datatype Option<T> = None | Some(value: T)

  /** A spreadsheet cell read as `r[i]`: `None` is `undefined`, the value of an
      index past the end of a short row. */
  type Cell = Option<string>

  /** A number produced by `parseInt` and the arithmetic on it: `None` is NaN.
      Every non-NaN value `parseInt` returns is an integer. */
  type Num = Option<int>

  /** `String(c)`: `undefined` becomes the text "undefined". */
  function ToJsString(c: Cell): string {
    match c
    case None => "undefined"
    case Some(s) => s
  }

  /** The StrWhiteSpaceChar class that `parseInt` skips: tab, vertical tab, form
      feed, space, no-break space, the byte order mark, the other space
      separators and the four line terminators. */
  predicate IsWhitespace(c: char) {
    c == '\t' || c == '\n' || c == '\U{000B}' || c == '\U{000C}' || c == '\r' || c == ' '
    || c == '\U{00A0}' || c == '\U{1680}' || ('\U{2000}' <= c <= '\U{200A}')
    || c == '\U{2028}' || c == '\U{2029}' || c == '\U{202F}' || c == '\U{205F}'
    || c == '\U{3000}' || c == '\U{FEFF}'
  }

  predicate IsDecimalDigit(c: char) {
    '0' <= c <= '9'
  }

  /** The value of `c` as a digit in base `radix` (10 or 16), if it is one. */
  function DigitValue(c: char, radix: nat): (v: Option<nat>)
    ensures v.Some? ==> v.value < radix
  {
    var d: Option<nat> :=
      if '0' <= c <= '9' then Some(c as int - '0' as int)
      else if 'a' <= c <= 'f' then Some(c as int - 'a' as int + 10)
      else if 'A' <= c <= 'F' then Some(c as int - 'A' as int + 10)
      else None;
    if d.Some? && d.value < radix then d else None
  }

  /** `s` without its leading white space. */
  function TrimStart(s: string): string {
    if s != [] && IsWhitespace(s[0]) then TrimStart(s[1..]) else s
  }

  /** The longest prefix of `s` made of digits of base `radix`. */
  function DigitPrefix(s: string, radix: nat): string {
    if s != [] && DigitValue(s[0], radix).Some? then [s[0]] + DigitPrefix(s[1..], radix) else []
  }

  /** The value of a string of digits, most significant first (a character
      that is not a digit would count as 0; `DigitPrefix` never yields one). */
  function DigitsValue(ds: string, radix: nat): nat {
    if ds == [] then 0
    else
      var d := DigitValue(ds[|ds| - 1], radix);
      DigitsValue(ds[..|ds| - 1], radix) * radix + (if d.Some? then d.value else 0)
  }

  /** The unsigned part of `parseInt`: base 16 after a "0x" or "0X" prefix,
      base 10 otherwise, then the longest run of digits; no digit at all is
      NaN. Commas and every other character end the run. */
  function ParseUnsigned(u: string): (n: Num)
    ensures n.Some? ==> n.value >= 0
  {
    var hex := |u| >= 2 && u[0] == '0' && (u[1] == 'x' || u[1] == 'X');
    var radix := if hex then 16 else 10;
    var ds := DigitPrefix(if hex then u[2..] else u, radix);
    if ds == [] then None else Some(DigitsValue(ds, radix))
  }

  /** `parseInt(s)` with no radix: skip leading white space, take one optional
      sign, then read the unsigned part. */
  function ParseIntString(s: string): (r: Num)
    ensures TrimStart(s) == [] ==> r.None?
  {
    var t := TrimStart(s);
    if t != [] && t[0] == '-' then
      match ParseUnsigned(t[1..])
      case None => None
      case Some(v) => Some(-v)
    else if t != [] && t[0] == '+' then ParseUnsigned(t[1..])
    else ParseUnsigned(t)
  }

  /** `parseInt(r[i])` on a cell. `undefined` is first turned into the text
      "undefined", which has no digits, so it reads as NaN (see
      `ParseIntOfUndefined`). */
  function ParseInt(c: Cell): (r: Num)
    ensures c.None? ==> r.None?
  {
    match c
    case None => None
    case Some(s) => ParseIntString(s)
  }

  /** `Math.abs`, which keeps NaN. */
  function Abs(n: Num): (r: Num)
    ensures r.Some? <==> n.Some?
    ensures r.Some? ==> r.value >= 0 && (r.value == n.value || r.value == -n.value)
  {
    match n
    case None => None
    case Some(v) => Some(if v < 0 then -v else v)
  }

  /** `a + b` on numbers, where NaN absorbs. */
  function Add(a: Num, b: Num): (r: Num)
    ensures r.Some? <==> a.Some? && b.Some?
    ensures r.Some? ==> r.value == a.value + b.value
  {
    if a.Some? && b.Some? then Some(a.value + b.value) else None
  }

  /** `a - b` on numbers, where NaN absorbs. */
  function Sub(a: Num, b: Num): (r: Num)
    ensures r.Some? <==> a.Some? && b.Some?
    ensures r.Some? ==> r.value == a.value - b.value
  {
    if a.Some? && b.Some? then Some(a.value - b.value) else None
  }

  function DigitChar(d: nat): (c: char)
    requires d < 10
    ensures IsDecimalDigit(c) && DigitValue(c, 10) == Some(d)
  {
    ('0' as int + d) as char
  }

  /** The decimal digits of `k`, without leading zeros. */
  function NatToString(k: nat): (s: string)
    ensures s != [] && forall i :: 0 <= i < |s| ==> IsDecimalDigit(s[i])
    ensures s[0] == '0' ==> k == 0 && s == "0"
  {
    if k < 10 then [DigitChar(k)] else NatToString(k / 10) + [DigitChar(k % 10)]
  }

  /** How a template literal renders an integer: a minus sign for negative
      values, then the decimal digits. */
  function IntToString(n: int): (s: string)
    ensures s != [] && (s[0] == '-' <==> n < 0)
  {
    if n < 0 then "-" + NatToString(-n) else NatToString(n)
  }

  /** `${n}` for a number: NaN renders as "NaN". */
  function NumToString(n: Num): (s: string)
    ensures s == "NaN" <==> n.None?
  {
    match n
    case None => "NaN"
    case Some(v) => IntToString(v)
  }

  lemma {:induction false} DigitsValueOfNatToString(k: nat)
    ensures forall i :: 0 <= i < |NatToString(k)| ==> DigitValue(NatToString(k)[i], 10).Some?
    ensures DigitsValue(NatToString(k), 10) == k
  {
    if k >= 10 {
      DigitsValueOfNatToString(k / 10);
      var s := NatToString(k);
      assert s[..|s| - 1] == NatToString(k / 10);
    }
  }

  lemma {:induction false} DigitPrefixOfDigits(ds: string, rest: string)
    requires forall i :: 0 <= i < |ds| ==> IsDecimalDigit(ds[i])
    requires rest == [] || !IsDecimalDigit(rest[0])
    ensures DigitPrefix(ds + rest, 10) == ds
  {
    if ds != [] {
      assert (ds + rest)[1..] == ds[1..] + rest;
      DigitPrefixOfDigits(ds[1..], rest);
    } else if rest != [] {
      assert DigitValue(rest[0], 10).None?;
    }
  }

  lemma ParseUnsignedOfNatToString(k: nat, rest: string)
    requires rest == [] || (!IsDecimalDigit(rest[0]) && rest[0] != 'x' && rest[0] != 'X')
    ensures ParseUnsigned(NatToString(k) + rest) == Some(k)
  {
    var digits := NatToString(k);
    var u := digits + rest;
    if |u| >= 2 && u[0] == '0' {
      assert digits == "0";
      assert u[1] == rest[0];
    }
    DigitPrefixOfDigits(digits, rest);
    DigitsValueOfNatToString(k);
  }

  /** `parseInt` reads back the integer a template literal rendered, whatever
      follows it as long as that does not extend the number (a digit) or turn
      "0" into a hexadecimal prefix (an x). */
  lemma ParseIntOfIntToString(n: int, rest: string)
    requires rest == [] || (!IsDecimalDigit(rest[0]) && rest[0] != 'x' && rest[0] != 'X')
    ensures ParseIntString(IntToString(n) + rest) == Some(n)
  {
    if n < 0 {
      ParseIntOfNegative(n, rest);
    } else {
      ParseIntOfNonNegative(n, rest);
    }
  }

  lemma ParseIntOfNegative(n: int, rest: string)
    requires n < 0
    requires rest == [] || (!IsDecimalDigit(rest[0]) && rest[0] != 'x' && rest[0] != 'X')
    ensures ParseIntString(IntToString(n) + rest) == Some(n)
  {
    var k: nat := -n;
    var u := NatToString(k) + rest;
    var s := IntToString(n) + rest;
    assert s == ['-'] + u by {
      Regroup(NatToString(k), rest);
    }
    assert ParseUnsigned(u) == Some(k) by {
      ParseUnsignedOfNatToString(k, rest);
    }
    assert ParseIntString(['-'] + u) == Some(n) by {
      SignedParse(u, k);
    }
  }

  lemma Regroup(digits: string, rest: string)
    ensures "-" + digits + rest == ['-'] + (digits + rest)
  {
  }

  lemma ParseIntOfNonNegative(n: int, rest: string)
    requires n >= 0
    requires rest == [] || (!IsDecimalDigit(rest[0]) && rest[0] != 'x' && rest[0] != 'X')
    ensures ParseIntString(IntToString(n) + rest) == Some(n)
  {
      var s := NatToString(n) + rest;
      ParseUnsignedOfNatToString(n, rest);
      assert IsDecimalDigit(s[0]);
      NotTrimmed(s);
      assert IntToString(n) + rest == s;
  }

  lemma SignedParse(u: string, k: nat)
    requires ParseUnsigned(u) == Some(k)
    ensures ParseIntString(['-'] + u) == Some(-(k as int))
  {
    var s := ['-'] + u;
    NotTrimmed(s);
    assert s[1..] == u;
  }

  /** Text that starts with anything but white space, a sign or a decimal
      digit is NaN to `parseInt`. */
  lemma ParseIntOfWord(s: string)
    requires s != [] && !IsWhitespace(s[0]) && s[0] != '-' && s[0] != '+'
    requires DigitValue(s[0], 10).None?
    ensures ParseIntString(s) == None
  {
    NotTrimmed(s);
  }

  /** Text that does not start with white space is left as it is. */
  lemma NotTrimmed(s: string)
    requires s != [] && !IsWhitespace(s[0])
    ensures TrimStart(s) == s
  {
  }

  /** `parseInt(undefined)` reads the text "undefined" and finds no digit:
      the shortcut `ParseInt` takes for a missing cell is the real result. */
  lemma ParseIntOfUndefined()
    ensures ParseIntString(ToJsString(None)) == None
    ensures ParseInt(None) == ParseIntString(ToJsString(None))
  {
    ParseIntOfWord("undefined");
  }

  /** A decimal integer read from a cell round-trips through its rendering. */
  lemma ParseIntInverse(n: int)
    ensures ParseInt(Some(IntToString(n))) == Some(n)
  {
    ParseIntOfIntToString(n, []);
    assert IntToString(n) + [] == IntToString(n);
  }
}

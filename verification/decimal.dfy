/** Integers as text: the decimal rendering JavaScript uses for an integral
    `Number` (template literals and `textContent`), and the global
    `parseInt(string)` with no radix argument, following section 19.2.5 of
    ECMA-262. */
module Decimal {
  import opened Wrappers

  /** Value of `c` in the radix-36 digit alphabet `parseInt` uses
      (`0`-`9`, then `a`-`z` or `A`-`Z`); 36 for a character that is a digit
      in no radix. */
  function DigitValue(c: char): (v: nat)
    ensures v <= 36
    ensures v < 10 <==> '0' <= c <= '9'
  {
    if '0' <= c <= '9' then c as int - '0' as int
    else if 'a' <= c <= 'z' then c as int - 'a' as int + 10
    else if 'A' <= c <= 'Z' then c as int - 'A' as int + 10
    else 36
  }

  predicate IsDecimalDigit(c: char) {
    '0' <= c <= '9'
  }

  predicate IsRadixDigit(c: char, radix: nat) {
    DigitValue(c) < radix
  }

  predicate AllDigits(s: string) {
    forall i :: 0 <= i < |s| ==> IsDecimalDigit(s[i])
  }

  function DigitChar(d: nat): (c: char)
    requires d < 10
    ensures IsDecimalDigit(c) && DigitValue(c) == d
  {
    ('0' as int + d) as char
  }

  /** The shortest decimal numeral of `n`: no sign, no leading zero. */
  function Show(n: nat): (s: string)
    ensures |s| >= 1
    ensures AllDigits(s)
    ensures s[0] == '0' <==> n == 0
    decreases n
  {
    if n < 10 then [DigitChar(n)] else Show(n / 10) + [DigitChar(n % 10)]
  }

  /** `String(i)` for an integral number `i` below 10^21 in magnitude; from
      there on JavaScript writes an exponent. */
  function ShowInt(i: int): (s: string)
    ensures |s| >= 1
    ensures s[0] == '-' <==> i < 0
    ensures i >= 0 ==> AllDigits(s)
    ensures i < 0 ==> AllDigits(s[1..])
  {
    if i < 0 then "-" + Show(-i) else Show(i)
  }

  /** The integer a numeral denotes in `radix`, most significant digit first. */
  function Value(z: string, radix: nat): nat {
    if z == [] then 0 else Value(z[..|z| - 1], radix) * radix + DigitValue(z[|z| - 1])
  }

  /** StrWhiteSpaceChar of ECMA-262: the WhiteSpace code points (section 12.2,
      every Zs code point among them) and the LineTerminator code points
      (section 12.3). */
  predicate IsJsSpace(c: char) {
    || c == '\t' || c == '\n' || c == '\U{000B}' || c == '\U{000C}' || c == '\r'
    || c == ' ' || c == '\U{00A0}' || c == '\U{1680}'
    || ('\U{2000}' <= c <= '\U{200A}')
    || c == '\U{2028}' || c == '\U{2029}' || c == '\U{202F}' || c == '\U{205F}'
    || c == '\U{3000}' || c == '\U{FEFF}'
  }

  /** `s` without its leading white space. */
  function TrimStart(s: string): (r: string)
    ensures |r| <= |s| && r == s[|s| - |r|..]
    ensures r == [] || !IsJsSpace(r[0])
    ensures forall i :: 0 <= i < |s| - |r| ==> IsJsSpace(s[i])
  {
    if s != [] && IsJsSpace(s[0]) then TrimStart(s[1..]) else s
  }

  /** The longest prefix of `s` made of radix-`radix` digits. */
  function DigitPrefix(s: string, radix: nat): (r: string)
    ensures r <= s
    ensures forall i :: 0 <= i < |r| ==> IsRadixDigit(r[i], radix)
    ensures |r| < |s| ==> !IsRadixDigit(s[|r|], radix)
  {
    if s == [] || !IsRadixDigit(s[0], radix) then [] else [s[0]] + DigitPrefix(s[1..], radix)
  }

  /** True when a `0x` or `0X` prefix makes `parseInt` switch to radix 16. */
  predicate HasHexPrefix(u: string) {
    |u| >= 2 && u[0] == '0' && (u[1] == 'x' || u[1] == 'X')
  }

  /** The digits after any sign: radix 16 after a `0x` prefix, radix 10
      otherwise; `None` when no digit follows. */
  function ParseUnsigned(u: string): (r: Option<int>)
    ensures r.Some? ==> r.value >= 0
    ensures r.Some? ==> u != [] && IsDecimalDigit(u[0])
  {
    var radix := if HasHexPrefix(u) then 16 else 10;
    var z := DigitPrefix(if HasHexPrefix(u) then u[2..] else u, radix);
    if z == [] then None else Some(Value(z, radix))
  }

  function Negate(o: Option<int>): Option<int> {
    match o
    case None => None
    case Some(v) => Some(-v)
  }

  /** `parseInt(s)`: skip leading white space, take an optional sign, switch to
      radix 16 after a `0x` prefix, then read the longest run of digits.
      `None` is the `NaN` result for a string with no such digits. The
      integer is exact; the rounding of a `Number` only affects values far
      beyond any slide index. */
  function ParseInt(s: string): Option<int> {
    var t := TrimStart(s);
    if |t| > 0 && t[0] == '-' then Negate(ParseUnsigned(t[1..]))
    else if |t| > 0 && t[0] == '+' then ParseUnsigned(t[1..])
    else ParseUnsigned(t)
  }

  /** The text after the white space and the sign, where the digits must start. */
  function Unsigned(s: string): string {
    var t := TrimStart(s);
    if t != [] && (t[0] == '-' || t[0] == '+') then t[1..] else t
  }

  /** `parseInt` yields a number exactly when a digit follows the white space
      and the sign, except that a bare `0x` prefix yields `NaN`; only a minus
      sign makes the number negative. */
  lemma ParseIntShape(s: string)
    ensures ParseInt(s).Some? ==> Unsigned(s) != [] && IsDecimalDigit(Unsigned(s)[0])
    ensures Unsigned(s) != [] && IsDecimalDigit(Unsigned(s)[0]) && !HasHexPrefix(Unsigned(s))
            ==> ParseInt(s).Some?
    ensures ParseInt(s).Some? && ParseInt(s).value < 0 ==> TrimStart(s) != [] && TrimStart(s)[0] == '-'
  {
    var u := Unsigned(s);
    if u != [] && IsDecimalDigit(u[0]) && !HasHexPrefix(u) {
      assert IsRadixDigit(u[0], 10);
      assert DigitPrefix(u, 10) != [];
    }
  }

  /** Text that starts with neither white space nor a sign is read unsigned. */
  lemma ParseUnsignedStart(s: string)
    requires s == [] || (!IsJsSpace(s[0]) && s[0] != '+' && s[0] != '-')
    ensures ParseInt(s) == ParseUnsigned(s)
  {
    assert TrimStart(s) == s;
  }

  /** A leading minus sign negates what follows it. */
  lemma ParseMinus(u: string)
    ensures ParseInt("-" + u) == Negate(ParseUnsigned(u))
  {
    var s := "-" + u;
    assert s[0] == '-' && s[1..] == u;
    assert TrimStart(s) == s;
  }

  /** The numeral of `n` denotes `n`. */
  lemma {:induction false} ValueOfShow(n: nat)
    ensures Value(Show(n), 10) == n
    decreases n
  {
    if n >= 10 {
      var s := Show(n);
      assert s[..|s| - 1] == Show(n / 10);
      ValueOfShow(n / 10);
    }
  }

  /** Different numbers have different numerals. */
  lemma ShowInjective(m: nat, n: nat)
    ensures Show(m) == Show(n) ==> m == n
  {
    ValueOfShow(m);
    ValueOfShow(n);
  }

  /** A run of digits followed by a non-digit is exactly the digit prefix. */
  lemma {:induction false} DigitPrefixOfDigits(d: string, t: string, radix: nat)
    requires forall i :: 0 <= i < |d| ==> IsRadixDigit(d[i], radix)
    requires t == [] || !IsRadixDigit(t[0], radix)
    ensures DigitPrefix(d + t, radix) == d
    decreases |d|
  {
    if d != [] {
      assert (d + t)[1..] == d[1..] + t;
      DigitPrefixOfDigits(d[1..], t, radix);
    } else {
      assert d + t == t;
    }
  }

  /** The digits of `n`, followed by anything but a digit, read back as `n`. */
  lemma ParseUnsignedShow(n: nat, t: string)
    requires t == [] || !IsDecimalDigit(t[0])
    requires n == 0 ==> t == [] || (t[0] != 'x' && t[0] != 'X')
    ensures ParseUnsigned(Show(n) + t) == Some(n)
  {
    var s := Show(n) + t;
    assert s[0] == Show(n)[0];
    if n == 0 {
      assert Show(0) == "0";
    }
    assert !HasHexPrefix(s);
    DigitPrefixOfDigits(Show(n), t, 10);
    ValueOfShow(n);
  }

  /** `parseInt` reads back the numeral of `n` and ignores whatever
      non-digit text follows it (`"5abc"` gives 5, `"5.9"` gives 5). */
  lemma ParseShowThen(n: nat, t: string)
    requires t == [] || !IsDecimalDigit(t[0])
    requires n == 0 ==> t == [] || (t[0] != 'x' && t[0] != 'X')
    ensures ParseInt(Show(n) + t) == Some(n)
  {
    var s := Show(n) + t;
    assert s[0] == Show(n)[0];
    ParseUnsignedStart(s);
    ParseUnsignedShow(n, t);
  }

  /** `parseInt` reads back the numeral of a natural number. */
  lemma ParseShow(n: nat)
    ensures ParseInt(Show(n)) == Some(n)
  {
    assert Show(n) + [] == Show(n);
    ParseShowThen(n, []);
  }

  /** `parseInt` reads back a minus sign followed by a numeral. */
  lemma ParseShowNegative(n: nat)
    ensures ParseInt("-" + Show(n)) == Some(-(n as int))
  {
    assert Show(n) + [] == Show(n);
    ParseMinus(Show(n));
    ParseUnsignedShow(n, []);
  }

  /** `parseInt` inverts `String` on every integer, negative ones included. */
  lemma ParseShowInt(i: int)
    ensures ParseInt(ShowInt(i)) == Some(i)
  {
    if i < 0 {
      assert ShowInt(i) == "-" + Show(-i);
      ParseShowNegative(-i);
    } else {
      assert ShowInt(i) == Show(i);
      ParseShow(i);
    }
  }

  /** Leading white space is exactly what `TrimStart` removes. */
  lemma {:induction false} TrimStartSkipsSpace(w: string, s: string)
    requires forall i :: 0 <= i < |w| ==> IsJsSpace(w[i])
    ensures TrimStart(w + s) == TrimStart(s)
    decreases |w|
  {
    if w != [] {
      assert (w + s)[1..] == w[1..] + s;
      TrimStartSkipsSpace(w[1..], s);
    } else {
      assert w + s == s;
    }
  }

  /** Leading white space never changes what `parseInt` reads. */
  lemma ParseSkipsSpace(w: string, s: string)
    requires forall i :: 0 <= i < |w| ==> IsJsSpace(w[i])
    ensures ParseInt(w + s) == ParseInt(s)
  {
    TrimStartSkipsSpace(w, s);
  }

  /** A string that starts with anything but white space, a sign or a digit
      (including the empty string) is `NaN`. */
  lemma ParseRejectsNonNumeric(s: string)
    requires s == [] || (!IsJsSpace(s[0]) && s[0] != '+' && s[0] != '-' && !IsDecimalDigit(s[0]))
    ensures ParseInt(s) == None
  {
    ParseUnsignedStart(s);
  }

  /** With no radix argument, `0x10` is read in radix 16. */
  lemma ParseHexExample()
    ensures ParseInt("0x10") == Some(16)
  {
    assert TrimStart("0x10") == "0x10";
    assert HasHexPrefix("0x10") && "0x10"[2..] == "10";
    assert DigitPrefix("10", 16) == "10" by {
      DigitPrefixOfDigits("10", [], 16);
      assert "10" + [] == "10";
    }
    assert Value("10", 16) == 16 by {
      assert "10"[..1] == "1";
    }
  }
}

/** Decimal numerals, as `String(n)` writes them and `Number.parseInt(text, 10)` reads them. */
module Decimal {
  import opened Numbers
  import opened Wrappers

  predicate IsDigit(c: char) {
    '0' <= c <= '9'
  }

  function DigitOf(c: char): nat
    requires IsDigit(c)
  {
    c as int - '0' as int
  }

  function CharOf(d: nat): (c: char)
    requires d < 10
    ensures IsDigit(c) && DigitOf(c) == d
  {
    ('0' as int + d) as char
  }

  /** The numeral of `n`. */
  function Numeral(n: nat): (s: string)
    ensures s != [] && forall c :: c in s ==> IsDigit(c)
  {
    if n < 10 then [CharOf(n)] else Numeral(n / 10) + [CharOf(n % 10)]
  }

  /** The value of a string of digits. */
  function Value(s: string): nat
    requires forall c :: c in s ==> IsDigit(c)
  {
    if s == [] then 0 else 10 * Value(s[..|s| - 1]) + DigitOf(s[|s| - 1])
  }

  lemma {:induction false} NumeralValue(n: nat)
    ensures Value(Numeral(n)) == n
  {
    if n >= 10 {
      NumeralValue(n / 10);
      assert Numeral(n)[..|Numeral(n)| - 1] == Numeral(n / 10);
    }
  }

  /** The longest prefix of digits. */
  function Digits(s: string): (d: string)
    ensures d <= s && forall c :: c in d ==> IsDigit(c)
  {
    if s == [] || !IsDigit(s[0]) then [] else [s[0]] + Digits(s[1..])
  }

  lemma {:induction false} DigitsThen(d: string, rest: string)
    requires (forall c :: c in d ==> IsDigit(c)) && (rest == [] || !IsDigit(rest[0]))
    ensures Digits(d + rest) == d
  {
    if d == [] {
      assert d + rest == rest;
    } else {
      assert (d + rest)[1..] == d[1..] + rest;
      DigitsThen(d[1..], rest);
    }
  }

  predicate IsSpace(c: char) {
    c in {' ', '\t', '\n', '\r', '\U{0B}', '\U{0C}', '\U{A0}', '\U{1680}', '\U{2028}', '\U{2029}', '\U{202F}',
          '\U{205F}', '\U{3000}', '\U{FEFF}'}
    || '\U{2000}' <= c <= '\U{200A}'
  }

  /** The white space and line ends of JavaScript, by code point. */
  lemma SpacesAre(c: char)
    ensures IsSpace(c) <==>
              || 9 <= c as int <= 13 || c as int in {32, 160, 5760, 8239, 8287, 12288, 65279}
              || 8192 <= c as int <= 8202 || 8232 <= c as int <= 8233
  {
  }

  function TrimStart(s: string): string {
    if s != [] && IsSpace(s[0]) then TrimStart(s[1..]) else s
  }

  /** `Number.parseInt(text, 10)`: skip spaces, take a sign, read digits, ignore the rest; none is NaN. */
  function ParseInt(s: string): Option<int> {
    var t := TrimStart(s);
    var signed := t != [] && (t[0] == '+' || t[0] == '-');
    var digits := Digits(if signed then t[1..] else t);
    if digits == [] then None
    else
      var value: int := Value(digits);
      Some(if signed && t[0] == '-' then -value else value)
  }

  lemma NotSpace(c: char)
    requires IsDigit(c)
    ensures !IsSpace(c) && c != '+' && c != '-'
  {
  }

  /** Reading a numeral followed by anything but a digit gives the number back. */
  lemma ParseNumeral(n: nat, rest: string)
    requires rest == [] || !IsDigit(rest[0])
    ensures ParseInt(Numeral(n) + rest) == Some(n)
  {
    var s := Numeral(n) + rest;
    assert s[0] == Numeral(n)[0] && Numeral(n)[0] in Numeral(n);
    NotSpace(s[0]);
    DigitsThen(Numeral(n), rest);
    NumeralValue(n);
  }

  function NumberText(n: int): string {
    if n < 0 then "-" + Numeral(-n) else Numeral(n)
  }

  lemma ParseSigned(sign: char, n: nat)
    requires sign == '+' || sign == '-'
    ensures ParseInt([sign] + Numeral(n)) == Some(if sign == '-' then 0 - n else n)
  {
    var s := [sign] + Numeral(n);
    assert s[0] == sign && s[1..] == Numeral(n);
    assert TrimStart(s) == s;
    NumeralValue(n);
    assert Numeral(n) + [] == Numeral(n);
    DigitsThen(Numeral(n), []);
    hide Numeral, Value, Digits, TrimStart;
  }

  lemma ParseSpaced(space: char, s: string)
    requires IsSpace(space)
    ensures ParseInt([space] + s) == ParseInt(s)
  {
    assert ([space] + s)[1..] == s;
    hide IsSpace, Digits, Value;
  }

  /** The text of every number, negative ones included, is parsed back, whatever spaces stand before it. */
  lemma {:induction false} ParseNumberText(n: int, spaces: string)
    requires forall c :: c in spaces ==> IsSpace(c)
    ensures ParseInt(spaces + NumberText(n)) == Some(n)
    decreases |spaces|
  {
    hide ParseInt, IsSpace, Numeral;
    var s := spaces + NumberText(n);
    if spaces != [] {
      assert s == [spaces[0]] + (spaces[1..] + NumberText(n));
      ParseSpaced(spaces[0], spaces[1..] + NumberText(n));
      ParseNumberText(n, spaces[1..]);
    } else if n >= 0 {
      assert s == Numeral(n) + [];
      ParseNumeral(n, []);
    } else {
      assert s == ['-'] + Numeral(-n);
      ParseSigned('-', -n);
    }
  }

  datatype OptionError = NotPositiveInteger(name: string, raw: string)

  /** The number an option is given as, `fallback` when it is not given, or an error naming it. */
  function ParsePositiveIntegerOption(raw: Option<string>, fallback: int, name: string): (r: Result<int, OptionError>)
    ensures raw.None? ==> r == Ok(fallback)
    ensures r.Err? ==> raw.Some? && r.error == NotPositiveInteger(name, raw.value)
  {
    if raw.None? then Ok(fallback)
    else
      var value := ParseInt(raw.value);
      if value.None? || !(-MAX_SAFE_INTEGER <= value.value <= MAX_SAFE_INTEGER) || value.value < 1
         || NumberText(value.value) != raw.value
      then Err(NotPositiveInteger(name, raw.value))
      else Ok(value.value)
  }

  /** An option is accepted exactly when it is the numeral of a positive safe integer, which it then denotes. */
  lemma AcceptsExactlyNumerals(raw: string, fallback: int, name: string)
    ensures ParsePositiveIntegerOption(Some(raw), fallback, name).Ok? <==>
            exists n: nat :: 1 <= n <= MAX_SAFE_INTEGER && raw == Numeral(n)
    ensures forall n: nat :: 1 <= n <= MAX_SAFE_INTEGER && raw == Numeral(n)
              ==> ParsePositiveIntegerOption(Some(raw), fallback, name) == Ok(n)
  {
    forall n: nat | 1 <= n <= MAX_SAFE_INTEGER && raw == Numeral(n)
      ensures ParsePositiveIntegerOption(Some(raw), fallback, name) == Ok(n)
    {
      assert Numeral(n) + [] == Numeral(n);
      ParseNumeral(n, []);
    }
    var r := ParsePositiveIntegerOption(Some(raw), fallback, name);
    if r.Ok? {
      var n: nat := r.value;
      assert 1 <= n <= MAX_SAFE_INTEGER && raw == Numeral(n);
    }
  }
}

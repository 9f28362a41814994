/** The JavaScript number builtins the vehicle router relies on: `parseInt`
    applied to query-string values, and `Math.ceil` of a quotient of integers. */
module JsNumbers {

  /** What `parseInt` yields: an integer, or NaN when the text has no digits. */
  datatype Num = Int(value: int) | NaN

  /** The characters `parseInt` skips before the number (white space and line
      terminators of ECMAScript). */
  predicate IsSpace(c: char) {
    || c == ' ' || c == '\t' || c == '\n' || c == '\r'
    || c == '\U{000B}' || c == '\U{000C}' || c == '\U{00A0}' || c == '\U{FEFF}'
    || c == '\U{1680}' || ('\U{2000}' <= c <= '\U{200A}')
    || c == '\U{2028}' || c == '\U{2029}' || c == '\U{202F}' || c == '\U{205F}' || c == '\U{3000}'
  }

  predicate IsDecimalDigit(c: char) { '0' <= c <= '9' }

  /** The value of `c` as a digit in `radix` (10 or 16), or -1 if it is not one. */
  function DigitValue(c: char, radix: nat): (d: int)
    requires radix == 10 || radix == 16
    ensures -1 <= d < radix
    ensures d >= 0 ==> IsDecimalDigit(c) || radix == 16
    ensures IsDecimalDigit(c) ==> d == c as int - '0' as int
  {
    if IsDecimalDigit(c) then c as int - '0' as int
    else if radix == 16 && 'a' <= c <= 'f' then c as int - 'a' as int + 10
    else if radix == 16 && 'A' <= c <= 'F' then c as int - 'A' as int + 10
    else -1
  }

  /** `s` without its leading white space. */
  function TrimStart(s: string): (t: string)
    ensures |t| <= |s| && t == s[|s| - |t|..]
    ensures t == [] || !IsSpace(t[0])
    ensures forall i :: 0 <= i < |s| - |t| ==> IsSpace(s[i])
  {
    if s != [] && IsSpace(s[0]) then TrimStart(s[1..]) else s
  }

  /** The length of the longest prefix of `s` made of `radix` digits. */
  function DigitRun(s: string, radix: nat): (n: nat)
    requires radix == 10 || radix == 16
    ensures n <= |s|
    ensures forall i :: 0 <= i < n ==> DigitValue(s[i], radix) >= 0
    ensures n == |s| || DigitValue(s[n], radix) < 0
  {
    if s != [] && DigitValue(s[0], radix) >= 0 then 1 + DigitRun(s[1..], radix) else 0
  }

  /** The value of a run of digits written most significant first. */
  function DigitsValue(ds: string, radix: nat): nat
    requires radix == 10 || radix == 16
    requires forall i :: 0 <= i < |ds| ==> DigitValue(ds[i], radix) >= 0
  {
    if ds == [] then 0
    else DigitsValue(ds[..|ds| - 1], radix) * radix + DigitValue(ds[|ds| - 1], radix)
  }

  /** The number written by the longest run of `radix` digits at the start of `w`. */
  function LeadingDigits(w: string, radix: nat): Num
    requires radix == 10 || radix == 16
  {
    var n := DigitRun(w, radix);
    if n == 0 then NaN else Int(DigitsValue(w[..n], radix))
  }

  /** An unsigned number: a `0x`/`0X` prefix selects base 16, base 10 otherwise. */
  function ParseMagnitude(u: string): Num {
    if |u| >= 2 && u[0] == '0' && (u[1] == 'x' || u[1] == 'X') then LeadingDigits(u[2..], 16)
    else LeadingDigits(u, 10)
  }

  function Negate(x: Num): Num {
    match x
    case Int(v) => Int(-v)
    case NaN => NaN
  }

  /** `parseInt(s)` with no radix argument: leading white space is skipped, one
      sign is read, and what follows is read by ParseMagnitude; without digits
      the result is NaN. */
  function ParseInt(s: string): (r: Num)
    ensures r.Int? ==> exists i :: 0 <= i < |s| && IsDecimalDigit(s[i])
  {
    var t := TrimStart(s);
    var k := |s| - |t|;
    if t != [] && t[0] == '-' then
      MagnitudeStartsWithDigit(t[1..]);
      assert ParseMagnitude(t[1..]).Int? ==> IsDecimalDigit(s[k + 1]);
      Negate(ParseMagnitude(t[1..]))
    else if t != [] && t[0] == '+' then
      MagnitudeStartsWithDigit(t[1..]);
      assert ParseMagnitude(t[1..]).Int? ==> IsDecimalDigit(s[k + 1]);
      ParseMagnitude(t[1..])
    else
      MagnitudeStartsWithDigit(t);
      assert ParseMagnitude(t).Int? ==> IsDecimalDigit(s[k]);
      ParseMagnitude(t)
  }

  /** A number is read only from text that starts with a decimal digit (the
      `0` of a `0x` prefix included). */
  lemma MagnitudeStartsWithDigit(u: string)
    ensures ParseMagnitude(u).Int? ==> u != [] && IsDecimalDigit(u[0])
  {
  }

  /** The decimal digit character for `d`. */
  function DigitChar(d: nat): (c: char)
    requires d < 10
    ensures IsDecimalDigit(c) && c as int - '0' as int == d
  {
    (d + '0' as int) as char
  }

  /** The decimal numeral of a natural number, without leading zeros. */
  function Digits(n: nat): (s: string)
    ensures s != []
    ensures forall i :: 0 <= i < |s| ==> IsDecimalDigit(s[i])
    ensures n < 10 <==> |s| == 1
  {
    if n < 10 then [DigitChar(n)] else Digits(n / 10) + [DigitChar(n % 10)]
  }

  /** The decimal numeral of an integer, as a client writes it into a query string. */
  function Decimal(n: int): string {
    if n < 0 then "-" + Digits(-n) else Digits(n)
  }

  /** `Math.ceil(m / d)` for integers `m` and a positive divisor `d`: the least
      integer whose multiple of `d` is at least `m`. */
  function CeilDiv(m: int, d: int): (c: int)
    requires d > 0
    ensures (c - 1) * d < m <= c * d
  {
    var q := (-m) / d;
    var r := (-m) % d;
    assert -m == q * d + r && 0 <= r < d;
    assert (-q) * d == m + r;
    assert (-q - 1) * d == m + r - d;
    -q
  }

  // ----- Lemmas about parseInt -----

  lemma {:induction false} DigitsValueOfDigits(n: nat)
    ensures DigitsValue(Digits(n), 10) == n
  {
    if n >= 10 {
      var s := Digits(n);
      assert s[..|s| - 1] == Digits(n / 10);
      DigitsValueOfDigits(n / 10);
    }
  }

  lemma {:induction false} DigitRunStopsAt(ds: string, tail: string, radix: nat)
    requires radix == 10 || radix == 16
    requires forall i :: 0 <= i < |ds| ==> DigitValue(ds[i], radix) >= 0
    requires tail == [] || DigitValue(tail[0], radix) < 0
    ensures DigitRun(ds + tail, radix) == |ds|
  {
    if ds != [] {
      assert (ds + tail)[1..] == ds[1..] + tail;
      DigitRunStopsAt(ds[1..], tail, radix);
    }
  }

  lemma MagnitudeOfDigits(m: nat, tail: string)
    requires tail == [] || (!IsDecimalDigit(tail[0]) && tail[0] != 'x' && tail[0] != 'X')
    ensures ParseMagnitude(Digits(m) + tail) == Int(m)
  {
    var ds := Digits(m);
    var u := ds + tail;
    assert !(|u| >= 2 && u[0] == '0' && (u[1] == 'x' || u[1] == 'X')) by {
      if |ds| == 1 {
        assert u[1..] == tail;
      } else {
        assert u[1] == ds[1] && IsDecimalDigit(u[1]);
      }
    }
    DigitRunStopsAt(ds, tail, 10);
    assert u[..|ds|] == ds;
    DigitsValueOfDigits(m);
  }

  /** `parseInt` reads back the decimal numeral of any integer, and stops at the
      first character after it that is not a digit: `parseInt("12abc") == 12`. */
  lemma ParseIntDecimal(n: int, tail: string)
    requires tail == [] || (!IsDecimalDigit(tail[0]) && tail[0] != 'x' && tail[0] != 'X')
    ensures ParseInt(Decimal(n) + tail) == Int(n)
  {
    if n < 0 {
      var m: nat := -n;
      var u := Digits(m) + tail;
      assert Decimal(n) == "-" + Digits(m);
      assert Decimal(n) + tail == "-" + u;
      ParseIntNegative(m, tail);
    } else {
      assert Decimal(n) == Digits(n);
      ParseIntNonNegative(n, tail);
    }
  }

  lemma ParseIntNonNegative(m: nat, tail: string)
    requires tail == [] || (!IsDecimalDigit(tail[0]) && tail[0] != 'x' && tail[0] != 'X')
    ensures ParseInt(Digits(m) + tail) == Int(m)
  {
    var ds := Digits(m);
    assert (ds + tail)[0] == ds[0];
    ParseIntUnsigned(ds + tail);
    MagnitudeOfDigits(m, tail);
  }

  lemma ParseIntNegative(m: nat, tail: string)
    requires tail == [] || (!IsDecimalDigit(tail[0]) && tail[0] != 'x' && tail[0] != 'X')
    ensures ParseInt("-" + (Digits(m) + tail)) == Int(-(m as int))
  {
    ParseIntOfMinus(Digits(m) + tail);
    MagnitudeOfDigits(m, tail);
  }

  /** A string that starts with neither white space nor a sign is read by
      ParseMagnitude alone. */
  lemma ParseIntUnsigned(s: string)
    requires s != [] && !IsSpace(s[0]) && s[0] != '-' && s[0] != '+'
    ensures ParseInt(s) == ParseMagnitude(s)
  {
    assert TrimStart(s) == s;
  }

  /** A leading minus sign negates what follows it. */
  lemma ParseIntOfMinus(u: string)
    ensures ParseInt("-" + u) == Negate(ParseMagnitude(u))
  {
    var s := "-" + u;
    assert s[0] == '-';
    assert TrimStart(s) == s;
    assert s[1..] == u;
  }

  lemma {:induction false} TrimStartSkipsSpace(pre: string, s: string)
    requires forall i :: 0 <= i < |pre| ==> IsSpace(pre[i])
    ensures TrimStart(pre + s) == TrimStart(s)
  {
    if pre != [] {
      assert (pre + s)[0] == pre[0] && IsSpace((pre + s)[0]);
      assert (pre + s)[1..] == pre[1..] + s;
      assert TrimStart(pre + s) == TrimStart(pre[1..] + s);
      TrimStartSkipsSpace(pre[1..], s);
    } else {
      assert pre + s == s;
    }
  }

  /** Leading white space does not change what `parseInt` reads. */
  lemma ParseIntSkipsSpace(pre: string, s: string)
    requires forall i :: 0 <= i < |pre| ==> IsSpace(pre[i])
    ensures ParseInt(pre + s) == ParseInt(s)
  {
    TrimStartSkipsSpace(pre, s);
  }

  /** The router's two sentinel strings, and the empty string, hold no number. */
  lemma ParseIntOfSentinels()
    ensures ParseInt("Infinity") == NaN
    ensures ParseInt("-Infinity") == NaN
    ensures ParseInt("") == NaN
  {
    var inf := "Infinity";
    assert DigitValue(inf[0], 10) < 0;
    assert ParseMagnitude(inf) == NaN;
    ParseIntUnsigned(inf);
    ParseIntOfMinus(inf);
    assert "-" + inf == "-Infinity";
  }
}

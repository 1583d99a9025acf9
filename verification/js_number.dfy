/** ECMAScript `parseInt(string)` with no radix argument, and the decimal
    rendering of a natural number that template literals use. */
module JsNumber {
  import opened Options
  import opened JsText

  predicate IsDecimalDigit(c: char) {
    '0' <= c <= '9'
  }

  /** The value of `c` as a digit in bases up to 36, and 36 for a character
      that is no digit at all. */
  function DigitValue(c: char): (v: nat)
    ensures v <= 36
    ensures IsDecimalDigit(c) <==> v < 10
  {
    if '0' <= c <= '9' then c as int - '0' as int
    else if 'a' <= c <= 'z' then c as int - 'a' as int + 10
    else if 'A' <= c <= 'Z' then c as int - 'A' as int + 10
    else 36
  }

  predicate IsRadixDigit(c: char, radix: nat) {
    DigitValue(c) < radix
  }

  predicate AllRadixDigits(s: string, radix: nat) {
    forall i | 0 <= i < |s| :: IsRadixDigit(s[i], radix)
  }

  /** Length of the longest prefix of `s` made of digits of `radix`. */
  function DigitRun(s: string, radix: nat): (n: nat)
    ensures n <= |s|
    ensures AllRadixDigits(s[..n], radix)
    ensures n == |s| || !IsRadixDigit(s[n], radix)
  {
    if |s| > 0 && IsRadixDigit(s[0], radix) then
      var n := 1 + DigitRun(s[1..], radix);
      assert s[..n] == [s[0]] + s[1..][..n - 1];
      n
    else 0
  }

  /** The number a string of digits denotes in positional notation. */
  function ValueOf(ds: string, radix: nat): nat {
    if |ds| == 0 then 0
    else ValueOf(ds[..|ds| - 1], radix) * radix + DigitValue(ds[|ds| - 1])
  }

  /** The character of a decimal digit. */
  function DecimalDigit(d: nat): (c: char)
    requires d < 10
    ensures IsDecimalDigit(c) && DigitValue(c) == d
  {
    ('0' as int + d) as char
  }

  /** The decimal rendering of `n`, as `${n}` writes it: no sign, no leading
      zero, and the digits denote `n` again. */
  function Decimal(n: nat): (ds: string)
    ensures |ds| >= 1
    ensures AllRadixDigits(ds, 10)
    ensures |ds| > 1 ==> ds[0] != '0'
    ensures ValueOf(ds, 10) == n
  {
    if n < 10 then [DecimalDigit(n)]
    else
      var ds := Decimal(n / 10) + [DecimalDigit(n % 10)];
      assert ds[..|ds| - 1] == Decimal(n / 10);
      ds
  }

  /** The parts `parseInt` reads after skipping white space: whether a `-`
      sign was seen, the radix (16 after a `0x`/`0X` prefix, else 10) and the
      text where the digits start. */
  datatype Numeral = Numeral(negative: bool, radix: nat, digits: string)

  function ReadNumeral(s: string): Numeral {
    ReadSigned(TrimStart(s))
  }

  /** The sign and radix prefix of a text that has no leading white space. */
  function ReadSigned(t: string): Numeral {
    var negative := |t| > 0 && t[0] == '-';
    var u := if |t| > 0 && (t[0] == '-' || t[0] == '+') then t[1..] else t;
    if |u| >= 2 && u[0] == '0' && (u[1] == 'x' || u[1] == 'X') then Numeral(negative, 16, u[2..])
    else Numeral(negative, 10, u)
  }

  /** `parseInt(s)` with no radix. `None` stands for `NaN`: the text after the
      white space, the sign and the hex prefix does not start with a digit.
      Otherwise the longest digit prefix is read and trailing text is
      ignored. */
  function ParseInt(s: string): (r: Option<int>)
    ensures AllWhiteSpace(s) ==> r.None?
    ensures r.Some? && r.value < 0 ==> |TrimStart(s)| > 0 && TrimStart(s)[0] == '-'
  {
    ReadDigits(ReadNumeral(s))
  }

  /** The value of the longest digit prefix of a numeral, `None` when there
      are no digits. */
  function ReadDigits(n: Numeral): Option<int> {
    var k := DigitRun(n.digits, n.radix);
    if k == 0 then None else Some(Signed(n.negative, ValueOf(n.digits[..k], n.radix)))
  }

  function Signed(negative: bool, v: nat): int {
    if negative then -(v as int) else v
  }

  /** A digit run stops exactly where the digits end. */
  lemma {:induction false} DigitRunOfPrefix(ds: string, rest: string, radix: nat)
    requires AllRadixDigits(ds, radix)
    requires |rest| == 0 || !IsRadixDigit(rest[0], radix)
    ensures DigitRun(ds + rest, radix) == |ds|
    decreases |ds|
  {
    if |ds| > 0 {
      var s := ds + rest;
      assert IsRadixDigit(s[0], radix);
      assert s[1..] == ds[1..] + rest;
      DigitRunOfPrefix(ds[1..], rest, radix);
    } else {
      assert ds + rest == rest;
    }
  }

  /** `parseInt` reads back the decimal rendering of any integer, after any
      leading white space and with trailing text ignored, as long as that text
      does not continue the digits (nor turn a lone `0` into a hex prefix). */
  lemma ParseIntDecimal(space: string, negative: bool, n: nat, rest: string)
    requires AllWhiteSpace(space)
    requires |rest| == 0 || !IsDecimalDigit(rest[0])
    requires n == 0 && |rest| > 0 ==> rest[0] != 'x' && rest[0] != 'X'
    ensures ParseInt(space + (if negative then "-" else "") + Decimal(n) + rest)
            == Some(Signed(negative, n))
  {
    var ds := Decimal(n);
    var u := ds + rest;
    var sign := if negative then "-" else "";
    var body := sign + u;
    assert space + sign + ds + rest == space + body;
    assert u[0] == ds[0] && IsDecimalDigit(u[0]);
    assert body[0] == '-' || body[0] == u[0];
    LeadingSpaceSkips(space, body);
    assert |u| >= 2 ==> u[1] == (if |ds| == 1 then rest[0] else ds[1]);
    assert u[0] == '0' && |ds| == 1 ==> n == 0;
    ReadSignedPlain(negative, u);
    ParseIntOfNumeral(space + body, ds, rest);
  }

  /** A sign followed by a text that starts with a digit and carries no hex
      prefix is read in base 10. */
  lemma ReadSignedPlain(negative: bool, u: string)
    requires |u| > 0 && IsDecimalDigit(u[0])
    requires !(|u| >= 2 && u[0] == '0' && (u[1] == 'x' || u[1] == 'X'))
    ensures ReadSigned((if negative then "-" else "") + u) == Numeral(negative, 10, u)
  {
    if negative {
      assert ("-" + u)[1..] == u;
    }
  }

  /** Once the numeral's digits are known, `parseInt` reads exactly them. */
  lemma ParseIntOfNumeral(s: string, ds: string, rest: string)
    requires ReadNumeral(s).digits == ds + rest
    requires |ds| > 0 && AllRadixDigits(ds, ReadNumeral(s).radix)
    requires |rest| == 0 || !IsRadixDigit(rest[0], ReadNumeral(s).radix)
    ensures ParseInt(s) == Some(Signed(ReadNumeral(s).negative, ValueOf(ds, ReadNumeral(s).radix)))
  {
    var n := ReadNumeral(s);
    DigitRunOfPrefix(ds, rest, n.radix);
    assert n.digits[..|ds|] == ds;
  }

  /** Skipping the white space in front of a text that starts with something
      else leaves exactly that text. */
  lemma LeadingSpaceSkips(space: string, body: string)
    requires AllWhiteSpace(space)
    requires |body| > 0 && !IsWhiteSpace(body[0])
    ensures TrimStart(space + body) == body
  {
    var s := space + body;
    assert s[..|space|] == space;
  }

  /** With a `0x` prefix the digits are read in base 16. */
  lemma ParseIntHex(digits: string, rest: string)
    requires |digits| > 0 && AllRadixDigits(digits, 16)
    requires |rest| == 0 || !IsRadixDigit(rest[0], 16)
    ensures ParseInt("0x" + digits + rest) == Some(ValueOf(digits, 16))
  {
    ReadNumeralHex(digits + rest);
    assert "0x" + digits + rest == "0x" + (digits + rest);
    ParseIntOfNumeral("0x" + digits + rest, digits, rest);
  }

  lemma ReadNumeralHex(t: string)
    ensures ReadNumeral("0x" + t) == Numeral(false, 16, t)
  {
    var u := "0x" + t;
    assert u[0] == '0' && u[1] == 'x';
    assert LeadingSpace(u) == 0;
    assert TrimStart(u) == u;
    assert u[2..] == t;
  }

  /** A text whose first character is neither white space, a sign nor a
      decimal digit is `NaN` to `parseInt`. */
  lemma ParseIntNoDigit(s: string)
    requires |s| > 0 && !IsWhiteSpace(s[0]) && !IsDecimalDigit(s[0])
    requires s[0] != '-' && s[0] != '+'
    ensures ParseInt(s) == None
  {
    assert LeadingSpace(s) == 0;
    assert TrimStart(s) == s;
    assert ReadNumeral(s) == Numeral(false, 10, s);
  }

  /** `parseInt(undefined)` is `NaN`: the text "undefined" starts with a
      letter that is no digit. */
  lemma ParseIntUndefined()
    ensures ParseInt("undefined") == None
  {
    var s := "undefined";
    assert s[0] == 'u';
    ParseIntNoDigit(s);
  }
}

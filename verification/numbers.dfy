/**
 * Numbers as the JavaScript code produces them: `parseInt` (radix 10),
 * `parseFloat` on plain decimal notation, and `Math.ceil` of a quotient.
 * Decimal amounts are kept exact instead of as binary floating point.
 */
module JsNumbers {
  import opened Wrappers
  import opened Text

  /** A finite decimal number, standing for `units / 10^scale`. */
  datatype Decimal = Decimal(units: int, scale: nat)

  function Pow10(n: nat): nat {
    if n == 0 then 1 else 10 * Pow10(n - 1)
  }

  /** `a <= b` on the numbers the two decimals stand for. */
  predicate DecLe(a: Decimal, b: Decimal) {
    a.units * Pow10(b.scale) <= b.units * Pow10(a.scale)
  }

  /** Comparison of decimals agrees with comparison of integers on whole numbers. */
  lemma DecLeWhole(m: int, n: int)
    ensures DecLe(Decimal(m, 0), Decimal(n, 0)) <==> m <= n
  {
  }

  /** After white space, an optional sign: whether it was `-`, and the rest. */
  function SplitSign(s: string): (bool, string) {
    var t := TrimStart(s);
    if t != [] && (t[0] == '-' || t[0] == '+') then (t[0] == '-', t[1..]) else (false, t)
  }

  /** `parseInt(s)` with radix 10: white space, an optional sign, then the longest run of
      digits; `NaN` when there is no digit there. Trailing text is ignored. */
  function ParseInt(s: string): Parsed<int> {
    var (neg, body) := SplitSign(s);
    var ds := LeadingDigits(body);
    if ds == [] then NaN
    else
      var v: int := DigitsValue(ds);
      Num(if neg then -v else v)
  }

  /** `parseFloat(s)` on plain decimal notation: white space, an optional sign, digits, and
      optionally `.` and more digits, with at least one digit in all; `NaN` otherwise. */
  function ParseFloat(s: string): Parsed<Decimal> {
    var (neg, body) := SplitSign(s);
    var whole := LeadingDigits(body);
    var after := body[|whole|..];
    var frac := if after != [] && after[0] == '.' then LeadingDigits(after[1..]) else [];
    if whole == [] && frac == [] then NaN
    else
      var n: int := DigitsValue(whole + frac);
      Num(Decimal(if neg then -n else n, |frac|))
  }

  function DigitChar(d: nat): (c: char)
    requires d < 10
    ensures IsDigit(c) && c as int - '0' as int == d
  {
    ('0' as int + d) as char
  }

  /** The decimal notation of a natural number, without leading zeros. */
  function NatToString(n: nat): (r: string)
    ensures r != [] && AllDigits(r)
  {
    if n < 10 then [DigitChar(n)] else NatToString(n / 10) + [DigitChar(n % 10)]
  }

  /** The decimal notation of an integer, as `String(n)` writes it. */
  function IntToString(n: int): string {
    if n < 0 then "-" + NatToString(-n) else NatToString(n)
  }

  lemma {:induction false} DigitsValueOfNatToString(n: nat)
    ensures DigitsValue(NatToString(n)) == n
  {
    var r := NatToString(n);
    if n >= 10 {
      DigitsValueOfNatToString(n / 10);
      assert r[..|r| - 1] == NatToString(n / 10);
    }
  }

  /** `parseInt` reads back every integer written in decimal notation. */
  lemma ParseIntOfIntToString(n: int)
    ensures ParseInt(IntToString(n)) == Num(n)
  {
    var m: nat := if n < 0 then -n else n;
    var ds := NatToString(m);
    DigitsValueOfNatToString(m);
    SplitSignOfIntToString(n);
    LeadingDigitsOfDigitsThen(ds, []);
    assert ds + [] == ds;
  }

  lemma SplitSignOfIntToString(n: int)
    ensures SplitSign(IntToString(n)) == (n < 0, NatToString(if n < 0 then -n else n))
  {
    var s := IntToString(n);
    assert !IsJsSpace(s[0]);
    assert TrimStart(s) == s;
    if n < 0 {
      assert s[1..] == NatToString(-n);
    }
  }

  /** `parseInt` and `parseFloat` skip any leading white space, the ideographic space
      U+3000 and the other space separators included. */
  lemma ParseSkipsLeadingSpace(c: char, s: string)
    requires IsJsSpace(c)
    ensures ParseInt([c] + s) == ParseInt(s)
    ensures ParseFloat([c] + s) == ParseFloat(s)
  {
    assert ([c] + s)[1..] == s;
  }

  /** `parseInt` stops at the first character that is not a digit. */
  lemma ParseIntIgnoresTail(ds: string, t: string)
    requires ds != [] && AllDigits(ds)
    requires t == [] || !IsDigit(t[0])
    ensures ParseInt(ds + t) == Num(DigitsValue(ds))
  {
    assert TrimStart(ds + t) == ds + t;
    LeadingDigitsOfDigitsThen(ds, t);
  }

  lemma {:induction false} LeadingDigitsOfDigitsThen(ds: string, t: string)
    requires AllDigits(ds)
    requires t == [] || !IsDigit(t[0])
    ensures LeadingDigits(ds + t) == ds
  {
    if ds != [] {
      assert (ds + t)[1..] == ds[1..] + t;
      LeadingDigitsOfDigitsThen(ds[1..], t);
    }
  }

  /** `parseFloat` reads an integer in decimal notation as that whole number. */
  lemma ParseFloatOfIntToString(n: int)
    ensures ParseFloat(IntToString(n)) == Num(Decimal(n, 0))
  {
    var m: nat := if n < 0 then -n else n;
    var ds := NatToString(m);
    DigitsValueOfNatToString(m);
    SplitSignOfIntToString(n);
    LeadingDigitsOfDigitsThen(ds, []);
    assert ds + [] == ds;
    assert ds[|ds|..] == [];
  }

  /** `parseFloat` reads `w.f` (two digit strings, not both empty) as the decimal whose
      digits are those of `w` then `f`, with `|f|` of them after the point. */
  lemma ParseFloatOfDecimalNotation(w: string, f: string)
    requires AllDigits(w) && AllDigits(f)
    requires w != [] || f != []
    ensures ParseFloat(w + "." + f) == Num(Decimal(DigitsValue(w + f), |f|))
  {
    ParseFloatOfDigitsPointDigits(w + "." + f, w, f);
  }

  lemma ParseFloatOfDigitsPointDigits(s: string, w: string, f: string)
    requires AllDigits(w) && AllDigits(f)
    requires w != [] || f != []
    requires s == w + "." + f
    ensures AllDigits(w + f)
    ensures ParseFloat(s) == Num(Decimal(DigitsValue(w + f), |f|))
  {
    assert s[0] == '.' || IsDigit(s[0]);
    TrimStartOfNonSpace(s);
    assert SplitSign(s) == (false, s);
    assert s == w + ("." + f);
    LeadingDigitsOfDigitsThen(w, "." + f);
    var after := s[|w|..];
    assert after == "." + f;
    assert after[1..] == f + [];
    LeadingDigitsOfDigitsThen(f, []);
    assert LeadingDigits(after[1..]) == f;
  }

  lemma TrimStartOfNonSpace(s: string)
    requires s != [] && !IsJsSpace(s[0])
    ensures TrimStart(s) == s
  {
  }

  /** `Math.ceil(t / l)`: the least integer at or above the quotient. */
  function CeilDiv(t: nat, l: int): (r: int)
    requires l != 0
    ensures l > 0 ==> (r - 1) * l < t <= r * l
    ensures l < 0 ==> r * l <= t < (r - 1) * l
  {
    if l > 0 then
      var r := (t + l - 1) / l;
      DivBounds(t + l - 1, l);
      r
    else
      var q := t / (-l);
      DivBounds(t, -l);
      -q
  }

  lemma DivBounds(a: int, d: int)
    requires d > 0
    ensures (a / d) * d <= a < (a / d) * d + d
  {
  }
}

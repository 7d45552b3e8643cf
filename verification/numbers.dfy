/** JavaScript numbers as the ledger uses them. Every number the program stores comes
    from parsing a decimal string, so a finite number is modelled exactly as a decimal
    fraction `units / 10^scale` rather than as a binary double. */
module Numbers {
  import opened Text

  /** NaN, or the finite decimal `units / 10^scale`. */
  datatype Num = NaN | Dec(units: int, scale: nat)

  const Zero := Dec(0, 0)

  function Pow10(k: nat): (r: nat)
    ensures r >= 1
  {
    if k == 0 then 1 else 10 * Pow10(k - 1)
  }

  /** No trailing zero after the decimal point, so each value has one representation. */
  predicate Canonical(n: Num) {
    n.Dec? ==> n.scale == 0 || n.units % 10 != 0
  }

  function Value(n: Num): real
    requires n.Dec?
  {
    Scaled(n.units as real, n.scale)
  }

  /** `x / 10^s`, one digit at a time. */
  function Scaled(x: real, s: nat): real {
    if s == 0 then x else Scaled(x, s - 1) / 10.0
  }

  /** `Scaled` is division by a power of ten. */
  lemma {:induction false} ScaledIsQuotient(x: real, s: nat)
    ensures Scaled(x, s) == x / Pow10(s) as real
  {
    if s > 0 {
      ScaledIsQuotient(x, s - 1);
      var p := Pow10(s - 1) as real;
      assert Pow10(s) as real == 10.0 * p;
      assert x / p / 10.0 == x / (10.0 * p);
    }
  }

  /** One more zero on the units and one more place on the scale cancel out. */
  lemma {:induction false} ScaledTen(y: real, s: nat)
    ensures Scaled(10.0 * y, s + 1) == Scaled(y, s)
  {
    if s > 0 {
      ScaledTen(y, s - 1);
    }
  }

  lemma {:induction false} ScaledNeg(x: real, s: nat)
    ensures Scaled(-x, s) == -Scaled(x, s)
  {
    if s > 0 {
      ScaledNeg(x, s - 1);
    }
  }

  lemma {:induction false} ScaledAdd(x: real, y: real, s: nat)
    ensures Scaled(x + y, s) == Scaled(x, s) + Scaled(y, s)
  {
    if s > 0 {
      ScaledAdd(x, y, s - 1);
    }
  }

  /** Scaling `n * 10^k` down by `k` places gives back `n`. */
  lemma {:induction false} ScaledShift(n: int, k: nat)
    ensures Scaled((n * Pow10(k)) as real, k) == n as real
  {
    if k > 0 {
      var y := (n * Pow10(k - 1)) as real;
      assert n * Pow10(k) == 10 * (n * Pow10(k - 1));
      ScaledShift(n, k - 1);
      ScaledTen(y, k - 1);
    }
  }

  /** `Number(x || 0)`: NaN reads as 0. */
  function OrZero(n: Num): real {
    if n.NaN? then 0.0 else Value(n)
  }

  /** `Math.round`: the nearest integer, halves rounding up. */
  function Round(x: real): (r: int)
    ensures (r as real) - 0.5 <= x < (r as real) + 0.5
  {
    (x + 0.5).Floor
  }

  /** Strips trailing zeros after the decimal point without changing the value. */
  function Normalize(u: int, s: nat): (r: Num)
    decreases s
    ensures r.Dec? && Canonical(r)
    ensures Value(r) == Value(Dec(u, s))
    ensures u == 0 ==> r == Zero
    ensures (u < 0 <==> r.units < 0) && (u == 0 <==> r.units == 0)
  {
    if s > 0 && u % 10 == 0 then
      var r := Normalize(u / 10, s - 1);
      assert (u / 10) as real * 10.0 == u as real;
      ScaledTen((u / 10) as real, s - 1);
      r
    else
      Dec(u, s)
  }

  /** The canonical form of a number. */
  function Canon(n: Num): (r: Num)
    ensures Canonical(r)
    ensures r.NaN? <==> n.NaN?
    ensures n.Dec? ==> Value(r) == Value(n)
    ensures Canonical(n) ==> r == n
  {
    match n
    case NaN => NaN
    case Dec(u, s) =>
      Normalize(u, s)
  }

  function Negate(n: Num): (r: Num)
    ensures Canonical(n) ==> Canonical(r)
    ensures r.Dec? <==> n.Dec?
    ensures n.Dec? ==> Value(r) == -Value(n)
  {
    match n
    case NaN => NaN
    case Dec(u, s) =>
      ScaledNeg(u as real, s);
      Dec(-u, s)
  }

  // ---- digit strings ----

  predicate AllDigits(s: string) {
    forall i :: 0 <= i < |s| ==> IsDigit(s[i])
  }

  function DigitValue(c: char): nat
    requires IsDigit(c)
  {
    c as int - '0' as int
  }

  function DigitChar(d: nat): (c: char)
    requires d < 10
    ensures IsDigit(c) && DigitValue(c) == d
  {
    ('0' as int + d) as char
  }

  /** The value of a string of decimal digits (0 for the empty string). */
  function DigitsValue(s: string): nat
    requires AllDigits(s)
  {
    if |s| == 0 then 0 else DigitsValue(s[..|s| - 1]) * 10 + DigitValue(s[|s| - 1])
  }

  /** `k` digits spell a number below `10^k`. */
  lemma {:induction false} DigitsBound(s: string)
    requires AllDigits(s)
    ensures DigitsValue(s) < Pow10(|s|)
  {
    if |s| > 0 {
      DigitsBound(s[..|s| - 1]);
    }
  }

  lemma {:induction false} DigitsValueAppend(a: string, b: string)
    requires AllDigits(a) && AllDigits(b)
    ensures AllDigits(a + b)
    ensures DigitsValue(a + b) == DigitsValue(a) * Pow10(|b|) + DigitsValue(b)
  {
    if |b| == 0 {
      assert a + b == a;
    } else {
      var b' := b[..|b| - 1];
      var d := DigitValue(b[|b| - 1]);
      assert (a + b)[..|a + b| - 1] == a + b';
      assert (a + b)[|a + b| - 1] == b[|b| - 1];
      DigitsValueAppend(a, b');
      assert DigitsValue(a + b) == DigitsValue(a + b') * 10 + d;
      assert DigitsValue(b) == DigitsValue(b') * 10 + d;
      assert Pow10(|b|) == 10 * Pow10(|b'|);
      ShiftDigit(DigitsValue(a), Pow10(|b'|), DigitsValue(b'), d);
    }
  }

  lemma {:induction false} ShiftDigit(x: int, p: int, y: int, d: int)
    ensures (x * p + y) * 10 + d == x * (10 * p) + (y * 10 + d)
  {
  }

  /** The decimal digits of `n` without leading zeros: `String(n)` for a natural number. */
  function NatText(n: nat): (r: string)
    ensures |r| >= 1 && AllDigits(r) && DigitsValue(r) == n
  {
    if n < 10 then [DigitChar(n)]
    else
      var r := NatText(n / 10) + [DigitChar(n % 10)];
      assert r[..|r| - 1] == NatText(n / 10);
      r
  }

  /** The last `k` decimal digits of `n`, zero-padded on the left. */
  function PadDigits(n: nat, k: nat): (r: string)
    ensures |r| == k && AllDigits(r) && DigitsValue(r) == n % Pow10(k)
  {
    if k == 0 then ""
    else
      var r := PadDigits(n / 10, k - 1) + [DigitChar(n % 10)];
      assert r[..|r| - 1] == PadDigits(n / 10, k - 1);
      ModTen(n, Pow10(k - 1));
      r
  }

  /** Padding a number that fits in `k` digits loses nothing. */
  lemma {:induction false} PadFits(n: nat, k: nat)
    requires n < Pow10(k)
    ensures DigitsValue(PadDigits(n, k)) == n
  {
    ModBelow(n, Pow10(k));
  }

  lemma {:induction false} ModBelow(n: nat, p: nat)
    requires n < p
    ensures n % p == n
  {
    var q := n / p;
    assert n == p * q + n % p;
    MulAtLeast(p, q);
  }

  lemma {:induction false} ModTen(n: nat, p: nat)
    requires p >= 1
    ensures (n / 10) % p * 10 + n % 10 == n % (10 * p)
  {
    var q, r0 := n / 10, n % 10;
    var a, b := q / p, q % p;
    assert n == 10 * q + r0;
    assert q == p * a + b;
    assert n == (10 * p) * a + (10 * b + r0);
    assert 0 <= 10 * b + r0 < 10 * p;
    ModUnique(n, 10 * p, a, 10 * b + r0);
  }

  lemma {:induction false} ModUnique(n: int, m: int, a: int, b: int)
    requires m > 0 && n == m * a + b && 0 <= b < m
    ensures n % m == b && n / m == a
  {
    var q, r := n / m, n % m;
    assert n == m * q + r && 0 <= r < m;
    assert m * (a - q) == r - b by {
      assert m * a + b == m * q + r;
    }
    if a > q {
      MulAtLeast(m, a - q);
    } else if a < q {
      MulAtLeast(m, q - a);
    }
  }

  lemma {:induction false} MulAtLeast(m: int, k: int)
    requires m >= 0
    ensures k >= 1 ==> m * k >= m
  {
    if k >= 1 {
      assert m * k == m + m * (k - 1);
    }
  }

  // ---- Number(string) ----

  /** Index of the first '.' in `s`, or `|s|` when there is none. */
  function DotIndex(s: string): (i: nat)
    ensures i <= |s|
    ensures i < |s| ==> s[i] == '.'
    ensures forall j :: 0 <= j < i ==> s[j] != '.'
  {
    if |s| == 0 then 0
    else if s[0] == '.' then 0
    else 1 + DotIndex(s[1..])
  }

  /** An unsigned decimal literal without exponent: `D+`, `D+.D*` or `.D+`. */
  predicate IsUnsignedLiteral(s: string) {
    var i := DotIndex(s);
    if i == |s| then |s| > 0 && AllDigits(s)
    else |s| > 1 && AllDigits(s[..i]) && AllDigits(s[i + 1..])
  }

  /** The real number an unsigned literal denotes: the integer part plus the fraction
      digits scaled down by their count. */
  function LiteralValue(s: string): real
    requires IsUnsignedLiteral(s)
  {
    var i := DotIndex(s);
    if i == |s| then DigitsValue(s) as real
    else DigitsValue(s[..i]) as real + Scaled(DigitsValue(s[i + 1..]) as real, |s| - i - 1)
  }

  /** The number an unsigned literal denotes, in canonical form. */
  function UnsignedValue(s: string): (r: Num)
    requires IsUnsignedLiteral(s)
    ensures r.Dec? && Canonical(r) && r.units >= 0
    ensures Value(r) == LiteralValue(s)
  {
    var i := DotIndex(s);
    if i == |s| then Normalize(DigitsValue(s), 0)
    else
      var ip, fp := s[..i], s[i + 1..];
      DigitsValueAppend(ip, fp);
      ScaledAdd((DigitsValue(ip) * Pow10(|fp|)) as real, DigitsValue(fp) as real, |fp|);
      ScaledShift(DigitsValue(ip), |fp|);
      Normalize(DigitsValue(ip + fp), |fp|)
  }

  /** A character other than a digit or the point rules out an unsigned literal. */
  lemma {:induction false} NotLiteral(u: string, k: nat)
    requires k < |u| && !IsDigit(u[k]) && u[k] != '.'
    ensures !IsUnsignedLiteral(u)
  {
    var i := DotIndex(u);
    if i == |u| {
      assert !IsDigit(u[k]);
    } else if k < i {
      assert u[..i][k] == u[k];
    } else {
      assert k > i;
      assert u[i + 1..][k - i - 1] == u[k];
    }
  }

  /** `Number(s)` on a string: surrounding whitespace is ignored, an empty or blank
      string is 0, otherwise an optional sign and an unsigned decimal literal, else NaN.
      Exponents, `Infinity` and `0x`/`0o`/`0b` literals are not part of this model. */
  function NumberOf(s: string): (r: Num)
    ensures Canonical(r)
  {
    SignedValue(Trim(s))
  }

  /** `Number` on a string with no surrounding whitespace. */
  function SignedValue(t: string): (r: Num)
    ensures Canonical(r)
  {
    if t == "" then Zero
    else if t[0] == '-' || t[0] == '+' then
      var v := if IsUnsignedLiteral(t[1..]) then UnsignedValue(t[1..]) else NaN;
      if t[0] == '-' then Negate(v) else v
    else if IsUnsignedLiteral(t) then UnsignedValue(t)
    else NaN
  }

  /** `Number` of a non-empty digit string is the integer the digits spell. */
  lemma {:induction false} DigitsNumber(s: string)
    requires |s| > 0 && AllDigits(s)
    ensures NumberOf(s) == Dec(DigitsValue(s), 0)
  {
    assert IsDigit(s[0]) && IsDigit(s[|s| - 1]);
    TrimKeeps(s);
    assert forall i :: 0 <= i < |s| ==> s[i] != '.';
  }

  /** `String(n)` for the numbers of this model: "NaN", or the shortest decimal
      expansion, with a leading '-' for negative values. `String` switches to exponent
      notation below 1e-6 and from 1e21 on; this function always writes the plain digits. */
  function Show(n: Num): string {
    match Canon(n)
    case NaN => "NaN"
    case Dec(u, s) => (if u < 0 then "-" else "") + UnsignedText(if u < 0 then -u else u, s)
  }

  /** Reading back what `String(n)` wrote gives the same number. */
  lemma {:induction false} ShowRoundTrip(n: Num)
    ensures NumberOf(Show(n)) == Canon(n)
  {
    var c := Canon(n);
    if c.NaN? {
      assert Show(n) == "NaN";
      NaNText();
    } else {
      var u, s := c.units, c.scale;
      if u < 0 {
        NegMod(u);
        var a: nat := -u;
        assert Show(n) == "-" + UnsignedText(a, s);
        NegativeText(a, s);
      } else {
        var a: nat := u;
        assert Show(n) == "" + UnsignedText(a, s);
        assert "" + UnsignedText(a, s) == UnsignedText(a, s);
        PositiveText(a, s);
      }
    }
  }

  /** What `String(n)` can contain: digits, a sign, a point, or the letters of "NaN". */
  predicate ShowChar(c: char) {
    IsDigit(c) || c == '-' || c == '.' || c == 'N' || c == 'a'
  }

  lemma {:induction false} ShowAlphabet(n: Num)
    ensures |Show(n)| >= 1
    ensures forall i :: 0 <= i < |Show(n)| ==> ShowChar(Show(n)[i])
  {
    var c := Canon(n);
    if c.Dec? {
      var a: nat := if c.units < 0 then -c.units else c.units;
      var t := UnsignedText(a, c.scale);
      UnsignedAlphabet(a, c.scale);
      var sign := if c.units < 0 then "-" else "";
      assert Show(n) == sign + t;
      forall i | 0 <= i < |sign + t|
        ensures ShowChar((sign + t)[i])
      {
        if i >= |sign| {
          assert (sign + t)[i] == t[i - |sign|];
        }
      }
    }
  }

  lemma {:induction false} UnsignedAlphabet(a: nat, s: nat)
    ensures |UnsignedText(a, s)| >= 1
    ensures forall i :: 0 <= i < |UnsignedText(a, s)| ==> ShowChar(UnsignedText(a, s)[i])
  {
    var p := Pow10(s);
    DivNat(a, p);
    var t := UnsignedText(a, s);
    var w := NatText(a / p);
    assert forall i :: 0 <= i < |w| ==> ShowChar(w[i]);
    if s > 0 {
      var f := PadDigits(a % p, s);
      assert t == w + "." + f;
      forall i | 0 <= i < |t|
        ensures ShowChar(t[i])
      {
        if i < |w| {
          assert t[i] == w[i];
        } else if i > |w| {
          assert t[i] == f[i - |w| - 1];
        }
      }
    } else {
      assert t == w;
    }
  }

  lemma {:induction false} NaNText()
    ensures NumberOf("NaN") == NaN
  {
    TrimKeeps("NaN");
    assert DotIndex("NaN") == 3;
    assert !IsDigit('N');
  }

  lemma {:induction false} PositiveText(a: nat, s: nat)
    requires s == 0 || a % 10 != 0
    ensures NumberOf(UnsignedText(a, s)) == Dec(a, s)
  {
    UnsignedTextValue(a, s);
    LiteralNumber(UnsignedText(a, s));
  }

  /** `Number` of an unsigned literal that starts and ends with a digit is its value. */
  lemma {:induction false} LiteralNumber(t: string)
    requires |t| > 0 && IsDigit(t[0]) && IsDigit(t[|t| - 1]) && IsUnsignedLiteral(t)
    ensures NumberOf(t) == UnsignedValue(t)
  {
    TrimKeeps(t);
    assert t[0] != '-' && t[0] != '+';
  }

  lemma {:induction false} NegativeText(a: nat, s: nat)
    requires s == 0 || a % 10 != 0
    ensures NumberOf("-" + UnsignedText(a, s)) == Dec(-(a as int), s)
  {
    NegativeLiteral(a, s);
    SignedNumber("-" + UnsignedText(a, s));
  }

  /** A sign followed by text ending in a digit has no surrounding whitespace. */
  lemma {:induction false} SignedNumber(t: string)
    requires |t| > 1 && t[0] == '-' && IsDigit(t[|t| - 1])
    ensures NumberOf(t) == SignedValue(t)
  {
    TrimKeeps(t);
  }

  lemma {:induction false} NegativeLiteral(a: nat, s: nat)
    requires s == 0 || a % 10 != 0
    ensures var t := "-" + UnsignedText(a, s);
      IsDigit(t[|t| - 1]) && SignedValue(t) == Dec(-(a as int), s)
  {
    UnsignedTextValue(a, s);
    var t := "-" + UnsignedText(a, s);
    assert t[1..] == UnsignedText(a, s);
  }

  lemma {:induction false} NegMod(u: int)
    ensures u % 10 == 0 <==> (-u) % 10 == 0
  {
    if (-u) % 10 == 0 {
      ModUnique(u, 10, -((-u) / 10), 0);
    }
    if u % 10 == 0 {
      ModUnique(-u, 10, -(u / 10), 0);
    }
  }

  function UnsignedText(a: nat, s: nat): string {
    var p := Pow10(s);
    DivNat(a, p);
    NatText(a / p) + (if s == 0 then "" else "." + PadDigits(a % p, s))
  }

  lemma {:induction false} DivNat(a: nat, p: nat)
    requires p >= 1
    ensures a / p >= 0 && 0 <= a % p < p
  {
  }

  lemma {:induction false} UnsignedTextValue(a: nat, s: nat)
    requires s == 0 || a % 10 != 0
    ensures var t := UnsignedText(a, s);
      && |t| > 0 && IsDigit(t[0]) && IsDigit(t[|t| - 1])
      && IsUnsignedLiteral(t) && UnsignedValue(t) == Dec(a, s)
  {
    if s == 0 {
      IntegerText(a);
    } else {
      FractionText(a, s);
    }
  }

  lemma {:induction false} IntegerText(a: nat)
    ensures var t := UnsignedText(a, 0);
      && |t| > 0 && IsDigit(t[0]) && IsDigit(t[|t| - 1])
      && IsUnsignedLiteral(t) && UnsignedValue(t) == Dec(a, 0)
  {
    var ip := NatText(a);
    assert UnsignedText(a, 0) == ip;
    assert DotIndex(ip) == |ip|;
  }

  lemma {:induction false} FractionText(a: nat, s: nat)
    requires s > 0 && a % 10 != 0
    ensures var t := UnsignedText(a, s);
      && |t| > 0 && IsDigit(t[0]) && IsDigit(t[|t| - 1])
      && IsUnsignedLiteral(t) && UnsignedValue(t) == Dec(a, s)
  {
    var p := Pow10(s);
    var q, r := a / p, a % p;
    var ip := NatText(q);
    var fp := PadDigits(r, s);
    assert UnsignedText(a, s) == ip + "." + fp;
    ModUnique(r, p, 0, r);
    DivMod(a, p);
    assert DigitsValue(ip) * p + DigitsValue(fp) == a;
    LiteralParts(ip, fp, a, s);
  }

  lemma {:induction false} DivMod(a: nat, p: nat)
    requires p >= 1
    ensures a / p * p + a % p == a
  {
  }

  lemma {:induction false} LiteralParts(ip: string, fp: string, a: nat, s: nat)
    requires |ip| > 0 && AllDigits(ip) && AllDigits(fp) && |fp| == s > 0
    requires DigitsValue(ip) * Pow10(s) + DigitsValue(fp) == a && a % 10 != 0
    ensures var t := ip + "." + fp;
      && IsDigit(t[0]) && IsDigit(t[|t| - 1])
      && IsUnsignedLiteral(t) && UnsignedValue(t) == Dec(a, s)
  {
    var t := ip + "." + fp;
    DotAfterDigits(ip, fp);
    assert t[..|ip|] == ip && t[|ip| + 1..] == fp;
    assert t[|t| - 1] == fp[s - 1];
    DigitsValueAppend(ip, fp);
  }

  lemma {:induction false} DotAfterDigits(a: string, b: string)
    requires AllDigits(a)
    ensures DotIndex(a + "." + b) == |a|
  {
    var t := a + "." + b;
    assert t[|a|] == '.';
    assert forall j :: 0 <= j < |a| ==> t[j] == a[j];
  }
}

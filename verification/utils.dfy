/** The input helpers of `utils.js`: money parsing, text sanitising, the shape check a
    transaction must pass before it is stored, the chart axis bound and HTML escaping. */
module Utils {
  import opened Text
  import opened Numbers
  import opened Txns

  // ---- parseMoney ----

  predicate IsMoneyChar(c: char) {
    IsDigit(c) || c == ',' || c == '.' || c == '-'
  }

  /** `input.trim().replace(/[^0-9,.\-]/g, '')`. */
  function MoneyChars(input: string): (r: string)
    ensures forall i :: 0 <= i < |r| ==> IsMoneyChar(r[i])
  {
    Filter(Trim(input), IsMoneyChar)
  }

  /** `s.replace(',', '.')`: only the first occurrence is replaced. */
  function ReplaceFirst(s: string, c: char, d: char): (r: string)
    ensures |r| == |s|
    ensures c in s && c != d ==> Count(r, c) == Count(s, c) - 1 && Count(r, d) == Count(s, d) + 1
    ensures c !in s ==> r == s
  {
    if |s| == 0 then ""
    else if s[0] == c then
      assert ([d] + s[1..])[1..] == s[1..];
      [d] + s[1..]
    else
      assert ([s[0]] + ReplaceFirst(s[1..], c, d))[1..] == ReplaceFirst(s[1..], c, d);
      [s[0]] + ReplaceFirst(s[1..], c, d)
  }

  /** What survives dropping the thousands separators. */
  predicate NotComma(c: char) {
    c != ','
  }

  /** The text `parseMoney` hands to `Number`: with both separators present the commas
      are dropped as thousands separators; with commas only, the first comma becomes
      the decimal point. */
  function MoneyText(input: string): string {
    var s := MoneyChars(input);
    if ',' in s && '.' in s then Filter(s, NotComma)
    else if ',' in s && '.' !in s then ReplaceFirst(s, ',', '.')
    else s
  }

  predicate DigitsOrDots(s: string) {
    forall i :: 0 <= i < |s| ==> IsDigit(s[i]) || s[i] == '.'
  }

  predicate HasDigit(s: string) {
    exists i :: 0 <= i < |s| && IsDigit(s[i])
  }

  /** An optional leading '-' followed by digits and at most one '.', with at least
      one digit: the strings over `0-9 . -` that `Number` reads as a finite number. */
  predicate MoneyShaped(t: string) {
    && |t| > 0
    && DigitsOrDots(if t[0] == '-' then t[1..] else t)
    && Count(t, '.') <= 1
    && HasDigit(t)
  }

  /** The real number a money-shaped string denotes. */
  function MoneyValue(t: string): real
    requires MoneyShaped(t)
  {
    if t[0] == '-' then
      UnsignedShape(t[1..]);
      -LiteralValue(t[1..])
    else
      UnsignedShape(t);
      LiteralValue(t)
  }

  /** `parseMoney`. `Number.isFinite` never fails here because the model has no
      overflow to Infinity. */
  function ParseMoney(input: string): (r: Num)
    ensures Canonical(r)
    ensures MoneyChars(input) == "" ==> r == Zero
    ensures r.Dec? <==> MoneyText(input) == "" || MoneyShaped(MoneyText(input))
    ensures r.Dec? && MoneyShaped(MoneyText(input)) ==> Value(r) == MoneyValue(MoneyText(input))
  {
    var t := MoneyText(input);
    MoneyTextAlphabet(input);
    MoneyNumber(t);
    NumberOf(t)
  }

  lemma {:induction false} MoneyTextAlphabet(input: string)
    ensures forall i :: 0 <= i < |MoneyText(input)| ==> IsMoneyChar(MoneyText(input)[i])
  {
    var s := MoneyChars(input);
    if ',' in s && '.' !in s {
      ReplaceKeeps(s, ',', '.');
    }
  }

  lemma {:induction false} ReplaceKeeps(s: string, c: char, d: char)
    requires forall i :: 0 <= i < |s| ==> IsMoneyChar(s[i])
    requires IsMoneyChar(d)
    ensures forall i :: 0 <= i < |ReplaceFirst(s, c, d)| ==> IsMoneyChar(ReplaceFirst(s, c, d)[i])
  {
    if |s| > 0 && s[0] != c {
      ReplaceKeeps(s[1..], c, d);
    }
  }

  /** On the money alphabet `Number` is finite exactly on the empty string and the
      money-shaped strings, with the value the digits spell. */
  lemma {:induction false} MoneyNumber(t: string)
    requires forall i :: 0 <= i < |t| ==> IsMoneyChar(t[i])
    ensures NumberOf(t).Dec? <==> t == "" || MoneyShaped(t)
    ensures MoneyShaped(t) ==> NumberOf(t).Dec? && Value(NumberOf(t)) == MoneyValue(t)
    ensures t == "" ==> NumberOf(t) == Zero
  {
    if |t| > 0 {
      TrimKeeps(t);
      assert NumberOf(t) == SignedValue(t);
      if t[0] == '-' {
        var u := t[1..];
        UnsignedShape(u);
        assert t == "-" + u;
        CountAppend("-", u, '.');
        HasDigitAppend("-", u);
      } else {
        UnsignedShape(t);
        if t[0] == ',' {
          assert !DigitsOrDots(t);
        }
      }
    }
  }

  lemma {:induction false} HasDigitAppend(a: string, b: string)
    ensures HasDigit(a + b) <==> HasDigit(a) || HasDigit(b)
  {
    var s := a + b;
    if HasDigit(s) {
      var i :| 0 <= i < |s| && IsDigit(s[i]);
      if i < |a| {
        assert a[i] == s[i];
      } else {
        assert b[i - |a|] == s[i];
      }
    }
    if HasDigit(a) {
      var i :| 0 <= i < |a| && IsDigit(a[i]);
      assert s[i] == a[i];
    }
    if HasDigit(b) {
      var i :| 0 <= i < |b| && IsDigit(b[i]);
      assert s[|a| + i] == b[i];
    }
  }

  lemma {:induction false} NoDotDigits(s: string)
    requires '.' !in s
    ensures DigitsOrDots(s) <==> AllDigits(s)
  {
    assert forall i :: 0 <= i < |s| ==> s[i] != '.';
  }

  lemma {:induction false} AllDigitsHasDigit(s: string)
    requires AllDigits(s)
    ensures HasDigit(s) <==> |s| > 0
  {
    if |s| > 0 {
      assert IsDigit(s[0]);
    }
  }

  /** An unsigned decimal literal is a string of digits with at most one '.' and at
      least one digit. */
  lemma {:induction false} UnsignedShape(s: string)
    ensures IsUnsignedLiteral(s) <==> DigitsOrDots(s) && Count(s, '.') <= 1 && HasDigit(s)
  {
    var i := DotIndex(s);
    if i == |s| {
      assert '.' !in s;
      CountZero(s, '.');
      NoDotDigits(s);
      if AllDigits(s) {
        AllDigitsHasDigit(s);
      }
    } else {
      var a, b := s[..i], s[i + 1..];
      assert s == a + "." + b;
      DottedShape(a, b);
    }
  }

  lemma {:induction false} DottedShape(a: string, b: string)
    requires '.' !in a
    ensures var s := a + "." + b;
      (|s| > 1 && AllDigits(a) && AllDigits(b)) <==> DigitsOrDots(s) && Count(s, '.') <= 1 && HasDigit(s)
  {
    var s := a + "." + b;
    CountAppend(a + ".", b, '.');
    CountAppend(a, ".", '.');
    CountZero(a, '.');
    CountZero(b, '.');
    HasDigitAppend(a + ".", b);
    HasDigitAppend(a, ".");
    assert !HasDigit(".");
    NoDotDigits(a);
    assert DigitsOrDots(s) <==> DigitsOrDots(a) && DigitsOrDots(b) by {
      assert forall j :: 0 <= j < |a| ==> s[j] == a[j];
      assert forall j :: 0 <= j < |b| ==> s[|a| + 1 + j] == b[j];
    }
    if Count(b, '.') == 0 {
      NoDotDigits(b);
    }
    if AllDigits(a) && AllDigits(b) {
      AllDigitsHasDigit(a);
      AllDigitsHasDigit(b);
    }
  }

  // The comma rules, stated on the input.

  /** With a '.' present, commas make no difference at all. */
  lemma {:induction false} DotMakesCommasIgnored(input: string)
    requires '.' in MoneyChars(input)
    ensures ParseMoney(input) == ParseMoney(Filter(input, NotComma))
  {
    var input' := Filter(input, NotComma);
    MoneyCharsIgnoreTrim(input);
    MoneyCharsIgnoreTrim(input');
    FilterCommute(input, NotComma, IsMoneyChar);
    var s := MoneyChars(input);
    var s' := MoneyChars(input');
    assert s' == Filter(s, NotComma);
    assert '.' in s';
    assert ',' !in s';
    if ',' !in s {
      FilterAll(s, NotComma);
    }
  }

  /** With no '.' and a single comma, the comma is the decimal point. */
  lemma {:induction false} SingleCommaIsDecimalPoint(input: string)
    requires Count(MoneyChars(input), ',') == 1 && '.' !in MoneyChars(input)
    ensures ParseMoney(input) == ParseMoney(ReplaceFirst(input, ',', '.'))
  {
    var input' := ReplaceFirst(input, ',', '.');
    MoneyCharsIgnoreTrim(input);
    MoneyCharsIgnoreTrim(input');
    FilterReplace(input, ',', '.');
    var s := MoneyChars(input);
    CountZero(s, ',');
    var s' := MoneyChars(input');
    assert s' == ReplaceFirst(s, ',', '.');
    CountZero(s', ',');
    CountZero(s, '.');
    CountZero(s', '.');
  }

  /** With no '.' and two or more commas only the first becomes a point: NaN. */
  lemma {:induction false} SeveralCommasAreNaN(input: string)
    requires Count(MoneyChars(input), ',') >= 2 && '.' !in MoneyChars(input)
    ensures ParseMoney(input) == NaN
  {
    var s := MoneyChars(input);
    CountZero(s, ',');
    var t := ReplaceFirst(s, ',', '.');
    CountZero(t, ',');
    NotShapedWith(t, ',');
  }

  /** Two or more points can never be read: NaN. */
  lemma {:induction false} SeveralPointsAreNaN(input: string)
    requires Count(MoneyChars(input), '.') >= 2
    ensures ParseMoney(input) == NaN
  {
    var s := MoneyChars(input);
    CountZero(s, '.');
    if ',' in s {
      FilterKeepsCount(s, NotComma, '.');
    }
  }

  lemma {:induction false} NotShapedWith(t: string, c: char)
    requires c in t && !IsDigit(c) && c != '.' && c != '-'
    ensures !MoneyShaped(t)
  {
    var i :| 0 <= i < |t| && t[i] == c;
    if |t| > 0 && t[0] == '-' {
      assert t[1..][i - 1] == c;
    }
  }

  lemma {:induction false} MoneyCharsIgnoreTrim(input: string)
    ensures MoneyChars(input) == Filter(input, IsMoneyChar)
  {
    var a := TrimStart(input);
    DropSpacesBefore(input, |input| - |a|);
    DropSpacesAfter(a, |TrimEnd(a)|);
  }

  lemma {:induction false} DropSpacesBefore(s: string, k: nat)
    requires k <= |s| && forall i :: 0 <= i < k ==> IsSpace(s[i])
    ensures Filter(s, IsMoneyChar) == Filter(s[k..], IsMoneyChar)
  {
    assert s == s[..k] + s[k..];
    FilterAppend(s[..k], s[k..], IsMoneyChar);
    SpacesAreNotMoney(s[..k]);
  }

  lemma {:induction false} DropSpacesAfter(s: string, k: nat)
    requires k <= |s| && forall i :: k <= i < |s| ==> IsSpace(s[i])
    ensures Filter(s, IsMoneyChar) == Filter(s[..k], IsMoneyChar)
  {
    assert s == s[..k] + s[k..];
    FilterAppend(s[..k], s[k..], IsMoneyChar);
    SpacesAreNotMoney(s[k..]);
  }

  lemma {:induction false} SpacesAreNotMoney(s: string)
    requires forall i :: 0 <= i < |s| ==> IsSpace(s[i])
    ensures Filter(s, IsMoneyChar) == ""
  {
    forall i | 0 <= i < |s|
      ensures !IsMoneyChar(s[i])
    {
      assert IsSpace(s[i]);
    }
    FilterNone(s, IsMoneyChar);
  }

  lemma {:induction false} FilterReplace(s: string, c: char, d: char)
    requires IsMoneyChar(c) && IsMoneyChar(d)
    ensures Filter(ReplaceFirst(s, c, d), IsMoneyChar) == ReplaceFirst(Filter(s, IsMoneyChar), c, d)
  {
    if |s| > 0 && s[0] != c {
      FilterReplace(s[1..], c, d);
    }
  }

  lemma {:induction false} FilterKeepsCount(s: string, keep: char -> bool, c: char)
    requires keep(c)
    ensures Count(Filter(s, keep), c) == Count(s, c)
  {
    if |s| > 0 {
      FilterKeepsCount(s[1..], keep, c);
      if keep(s[0]) {
        assert ([s[0]] + Filter(s[1..], keep))[1..] == Filter(s[1..], keep);
      }
    }
  }

  // ---- sanitizeText ----

  /** Every whitespace character is a plain space. */
  predicate PlainSpaces(s: string) {
    forall i :: 0 <= i < |s| && IsSpace(s[i]) ==> s[i] == ' '
  }

  /** No two whitespace characters are adjacent. */
  ghost predicate NoDoubleSpace(s: string) {
    forall i, j :: 0 <= i && j == i + 1 && j < |s| ==> !IsSpace(s[i]) || !IsSpace(s[j])
  }

  lemma {:induction false} NonSpaceSkips(s: string, k: nat)
    requires k <= |s| && forall i :: 0 <= i < k ==> IsSpace(s[i])
    ensures NonSpace(s) == NonSpace(s[k..])
  {
    assert s == s[..k] + s[k..];
    FilterAppend(s[..k], s[k..], NotSpace);
    FilterNone(s[..k], NotSpace);
  }

  lemma {:induction false} NonSpaceCons(c: char, s: string)
    ensures NonSpace([c] + s) == (if IsSpace(c) then "" else [c]) + NonSpace(s)
  {
    assert ([c] + s)[1..] == s;
  }

  /** `s.replace(/\s+/g, ' ')`: every run of whitespace becomes one plain space. */
  function Collapse(s: string): (r: string)
    decreases |s|
    ensures |r| <= |s|
    ensures |s| > 0 ==> |r| > 0 && r[0] == (if IsSpace(s[0]) then ' ' else s[0])
  {
    if |s| == 0 then ""
    else if IsSpace(s[0]) then " " + Collapse(TrimStart(s))
    else [s[0]] + Collapse(s[1..])
  }

  /** A visible first character passes through collapsing unchanged. */
  lemma {:induction false} CollapseVisible(s: string)
    requires |s| > 0 && !IsSpace(s[0])
    ensures Collapse(s) == [s[0]] + Collapse(s[1..])
  {
  }

  /** A leading run of `k` whitespace characters becomes one plain space. */
  lemma {:induction false} CollapseRun(s: string, k: nat)
    requires 0 < k <= |s| && forall i :: 0 <= i < k ==> IsSpace(s[i])
    requires k == |s| || !IsSpace(s[k])
    ensures Collapse(s) == " " + Collapse(s[k..])
  {
    assert s == s[..k] + s[k..];
    TrimStartRun(s[..k], s[k..]);
  }

  lemma {:induction false} CollapseLast(s: string)
    requires |s| > 0
    ensures var r := Collapse(s);
      r[|r| - 1] == (if IsSpace(s[|s| - 1]) then ' ' else s[|s| - 1])
  {
    if IsSpace(s[0]) {
      var t := TrimStart(s);
      if |t| > 0 {
        CollapseLast(t);
      }
    } else if |s| > 1 {
      CollapseLast(s[1..]);
    }
  }

  lemma {:induction false} CollapseShape(s: string)
    ensures PlainSpaces(Collapse(s)) && NoDoubleSpace(Collapse(s))
  {
    if |s| > 0 {
      var t := if IsSpace(s[0]) then TrimStart(s) else s[1..];
      CollapseShape(t);
      var c := Collapse(t);
      var r := Collapse(s);
      assert r == [r[0]] + c;
      assert IsSpace(s[0]) && |c| > 0 ==> !IsSpace(c[0]);
      forall i | 0 <= i < |r| - 1
        ensures !IsSpace(r[i]) || !IsSpace(r[i + 1])
      {
        if i > 0 {
          assert r[i] == c[i - 1] && r[i + 1] == c[i];
        }
      }
      forall i | 0 <= i < |r| && IsSpace(r[i])
        ensures r[i] == ' '
      {
        if i > 0 {
          assert r[i] == c[i - 1];
        }
      }
    }
  }

  /** Collapsing keeps every visible character, in order. */
  lemma {:induction false} CollapseNonSpace(s: string)
    ensures NonSpace(Collapse(s)) == NonSpace(s)
  {
    if |s| > 0 {
      if IsSpace(s[0]) {
        var t := TrimStart(s);
        NonSpaceSkips(s, |s| - |t|);
        CollapseNonSpace(t);
        NonSpaceCons(' ', Collapse(t));
      } else {
        CollapseNonSpace(s[1..]);
        NonSpaceCons(s[0], Collapse(s[1..]));
        NonSpaceCons(s[0], s[1..]);
        assert [s[0]] + s[1..] == s;
      }
    }
  }

  lemma {:induction false} SliceShape(s: string, i: nat, j: nat)
    requires i <= j <= |s| && PlainSpaces(s) && NoDoubleSpace(s)
    ensures PlainSpaces(s[i..j]) && NoDoubleSpace(s[i..j])
  {
    assert forall k :: 0 <= k < j - i ==> s[i..j][k] == s[i + k];
  }

  /** `s.replace(/\s+/g, ' ').trim()`. */
  function Squeeze(s: string): (r: string)
    ensures r == [] || (!IsSpace(r[0]) && !IsSpace(r[|r| - 1]))
  {
    Trim(Collapse(s))
  }

  /** After squeezing, whitespace is single plain spaces between visible characters,
      and every visible character is still there, in order. */
  lemma {:induction false} SqueezeShape(s: string)
    ensures PlainSpaces(Squeeze(s)) && NoDoubleSpace(Squeeze(s))
    ensures NonSpace(Squeeze(s)) == NonSpace(s)
  {
    SqueezePlain(s);
    CollapseNonSpace(s);
    TrimNonSpace(Collapse(s));
  }

  lemma {:induction false} SqueezePlain(s: string)
    ensures PlainSpaces(Squeeze(s)) && NoDoubleSpace(Squeeze(s))
  {
    var c := Collapse(s);
    var a := TrimStart(c);
    var r := TrimEnd(a);
    assert Squeeze(s) == r;
    CollapseShape(s);
    assert PlainSpaces(a) && NoDoubleSpace(a) by {
      SuffixShape(c, |c| - |a|);
    }
    assert PlainSpaces(r) && NoDoubleSpace(r) by {
      PrefixShape(a, |r|);
    }
  }

  lemma {:induction false} SuffixShape(s: string, k: nat)
    requires k <= |s| && PlainSpaces(s) && NoDoubleSpace(s)
    ensures PlainSpaces(s[k..]) && NoDoubleSpace(s[k..])
  {
    assert forall i :: 0 <= i < |s| - k ==> s[k..][i] == s[k + i];
  }

  lemma {:induction false} PrefixShape(s: string, k: nat)
    requires k <= |s| && PlainSpaces(s) && NoDoubleSpace(s)
    ensures PlainSpaces(s[..k]) && NoDoubleSpace(s[..k])
  {
    assert forall i :: 0 <= i < k ==> s[..k][i] == s[i];
  }

  lemma {:induction false} TrimNonSpace(c: string)
    ensures NonSpace(Trim(c)) == NonSpace(c)
  {
    var a := TrimStart(c);
    NonSpaceSkips(c, |c| - |a|);
    NonSpaceDropsEnd(a, |TrimEnd(a)|);
  }

  lemma {:induction false} NonSpaceDropsEnd(a: string, k: nat)
    requires k <= |a| && forall i :: k <= i < |a| ==> IsSpace(a[i])
    ensures NonSpace(a) == NonSpace(a[..k])
  {
    assert a == a[..k] + a[k..];
    FilterAppend(a[..k], a[k..], NotSpace);
    FilterNone(a[k..], NotSpace);
  }

  /** `sanitizeText(s, max)` for a string `s` and a non-negative `max`: whitespace runs
      collapsed, ends trimmed, then cut to `max` characters. The cut comes after the
      trim, so the result can end in a space. */
  function SanitizeText(s: string, max: nat): (r: string)
    ensures |r| <= max && IsPrefix(r, Squeeze(s))
    ensures |Squeeze(s)| <= max ==> r == Squeeze(s)
    ensures r == [] || !IsSpace(r[0])
  {
    Take(Squeeze(s), max)
  }

  /** What sanitizing keeps: single plain spaces, and a leading part of the visible
      characters. */
  lemma {:induction false} SanitizeShape(s: string, max: nat)
    ensures PlainSpaces(SanitizeText(s, max)) && NoDoubleSpace(SanitizeText(s, max))
    ensures IsPrefix(NonSpace(SanitizeText(s, max)), NonSpace(s))
  {
    SqueezeShape(s);
    SanitizePlain(s, max);
    PrefixNonSpace(SanitizeText(s, max), Squeeze(s));
  }

  lemma {:induction false} SanitizePlain(s: string, max: nat)
    requires PlainSpaces(Squeeze(s)) && NoDoubleSpace(Squeeze(s))
    ensures PlainSpaces(SanitizeText(s, max)) && NoDoubleSpace(SanitizeText(s, max))
  {
    var q := Squeeze(s);
    PrefixShape(q, |SanitizeText(s, max)|);
  }

  /** The visible characters of a prefix are a prefix of the visible characters. */
  lemma {:induction false} PrefixNonSpace(r: string, q: string)
    requires IsPrefix(r, q)
    ensures IsPrefix(NonSpace(r), NonSpace(q))
  {
    assert q == r + q[|r|..];
    FilterAppend(r, q[|r|..], NotSpace);
  }

  /** Collapsing text that already has single plain spaces changes nothing. */
  lemma {:induction false} CollapseFixed(s: string)
    requires PlainSpaces(s) && NoDoubleSpace(s)
    ensures Collapse(s) == s
  {
    if |s| > 0 {
      var t := s[1..];
      SliceShape(s, 1, |s|);
      CollapseFixed(t);
      if IsSpace(s[0]) {
        assert |t| == 0 || !IsSpace(t[0]) by {
          if |t| > 0 {
            assert t[0] == s[1];
          }
        }
        assert TrimStart(s) == t;
      }
      assert [s[0]] + t == s;
    }
  }

  /** Sanitizing twice is sanitizing once, unless the first cut left a trailing space. */
  lemma {:induction false} SanitizeIdempotent(s: string, max: nat)
    requires SanitizeText(s, max) == [] || !IsSpace(SanitizeText(s, max)[|SanitizeText(s, max)| - 1])
    ensures SanitizeText(SanitizeText(s, max), max) == SanitizeText(s, max)
  {
    var r := SanitizeText(s, max);
    SanitizeShape(s, max);
    CollapseFixed(r);
    TrimKeeps(r);
  }

  // ---- assertTxnShape ----

  datatype Check = Ok | Invalid(msg: string)

  /** `/^\d{4}-\d{2}-\d{2}$/`: the shape of a date, not its validity. */
  predicate IsIsoDate(d: string) {
    && |d| == 10
    && IsDigit(d[0]) && IsDigit(d[1]) && IsDigit(d[2]) && IsDigit(d[3])
    && d[4] == '-' && IsDigit(d[5]) && IsDigit(d[6])
    && d[7] == '-' && IsDigit(d[8]) && IsDigit(d[9])
  }

  /** One of the checks `assertTxnShape` makes, with the message it fails with. */
  datatype Rule = Rule(holds: bool, msg: string)

  /** The checks in the order they are made. */
  function Rules(t: Txn): seq<Rule> {
    [ Rule(IsIsoDate(t.date), "Invalid date"),
      Rule(t.kind == Income || t.kind == Expense, "Invalid type"),
      Rule(t.amount.Dec?, "Invalid amount"),
      Rule(t.kind != Income || t.savings.Dec?, "Invalid savings"),
      Rule(t.category != "", "Category required"),
      Rule(t.note != "", "Note required") ]
  }

  /** `assertTxnShape`. */
  function AssertTxnShape(txn: Option<Txn>): (r: Check)
    ensures txn.None? ==> r == Invalid("Missing transaction")
    ensures r.Ok? <==>
      && txn.Some?
      && IsIsoDate(txn.value.date)
      && (txn.value.kind == Income || txn.value.kind == Expense)
      && txn.value.amount.Dec?
      && (txn.value.kind == Income ==> txn.value.savings.Dec?)
      && txn.value.category != ""
      && txn.value.note != ""
    ensures txn.Some? && r.Invalid? ==>
      var rules := Rules(txn.value);
      exists k :: 0 <= k < |rules| && !rules[k].holds && r.msg == rules[k].msg
        && forall j :: 0 <= j < k ==> rules[j].holds
  {
    if txn.None? then Invalid("Missing transaction")
    else
      var t := txn.value;
      var rules := Rules(t);
      if !IsIsoDate(t.date) then
        assert !rules[0].holds;
        Invalid("Invalid date")
      else if t.kind != Income && t.kind != Expense then
        assert !rules[1].holds;
        Invalid("Invalid type")
      else if !t.amount.Dec? then
        assert !rules[2].holds;
        Invalid("Invalid amount")
      else if t.kind == Income && !t.savings.Dec? then
        assert !rules[3].holds;
        Invalid("Invalid savings")
      else if t.category == "" then
        assert !rules[4].holds;
        Invalid("Category required")
      else if t.note == "" then
        assert !rules[5].holds;
        Invalid("Note required")
      else Ok
  }

  /** A record that passes the shape check. */
  predicate WellShaped(t: Txn) {
    AssertTxnShape(Some(t)).Ok?
  }

  // ---- niceCeil ----

  /** `Math.floor(Math.log10(m))` for a whole number `m >= 1`: the number of digits less one. */
  function Magnitude(m: nat): (k: nat)
    requires m >= 1
    ensures Pow10(k) <= m < 10 * Pow10(k)
  {
    if m < 10 then 0
    else
      var k := Magnitude(m / 10);
      assert 10 * Pow10(k) <= m by { MulLe(Pow10(k), m / 10, 10); }
      assert m < 100 * Pow10(k) by { MulLe(m / 10 + 1, 10 * Pow10(k), 10); }
      k + 1
  }

  lemma {:induction false} MulLe(a: int, b: int, c: nat)
    requires a <= b
    ensures c * a <= c * b
  {
  }

  /** The power of ten at or just below `n`. */
  function Scale(n: real): (p: real)
    requires n >= 1.0
    ensures p >= 1.0 && p <= n < 10.0 * p
  {
    var k := Magnitude(n.Floor);
    Pow10(k) as real
  }

  /** The steps `niceCeil` tries, in order. */
  const Steps: seq<real> := [1.0, 2.0, 5.0, 10.0]

  /** `niceCeil`: the axis bound of the trend chart. At most 10 gives 10; above that,
      the first of 1, 2, 5, 10 times the scale of `n` that reaches `n`. */
  function NiceCeil(n: real): (r: real)
    ensures r >= n && r >= 10.0
    ensures n <= 10.0 ==> r == 10.0
    ensures n > 10.0 ==> r < 2.5 * n
    ensures n > 10.0 ==> exists i :: 0 <= i < |Steps| && r == Steps[i] * Scale(n)
    ensures n > 10.0 ==> forall i :: 0 <= i < |Steps| && n <= Steps[i] * Scale(n) ==> r <= Steps[i] * Scale(n)
  {
    if n <= 10.0 then 10.0 else StepUp(n, Scale(n))
  }

  /** The first of 1, 2, 5, 10 times `p` that reaches `n`, where `p` is the scale of `n`. */
  function StepUp(n: real, p: real): (r: real)
    requires 1.0 <= p <= n < 10.0 * p
    ensures r >= n && r < 2.5 * n
    ensures exists i :: 0 <= i < |Steps| && r == Steps[i] * p
    ensures forall i :: 0 <= i < |Steps| && n <= Steps[i] * p ==> r <= Steps[i] * p
  {
    var d := n / p;
    StepTest(n, p, 1.0);
    StepTest(n, p, 2.0);
    StepTest(n, p, 5.0);
    StepTest(n, p, 10.0);
    assert Steps[0] == 1.0 && Steps[1] == 2.0 && Steps[2] == 5.0 && Steps[3] == 10.0;
    if d <= 1.0 then 1.0 * p
    else if d <= 2.0 then 2.0 * p
    else if d <= 5.0 then 5.0 * p
    else if d <= 10.0 then 10.0 * p
    else 10.0 * p
  }

  lemma {:induction false} StepTest(n: real, p: real, b: real)
    requires p > 0.0
    ensures n / p <= b <==> n <= b * p
  {
    assert n == (n / p) * p;
  }

  /** The scale is the only power of ten in `(n/10, n]`. */
  lemma {:induction false} ScaleUnique(n: real, k: nat)
    requires n >= 1.0 && Pow10(k) as real <= n < 10.0 * Pow10(k) as real
    ensures Scale(n) == Pow10(k) as real
  {
    var j := Magnitude(n.Floor);
    assert Pow10(k) <= n.Floor < 10 * Pow10(k);
    if j < k {
      Pow10Grows(j + 1, k);
    } else if k < j {
      Pow10Grows(k + 1, j);
    }
  }

  lemma {:induction false} Pow10Grows(a: nat, b: nat)
    requires a <= b
    ensures Pow10(a) <= Pow10(b)
  {
    if a < b {
      Pow10Grows(a, b - 1);
    }
  }

  // ---- escapeHTML ----

  function EscapeChar(c: char): string {
    match c
    case '&' => "&amp;"
    case '<' => "&lt;"
    case '>' => "&gt;"
    case '"' => "&quot;"
    case '\'' => "&#39;"
    case _ => [c]
  }

  predicate IsMarkup(c: char) {
    c == '&' || c == '<' || c == '>' || c == '"' || c == '\''
  }

  /** `escapeHTML` on a string. */
  function EscapeHtml(s: string): (r: string)
    ensures |r| >= |s|
    ensures forall i :: 0 <= i < |r| ==> r[i] != '<' && r[i] != '>' && r[i] != '"' && r[i] != '\''
  {
    if |s| == 0 then ""
    else EscapeChar(s[0]) + EscapeHtml(s[1..])
  }

  /** Reads the five entities back. */
  function Unescape(s: string): string
    decreases |s|
  {
    if |s| == 0 then ""
    else if IsPrefix("&amp;", s) then "&" + Unescape(s[5..])
    else if IsPrefix("&lt;", s) then "<" + Unescape(s[4..])
    else if IsPrefix("&gt;", s) then ">" + Unescape(s[4..])
    else if IsPrefix("&quot;", s) then "\"" + Unescape(s[6..])
    else if IsPrefix("&#39;", s) then "'" + Unescape(s[5..])
    else [s[0]] + Unescape(s[1..])
  }

  lemma {:induction false} UnescapeChar(c: char, t: string)
    ensures Unescape(EscapeChar(c) + t) == [c] + Unescape(t)
  {
    var e := EscapeChar(c) + t;
    assert e[..|EscapeChar(c)|] == EscapeChar(c);
    assert e[|EscapeChar(c)|..] == t;
    if !IsMarkup(c) {
      assert e[0] == c && e[1..] == t;
      assert !IsPrefix("&amp;", e) && !IsPrefix("&lt;", e) && !IsPrefix("&gt;", e);
      assert !IsPrefix("&quot;", e) && !IsPrefix("&#39;", e);
    } else if c == '<' {
      assert !IsPrefix("&amp;", e) by { assert e[1] == 'l'; }
    } else if c == '>' {
      assert !IsPrefix("&amp;", e) by { assert e[1] == 'g'; }
      assert !IsPrefix("&lt;", e) by { assert e[1] == 'g'; }
    } else if c == '"' {
      assert !IsPrefix("&amp;", e) by { assert e[1] == 'q'; }
      assert !IsPrefix("&lt;", e) by { assert e[1] == 'q'; }
      assert !IsPrefix("&gt;", e) by { assert e[1] == 'q'; }
    } else if c == '\'' {
      assert !IsPrefix("&amp;", e) by { assert e[1] == '#'; }
      assert !IsPrefix("&lt;", e) by { assert e[1] == '#'; }
      assert !IsPrefix("&gt;", e) by { assert e[1] == '#'; }
      assert !IsPrefix("&quot;", e) by { assert e[1] == '#'; }
    }
  }

  /** Escaping loses nothing: the entities read back to the original text. */
  lemma {:induction false} EscapeRoundTrip(s: string)
    ensures Unescape(EscapeHtml(s)) == s
  {
    if |s| > 0 {
      EscapeRoundTrip(s[1..]);
      UnescapeChar(s[0], EscapeHtml(s[1..]));
      assert [s[0]] + s[1..] == s;
    }
  }

  /** Text with none of the five characters is left as it is. */
  lemma {:induction false} EscapeNothing(s: string)
    requires forall i :: 0 <= i < |s| ==> !IsMarkup(s[i])
    ensures EscapeHtml(s) == s
  {
    if |s| > 0 {
      EscapeNothing(s[1..]);
      assert [s[0]] + s[1..] == s;
    }
  }
}

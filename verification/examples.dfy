/** The helpers of `utils.js` on concrete inputs, each worked out step by step. */
module Examples {
  import opened Text
  import opened Numbers
  import opened Utils
  import opened Txns

  lemma {:induction false} AllMoney(s: string)
    requires forall i :: 0 <= i < |s| ==> IsMoneyChar(s[i])
    ensures MoneyChars(s) == s
  {
    FilterAll(s, IsMoneyChar);
    MoneyCharsIgnoreTrim(s);
  }

  /** Text with no digit, separator or minus sign parses as zero. */
  lemma {:induction false} NothingToParse(s: string)
    requires forall i :: 0 <= i < |s| ==> 'a' <= s[i] <= 'z'
    ensures ParseMoney(s) == Zero
  {
    forall i | 0 <= i < |s|
      ensures !IsMoneyChar(s[i])
    {
    }
    FilterNone(s, IsMoneyChar);
    MoneyCharsIgnoreTrim(s);
  }

  lemma {:induction false} EmptyIsZero()
    ensures ParseMoney("") == Zero && ParseMoney("abc") == Zero
  {
    NothingToParse("");
    NothingToParse("abc");
  }

  // "12,5": the only comma is the decimal point.

  lemma {:induction false} CommaPointChars()
    ensures MoneyChars("12,5") == "12,5"
  {
    var s := "12,5";
    assert forall i :: 0 <= i < |s| ==> IsMoneyChar(s[i]) by {
      assert s == ['1', '2', ',', '5'];
    }
    AllMoney(s);
  }

  lemma {:induction false} CommaPointReplace()
    ensures ReplaceFirst("12,5", ',', '.') == "12.5"
  {
  }

  lemma {:induction false} CommaPointText()
    ensures MoneyText("12,5") == "12.5"
  {
    var s := "12,5";
    assert ',' in s && '.' !in s by {
      assert s[2] == ',';
      CountZero(s, '.');
    }
    CommaPointChars();
    CommaPointReplace();
  }

  lemma {:induction false} CommaPointValue()
    ensures MoneyShaped("12.5") && MoneyValue("12.5") == 12.5
  {
    var t := "12.5";
    assert Count(t, '.') == 1;
    assert IsDigit(t[0]);
    assert DotIndex(t) == 2;
    assert t[..2] == "12" && t[3..] == "5";
    assert DigitsValue("12") == 12 by { assert "12"[..1] == "1"; }
    assert Scaled(5.0, 1) == 0.5;
  }

  lemma {:induction false} CommaAsPoint()
    ensures ParseMoney("12,5").Dec? && Value(ParseMoney("12,5")) == 12.5
  {
    CommaPointText();
    CommaPointValue();
  }

  // "1,2.5": with a point present the comma is a thousands separator.

  lemma {:induction false} ThousandsChars()
    ensures MoneyChars("1,2.5") == "1,2.5"
  {
    var s := "1,2.5";
    assert forall i :: 0 <= i < |s| ==> IsMoneyChar(s[i]) by {
      assert s == ['1', ',', '2', '.', '5'];
    }
    AllMoney(s);
  }

  lemma {:induction false} ThousandsFilter()
    ensures Filter("1,2.5", NotComma) == "12.5"
  {
    assert "1,2.5" == "1," + "2.5";
    assert Filter("1,", NotComma) == "1";
    FilterAll("2.5", NotComma);
    FilterAppend("1,", "2.5", NotComma);
  }

  lemma {:induction false} ThousandsText()
    ensures MoneyText("1,2.5") == "12.5"
  {
    var s := "1,2.5";
    ThousandsChars();
    ThousandsFilter();
    assert ',' in s && '.' in s by { assert s[1] == ',' && s[3] == '.'; }
  }

  lemma {:induction false} CommaAsThousands()
    ensures ParseMoney("1,2.5").Dec? && Value(ParseMoney("1,2.5")) == 12.5
  {
    ThousandsText();
    CommaPointValue();
  }

  // "1.2,5": the comma is dropped, leaving the point where it was.

  lemma {:induction false} EuropeanChars()
    ensures MoneyChars("1.2,5") == "1.2,5"
  {
    var s := "1.2,5";
    assert forall i :: 0 <= i < |s| ==> IsMoneyChar(s[i]) by {
      assert s == ['1', '.', '2', ',', '5'];
    }
    AllMoney(s);
  }

  lemma {:induction false} EuropeanFilter()
    ensures Filter("1.2,5", NotComma) == "1.25"
  {
    assert "1.2,5" == "1.2" + ",5";
    FilterAll("1.2", NotComma);
    assert Filter(",5", NotComma) == "5";
    FilterAppend("1.2", ",5", NotComma);
  }

  lemma {:induction false} EuropeanText()
    ensures MoneyText("1.2,5") == "1.25"
  {
    var s := "1.2,5";
    EuropeanChars();
    EuropeanFilter();
    assert ',' in s && '.' in s by { assert s[1] == '.' && s[3] == ','; }
  }

  lemma {:induction false} EuropeanValue()
    ensures MoneyShaped("1.25") && MoneyValue("1.25") == 1.25
  {
    var t := "1.25";
    assert Count(t, '.') == 1;
    assert IsDigit(t[0]);
    assert DotIndex(t) == 1;
    assert t[..1] == "1" && t[2..] == "25";
    assert DigitsValue("25") == 25 by { assert "25"[..1] == "2"; }
    assert Scaled(25.0, 2) == 0.25 by { assert Scaled(25.0, 1) == 2.5; }
  }

  lemma {:induction false} CommaDroppedAfterPoint()
    ensures ParseMoney("1.2,5").Dec? && Value(ParseMoney("1.2,5")) == 1.25
  {
    EuropeanText();
    EuropeanValue();
  }

  // "1,2,3": the second comma survives the replacement.

  lemma {:induction false} ThreeGroupsChars()
    ensures MoneyChars("1,2,3") == "1,2,3"
  {
    var s := "1,2,3";
    assert forall i :: 0 <= i < |s| ==> IsMoneyChar(s[i]) by {
      assert s == ['1', ',', '2', ',', '3'];
    }
    AllMoney(s);
  }

  lemma {:induction false} ThreeGroupsCount()
    ensures Count("1,2,3", ',') == 2
  {
    assert "1,2,3" == "1," + "2,3";
    assert Count("1,", ',') == 1 && Count("2,3", ',') == 1;
    CountAppend("1,", "2,3", ',');
  }

  lemma {:induction false} ThreeGroups()
    ensures ParseMoney("1,2,3") == NaN
  {
    var s := "1,2,3";
    ThreeGroupsChars();
    ThreeGroupsCount();
    ThreeGroupsNoPoint();
    SeveralCommasAreNaN(s);
  }

  lemma {:induction false} ThreeGroupsNoPoint()
    ensures '.' !in "1,2,3"
  {
    CountZero("1,2,3", '.');
  }

  // sanitizeText: a cut can leave a trailing space, which a second pass trims. Stated
  // for any two visible characters `a` and `b`.

  lemma {:induction false} CollapseInner(a: char, b: char)
    requires !IsSpace(a) && !IsSpace(b)
    ensures Collapse([a, ' ', ' ', b]) == [a, ' ', b]
  {
    var s := [a, ' ', ' ', b];
    assert Collapse(s[1..]) == [' ', b] by {
      CollapseRun(s[1..], 2);
      assert s[1..][2..] == [b];
      CollapseVisible([b]);
      assert [b][1..] == [];
    }
    CollapseVisible(s);
  }

  lemma {:induction false} CollapseEnd(a: char)
    requires !IsSpace(a)
    ensures Collapse([a, ' ']) == [a, ' ']
  {
    var s := [a, ' '];
    assert Collapse(s[1..]) == [' '] by {
      CollapseRun(s[1..], 1);
    }
    CollapseVisible(s);
  }

  lemma {:induction false} SqueezeInner(a: char, b: char)
    requires !IsSpace(a) && !IsSpace(b)
    ensures Squeeze([a, ' ', ' ', b]) == [a, ' ', b]
  {
    CollapseInner(a, b);
    TrimKeeps([a, ' ', b]);
  }

  lemma {:induction false} SqueezeEnd(a: char)
    requires !IsSpace(a)
    ensures Squeeze([a, ' ']) == [a]
  {
    var s := [a, ' '];
    CollapseEnd(a);
    assert TrimStart(s) == s;
    assert TrimEnd(s) == [a] by {
      assert s[..1] == [a];
    }
  }

  lemma {:induction false} SanitizeCutLeavesSpace(a: char, b: char)
    requires !IsSpace(a) && !IsSpace(b)
    ensures SanitizeText([a, ' ', ' ', b], 2) == [a, ' ']
  {
    SqueezeInner(a, b);
    assert [a, ' ', b][..2] == [a, ' '];
  }

  lemma {:induction false} SanitizeTrimsEnd(a: char)
    requires !IsSpace(a)
    ensures SanitizeText([a, ' '], 2) == [a]
  {
    SqueezeEnd(a);
  }

  // niceCeil: the first of 1, 2, 5, 10 times the scale.

  lemma {:induction false} NiceCeilExamples()
    ensures NiceCeil(7.0) == 10.0
    ensures NiceCeil(23.0) == 50.0
    ensures NiceCeil(100.0) == 100.0
    ensures NiceCeil(120.0) == 200.0
  {
    ScaleUnique(23.0, 1);
    ScaleUnique(100.0, 2);
    ScaleUnique(120.0, 2);
  }

  // assertTxnShape checks the date's shape only, and savings only on income.

  lemma {:induction false} ShapeExamples()
    ensures WellShaped(Txn("", "2024-02-31", "rent", Expense, "Home", Dec(5, 0), NaN))
    ensures AssertTxnShape(Some(Txn("", "2024-2-1", "rent", Expense, "Home", Dec(5, 0), NaN)))
      == Invalid("Invalid date")
    ensures AssertTxnShape(Some(Txn("", "2024-02-01", "pay", Income, "Job", Dec(5, 0), NaN)))
      == Invalid("Invalid savings")
    ensures AssertTxnShape(Some(Txn("", "2024-02-01", "", Income, "", NaN, NaN)))
      == Invalid("Invalid amount")
  {
  }
}

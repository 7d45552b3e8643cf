/** The two forms of `app.js` that write to the store: the transaction form, whose
    submit builds a record from the fields, checks its shape and saves it, and the
    budget box, whose button stores the month's budget. */
module Forms {
  import opened Text
  import opened Numbers
  import opened Txns
  import opened Utils
  import opened Storage

  /** The transaction form's fields, as text, with `editId` the record being edited. */
  datatype TxnForm = TxnForm(
    editId: Option<string>,
    date: string,
    note: string,
    amount: string,
    kind: string,
    category: string,
    savings: string)

  /** `s || d` on a text field: an empty field stands for `d`. */
  function FieldOr(s: string, d: string): string {
    if s == "" then d else s
  }

  /** An empty savings field reads as zero. */
  lemma {:induction false} ZeroField()
    ensures ParseMoney("0") == Zero
  {
    var s := "0";
    assert MoneyChars(s) == s by {
      assert forall i :: 0 <= i < |s| ==> IsMoneyChar(s[i]) by {
        assert s == ['0'];
      }
      FilterAll(s, IsMoneyChar);
      MoneyCharsIgnoreTrim(s);
    }
    assert ',' !in s by {
      assert s == ['0'];
    }
    assert NumberOf(s) == Zero;
  }

  /** The record the submit handler builds: note and category sanitized to 80 and 40
      characters, the amount parsed, and savings parsed for income only. */
  function BuildTxn(f: TxnForm): (t: Txn)
    ensures f.editId.Some? ==> t.id == f.editId.value
    ensures f.editId.None? ==> t.id == ""
    ensures t.date == f.date && t.kind == f.kind
    ensures |t.note| <= 80 && IsPrefix(t.note, Squeeze(f.note))
    ensures |Squeeze(f.note)| <= 80 ==> t.note == Squeeze(f.note)
    ensures |t.category| <= 40 && IsPrefix(t.category, Squeeze(f.category))
    ensures |Squeeze(f.category)| <= 40 ==> t.category == Squeeze(f.category)
    ensures t.amount == ParseMoney(f.amount)
    ensures t.kind != Income ==> t.savings == Zero
    ensures t.kind == Income && f.savings == "" ==> t.savings == Zero
    ensures t.kind == Income && f.savings != "" ==> t.savings == ParseMoney(f.savings)
  {
    ZeroField();
    Txn(
      if f.editId.Some? then f.editId.value else "",
      f.date,
      SanitizeText(f.note, 80),
      f.kind,
      SanitizeText(f.category, 40),
      ParseMoney(f.amount),
      if f.kind == Income then ParseMoney(FieldOr(f.savings, "0")) else Zero)
  }

  /** Sanitizing to a positive length leaves nothing exactly when squeezing does. */
  lemma {:induction false} SanitizeEmpty(s: string, max: nat)
    requires max > 0
    ensures SanitizeText(s, max) == "" <==> Squeeze(s) == ""
  {
  }

  /** The form passes the shape check exactly when its fields do: a dated, typed entry
      with a readable amount, readable savings on income (an empty field counts as 0),
      and a category and a note that are not all whitespace. */
  lemma {:induction false} FormShape(f: TxnForm)
    ensures AssertTxnShape(Some(BuildTxn(f))).Ok? <==>
      && IsIsoDate(f.date)
      && (f.kind == Income || f.kind == Expense)
      && ParseMoney(f.amount).Dec?
      && (f.kind == Income && f.savings != "" ==> ParseMoney(f.savings).Dec?)
      && Squeeze(f.category) != ""
      && Squeeze(f.note) != ""
  {
    SanitizeEmpty(f.note, 80);
    SanitizeEmpty(f.category, 40);
  }

  /** The submit handler, with `freshId` standing for the value `uid()` returns. A form
      that fails the check leaves the store as it was and reports the check's message;
      one that passes is saved with `upsertTxn`. */
  function Submit(s: Store, f: TxnForm, freshId: string): (r: (Store, Check))
    ensures r.1 == AssertTxnShape(Some(BuildTxn(f)))
    ensures r.1.Invalid? ==> r.0 == s
    ensures r.0.budgets == s.budgets
  {
    var t := BuildTxn(f);
    var check := AssertTxnShape(Some(t));
    if check.Invalid? then (s, check)
    else (UpsertTxn(s, t, freshId).0, check)
  }

  /** A new entry that passes the check is appended under the fresh id. */
  lemma {:induction false} SubmitNew(s: Store, f: TxnForm, freshId: string)
    requires f.editId.None? && WellShaped(BuildTxn(f))
    ensures Submit(s, f, freshId).0.txns == s.txns + [BuildTxn(f).(id := freshId)]
    ensures Submit(s, f, freshId).1 == Ok
  {
  }

  /** An edit that passes the check replaces the record with that id and nothing else. */
  lemma {:induction false} SubmitEdit(s: Store, f: TxnForm, freshId: string, id: string)
    requires f.editId == Some(id) && id != "" && WellShaped(BuildTxn(f))
    ensures var ts := Submit(s, f, freshId).0.txns;
      && |ts| == |s.txns|
      && Ids(ts) == Ids(s.txns)
      && (id in Ids(s.txns) ==> BuildTxn(f) in ts)
      && (forall i :: 0 <= i < |s.txns| && s.txns[i].id != id ==> ts[i] == s.txns[i])
  {
    var t := BuildTxn(f);
    ReplaceFacts(s.txns, t);
  }

  /** Saving an edit whose record has meanwhile been deleted changes nothing: the
      edit is dropped without a message. */
  lemma {:induction false} SubmitEditGone(s: Store, f: TxnForm, freshId: string, id: string)
    requires f.editId == Some(id) && id != "" && id !in Ids(s.txns)
    ensures Submit(s, f, freshId).0 == s
  {
  }

  /** Every record the form stores passes the shape check. */
  lemma {:induction false} SubmitKeepsShape(s: Store, f: TxnForm, freshId: string)
    requires AllShaped(s.txns)
    ensures AllShaped(Submit(s, f, freshId).0.txns)
  {
    var t := BuildTxn(f);
    if WellShaped(t) {
      if t.id != "" {
        ReplaceKeepsShape(s.txns, t);
      } else {
        AppendKeepsShape(s.txns, t.(id := freshId));
      }
    }
  }

  predicate AllShaped(ts: seq<Txn>) {
    forall i :: 0 <= i < |ts| ==> WellShaped(ts[i])
  }

  lemma {:induction false} ReplaceKeepsShape(ts: seq<Txn>, t: Txn)
    requires AllShaped(ts) && WellShaped(t)
    ensures AllShaped(ReplaceById(ts, t))
  {
    var r := ReplaceById(ts, t);
    forall i | 0 <= i < |r|
      ensures WellShaped(r[i])
    {
      if ts[i].id != t.id {
        assert r[i] == ts[i];
      }
    }
  }

  lemma {:induction false} AppendKeepsShape(ts: seq<Txn>, t: Txn)
    requires AllShaped(ts) && WellShaped(t)
    ensures AllShaped(ts + [t])
  {
    var r := ts + [t];
    forall i | 0 <= i < |r|
      ensures WellShaped(r[i])
    {
      if i < |ts| {
        assert r[i] == ts[i];
      }
    }
  }

  /** Ids stay distinct when the fresh id is new. */
  lemma {:induction false} SubmitKeepsIds(s: Store, f: TxnForm, freshId: string)
    requires UniqueIds(s.txns) && freshId != "" && freshId !in Ids(s.txns)
    ensures UniqueIds(Submit(s, f, freshId).0.txns)
  {
  }

  // ---- the budget box ----

  /** The save-budget handler: the month shown, or `today` when none is picked; the
      amount parsed from the box (empty reads as 0), negative or unreadable amounts
      replaced by 0, then stored with `setBudget`. Returns the new store, the month
      and the stored value. */
  function SaveBudget(s: Store, shown: string, today: string, input: string): (r: (Store, string, real))
    ensures r.1 == (if shown == "" then today else shown)
    ensures r.2 >= 0.0 && GetBudget(r.0, r.1) == r.2
    ensures r.0.txns == s.txns
    ensures forall m :: m != r.1 ==> GetBudget(r.0, m) == GetBudget(s, m)
  {
    var month := FieldOr(shown, today);
    var val := ParseMoney(FieldOr(input, "0"));
    var amount := if val.NaN? || Value(val) < 0.0 then Zero else val;
    var (s', stored) := SetBudget(s, month, amount);
    (s', month, stored)
  }

  /** The page's own clamp changes nothing: `setBudget` would store the same value
      from the parsed amount as it is. */
  lemma {:induction false} SaveBudgetClamp(s: Store, shown: string, today: string, input: string)
    ensures var (s', month, stored) := SaveBudget(s, shown, today, input);
      (s', stored) == SetBudget(s, month, ParseMoney(FieldOr(input, "0")))
  {
    assert Value(Zero) == 0.0;
  }

  /** What lands in the budget: the amount typed when it reads as a non-negative
      number, and 0 for an empty box, a negative amount or unreadable text. */
  lemma {:induction false} SaveBudgetValue(s: Store, shown: string, today: string, input: string)
    ensures var val := ParseMoney(input);
      var stored := SaveBudget(s, shown, today, input).2;
      && (input == "" ==> stored == 0.0)
      && (input != "" && val.Dec? && Value(val) >= 0.0 ==> stored == Value(val))
      && (input != "" && val.Dec? && Value(val) < 0.0 ==> stored == 0.0)
      && (val.NaN? ==> stored == 0.0)
  {
    SaveBudgetClamp(s, shown, today, input);
    if input == "" {
      ZeroField();
      assert Value(Zero) == 0.0;
    }
  }
}

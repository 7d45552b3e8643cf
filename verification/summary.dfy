/** The month summary `render` shows for the listed records: the totals, the expense
    categories and the budget bar. Sums are exact; the program adds doubles. */
module Summary {
  import opened Text
  import opened Numbers
  import opened Txns
  import opened Sorting

  /** `Number(t.amount || 0)`: a NaN amount counts as 0. */
  function Amount(t: Txn): real {
    OrZero(t.amount)
  }

  /** `Number(t.savings || 0)`. */
  function Saved(t: Txn): real {
    OrZero(t.savings)
  }

  predicate IsIncome(t: Txn) {
    t.kind == Income
  }

  /** Every record that is not income is spending, whatever its type says. */
  predicate NotIncome(t: Txn) {
    t.kind != Income
  }

  function InCategory(c: string): Txn -> bool {
    (t: Txn) => t.category == c
  }

  /** The sum of the amounts of the records. */
  function SumAmounts(ts: seq<Txn>): real {
    if |ts| == 0 then 0.0 else SumAmounts(ts[..|ts| - 1]) + Amount(ts[|ts| - 1])
  }

  /** The sum of the savings of the records. */
  function SumSavings(ts: seq<Txn>): real {
    if |ts| == 0 then 0.0 else SumSavings(ts[..|ts| - 1]) + Saved(ts[|ts| - 1])
  }

  lemma {:induction false} SumAmountsAppend(a: seq<Txn>, b: seq<Txn>)
    ensures SumAmounts(a + b) == SumAmounts(a) + SumAmounts(b)
  {
    if |b| > 0 {
      var n := |b| - 1;
      assert (a + b)[..|a + b| - 1] == a + b[..n];
      SumAmountsAppend(a, b[..n]);
    } else {
      assert a + b == a;
    }
  }

  lemma {:induction false} SumSavingsAppend(a: seq<Txn>, b: seq<Txn>)
    ensures SumSavings(a + b) == SumSavings(a) + SumSavings(b)
  {
    if |b| > 0 {
      var n := |b| - 1;
      assert (a + b)[..|a + b| - 1] == a + b[..n];
      SumSavingsAppend(a, b[..n]);
    } else {
      assert a + b == a;
    }
  }

  /** The spending of one category: the amounts of the records that are not income and
      carry category `c`, added up. */
  function CategoryTotal(ts: seq<Txn>, c: string): real {
    if |ts| == 0 then 0.0
    else
      var t := ts[|ts| - 1];
      CategoryTotal(ts[..|ts| - 1], c) + (if NotIncome(t) && t.category == c then Amount(t) else 0.0)
  }

  /** The categories of the records, one entry per record. */
  function CategoryColumn(ts: seq<Txn>): (r: seq<string>)
    ensures |r| == |ts|
    ensures forall i :: 0 <= i < |ts| ==> r[i] == ts[i].category
  {
    if |ts| == 0 then [] else CategoryColumn(ts[..|ts| - 1]) + [ts[|ts| - 1].category]
  }

  /** The categories some spending record carries, in the order of their first record.
      The list is sorted before it is shown, so the order `Object.keys` would give (integer-like
      keys first) never reaches the page. */
  function SpendingCategories(ts: seq<Txn>): seq<string> {
    Dedup(CategoryColumn(Filter(ts, NotIncome)))
  }

  datatype Totals = Totals(income: real, expenses: real, savings: real)

  /** The category figures after the first `i` records: `order` lists the categories met so
      far and `cats` holds the spending of each. */
  ghost predicate CategoriesAt(ts: seq<Txn>, i: nat, cats: map<string, real>, order: seq<string>)
    requires i <= |ts|
  {
    && order == SpendingCategories(ts[..i])
    && (forall c :: c in cats <==> c in order)
    && (forall c :: c in cats ==> cats[c] == CategoryTotal(ts[..i], c))
  }

  /** `cats[t.category] = (cats[t.category] || 0) + amt`, with the key order kept beside. */
  function AddSpending(cats: map<string, real>, order: seq<string>, t: Txn): (map<string, real>, seq<string>) {
    var before := if t.category in cats then cats[t.category] else 0.0;
    (cats[t.category := before + Amount(t)], if t.category in cats then order else order + [t.category])
  }

  /** The three totals after the first `i` records. */
  ghost predicate TotalsAt(ts: seq<Txn>, i: nat, tot: Totals)
    requires i <= |ts|
  {
    && tot.income == SumAmounts(Filter(ts[..i], IsIncome))
    && tot.savings == SumSavings(Filter(ts[..i], IsIncome))
    && tot.expenses == SumAmounts(Filter(ts[..i], NotIncome))
  }

  /** The loop of `render` over the listed records: income and savings from income
      records, expenses and per-category spending from all others. `order` is the order in
      which categories first appear; the list is sorted before it is shown. */
  method Tally(ts: seq<Txn>) returns (tot: Totals, cats: map<string, real>, order: seq<string>)
    ensures tot.income == SumAmounts(Filter(ts, IsIncome))
    ensures tot.savings == SumSavings(Filter(ts, IsIncome))
    ensures tot.expenses == SumAmounts(Filter(ts, NotIncome))
    ensures order == SpendingCategories(ts)
    ensures forall c :: c in cats <==> c in order
    ensures forall c :: c in cats ==> cats[c] == CategoryTotal(ts, c)
  {
    tot := Totals(0.0, 0.0, 0.0);
    cats := map[];
    order := [];
    var i := 0;
    while i < |ts|
      invariant 0 <= i <= |ts|
      invariant TotalsAt(ts, i, tot)
      invariant CategoriesAt(ts, i, cats, order)
    {
      var t := ts[i];
      TotalsAtStep(ts, i, tot);
      CategoriesAtStep(ts, i, cats, order);
      if t.kind == Income {
        tot := tot.(income := tot.income + Amount(t), savings := tot.savings + Saved(t));
      } else {
        tot := tot.(expenses := tot.expenses + Amount(t));
        cats, order := AddSpending(cats, order, t).0, AddSpending(cats, order, t).1;
      }
      i := i + 1;
    }
    assert ts[..i] == ts;
  }

  lemma {:induction false} TotalsAtStep(ts: seq<Txn>, i: nat, tot: Totals)
    requires i < |ts| && TotalsAt(ts, i, tot)
    ensures var t := ts[i];
      && (IsIncome(t) ==>
            TotalsAt(ts, i + 1, tot.(income := tot.income + Amount(t), savings := tot.savings + Saved(t))))
      && (!IsIncome(t) ==> TotalsAt(ts, i + 1, tot.(expenses := tot.expenses + Amount(t))))
  {
    TotalsStep(ts, i);
  }

  /** One record keeps the category figures right. */
  lemma {:induction false} CategoriesAtStep(ts: seq<Txn>, i: nat, cats: map<string, real>, order: seq<string>)
    requires i < |ts| && CategoriesAt(ts, i, cats, order)
    ensures IsIncome(ts[i]) ==> CategoriesAt(ts, i + 1, cats, order)
    ensures !IsIncome(ts[i]) ==>
      CategoriesAt(ts, i + 1, AddSpending(cats, order, ts[i]).0, AddSpending(cats, order, ts[i]).1)
  {
    CategoriesStep(ts, i);
    if IsIncome(ts[i]) {
      IncomeKeepsCategories(ts, i, cats, order);
    } else {
      SpendingStep(ts, i, cats, order);
    }
  }

  lemma {:induction false} IncomeKeepsCategories(ts: seq<Txn>, i: nat, cats: map<string, real>, order: seq<string>)
    requires i < |ts| && CategoriesAt(ts, i, cats, order) && IsIncome(ts[i])
    requires SpendingCategories(ts[..i + 1]) == SpendingCategories(ts[..i])
    ensures CategoriesAt(ts, i + 1, cats, order)
  {
    forall c | c in cats
      ensures cats[c] == CategoryTotal(ts[..i + 1], c)
    {
      CategoryTotalStep(ts, i, c);
    }
  }

  lemma {:induction false} SpendingStep(ts: seq<Txn>, i: nat, cats: map<string, real>, order: seq<string>)
    requires i < |ts| && CategoriesAt(ts, i, cats, order) && !IsIncome(ts[i])
    requires SpendingCategories(ts[..i + 1])
      == if ts[i].category in SpendingCategories(ts[..i]) then SpendingCategories(ts[..i])
         else SpendingCategories(ts[..i]) + [ts[i].category]
    ensures CategoriesAt(ts, i + 1, AddSpending(cats, order, ts[i]).0, AddSpending(cats, order, ts[i]).1)
  {
    SpendingKeys(cats, order, ts[i]);
    SpendingValues(ts, i, cats, order);
  }

  /** Adding a spending record keeps the map's keys and the order list in step. */
  lemma {:induction false} SpendingKeys(cats: map<string, real>, order: seq<string>, t: Txn)
    requires forall c :: c in cats <==> c in order
    ensures var (cats', order') := AddSpending(cats, order, t);
      forall c :: c in cats' <==> c in order'
  {
    var (cats', order') := AddSpending(cats, order, t);
    assert forall c :: c in cats' <==> c in cats || c == t.category;
    assert forall c :: c in order' <==> c in order || c == t.category;
  }

  lemma {:induction false} SpendingValues(ts: seq<Txn>, i: nat, cats: map<string, real>, order: seq<string>)
    requires i < |ts| && CategoriesAt(ts, i, cats, order) && !IsIncome(ts[i])
    ensures var cats' := AddSpending(cats, order, ts[i]).0;
      forall c :: c in cats' ==> cats'[c] == CategoryTotal(ts[..i + 1], c)
  {
    var cats' := AddSpending(cats, order, ts[i]).0;
    forall c | c in cats'
      ensures cats'[c] == CategoryTotal(ts[..i + 1], c)
    {
      SpendingEntry(ts, i, cats, order, c);
    }
  }

  lemma {:induction false} SpendingEntry(ts: seq<Txn>, i: nat, cats: map<string, real>, order: seq<string>, c: string)
    requires i < |ts| && CategoriesAt(ts, i, cats, order) && !IsIncome(ts[i])
    requires c in cats || c == ts[i].category
    ensures AddSpending(cats, order, ts[i]).0[c] == CategoryTotal(ts[..i + 1], c)
  {
    var t := ts[i];
    CategoryTotalStep(ts, i, c);
    if c == t.category && c !in cats {
      AbsentCategory(ts[..i], c);
    }
  }

  /** What one more record adds to the three totals. */
  lemma {:induction false} TotalsStep(ts: seq<Txn>, i: nat)
    requires i < |ts|
    ensures var t, pre, post := ts[i], ts[..i], ts[..i + 1];
      && SumAmounts(Filter(post, IsIncome))
        == SumAmounts(Filter(pre, IsIncome)) + (if IsIncome(t) then Amount(t) else 0.0)
      && SumSavings(Filter(post, IsIncome))
        == SumSavings(Filter(pre, IsIncome)) + (if IsIncome(t) then Saved(t) else 0.0)
      && SumAmounts(Filter(post, NotIncome))
        == SumAmounts(Filter(pre, NotIncome)) + (if IsIncome(t) then 0.0 else Amount(t))
  {
    var t, pre, post := ts[i], ts[..i], ts[..i + 1];
    assert post == pre + [t];
    FilterAppend(pre, [t], IsIncome);
    FilterAppend(pre, [t], NotIncome);
    SumAmountsAppend(Filter(pre, IsIncome), Filter([t], IsIncome));
    SumSavingsAppend(Filter(pre, IsIncome), Filter([t], IsIncome));
    SumAmountsAppend(Filter(pre, NotIncome), Filter([t], NotIncome));
  }

  /** A spending record with a new category adds that category at the end. */
  lemma {:induction false} CategoriesStep(ts: seq<Txn>, i: nat)
    requires i < |ts|
    ensures var t, pre, post := ts[i], ts[..i], ts[..i + 1];
      SpendingCategories(post)
        == if IsIncome(t) || t.category in SpendingCategories(pre) then SpendingCategories(pre)
           else SpendingCategories(pre) + [t.category]
  {
    var t, pre, post := ts[i], ts[..i], ts[..i + 1];
    assert post == pre + [t];
    FilterAppend(pre, [t], NotIncome);
    var spent := Filter(pre, NotIncome);
    if !IsIncome(t) {
      assert Filter(post, NotIncome) == spent + [t];
      assert CategoryColumn(spent + [t])[..|spent|] == CategoryColumn(spent);
    } else {
      assert Filter(post, NotIncome) == spent;
    }
  }

  /** One more record adds its amount to its own category if it is spending. */
  lemma {:induction false} CategoryTotalStep(ts: seq<Txn>, i: nat, c: string)
    requires i < |ts|
    ensures var t := ts[i];
      CategoryTotal(ts[..i + 1], c)
        == CategoryTotal(ts[..i], c) + (if !IsIncome(t) && t.category == c then Amount(t) else 0.0)
  {
    assert ts[..i + 1][..i] == ts[..i];
  }

  /** A category no spending record has spends nothing. */
  lemma {:induction false} AbsentCategory(ts: seq<Txn>, c: string)
    requires c !in SpendingCategories(ts)
    ensures CategoryTotal(ts, c) == 0.0
  {
    if |ts| > 0 {
      var n := |ts| - 1;
      SpendingCategory(ts, c);
      SpendingCategory(ts[..n], c);
      assert ts[n] in ts;
      forall t | t in ts[..n]
        ensures t in ts
      {
      }
      AbsentCategory(ts[..n], c);
    }
  }

  lemma {:induction false} ExpensesStep(ts: seq<Txn>, i: nat)
    requires i < |ts|
    ensures SumAmounts(Filter(ts[..i + 1], NotIncome))
      == SumAmounts(Filter(ts[..i], NotIncome)) + (if IsIncome(ts[i]) then 0.0 else Amount(ts[i]))
  {
    var t, pre := ts[i], ts[..i];
    assert ts[..i + 1] == pre + [t];
    FilterAppend(pre, [t], NotIncome);
    SumAmountsAppend(Filter(pre, NotIncome), Filter([t], NotIncome));
  }

  /** Income and spending split the records: each amount is counted exactly once. */
  lemma {:induction false} IncomePlusExpenses(ts: seq<Txn>)
    ensures SumAmounts(Filter(ts, IsIncome)) + SumAmounts(Filter(ts, NotIncome)) == SumAmounts(ts)
  {
    if |ts| > 0 {
      var n := |ts| - 1;
      IncomePlusExpenses(ts[..n]);
      TotalsStep(ts, n);
      assert ts[..n + 1] == ts;
    }
  }

  // ---- the category list ----

  function NameKey(c: string): Key {
    Key(c, "")
  }

  /** `Object.keys(cats).sort()`: the categories in code-point order. */
  function CategoryList(ts: seq<Txn>): (r: seq<string>)
    ensures multiset(r) == multiset(SpendingCategories(ts))
  {
    SortBy(SpendingCategories(ts), NameKey)
  }

  /** The list names every category some spending record has, once each, in strictly
      increasing order. */
  lemma {:induction false} CategoryListShape(ts: seq<Txn>)
    ensures forall i, j :: 0 <= i < j < |CategoryList(ts)| ==> StrLess(CategoryList(ts)[i], CategoryList(ts)[j])
    ensures forall c :: c in CategoryList(ts) <==> exists t :: t in ts && NotIncome(t) && t.category == c
  {
    var r := CategoryList(ts);
    var spent := Filter(ts, NotIncome);
    DistinctPermutation(r, SpendingCategories(ts));
    forall i, j | 0 <= i < j < |r|
      ensures StrLess(r[i], r[j])
    {
      assert !KeyLess(NameKey(r[j]), NameKey(r[i]));
      StrLessTotal(r[i], r[j]);
    }
    forall c
      ensures c in r <==> exists t :: t in ts && NotIncome(t) && t.category == c
    {
      assert c in r <==> c in multiset(r);
      SpendingCategory(ts, c);
    }
  }

  /** A category is met exactly when some spending record carries it. */
  lemma {:induction false} SpendingCategory(ts: seq<Txn>, c: string)
    ensures c in SpendingCategories(ts) <==> exists t :: t in ts && NotIncome(t) && t.category == c
  {
    var spent := Filter(ts, NotIncome);
    var col := CategoryColumn(spent);
    if c in col {
      var i :| 0 <= i < |spent| && col[i] == c;
      assert spent[i] in spent;
    }
    if exists t :: t in ts && NotIncome(t) && t.category == c {
      var t :| t in ts && NotIncome(t) && t.category == c;
      assert t in spent;
      var i :| 0 <= i < |spent| && spent[i] == t;
      assert col[i] == c;
    }
  }

  /** The spending of the categories `keys` lists, added up. */
  function SumCategories(ts: seq<Txn>, keys: seq<string>): real {
    if |keys| == 0 then 0.0
    else SumCategories(ts, keys[..|keys| - 1]) + CategoryTotal(ts, keys[|keys| - 1])
  }

  /** The category lines of the summary add up to the expenses total. */
  lemma {:induction false} CategoriesAddUp(ts: seq<Txn>)
    ensures SumCategories(ts, CategoryList(ts)) == SumAmounts(Filter(ts, NotIncome))
  {
    var keys := CategoryList(ts);
    assert Distinct(keys) by {
      DistinctPermutation(keys, SpendingCategories(ts));
    }
    assert forall i :: 0 <= i < |ts| ==> IsIncome(ts[i]) || ts[i].category in keys by {
      forall i | 0 <= i < |ts| && !IsIncome(ts[i])
        ensures ts[i].category in keys
      {
        CategoryCovered(ts, i);
      }
    }
    CoveringSum(ts, |ts|, keys);
    assert ts[..|ts|] == ts;
  }

  lemma {:induction false} CategoryCovered(ts: seq<Txn>, i: nat)
    requires i < |ts| && !IsIncome(ts[i])
    ensures ts[i].category in CategoryList(ts)
  {
    assert ts[i] in ts;
    SpendingCategory(ts, ts[i].category);
    assert ts[i].category in multiset(SpendingCategories(ts));
  }

  /** Adding up the categories of a list that has each category of the first `n` records
      once gives their total spending. */
  lemma {:induction false} CoveringSum(ts: seq<Txn>, n: nat, keys: seq<string>)
    requires n <= |ts| && Distinct(keys)
    requires forall i :: 0 <= i < |ts| ==> IsIncome(ts[i]) || ts[i].category in keys
    ensures SumCategories(ts[..n], keys) == SumAmounts(Filter(ts[..n], NotIncome))
  {
    if n == 0 {
      SumCategoriesEmpty(ts[..0], keys);
    } else {
      var t := ts[n - 1];
      var d := if IsIncome(t) then 0.0 else Amount(t);
      assert SumCategories(ts[..n], keys) == SumCategories(ts[..n - 1], keys) + d by {
        SumCategoriesStep(ts, n - 1, keys);
      }
      assert SumAmounts(Filter(ts[..n], NotIncome)) == SumAmounts(Filter(ts[..n - 1], NotIncome)) + d by {
        ExpensesStep(ts, n - 1);
      }
      CoveringSum(ts, n - 1, keys);
    }
  }

  lemma {:induction false} SumCategoriesEmpty(ts: seq<Txn>, keys: seq<string>)
    requires ts == []
    ensures SumCategories(ts, keys) == 0.0
  {
    if |keys| > 0 {
      SumCategoriesEmpty(ts, keys[..|keys| - 1]);
    }
  }

  /** One more record moves the sum over distinct keys by its amount if it is spending
      in one of the keys, and not at all otherwise. */
  lemma {:induction false} SumCategoriesStep(ts: seq<Txn>, i: nat, keys: seq<string>)
    requires i < |ts| && Distinct(keys)
    ensures var t := ts[i];
      SumCategories(ts[..i + 1], keys)
        == SumCategories(ts[..i], keys) + (if !IsIncome(t) && t.category in keys then Amount(t) else 0.0)
  {
    if |keys| > 0 {
      var init := keys[..|keys| - 1];
      SumCategoriesStep(ts, i, init);
      CategoryTotalStep(ts, i, keys[|keys| - 1]);
      assert keys == init + [keys[|keys| - 1]];
      assert ts[i].category in keys <==> ts[i].category in init || ts[i].category == keys[|keys| - 1];
    }
  }

  // ---- the budget bar ----

  datatype Status = NoBudget | Over | Near | Within

  /** The width of the bar and its `aria-valuenow`: the share of the budget spent, in whole
      percent, capped at 100; 0 when no budget is set. */
  /** The part of the budget spent, in percent. */
  function Share(expenses: real, budget: real): real
    requires budget > 0.0
  {
    expenses / budget * 100.0
  }

  function Percent(expenses: real, budget: real): (p: int)
    ensures budget <= 0.0 ==> p == 0
    ensures p <= 100
    ensures expenses >= 0.0 ==> p >= 0
    ensures budget > 0.0 && p < 100 ==>
      (p as real) - 0.5 <= Share(expenses, budget) < (p as real) + 0.5
    ensures budget > 0.0 && p == 100 ==> Share(expenses, budget) >= 99.5
  {
    if budget > 0.0 then
      var r := Round(Share(expenses, budget));
      if r < 100 then r else 100
    else 0
  }

  /** The class the bar gets, or "No budget set". */
  function Progress(expenses: real, budget: real): (s: Status)
    ensures s == NoBudget <==> budget <= 0.0
    ensures s == Over <==> budget > 0.0 && expenses > budget
    ensures s == Near <==> budget > 0.0 && 0.8 * budget < expenses <= budget
    ensures s == Within <==> budget > 0.0 && expenses <= 0.8 * budget
  {
    if budget > 0.0 then
      if expenses > budget then Over
      else if expenses > 0.8 * budget then Near
      else Within
    else NoBudget
  }

  lemma {:induction false} RoundMonotone(x: real, y: real)
    requires x <= y
    ensures Round(x) <= Round(y)
  {
  }

  lemma {:induction false} RoundOf(x: real, k: int)
    requires k as real - 0.5 <= x < k as real + 0.5
    ensures Round(x) == k
  {
  }

  /** Comparing the expenses with a fraction of the budget compares the share with that
      fraction in percent. */
  lemma {:induction false} ShareCompare(expenses: real, budget: real, x: real)
    requires budget > 0.0
    ensures expenses > x * budget ==> Share(expenses, budget) > x * 100.0
    ensures expenses <= x * budget ==> Share(expenses, budget) <= x * 100.0
  {
    var q := expenses / budget;
    assert expenses == q * budget;
    if expenses > x * budget {
      assert q * budget > x * budget;
      assert q > x;
    } else {
      assert q * budget <= x * budget;
      assert q <= x;
    }
  }

  /** The bar and its class agree: over budget shows a full bar, near shows at least 80
      percent, and within the first 80 percent shows at most 80. */
  lemma {:induction false} ProgressAgrees(expenses: real, budget: real)
    requires budget > 0.0
    ensures Progress(expenses, budget) == Over ==> Percent(expenses, budget) == 100
    ensures Progress(expenses, budget) == Near ==> 80 <= Percent(expenses, budget) <= 100
    ensures Progress(expenses, budget) == Within ==> Percent(expenses, budget) <= 80
  {
    var ratio := Share(expenses, budget);
    ShareCompare(expenses, budget, 1.0);
    ShareCompare(expenses, budget, 0.8);
    if expenses > budget {
      assert ratio > 100.0;
      RoundMonotone(100.0, ratio);
      RoundOf(100.0, 100);
    } else if expenses > 0.8 * budget {
      assert ratio > 80.0;
      RoundMonotone(80.0, ratio);
      RoundOf(80.0, 80);
    } else {
      assert ratio <= 80.0;
      RoundMonotone(ratio, 80.0);
      RoundOf(80.0, 80);
    }
  }

  /** Spending more never shrinks the bar. */
  lemma {:induction false} PercentMonotone(e1: real, e2: real, budget: real)
    requires e1 <= e2
    ensures Percent(e1, budget) <= Percent(e2, budget)
  {
    if budget > 0.0 {
      assert e1 / budget <= e2 / budget;
      RoundMonotone(Share(e1, budget), Share(e2, budget));
    }
  }
}

/** The local-storage adapter of `storage.local.js`, as state transformers over an
    in-memory store. Persistence to `localStorage` is left to the caller. */
module Storage {
  import opened Text
  import opened Numbers
  import opened Txns
  import opened Sorting
  import opened Csv

  /** The two persisted collections: the transaction list and the month-to-budget map. */
  datatype Store = Store(txns: seq<Txn>, budgets: map<string, real>)

  // ---- listTxns ----

  function TxnKey(t: Txn): Key {
    Key(t.date, t.id)
  }

  /** `t => t.date.startsWith(month)`. */
  function DatedIn(month: string): Txn -> bool {
    (t: Txn) => IsPrefix(month, t.date)
  }

  /** `t => t.id !== id`. */
  function IdIsNot(id: string): Txn -> bool {
    (t: Txn) => t.id != id
  }

  /** A record belongs to a month when its date starts with it; no month means all. */
  predicate InMonth(month: string, t: Txn) {
    month == "" || IsPrefix(month, t.date)
  }

  /** `listTxns({ month })`: the records of the month, sorted by date then id. */
  function ListTxns(s: Store, month: string): (r: seq<Txn>)
    ensures SortedBy(r, TxnKey)
    ensures forall t :: multiset(r)[t] == if InMonth(month, t) then multiset(s.txns)[t] else 0
  {
    var res := if month == "" then s.txns else Filter(s.txns, DatedIn(month));
    MonthCounts(s.txns, month);
    SortBy(res, TxnKey)
  }

  lemma {:induction false} MonthCounts(ts: seq<Txn>, month: string)
    ensures var res := if month == "" then ts else Filter(ts, DatedIn(month));
      forall t :: multiset(res)[t] == if InMonth(month, t) then multiset(ts)[t] else 0
  {
    forall t {
      FilterCount(ts, DatedIn(month), t);
    }
  }

  /** Records with the same date and id keep their stored order. */
  lemma {:induction false} ListStable(s: Store, month: string, k: Key)
    ensures WithKey(ListTxns(s, month), TxnKey, k)
      == if month == "" || IsPrefix(month, k.major) then WithKey(s.txns, TxnKey, k) else []
  {
    var res := if month == "" then s.txns else Filter(s.txns, DatedIn(month));
    SortStable(res, TxnKey, k);
    if month != "" {
      MonthOfKey(s.txns, month, k);
    }
  }

  lemma {:induction false} MonthOfKey(ts: seq<Txn>, month: string, k: Key)
    ensures WithKey(Filter(ts, DatedIn(month)), TxnKey, k)
      == if IsPrefix(month, k.major) then WithKey(ts, TxnKey, k) else []
  {
    FilterCommute(ts, DatedIn(month), HasKey(TxnKey, k));
    var w := WithKey(ts, TxnKey, k);
    assert forall i :: 0 <= i < |w| ==> w[i].date == k.major;
    if IsPrefix(month, k.major) {
      FilterAll(w, DatedIn(month));
    } else {
      FilterNone(w, DatedIn(month));
    }
  }

  // ---- upsertTxn ----

  /** `txns.map(x => x.id === t.id ? t : x)`. */
  function ReplaceById(ts: seq<Txn>, t: Txn): (r: seq<Txn>)
    ensures |r| == |ts|
    ensures forall i :: 0 <= i < |ts| ==> r[i].id == ts[i].id
    ensures forall i :: 0 <= i < |ts| && ts[i].id != t.id ==> r[i] == ts[i]
    ensures forall i :: 0 <= i < |ts| && ts[i].id == t.id ==> r[i] == t
  {
    if |ts| == 0 then []
    else [if ts[0].id == t.id then t else ts[0]] + ReplaceById(ts[1..], t)
  }

  /** `upsertTxn(t)`, with `freshId` standing for the value `uid()` returns. A record
      with an id replaces every stored record with that id and is never added; one
      without an id gets the fresh id and is appended. Returns the new store and the
      record as saved. */
  function UpsertTxn(s: Store, t: Txn, freshId: string): (r: (Store, Txn))
    ensures r.0.budgets == s.budgets
    ensures t.id != "" ==> r.1 == t && |r.0.txns| == |s.txns| && Ids(r.0.txns) == Ids(s.txns)
    ensures t.id != "" && t.id !in Ids(s.txns) ==> r.0.txns == s.txns
    ensures t.id != "" && t.id in Ids(s.txns) ==> t in r.0.txns
    ensures t.id != "" ==> forall i :: 0 <= i < |s.txns| ==>
      r.0.txns[i] == (if s.txns[i].id == t.id then t else s.txns[i])
    ensures t.id == "" ==> r.1 == t.(id := freshId) && r.0.txns == s.txns + [r.1]
    ensures UniqueIds(s.txns) && (t.id != "" || (freshId != "" && freshId !in Ids(s.txns)))
      ==> UniqueIds(r.0.txns)
  {
    if t.id != "" then
      var ts := ReplaceById(s.txns, t);
      ReplaceFacts(s.txns, t);
      (s.(txns := ts), t)
    else
      var t' := t.(id := freshId);
      var ts := s.txns + [t'];
      assert forall i :: 0 <= i < |s.txns| ==> s.txns[i] in s.txns;
      (s.(txns := ts), t')
  }

  lemma {:induction false} ReplaceFacts(ts: seq<Txn>, t: Txn)
    ensures Ids(ReplaceById(ts, t)) == Ids(ts)
    ensures t.id in Ids(ts) ==> t in ReplaceById(ts, t)
    ensures t.id !in Ids(ts) ==> ReplaceById(ts, t) == ts
  {
    var r := ReplaceById(ts, t);
    if t.id in Ids(ts) {
      var i :| 0 <= i < |ts| && ts[i].id == t.id;
      assert r[i] == t;
    } else {
      assert forall i :: 0 <= i < |ts| ==> ts[i] in ts;
    }
    IdsByPosition(ts, r);
  }

  lemma {:induction false} IdsByPosition(a: seq<Txn>, b: seq<Txn>)
    requires |a| == |b| && forall i :: 0 <= i < |a| ==> a[i].id == b[i].id
    ensures Ids(a) == Ids(b)
  {
    forall x | x in Ids(a)
      ensures x in Ids(b)
    {
      var t :| t in a && t.id == x;
      var i :| 0 <= i < |a| && a[i] == t;
      assert b[i] in b;
    }
    forall x | x in Ids(b)
      ensures x in Ids(a)
    {
      var t :| t in b && t.id == x;
      var i :| 0 <= i < |b| && b[i] == t;
      assert a[i] in a;
    }
  }

  /** Saving the same record twice is saving it once. */
  lemma {:induction false} UpsertIdempotent(s: Store, t: Txn, freshId: string)
    requires t.id != ""
    ensures UpsertTxn(UpsertTxn(s, t, freshId).0, t, freshId) == UpsertTxn(s, t, freshId)
  {
    var a := ReplaceById(s.txns, t);
    var b := ReplaceById(a, t);
    assert b == a;
  }

  // ---- deleteTxn ----

  /** `deleteTxn(id)`: drops every record with that id, keeping the others in order. */
  function DeleteTxn(s: Store, id: string): (r: Store)
    ensures r.budgets == s.budgets
    ensures forall x :: multiset(r.txns)[x] == if x.id == id then 0 else multiset(s.txns)[x]
    ensures Ids(r.txns) == Ids(s.txns) - {id}
    ensures id !in Ids(s.txns) ==> r == s
  {
    DeleteFacts(s.txns, id);
    s.(txns := Filter(s.txns, IdIsNot(id)))
  }

  /** Deleting works record by record: on a ledger split in two it deletes from each part
      and keeps the parts in order, and a single record is dropped exactly when it has the
      id. So the records that stay keep their order. */
  lemma {:induction false} DeleteKeepsOrder(a: seq<Txn>, b: seq<Txn>, x: Txn, id: string, m: map<string, real>)
    ensures DeleteTxn(Store(a + b, m), id).txns
      == DeleteTxn(Store(a, m), id).txns + DeleteTxn(Store(b, m), id).txns
    ensures DeleteTxn(Store([x], m), id).txns == if x.id == id then [] else [x]
  {
    FilterAppend(a, b, IdIsNot(id));
    assert [x][1..] == [];
  }

  lemma {:induction false} DeleteFacts(ts: seq<Txn>, id: string)
    ensures var r := Filter(ts, IdIsNot(id));
      && (forall x :: multiset(r)[x] == if x.id == id then 0 else multiset(ts)[x])
      && Ids(r) == Ids(ts) - {id}
      && (id !in Ids(ts) ==> r == ts)
  {
    var keep := IdIsNot(id);
    var r := Filter(ts, keep);
    forall x {
      FilterCount(ts, keep, x);
    }
    forall x | x in Ids(ts) - {id}
      ensures x in Ids(r)
    {
      var t :| t in ts && t.id == x;
      assert t in r;
    }
    if id !in Ids(ts) {
      FilterAll(ts, keep);
    }
  }

  /** Deleting after an update leaves what deleting alone would. */
  lemma {:induction false} DeleteAfterUpsert(s: Store, t: Txn, freshId: string)
    requires t.id != ""
    ensures DeleteTxn(UpsertTxn(s, t, freshId).0, t.id) == DeleteTxn(s, t.id)
  {
    DeleteReplaced(s.txns, t);
  }

  lemma {:induction false} DeleteReplaced(ts: seq<Txn>, t: Txn)
    ensures Filter(ReplaceById(ts, t), IdIsNot(t.id)) == Filter(ts, IdIsNot(t.id))
  {
    if |ts| > 0 {
      DeleteReplaced(ts[1..], t);
      assert ReplaceById(ts, t)[1..] == ReplaceById(ts[1..], t);
    }
  }

  /** Deleting the record just added under a fresh id undoes the addition. */
  lemma {:induction false} DeleteUndoesInsert(s: Store, t: Txn, freshId: string)
    requires t.id == "" && freshId !in Ids(s.txns)
    ensures DeleteTxn(UpsertTxn(s, t, freshId).0, freshId) == s
  {
    var keep := IdIsNot(freshId);
    FilterAppend(s.txns, [t.(id := freshId)], keep);
    FilterAll(s.txns, keep);
    assert Filter([t.(id := freshId)], keep) == [];
  }

  // ---- budgets ----

  /** `getBudget(month)`: 0 for a month with no budget. */
  function GetBudget(s: Store, month: string): (r: real)
    ensures month !in s.budgets ==> r == 0.0
  {
    if month in s.budgets then s.budgets[month] else 0.0
  }

  /** `setBudget(month, amount)` with `amount` a number: negative amounts are stored as 0
      and NaN as 0. Returns the new store and the stored value. */
  function SetBudget(s: Store, month: string, amount: Num): (r: (Store, real))
    ensures r.1 >= 0.0
    ensures amount.NaN? ==> r.1 == 0.0
    ensures amount.Dec? && Value(amount) >= 0.0 ==> r.1 == Value(amount)
    ensures amount.Dec? && Value(amount) < 0.0 ==> r.1 == 0.0
    ensures r.0.txns == s.txns
    ensures GetBudget(r.0, month) == r.1
    ensures forall m :: m != month ==> GetBudget(r.0, m) == GetBudget(s, m)
  {
    var v := OrZero(amount);
    var stored := if 0.0 > v then 0.0 else v;
    (s.(budgets := s.budgets[month := stored]), stored)
  }

  // ---- exportCSV ----

  /** The export columns; `type` is the record's `kind`. */
  const Header: seq<string> := ["id", "date", "note", "type", "category", "amount", "savings"]

  /** A record laid out in header order, numbers written as `String` writes them. */
  function Fields(t: Txn): (r: seq<string>)
    ensures |r| == |Header|
  {
    [t.id, t.date, t.note, t.kind, t.category, Show(t.amount), Show(t.savings)]
  }

  function Records(ts: seq<Txn>): (r: seq<seq<string>>)
    ensures |r| == |ts|
    ensures forall i :: 0 <= i < |ts| ==> r[i] == Fields(ts[i])
  {
    if |ts| == 0 then [] else Records(ts[..|ts| - 1]) + [Fields(ts[|ts| - 1])]
  }

  /** `exportCSV()`: the header line, then one line per record in stored order. */
  function ExportCsv(s: Store): string {
    RowsToCsv(Header, Records(s.txns))
  }

  // ---- importCSV ----

  predicate NotReturn(c: char) {
    c != '\r'
  }

  predicate NonEmpty(line: string) {
    line != ""
  }

  /** `text.replace(/\r/g, '').split('\n').filter(Boolean)`. */
  function Lines(text: string): (r: seq<string>)
    ensures forall i :: 0 <= i < |r| ==> r[i] != "" && '\n' !in r[i] && '\r' !in r[i]
  {
    var t := Filter(text, NotReturn);
    assert forall i :: 0 <= i < |t| ==> t[i] != '\r';
    SplitFree(t, '\n', '\r');
    Filter(Split(t, '\n'), NonEmpty)
  }

  /** `h.trim().toLowerCase()` over the comma-separated header cells. */
  function Names(cells: seq<string>): (r: seq<string>)
    ensures |r| == |cells|
    ensures forall i :: 0 <= i < |cells| ==> r[i] == LowerAscii(Trim(cells[i]))
  {
    if |cells| == 0 then [] else [LowerAscii(Trim(cells[0]))] + Names(cells[1..])
  }

  /** `Object.fromEntries(headers.map((h, i) => [h, i]))`: each name maps to the position
      of its last occurrence. */
  function IndexOf(names: seq<string>): (r: map<string, nat>)
    ensures forall h :: h in r <==> h in names
    ensures forall h :: h in r ==> r[h] < |names| && names[r[h]] == h
    ensures forall h, j :: h in r && r[h] < j < |names| ==> names[j] != h
  {
    if |names| == 0 then map[]
    else
      var n := |names| - 1;
      var init := names[..n];
      assert names == init + [names[n]];
      IndexOf(init)[names[n] := n]
  }

  /** `cols[idx[name]] ?? ''`. */
  function Get(cols: seq<string>, idx: map<string, nat>, name: string): string {
    if name in idx && idx[name] < |cols| then cols[idx[name]] else ""
  }

  /** `Number(f || 0)` on a field. */
  function Coerce(f: string): (r: Num)
    ensures Canonical(r)
    ensures f == "" ==> r == Zero
  {
    if f == "" then Zero else NumberOf(f)
  }

  /** A field holding a character that cannot occur in a decimal numeral (a `$`, a
      comma, ...) coerces to NaN, not to 0. */
  lemma {:induction false} CoerceRejects(f: string, i: nat)
    requires i < |f| && !IsSpace(f[i]) && !IsDigit(f[i])
    requires f[i] !in ".+-" && !('a' <= f[i] <= 'z') && !('A' <= f[i] <= 'Z')
    ensures Coerce(f) == NaN
  {
    var r1 := TrimStart(f);
    var t := TrimEnd(r1);
    var j1 := i - (|f| - |r1|);
    assert 0 <= j1 < |r1| && r1[j1] == f[i];
    assert j1 < |t| && t[j1] == f[i];
    assert t == Trim(f);
    if t[0] == '-' || t[0] == '+' {
      assert t[1..][j1 - 1] == f[i];
      NotLiteral(t[1..], j1 - 1);
    } else {
      NotLiteral(t, j1);
    }
  }

  /** `String(c || '').trim() || 'General'`. */
  function CategoryOr(c: string): (r: string)
    ensures r != ""
    ensures Trim(c) == "" ==> r == "General"
    ensures Trim(c) != "" ==> r == Trim(c)
  {
    var x := Trim(c);
    if x == "" then "General" else x
  }

  /** The record `importCSV` builds from one parsed line; `freshId` is what `uid()` returns. */
  function RowTxn(cols: seq<string>, idx: map<string, nat>, freshId: string): (t: Txn)
    ensures t.id == (if Get(cols, idx, "id") == "" then freshId else Get(cols, idx, "id"))
    ensures |t.date| <= 10 && IsPrefix(t.date, Get(cols, idx, "date"))
    ensures |t.date| == 10 || t.date == Get(cols, idx, "date")
    ensures t.note == Trim(Get(cols, idx, "note"))
    ensures t.note == [] || (!IsSpace(t.note[0]) && !IsSpace(t.note[|t.note| - 1]))
    ensures t.kind == Income <==> Get(cols, idx, "type") == Income
    ensures t.kind == Income || t.kind == Expense
    ensures t.category != ""
    ensures Trim(Get(cols, idx, "category")) == "" ==> t.category == "General"
    ensures Trim(Get(cols, idx, "category")) != "" ==> t.category == Trim(Get(cols, idx, "category"))
    ensures t.amount == Coerce(Get(cols, idx, "amount")) && t.savings == Coerce(Get(cols, idx, "savings"))
  {
    var id := Get(cols, idx, "id");
    Txn(
      if id == "" then freshId else id,
      Take(Get(cols, idx, "date"), 10),
      Trim(Get(cols, idx, "note")),
      if Get(cols, idx, "type") == Income then Income else Expense,
      CategoryOr(Get(cols, idx, "category")),
      Coerce(Get(cols, idx, "amount")),
      Coerce(Get(cols, idx, "savings")))
  }

  /** The position of the first record with id `id`, or `|ts|`. */
  function FindId(ts: seq<Txn>, id: string): (i: nat)
    ensures i <= |ts|
    ensures i < |ts| ==> ts[i].id == id
    ensures forall j :: 0 <= j < i ==> ts[j].id != id
  {
    if |ts| == 0 then 0
    else if ts[0].id == id then 0
    else 1 + FindId(ts[1..], id)
  }

  /** One row of an import: replace the first record with the same id, or append. */
  function Merge(ts: seq<Txn>, t: Txn): (r: seq<Txn>)
    ensures t in r
    ensures t.id in Ids(ts) ==> |r| == |ts|
    ensures t.id !in Ids(ts) ==> r == ts + [t]
    ensures forall i :: 0 <= i < |ts| && ts[i].id != t.id ==> r[i] == ts[i]
    ensures Ids(r) == Ids(ts) + {t.id}
    ensures FindId(ts, t.id) < |ts| ==> forall i :: 0 <= i < |ts| && i != FindId(ts, t.id) ==> r[i] == ts[i]
  {
    var i := FindId(ts, t.id);
    if i < |ts| then
      assert ts[i] in ts;
      assert ts[i := t][i] == t;
      MergeIds(ts, i, t);
      ts[i := t]
    else
      assert forall j :: 0 <= j < |ts| ==> ts[j] in ts;
      ts + [t]
  }

  lemma {:induction false} MergeIds(ts: seq<Txn>, i: nat, t: Txn)
    requires i < |ts| && ts[i].id == t.id
    ensures Ids(ts[i := t]) == Ids(ts)
  {
    IdsByPosition(ts, ts[i := t]);
  }

  /** The rows applied in file order. */
  function MergeAll(ts: seq<Txn>, xs: seq<Txn>): (r: seq<Txn>)
    ensures |r| >= |ts|
    ensures Ids(r) == Ids(ts) + Ids(xs)
    ensures forall i :: 0 <= i < |ts| && ts[i].id !in Ids(xs) ==> r[i] == ts[i]
  {
    if |xs| == 0 then ts
    else
      var n := |xs| - 1;
      assert xs == xs[..n] + [xs[n]];
      assert Ids(xs) == Ids(xs[..n]) + {xs[n].id};
      Merge(MergeAll(ts, xs[..n]), xs[n])
  }

  /** A later row with the same id wins: the last row for each id is in the result. */
  lemma {:induction false} LastRowWins(ts: seq<Txn>, xs: seq<Txn>, j: nat)
    requires j < |xs| && forall k :: j < k < |xs| ==> xs[k].id != xs[j].id
    ensures xs[j] in MergeAll(ts, xs)
  {
    if j == |xs| - 1 {
      MergeAllStep(ts, xs);
      MergeHas(MergeAll(ts, xs[..j]), xs[j]);
    } else {
      LastRowInit(xs, j);
      LastRowWins(ts, xs[..|xs| - 1], j);
      LastRowStep(ts, xs, j);
    }
  }

  /** The last row for an id stays the last one once the final row is dropped. */
  lemma {:induction false} LastRowInit(xs: seq<Txn>, j: nat)
    requires j < |xs| - 1 && forall k :: j < k < |xs| ==> xs[k].id != xs[j].id
    ensures var init := xs[..|xs| - 1];
      j < |init| && init[j] == xs[j] && forall k :: j < k < |init| ==> init[k].id != init[j].id
  {
  }

  /** A record merged in before the final row survives it when the ids differ. */
  lemma {:induction false} LastRowStep(ts: seq<Txn>, xs: seq<Txn>, j: nat)
    requires j < |xs| - 1 && xs[|xs| - 1].id != xs[j].id
    requires xs[j] in MergeAll(ts, xs[..|xs| - 1])
    ensures xs[j] in MergeAll(ts, xs)
  {
    MergeAllStep(ts, xs);
    MergeKeeps(MergeAll(ts, xs[..|xs| - 1]), xs[|xs| - 1], xs[j]);
  }

  lemma {:induction false} MergeHas(m: seq<Txn>, t: Txn)
    ensures t in Merge(m, t)
  {
  }

  lemma {:induction false} MergeAllStep(ts: seq<Txn>, xs: seq<Txn>)
    requires |xs| > 0
    ensures MergeAll(ts, xs) == Merge(MergeAll(ts, xs[..|xs| - 1]), xs[|xs| - 1])
  {
  }

  /** Merging a row leaves every record with another id in place. */
  lemma {:induction false} MergeKeeps(m: seq<Txn>, t: Txn, x: Txn)
    requires x in m && x.id != t.id
    ensures x in Merge(m, t)
  {
    var i :| 0 <= i < |m| && m[i] == x;
    assert Merge(m, t)[i] == x;
  }

  function ParseAll(lines: seq<string>): (r: seq<seq<string>>)
    ensures |r| == |lines|
    ensures forall i :: 0 <= i < |lines| ==> r[i] == ParseLine(lines[i])
  {
    if |lines| == 0 then [] else [ParseLine(lines[0])] + ParseAll(lines[1..])
  }

  /** The ids `uid()` hands out, one per data row, in row order. */
  function FreshIds(uid: nat -> string, n: nat): (r: seq<string>)
    ensures |r| == n
    ensures forall j :: 0 <= j < n ==> r[j] == uid(j)
  {
    if n == 0 then [] else FreshIds(uid, n - 1) + [uid(n - 1)]
  }

  /** The records the rows of an import describe; row `j` gets `ids[j]` if it has no id. */
  function Incoming(rows: seq<seq<string>>, idx: map<string, nat>, ids: seq<string>): (r: seq<Txn>)
    requires |ids| == |rows|
    ensures |r| == |rows|
  {
    seq(|rows|, j requires 0 <= j < |rows| => RowTxn(rows[j], idx, ids[j]))
  }

  /** The column positions an import reads from its first line: the cells trimmed and
      lower-cased, each name mapped to its last position. */
  function Columns(lines: seq<string>): map<string, nat>
    requires |lines| > 0
  {
    IndexOf(Names(Split(lines[0], ',')))
  }

  /** The records the rows of an import stand for, in file order; row `j` gets `uid(j)`
      when it has no id. Text without a non-empty line stands for no records. */
  function Imported(text: string, uid: nat -> string): (r: seq<Txn>)
    ensures Lines(text) == [] ==> r == []
    ensures Lines(text) != [] ==> |r| == |Lines(text)| - 1
    ensures Lines(text) != [] ==> forall j :: 0 <= j < |r| ==>
      r[j] == RowTxn(ParseLine(Lines(text)[j + 1]), Columns(Lines(text)), uid(j))
  {
    var lines := Lines(text);
    if |lines| == 0 then []
    else
      var rows := ParseAll(lines[1..]);
      Incoming(rows, Columns(lines), FreshIds(uid, |rows|))
  }

  /** `importCSV(text)`: the first non-empty line names the columns, every further line
      is a record merged into the store by id. */
  function ImportCsv(s: Store, text: string, uid: nat -> string): (r: Store)
    ensures r.budgets == s.budgets
    ensures Lines(text) == [] ==> r == s
    ensures |r.txns| >= |s.txns|
    ensures Ids(r.txns) == Ids(s.txns) + Ids(Imported(text, uid))
    ensures forall i :: 0 <= i < |s.txns| && s.txns[i].id !in Ids(Imported(text, uid)) ==> r.txns[i] == s.txns[i]
  {
    if Lines(text) == [] then s
    else s.(txns := MergeAll(s.txns, Imported(text, uid)))
  }

  /** Of the rows with the same id, the last one is what the store ends up holding. */
  lemma {:induction false} ImportLastRowWins(s: Store, text: string, uid: nat -> string, j: nat)
    requires var rs := Imported(text, uid);
      j < |rs| && forall k :: j < k < |rs| ==> rs[k].id != rs[j].id
    ensures Imported(text, uid)[j] in ImportCsv(s, text, uid).txns
  {
    LastRowWins(s.txns, Imported(text, uid), j);
  }
}

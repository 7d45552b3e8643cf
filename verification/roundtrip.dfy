/** Importing what `exportCSV` wrote gives back the records, for records that the import's
    coercions leave as they are. */
module RoundTrip {
  import opened Text
  import opened Numbers
  import opened Txns
  import opened Csv
  import opened Storage
  import opened Utils
  import opened Forms

  /** A record the import reads back unchanged: a non-empty id, a date of at most ten
      characters, a trimmed note, a known type, a trimmed non-empty category, numbers in
      canonical form, and no line break in any text field. */
  predicate Portable(t: Txn) {
    && t.id != ""
    && |t.date| <= 10
    && Trim(t.note) == t.note
    && (t.kind == Income || t.kind == Expense)
    && t.category != "" && Trim(t.category) == t.category
    && Canonical(t.amount) && Canonical(t.savings)
    && LineFree(t.id) && LineFree(t.date) && LineFree(t.note) && LineFree(t.category)
  }

  predicate LineFree(s: string) {
    '\n' !in s && '\r' !in s
  }

  predicate Exportable(ts: seq<Txn>) {
    UniqueIds(ts) && forall i :: 0 <= i < |ts| ==> Portable(ts[i])
  }

  function HeaderLine(): string {
    Join(Header, ',')
  }

  // ---- the text splits back into the lines that were joined ----

  lemma {:induction false} KindLineFree(k: string)
    requires k == Income || k == Expense
    ensures LineFree(k)
  {
  }

  lemma {:induction false} FieldsLineFree(t: Txn, c: char)
    requires Portable(t) && (c == '\n' || c == '\r')
    ensures forall k :: 0 <= k < |Fields(t)| ==> c !in Fields(t)[k]
  {
    ShowAlphabet(t.amount);
    ShowAlphabet(t.savings);
    KindLineFree(t.kind);
  }

  lemma {:induction false} HeaderFacts()
    ensures |Header| == 7
    ensures forall a, b :: 0 <= a < b < |Header| ==> Header[a] != Header[b]
    ensures forall k :: 0 <= k < |Header| ==> ',' !in Header[k] && LineFree(Header[k])
    ensures forall k :: 0 <= k < |Header| ==> LowerAscii(Trim(Header[k])) == Header[k]
  {
    HeaderDistinct();
    forall k | 0 <= k < |Header|
      ensures ',' !in Header[k] && LineFree(Header[k])
      ensures LowerAscii(Trim(Header[k])) == Header[k]
    {
      HeaderPlain(k);
    }
  }

  lemma {:induction false} HeaderDistinct()
    ensures forall a, b :: 0 <= a < b < |Header| ==> Header[a] != Header[b]
  {
    forall a, b | 0 <= a < b < |Header|
      ensures Header[a] != Header[b]
    {
      assert Header[a][0] != Header[b][0];
    }
  }

  lemma {:induction false} HeaderPlain(k: nat)
    requires k < |Header|
    ensures ',' !in Header[k] && LineFree(Header[k])
    ensures LowerAscii(Trim(Header[k])) == Header[k]
  {
    var h := Header[k];
    assert h == ["id", "date", "note", "type", "category", "amount", "savings"][k];
    assert forall i :: 0 <= i < |h| ==> 'a' <= h[i] <= 'z';
    PlainName(h);
  }

  /** A name of lower-case ASCII letters is its own trimmed, lower-cased form. */
  lemma {:induction false} PlainName(h: string)
    requires forall i :: 0 <= i < |h| ==> 'a' <= h[i] <= 'z'
    ensures ',' !in h && LineFree(h)
    ensures LowerAscii(Trim(h)) == h
  {
    TrimKeeps(h);
    LowerKeeps(h);
  }

  lemma {:induction false} LowerKeeps(s: string)
    requires forall i :: 0 <= i < |s| ==> 'a' <= s[i] <= 'z'
    ensures LowerAscii(s) == s
  {
    if |s| > 0 {
      LowerKeeps(s[1..]);
      assert [s[0]] + s[1..] == s;
    }
  }

  function ExportLines(ts: seq<Txn>): seq<string> {
    [HeaderLine()] + RowLines(Records(ts))
  }

  lemma {:induction false} HeaderLineFree(c: char)
    requires c == '\n' || c == '\r'
    ensures c !in HeaderLine() && HeaderLine() != ""
  {
    HeaderFacts();
    JoinFree(Header, ',', c);
  }

  lemma {:induction false} RowLineFree(t: Txn, c: char)
    requires Portable(t) && (c == '\n' || c == '\r')
    ensures c !in Row(Fields(t)) && Row(Fields(t)) != ""
  {
    FieldsLineFree(t, c);
    RowFree(Fields(t), c);
    assert |EscAll(Fields(t))| == 7;
  }

  lemma {:induction false} ExportLinesFree(ts: seq<Txn>, c: char)
    requires Exportable(ts) && (c == '\n' || c == '\r')
    ensures forall k :: 0 <= k < |ExportLines(ts)| ==> c !in ExportLines(ts)[k]
    ensures forall k :: 0 <= k < |ExportLines(ts)| ==> NonEmpty(ExportLines(ts)[k])
  {
    var ls := ExportLines(ts);
    HeaderLineFree(c);
    forall k | 0 <= k < |ls|
      ensures c !in ls[k] && NonEmpty(ls[k])
    {
      if k > 0 {
        assert ls[k] == Row(Fields(ts[k - 1]));
        RowLineFree(ts[k - 1], c);
      }
    }
  }

  lemma {:induction false} ExportSplits(s: Store)
    requires Exportable(s.txns)
    ensures Lines(ExportCsv(s)) == ExportLines(s.txns)
  {
    var ls := ExportLines(s.txns);
    var text := ExportCsv(s);
    assert text == Join(ls, '\n');
    ExportLinesFree(s.txns, '\n');
    ExportLinesFree(s.txns, '\r');
    JoinFree(ls, '\n', '\r');
    assert forall i :: 0 <= i < |text| ==> NotReturn(text[i]);
    FilterAll(text, NotReturn);
    SplitJoin(ls, '\n');
    FilterAll(ls, NonEmpty);
  }

  // ---- the header line gives each column its position ----

  lemma {:induction false} HeaderNames()
    ensures Names(Split(HeaderLine(), ',')) == Header
  {
    HeaderFacts();
    SplitJoin(Header, ',');
  }

  /** With distinct names, each name maps to its own position. */
  lemma {:induction false} IndexOfDistinct(names: seq<string>)
    requires forall a, b :: 0 <= a < b < |names| ==> names[a] != names[b]
    ensures forall k :: 0 <= k < |names| ==> names[k] in IndexOf(names) && IndexOf(names)[names[k]] == k
  {
    var idx := IndexOf(names);
    forall k | 0 <= k < |names|
      ensures names[k] in idx && idx[names[k]] == k
    {
      var j := idx[names[k]];
      assert names[j] == names[k];
    }
  }

  lemma {:induction false} HeaderIndex()
    ensures var idx := IndexOf(Names(Split(HeaderLine(), ',')));
      forall k :: 0 <= k < |Header| ==> Header[k] in idx && idx[Header[k]] == k
  {
    HeaderNames();
    HeaderFacts();
    IndexOfDistinct(Header);
  }

  // ---- each line reads back as its record ----

  lemma {:induction false} CoerceShow(n: Num)
    requires Canonical(n)
    ensures Coerce(Show(n)) == n
  {
    ShowAlphabet(n);
    ShowRoundTrip(n);
  }

  lemma {:induction false} RowTxnFields(t: Txn, idx: map<string, nat>, freshId: string)
    requires Portable(t)
    requires forall k :: 0 <= k < |Header| ==> Header[k] in idx && idx[Header[k]] == k
    ensures RowTxn(Fields(t), idx, freshId) == t
  {
    var f := Fields(t);
    assert Get(f, idx, "id") == t.id by { assert Header[0] == "id"; }
    assert Get(f, idx, "date") == t.date by { assert Header[1] == "date"; }
    assert Get(f, idx, "note") == t.note by { assert Header[2] == "note"; }
    assert Get(f, idx, "type") == t.kind by { assert Header[3] == "type"; }
    assert Get(f, idx, "category") == t.category by { assert Header[4] == "category"; }
    assert Get(f, idx, "amount") == Show(t.amount) by { assert Header[5] == "amount"; }
    assert Get(f, idx, "savings") == Show(t.savings) by { assert Header[6] == "savings"; }
    CoerceShow(t.amount);
    CoerceShow(t.savings);
  }

  /** Import trims the note it reads, so a note ending in a space does not come back. */
  lemma {:induction false} TrailingSpaceLost(t: Txn, idx: map<string, nat>, freshId: string)
    requires forall k :: 0 <= k < |Header| ==> Header[k] in idx && idx[Header[k]] == k
    requires |t.note| > 0 && IsSpace(t.note[|t.note| - 1])
    ensures RowTxn(Fields(t), idx, freshId).note != t.note
  {
    var f := Fields(t);
    assert Get(f, idx, "note") == t.note by { assert Header[2] == "note"; }
    assert RowTxn(f, idx, freshId).note == TrimEnd(TrimStart(t.note));
  }

  /** The submit handler cuts a long note after squeezing it, so the note it stores ends
      in a space when the cut falls just after one; import then drops that space. */
  lemma {:induction false} FormNoteLost(f: TxnForm, idx: map<string, nat>, freshId: string)
    requires forall k :: 0 <= k < |Header| ==> Header[k] in idx && idx[Header[k]] == k
    requires |Squeeze(f.note)| > 80 && Squeeze(f.note)[79] == ' '
    ensures RowTxn(Fields(BuildTxn(f)), idx, freshId).note != BuildTxn(f).note
  {
    var t := BuildTxn(f);
    assert |t.note| == 80 && t.note == Squeeze(f.note)[..80];
    assert t.note[79] == ' ';
    TrailingSpaceLost(t, idx, freshId);
  }

  lemma {:induction false} ParsedRows(ts: seq<Txn>)
    ensures ParseAll(RowLines(Records(ts))) == Records(ts)
  {
    var rows := ParseAll(RowLines(Records(ts)));
    forall j | 0 <= j < |ts|
      ensures rows[j] == Fields(ts[j])
    {
      RowRoundTrip(Fields(ts[j]));
    }
  }

  lemma {:induction false} IncomingRecords(ts: seq<Txn>, idx: map<string, nat>, ids: seq<string>)
    requires |ids| == |ts|
    requires forall i :: 0 <= i < |ts| ==> Portable(ts[i])
    requires forall k :: 0 <= k < |Header| ==> Header[k] in idx && idx[Header[k]] == k
    ensures Incoming(Records(ts), idx, ids) == ts
  {
    var r := Incoming(Records(ts), idx, ids);
    forall j | 0 <= j < |ts|
      ensures r[j] == ts[j]
    {
      RowTxnFields(ts[j], idx, ids[j]);
    }
  }

  // ---- merging records with distinct ids ----

  /** Into an empty store, records with distinct ids land in order. */
  lemma {:induction false} MergeIntoEmpty(ts: seq<Txn>)
    requires UniqueIds(ts)
    ensures MergeAll([], ts) == ts
  {
    if |ts| > 0 {
      FreshLast(ts);
      MergeIntoEmpty(ts[..|ts| - 1]);
      MergeFreshStep(ts);
    }
  }

  /** One more record with a new id lands at the end. */
  lemma {:induction false} MergeFreshStep(ts: seq<Txn>)
    requires |ts| > 0 && ts[|ts| - 1].id !in Ids(ts[..|ts| - 1])
    requires MergeAll([], ts[..|ts| - 1]) == ts[..|ts| - 1]
    ensures MergeAll([], ts) == ts
  {
    assert MergeAll([], ts) == Merge(ts[..|ts| - 1], ts[|ts| - 1]);
    SplitLast(ts);
  }

  /** With distinct ids, the last record's id is new to the records before it. */
  lemma {:induction false} FreshLast(ts: seq<Txn>)
    requires UniqueIds(ts) && |ts| > 0
    ensures UniqueIds(ts[..|ts| - 1]) && ts[|ts| - 1].id !in Ids(ts[..|ts| - 1])
  {
    var n := |ts| - 1;
    forall t | t in ts[..n]
      ensures t.id != ts[n].id
    {
      var i :| 0 <= i < n && ts[..n][i] == t;
    }
  }

  /** Into the store they came from, records with distinct ids change nothing. */
  lemma {:induction false} MergeIntoSelf(ts: seq<Txn>, k: nat)
    requires UniqueIds(ts) && k <= |ts|
    ensures MergeAll(ts, ts[..k]) == ts
  {
    if k > 0 {
      assert MergeAll(ts, ts[..k]) == Merge(MergeAll(ts, ts[..k - 1]), ts[k - 1]) by {
        assert ts[..k][..k - 1] == ts[..k - 1];
      }
      MergeIntoSelf(ts, k - 1);
      MergeOwnRecord(ts, k - 1);
    }
  }

  /** Merging a record the ledger already holds, under unique ids, changes nothing. */
  lemma {:induction false} MergeOwnRecord(ts: seq<Txn>, k: nat)
    requires UniqueIds(ts) && k < |ts|
    ensures Merge(ts, ts[k]) == ts
  {
    var i := FindId(ts, ts[k].id);
    assert i == k;
    assert ts[i := ts[k]] == ts;
  }

  // ---- the round trips ----

  /** Importing an export merges the exported records, in order, into the target. */
  lemma {:induction false} ImportExport(s: Store, target: Store, uid: nat -> string)
    requires Exportable(s.txns)
    ensures ImportCsv(target, ExportCsv(s), uid) == target.(txns := MergeAll(target.txns, s.txns))
  {
    ExportSplits(s);
    var lines := ExportLines(s.txns);
    assert lines[0] == HeaderLine();
    assert lines[1..] == RowLines(Records(s.txns));
    ParsedRows(s.txns);
    HeaderIndex();
    IncomingRecords(s.txns, IndexOf(Names(Split(HeaderLine(), ','))), FreshIds(uid, |s.txns|));
    assert Imported(ExportCsv(s), uid) == s.txns;
  }

  /** Importing an export into an empty ledger restores the records. */
  lemma {:induction false} ExportImportEmpty(s: Store, budgets: map<string, real>, uid: nat -> string)
    requires Exportable(s.txns)
    ensures ImportCsv(Store([], budgets), ExportCsv(s), uid) == Store(s.txns, budgets)
  {
    ImportExport(s, Store([], budgets), uid);
    MergeIntoEmpty(s.txns);
  }

  /** Importing a ledger's own export leaves it as it was. */
  lemma {:induction false} ExportImportSelf(s: Store, uid: nat -> string)
    requires Exportable(s.txns)
    ensures ImportCsv(s, ExportCsv(s), uid) == s
  {
    ImportExport(s, s, uid);
    MergeSelf(s.txns);
  }

  lemma {:induction false} MergeSelf(ts: seq<Txn>)
    requires UniqueIds(ts)
    ensures MergeAll(ts, ts) == ts
  {
    MergeIntoSelf(ts, |ts|);
    assert ts[..|ts|] == ts;
  }
}

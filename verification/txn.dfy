/** The ledger's record type. */
module Txns {
  import opened Numbers

  datatype Option<T> = None | Some(value: T)

  /** One transaction. `kind` is the record's `type` field. The program only ever stores
      "income" or "expense" there, but it compares the field as text, so it stays text. */
  datatype Txn = Txn(
    id: string,
    date: string,
    note: string,
    kind: string,
    category: string,
    amount: Num,
    savings: Num)

  const Income := "income"
  const Expense := "expense"

  function Ids(ts: seq<Txn>): set<string> {
    set t | t in ts :: t.id
  }

  predicate UniqueIds(ts: seq<Txn>) {
    forall i, j :: 0 <= i < j < |ts| ==> ts[i].id != ts[j].id
  }
}

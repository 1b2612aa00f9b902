/** The summary fold of the transaction manager: one forward pass over the
    parsed records that counts them, splits their amounts into credit and
    debit totals, and keeps the balance of the last record. */
module Aggregate {
  import opened Records

  datatype Summary = Summary(totalCount: nat, totalCredit: int, totalDebit: int, finalBalance: int)

  /** The summary before any record is seen. */
  const Empty := Summary(0, 0, 0, 0)

  /* ---- reference definitions, one per field ---- */

  /** Sum of the amounts of the records whose kind is exactly CREDIT. */
  function CreditTotal(ts: seq<Txn>): int {
    if |ts| == 0 then 0
    else (if IsCredit(ts[0]) then ts[0].amount else 0) + CreditTotal(ts[1..])
  }

  /** Sum of the amounts of every other record, whatever its kind text. */
  function DebitTotal(ts: seq<Txn>): int {
    if |ts| == 0 then 0
    else (if IsCredit(ts[0]) then 0 else ts[0].amount) + DebitTotal(ts[1..])
  }

  /** Sum of all amounts. */
  function AmountTotal(ts: seq<Txn>): int {
    if |ts| == 0 then 0 else ts[0].amount + AmountTotal(ts[1..])
  }

  /** The balance a summary reports for `ts`: the last record's, or 0. */
  function LastBalance(ts: seq<Txn>): int {
    if |ts| == 0 then 0 else ts[|ts| - 1].balance
  }

  /* ---- the fold ---- */

  /** One iteration of the summary loop: one more record, its amount added
      to exactly one of the two totals, its balance the final one. */
  function Step(s: Summary, t: Txn): (s': Summary)
    ensures s'.totalCount == s.totalCount + 1
    ensures s'.totalCredit + s'.totalDebit == s.totalCredit + s.totalDebit + t.amount
    ensures s'.finalBalance == t.balance
  {
    if IsCredit(t) then
      Summary(s.totalCount + 1, s.totalCredit + t.amount, s.totalDebit, t.balance)
    else
      Summary(s.totalCount + 1, s.totalCredit, s.totalDebit + t.amount, t.balance)
  }

  /** Left fold of Step over `ts`, starting from `acc`: it counts every
      record and adds every amount to one of the totals. */
  function Fold(acc: Summary, ts: seq<Txn>): (s: Summary)
    ensures s.totalCount == acc.totalCount + |ts|
    ensures s.totalCredit + s.totalDebit == acc.totalCredit + acc.totalDebit + AmountTotal(ts)
    decreases |ts|
  {
    if |ts| == 0 then acc else Fold(Step(acc, ts[0]), ts[1..])
  }

  lemma {:induction false} TotalsAppend(a: seq<Txn>, b: seq<Txn>)
    ensures CreditTotal(a + b) == CreditTotal(a) + CreditTotal(b)
    ensures DebitTotal(a + b) == DebitTotal(a) + DebitTotal(b)
    ensures AmountTotal(a + b) == AmountTotal(a) + AmountTotal(b)
    decreases |a|
  {
    if |a| > 0 {
      assert (a + b)[1..] == a[1..] + b;
      TotalsAppend(a[1..], b);
    } else {
      assert a + b == b;
    }
  }

  /** The fold from any accumulator adds the reference totals to it. */
  lemma {:induction false} FoldMeaning(acc: Summary, ts: seq<Txn>)
    ensures Fold(acc, ts) == Summary(acc.totalCount + |ts|,
                                     acc.totalCredit + CreditTotal(ts),
                                     acc.totalDebit + DebitTotal(ts),
                                     if |ts| == 0 then acc.finalBalance else LastBalance(ts))
    decreases |ts|
  {
    if |ts| > 0 {
      FoldMeaning(Step(acc, ts[0]), ts[1..]);
    }
  }

  /** Summarising records that extend a prefix is one more step. */
  lemma FoldSnoc(acc: Summary, ts: seq<Txn>, t: Txn)
    ensures Fold(acc, ts + [t]) == Step(Fold(acc, ts), t)
  {
    FoldMeaning(acc, ts + [t]);
    FoldMeaning(acc, ts);
    TotalsAppend(ts, [t]);
    assert [t][1..] == [];
  }

  /** The summary of a record sequence: its length, the credit and debit
      totals, and the last balance (all zero for no records). */
  function Summarize(ts: seq<Txn>): (s: Summary)
    ensures s.totalCount == |ts|
    ensures s.totalCredit == CreditTotal(ts)
    ensures s.totalDebit == DebitTotal(ts)
    ensures s.finalBalance == LastBalance(ts)
    ensures |ts| == 0 ==> s == Empty
  {
    FoldMeaning(Empty, ts);
    Fold(Empty, ts)
  }

  /** Every amount lands in exactly one of the two totals. */
  lemma {:induction false} SplitIsExhaustive(ts: seq<Txn>)
    ensures CreditTotal(ts) + DebitTotal(ts) == AmountTotal(ts)
    ensures Summarize(ts).totalCredit + Summarize(ts).totalDebit == AmountTotal(ts)
    decreases |ts|
  {
    if |ts| > 0 {
      SplitIsExhaustive(ts[1..]);
    }
  }

  /** A record whose kind is anything but CREDIT counts as a debit. */
  lemma UnknownKindIsDebit(ts: seq<Txn>, t: Txn)
    requires !IsCredit(t)
    ensures Summarize(ts + [t]).totalDebit == Summarize(ts).totalDebit + t.amount
    ensures Summarize(ts + [t]).totalCredit == Summarize(ts).totalCredit
    ensures Summarize(ts + [t]).finalBalance == t.balance
  {
    FoldSnoc(Empty, ts, t);
  }
}

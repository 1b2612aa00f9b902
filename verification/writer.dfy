/** Record generation of the transaction manager: n transactions against a
    running balance, with a balance-dependent amount policy. The random
    choices of kind and amount come in as an explicit sequence of draws, so
    generation is a function of (n, starting balance, draws). */
module Writer {
  import opened Text
  import opened Records
  import opened Aggregate

  datatype Kind = Credit | Debit

  function KindName(k: Kind): string {
    match k
    case Credit => CreditKind
    case Debit => DebitKind
  }

  /** One iteration's randomness: the kind chosen, and a raw number that
      the policy maps into the amount range of that iteration. */
  datatype Draw = Draw(kind: Kind, pick: nat)

  const IdPrefix: string := "TXN-"
  const IdWidth: nat := 5

  /** 1.00: the smallest debit, and the balance a debit must exceed. */
  const DebitFloor: int := 100
  /** 10.00 and 500.00: the range of a credit. */
  const CreditMin: int := 1000
  const CreditMax: int := 50000

  /* ---- identifiers ---- */

  /** "TXN-" followed by `i` zero-padded to at least five digits. */
  function TxnId(i: nat): (id: string)
    ensures |IdPrefix| + IdWidth <= |id| && id[..|IdPrefix|] == IdPrefix
  {
    var digits := PadLeft(Decimal(i), IdWidth);
    assert (IdPrefix + digits)[..|IdPrefix|] == IdPrefix;
    IdPrefix + digits
  }

  /** The number an identifier carries, if it is "TXN-" and digits. */
  function ParseId(id: string): Option<nat> {
    if |IdPrefix| < |id| && id[..|IdPrefix|] == IdPrefix && AllDigits(id[|IdPrefix|..]) then
      Some(DigitsValue(id[|IdPrefix|..]))
    else None
  }

  /** An identifier is at least "TXN-" and five digits long, and carries its
      number back. */
  lemma IdRoundTrip(i: nat)
    ensures |TxnId(i)| == |IdPrefix| + (if |Decimal(i)| < IdWidth then IdWidth else |Decimal(i)|)
    ensures ParseId(TxnId(i)) == Some(i)
  {
    var digits := PadLeft(Decimal(i), IdWidth);
    PadLeftValue(Decimal(i), IdWidth);
    var id := IdPrefix + digits;
    assert id[..|IdPrefix|] == IdPrefix && id[|IdPrefix|..] == digits;
  }

  lemma IdsDistinct(i: nat, j: nat)
    requires i != j
    ensures TxnId(i) != TxnId(j)
  {
    IdRoundTrip(i);
    IdRoundTrip(j);
  }

  /* ---- the amount policy ---- */

  /** A uniform draw from [lo, hi], given the raw number `pick`. */
  function Uniform(lo: int, hi: int, pick: nat): (a: int)
    requires lo <= hi
    ensures lo <= a <= hi
  {
    lo + pick % (hi - lo + 1)
  }

  /** Every value of the range is the outcome of some draw. */
  lemma UniformReaches(lo: int, hi: int, a: int)
    requires lo <= a <= hi
    ensures Uniform(lo, hi, a - lo) == a
  {
  }

  /** The amount of one transaction given the balance before it. */
  function Amount(balance: int, d: Draw): (a: int)
    ensures d.kind == Credit ==> CreditMin <= a <= CreditMax
    ensures d.kind == Debit && balance > DebitFloor ==> DebitFloor <= a <= balance
    ensures d.kind == Debit && balance <= DebitFloor ==> a == 0
  {
    match d.kind
    case Debit => if balance > DebitFloor then Uniform(DebitFloor, balance, d.pick) else 0
    case Credit => Uniform(CreditMin, CreditMax, d.pick)
  }

  function Apply(balance: int, k: Kind, amount: int): int {
    match k
    case Credit => balance + amount
    case Debit => balance - amount
  }

  /** What the policy allows of a record written when the balance was
      `before`: a credit of 10.00 to 500.00 added to the balance, or a debit
      of 1.00 up to the whole balance when the balance exceeds 1.00, and of
      0 otherwise, taken from the balance. */
  predicate Admissible(before: int, t: Txn) {
    || (&& t.kind == CreditKind
        && CreditMin <= t.amount <= CreditMax
        && t.balance == before + t.amount)
    || (&& t.kind == DebitKind
        && (if before > DebitFloor then DebitFloor <= t.amount <= before else t.amount == 0)
        && t.balance == before - t.amount)
  }

  /** The balance before record `i`: the starting balance, or the balance
      of the record before it. */
  function Before(b0: int, recs: seq<Txn>, i: nat): int
    requires i <= |recs|
  {
    if i == 0 then b0 else recs[i - 1].balance
  }

  /** Record `i` follows the policy from the balance before it. */
  predicate Follows(b0: int, recs: seq<Txn>, i: nat)
    requires i < |recs|
  {
    Admissible(Before(b0, recs, i), recs[i])
  }

  /** A ledger as generation writes it: every record follows the one before,
      so its balance field is the running balance. */
  ghost predicate Ledger(b0: int, recs: seq<Txn>) {
    forall i | 0 <= i < |recs| :: Follows(b0, recs, i)
  }

  /** Record i carries the identifier TXN-(i+1). */
  ghost predicate Numbered(recs: seq<Txn>) {
    forall i | 0 <= i < |recs| :: recs[i].id == TxnId(i + 1)
  }

  lemma NumberedSnoc(recs: seq<Txn>, t: Txn)
    requires Numbered(recs) && t.id == TxnId(|recs| + 1)
    ensures Numbered(recs + [t])
  {
    var r := recs + [t];
    forall i | 0 <= i < |r|
      ensures r[i].id == TxnId(i + 1)
    {
      if i < |recs| {
        assert r[i] == recs[i];
      }
    }
  }

  lemma LedgerPrefix(b0: int, recs: seq<Txn>, k: nat)
    requires Ledger(b0, recs) && k <= |recs|
    ensures Ledger(b0, recs[..k])
  {
    forall i | 0 <= i < k
      ensures Follows(b0, recs[..k], i)
    {
      assert Follows(b0, recs, i);
      assert recs[..k][i] == recs[i];
      assert i > 0 ==> recs[..k][i - 1] == recs[i - 1];
    }
  }

  lemma LedgerSnoc(b0: int, recs: seq<Txn>, t: Txn)
    requires Ledger(b0, recs)
    requires Admissible(Before(b0, recs, |recs|), t)
    ensures Ledger(b0, recs + [t])
  {
    var r := recs + [t];
    forall i | 0 <= i < |r|
      ensures Follows(b0, r, i)
    {
      if i < |recs| {
        assert Follows(b0, recs, i);
        assert r[i] == recs[i];
        assert i > 0 ==> r[i - 1] == recs[i - 1];
      }
    }
  }

  /** The record iteration `i` writes when the balance is `balance`: its
      amount follows the policy and its balance is the one after it. */
  function NextTxn(balance: int, i: nat, d: Draw): (t: Txn)
    ensures t.id == TxnId(i) && t.kind == KindName(d.kind)
    ensures Admissible(balance, t)
  {
    var amount := Amount(balance, d);
    Txn(TxnId(i), KindName(d.kind), amount, Apply(balance, d.kind, amount))
  }

  /** The records of one generation run and the running balance after it. */
  datatype Batch = Batch(records: seq<Txn>, balance: int)

  /** One more iteration keeps every property of a run. */
  lemma BatchSnoc(n: nat, b0: int, draws: seq<Draw>, prev: Batch, t: Txn)
    requires 0 < n <= |draws|
    requires |prev.records| == n - 1 && Ledger(b0, prev.records) && Numbered(prev.records)
    requires prev.balance == Before(b0, prev.records, n - 1)
    requires forall i | 0 <= i < n - 1 :: prev.records[i].kind == KindName(draws[i].kind)
    requires t == NextTxn(prev.balance, n, draws[n - 1])
    ensures var r := prev.records + [t];
            && |r| == n && Ledger(b0, r) && Numbered(r)
            && t.balance == Before(b0, r, n)
            && forall i | 0 <= i < n :: r[i].kind == KindName(draws[i].kind)
  {
    var r := prev.records + [t];
    LedgerSnoc(b0, prev.records, t);
    NumberedSnoc(prev.records, t);
    forall i | 0 <= i < n
      ensures r[i].kind == KindName(draws[i].kind)
    {
      if i < n - 1 {
        assert r[i] == prev.records[i];
      }
    }
  }

  /** Generates `n` records from balance `b0`, consuming draws[0..n). */
  function Generate(n: nat, b0: int, draws: seq<Draw>): (g: Batch)
    requires n <= |draws|
    ensures |g.records| == n
    ensures Ledger(b0, g.records)
    ensures g.balance == Before(b0, g.records, n)
    ensures Numbered(g.records)
    ensures forall i | 0 <= i < n :: g.records[i].kind == KindName(draws[i].kind)
  {
    if n == 0 then Batch([], b0)
    else
      var prev := Generate(n - 1, b0, draws);
      var t := NextTxn(prev.balance, n, draws[n - 1]);
      BatchSnoc(n, b0, draws, prev, t);
      Batch(prev.records + [t], t.balance)
  }

  /** Generation reads only the first `n` draws. */
  lemma {:induction false} GenerateUsesPrefix(n: nat, b0: int, d1: seq<Draw>, d2: seq<Draw>)
    requires n <= |d1| && n <= |d2|
    requires d1[..n] == d2[..n]
    ensures Generate(n, b0, d1) == Generate(n, b0, d2)
  {
    if n > 0 {
      assert d1[..n - 1] == d2[..n - 1];
      assert d1[n - 1] == d2[n - 1] by {
        assert d1[..n][n - 1] == d2[..n][n - 1];
      }
      GenerateUsesPrefix(n - 1, b0, d1, d2);
      var prev := Generate(n - 1, b0, d1);
      assert Generate(n - 1, b0, d2) == prev;
      var t := NextTxn(prev.balance, n, d1[n - 1]);
      assert Generate(n, b0, d1) == Batch(prev.records + [t], t.balance);
      assert Generate(n, b0, d2) == Batch(prev.records + [t], t.balance);
    }
  }

  /** In a numbered ledger the identifiers are pairwise distinct, and the
      numbers they carry strictly increase in file order. */
  lemma NumberedIdsIncrease(recs: seq<Txn>, i: nat, j: nat)
    requires Numbered(recs) && i < j < |recs|
    ensures recs[i].id != recs[j].id
    ensures ParseId(recs[i].id) == Some(i + 1) && ParseId(recs[j].id) == Some(j + 1)
  {
    IdAt(recs, i);
    IdAt(recs, j);
  }

  /** The identifier of record `k` of a numbered ledger carries `k + 1`. */
  lemma IdAt(recs: seq<Txn>, k: nat)
    requires Numbered(recs) && k < |recs|
    ensures ParseId(recs[k].id) == Some(k + 1)
  {
    IdRoundTrip(k + 1);
  }

  /** The draw that produces record `t` from balance `before`. */
  function DrawFor(before: int, t: Txn): (d: Draw)
    requires Admissible(before, t)
    ensures Amount(before, d) == t.amount
    ensures KindName(d.kind) == t.kind
  {
    if t.kind == CreditKind then
      UniformReaches(CreditMin, CreditMax, t.amount);
      Draw(Credit, t.amount - CreditMin)
    else if before > DebitFloor then
      UniformReaches(DebitFloor, before, t.amount);
      Draw(Debit, t.amount - DebitFloor)
    else Draw(Debit, 0)
  }

  function DrawsFor(b0: int, recs: seq<Txn>): (ds: seq<Draw>)
    requires Ledger(b0, recs)
    ensures |ds| == |recs|
  {
    if |recs| == 0 then []
    else
      var n := |recs|;
      LedgerPrefix(b0, recs, n - 1);
      assert Follows(b0, recs, n - 1);
      DrawsFor(b0, recs[..n - 1]) + [DrawFor(Before(b0, recs, n - 1), recs[n - 1])]
  }

  /** Replaying the draw of an admissible record reproduces the record. */
  lemma ReplayDraw(before: int, i: nat, t: Txn)
    requires Admissible(before, t) && t.id == TxnId(i)
    ensures NextTxn(before, i, DrawFor(before, t)) == t
  {
  }

  /** The draws for a ledger are those for its prefix plus one more. */
  lemma DrawsForSnoc(b0: int, recs: seq<Txn>)
    requires Ledger(b0, recs) && |recs| > 0
    ensures Ledger(b0, recs[..|recs| - 1])
    ensures Admissible(Before(b0, recs, |recs| - 1), recs[|recs| - 1])
    ensures DrawsFor(b0, recs)
         == DrawsFor(b0, recs[..|recs| - 1]) + [DrawFor(Before(b0, recs, |recs| - 1), recs[|recs| - 1])]
  {
    assert Follows(b0, recs, |recs| - 1);
    LedgerPrefix(b0, recs, |recs| - 1);
  }

  /** A run of n records is the run of n - 1 records plus one more. */
  lemma GenerateSnoc(n: nat, b0: int, draws: seq<Draw>)
    requires 0 < n <= |draws|
    ensures Generate(n, b0, draws).records
         == Generate(n - 1, b0, draws).records + [NextTxn(Generate(n - 1, b0, draws).balance, n, draws[n - 1])]
  {
  }

  /** Every ledger the policy admits is produced by some sequence of draws:
      the draws lose none of the source's random behaviours. */
  lemma {:induction false} GenerateComplete(b0: int, recs: seq<Txn>)
    requires Ledger(b0, recs) && Numbered(recs)
    ensures Generate(|recs|, b0, DrawsFor(b0, recs)).records == recs
    decreases |recs|
  {
    if |recs| > 0 {
      var n := |recs|;
      var init := recs[..n - 1];
      var last := recs[n - 1];
      assert recs == init + [last];
      var before := Before(b0, recs, n - 1);
      DrawsForSnoc(b0, recs);
      assert Numbered(init) by {
        assert forall i | 0 <= i < n - 1 :: init[i] == recs[i];
      }
      var ds := DrawsFor(b0, recs);
      var dsInit := DrawsFor(b0, init);
      assert ds[..n - 1] == dsInit[..n - 1];
      GenerateUsesPrefix(n - 1, b0, ds, dsInit);
      GenerateComplete(b0, init);
      var prev := Generate(n - 1, b0, ds);
      assert prev.records == init;
      assert prev.balance == before;
      ReplayDraw(before, n, last);
      GenerateSnoc(n, b0, ds);
    }
  }

  /** From a non-negative starting balance the balance never goes negative,
      amounts are never negative, and no debit exceeds the balance before it. */
  lemma {:induction false} NeverNegativeAt(b0: int, recs: seq<Txn>, i: nat)
    requires Ledger(b0, recs) && b0 >= 0 && i < |recs|
    ensures recs[i].amount >= 0
    ensures recs[i].balance >= 0
    ensures recs[i].kind == DebitKind ==> recs[i].amount <= Before(b0, recs, i)
  {
    assert Follows(b0, recs, i);
    if i > 0 {
      NeverNegativeAt(b0, recs, i - 1);
    }
  }

  lemma NeverNegative(n: nat, b0: int, draws: seq<Draw>)
    requires n <= |draws| && b0 >= 0
    ensures forall i | 0 <= i < n :: Generate(n, b0, draws).records[i].balance >= 0
    ensures Generate(n, b0, draws).balance >= 0
  {
    var recs := Generate(n, b0, draws).records;
    forall i | 0 <= i < n
      ensures recs[i].balance >= 0
    {
      NeverNegativeAt(b0, recs, i);
    }
  }

  /** The ledger law: the balance after a run is the starting balance plus
      all credits minus all debits. */
  lemma {:induction false} LedgerLaw(b0: int, recs: seq<Txn>)
    requires Ledger(b0, recs)
    ensures Before(b0, recs, |recs|) == b0 + CreditTotal(recs) - DebitTotal(recs)
    decreases |recs|
  {
    if |recs| > 0 {
      var n := |recs|;
      var init := recs[..n - 1];
      var last := recs[n - 1];
      LedgerPrefix(b0, recs, n - 1);
      assert Follows(b0, recs, n - 1);
      assert recs == init + [last];
      LedgerLaw(b0, init);
      TotalsAppend(init, [last]);
      assert [last][1..] == [];
      assert Before(b0, recs, n - 1) == Before(b0, init, n - 1);
    }
  }
}

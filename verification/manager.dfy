/** The transaction manager: a record file (modelled as its split rows) and
    a running balance that persists across generation calls. Generation
    overwrites the file with freshly rendered rows; the summary streams the
    file back through the reader and folds it. */
module Manager {
  import opened Text
  import opened Records
  import opened Aggregate
  import opened Reader
  import opened Writer

  /** Balance a manager starts with unless told otherwise: 1000.00. */
  const DefaultInitialBalance: int := 100000
  /** Rows generated unless told otherwise. */
  const DefaultCount: nat := 100

  datatype TransactionManager = TransactionManager(file: seq<Row>, currentBalance: int)

  /** The four fields written for a record: id, kind, amount, balance.
      Every parser that reads back rendered amounts decodes the row to the
      record it was written from. */
  function Render(t: Txn): (row: Row)
    ensures |row| == 4
    ensures forall parse: Parser | ReadsBack(parse) :: Decode(row, parse) == Some(t)
  {
    var row := [t.id, t.kind, FormatCents(t.amount), FormatCents(t.balance)];
    forall parse: Parser | ReadsBack(parse)
      ensures Decode(row, parse) == Some(t)
    {
      assert parse(FormatCents(t.amount)) == Some(t.amount);
      assert parse(FormatCents(t.balance)) == Some(t.balance);
    }
    row
  }

  function RenderAll(ts: seq<Txn>): (rows: seq<Row>)
    ensures |rows| == |ts|
    ensures forall i | 0 <= i < |ts| :: rows[i] == Render(ts[i])
  {
    if |ts| == 0 then [] else [Render(ts[0])] + RenderAll(ts[1..])
  }

  /** Writes `n` generated records over the file, drawing from `draws`; the
      running balance carries over to the next call. */
  function GenerateRecords(m: TransactionManager, n: nat, draws: seq<Draw>): (m': TransactionManager)
    requires n <= |draws|
    ensures |m'.file| == n
    ensures forall i | 0 <= i < n :: |m'.file[i]| == 4 && m'.file[i][0] == TxnId(i + 1)
    ensures m'.currentBalance == Before(m.currentBalance, Generate(n, m.currentBalance, draws).records, n)
  {
    var batch := Generate(n, m.currentBalance, draws);
    TransactionManager(RenderAll(batch.records), batch.balance)
  }

  /** Streams the file through the reader and summarises the records. */
  function CalculateSummary(m: TransactionManager, parse: Parser): (s: Summary)
    ensures s.totalCount == |WellFormedIndices(m.file, parse)|
    ensures s.totalCredit + s.totalDebit == AmountTotal(TransactionStream(m.file, parse))
  {
    StreamCount(m.file, parse);
    SplitIsExhaustive(TransactionStream(m.file, parse));
    Summarize(TransactionStream(m.file, parse))
  }

  /* ---- round trip ---- */

  /** A rendered record decodes back to itself under a parser that reads
      rendered amounts back. */
  lemma DecodeRender(t: Txn, parse: Parser)
    requires ReadsBack(parse)
    ensures Decode(Render(t), parse) == Some(t)
  {
    assert parse(FormatCents(t.amount)) == Some(t.amount);
    assert parse(FormatCents(t.balance)) == Some(t.balance);
  }

  /** Reading back rendered records yields exactly those records, in order. */
  lemma {:induction false} StreamRenderAll(ts: seq<Txn>, parse: Parser)
    requires ReadsBack(parse)
    ensures TransactionStream(RenderAll(ts), parse) == ts
    decreases |ts|
  {
    if |ts| > 0 {
      var rows := RenderAll(ts);
      assert rows[1..] == RenderAll(ts[1..]);
      DecodeRender(ts[0], parse);
      StreamRenderAll(ts[1..], parse);
      assert ts == [ts[0]] + ts[1..];
    }
  }

  /** The rows a generation call writes read back as a ledger: `n` records
      numbered from 1, kinds as drawn, each following the debit and credit
      policy from the running balance before it, starting from the balance
      the manager held. */
  lemma WrittenFileFollowsPolicy(m: TransactionManager, n: nat, draws: seq<Draw>, parse: Parser)
    requires n <= |draws| && ReadsBack(parse)
    ensures var ts := TransactionStream(GenerateRecords(m, n, draws).file, parse);
            && |ts| == n
            && Ledger(m.currentBalance, ts)
            && Numbered(ts)
            && (forall i | 0 <= i < n :: ts[i].kind == KindName(draws[i].kind))
  {
    StreamRenderAll(Generate(n, m.currentBalance, draws).records, parse);
  }

  /** Summarising the rows a generation call wrote gives back the number of
      rows and, when there is at least one, the generator's final balance,
      which equals the starting balance plus credits minus debits. With no
      rows the summary is all zero. */
  lemma RoundTrip(m: TransactionManager, n: nat, draws: seq<Draw>, parse: Parser)
    requires n <= |draws| && ReadsBack(parse)
    ensures CalculateSummary(GenerateRecords(m, n, draws), parse).totalCount == n
    ensures n == 0 ==> CalculateSummary(GenerateRecords(m, n, draws), parse) == Empty
    ensures n > 0 ==> CalculateSummary(GenerateRecords(m, n, draws), parse).finalBalance
                      == GenerateRecords(m, n, draws).currentBalance
    ensures var s := CalculateSummary(GenerateRecords(m, n, draws), parse);
            GenerateRecords(m, n, draws).currentBalance == m.currentBalance + s.totalCredit - s.totalDebit
  {
    var batch := Generate(n, m.currentBalance, draws);
    StreamRenderAll(batch.records, parse);
    LedgerLaw(m.currentBalance, batch.records);
  }

  /** The same round trip with the concrete decimal parser. */
  lemma RoundTripDecimal(m: TransactionManager, n: nat, draws: seq<Draw>)
    requires n <= |draws|
    ensures CalculateSummary(GenerateRecords(m, n, draws), ParseCents).totalCount == n
    ensures var s := CalculateSummary(GenerateRecords(m, n, draws), ParseCents);
            GenerateRecords(m, n, draws).currentBalance == m.currentBalance + s.totalCredit - s.totalDebit
  {
    ParseCentsReadsBack();
    RoundTrip(m, n, draws, ParseCents);
  }

  /** The running balance is not reset between calls: a second generation
      starts from the first one's final balance, and overwrites the file,
      so the summary then covers only the second batch. */
  lemma SecondRunContinues(m: TransactionManager, n1: nat, d1: seq<Draw>, n2: nat, d2: seq<Draw>, parse: Parser)
    requires n1 <= |d1| && n2 <= |d2| && ReadsBack(parse)
    ensures var m1 := GenerateRecords(m, n1, d1);
            var m2 := GenerateRecords(m1, n2, d2);
            var s1 := CalculateSummary(m1, parse);
            var s2 := CalculateSummary(m2, parse);
            && s2.totalCount == n2
            && m2.currentBalance == m.currentBalance + s1.totalCredit - s1.totalDebit + s2.totalCredit - s2.totalDebit
  {
    var m1 := GenerateRecords(m, n1, d1);
    RoundTrip(m, n1, d1, parse);
    RoundTrip(m1, n2, d2, parse);
  }

  /** A fresh manager with the default balance and the default count of
      rows: its summary counts 100 records, and no balance it writes, nor
      the running balance afterwards, is negative. */
  lemma DefaultRun(draws: seq<Draw>, parse: Parser)
    requires DefaultCount <= |draws| && ReadsBack(parse)
    ensures var m := GenerateRecords(TransactionManager([], DefaultInitialBalance), DefaultCount, draws);
            && CalculateSummary(m, parse).totalCount == DefaultCount
            && CalculateSummary(m, parse).finalBalance == m.currentBalance >= 0
            && (forall t | t in TransactionStream(m.file, parse) :: t.balance >= 0)
  {
    var m0 := TransactionManager([], DefaultInitialBalance);
    RoundTrip(m0, DefaultCount, draws, parse);
    NeverNegative(DefaultCount, DefaultInitialBalance, draws);
    StreamRenderAll(Generate(DefaultCount, DefaultInitialBalance, draws).records, parse);
  }

  /* ---- concrete scenarios ---- */

  /* Scenario constants: the amount and balance texts of the malformed-row
     scenario below, one lemma per literal, as the decimal parser reads them. */

  lemma Parse100()
    ensures ParseCents("100.0") == Some(10000)
  {
    assert "100"[..2] == "10" && "10"[..1] == "1";
    assert DigitsValue("100") == 100;
    assert FractionCents("0") == 0;
    ParsePointed("100", "0");
    assert "100" + "." + "0" == "100.0";
  }

  lemma Parse1100()
    ensures ParseCents("1100.0") == Some(110000)
  {
    assert "1100"[..3] == "110" && "110"[..2] == "11" && "11"[..1] == "1";
    assert DigitsValue("1100") == 1100;
    assert FractionCents("0") == 0;
    ParsePointed("1100", "0");
    assert "1100" + "." + "0" == "1100.0";
  }

  lemma Parse50()
    ensures ParseCents("50.0") == Some(5000)
  {
    assert "50"[..1] == "5";
    assert DigitsValue("50") == 50;
    assert FractionCents("0") == 0;
    ParsePointed("50", "0");
    assert "50" + "." + "0" == "50.0";
  }

  lemma Parse1050()
    ensures ParseCents("1050.0") == Some(105000)
  {
    assert "1050"[..3] == "105" && "105"[..2] == "10" && "10"[..1] == "1";
    assert DigitsValue("1050") == 1050;
    assert FractionCents("0") == 0;
    ParsePointed("1050", "0");
    assert "1050" + "." + "0" == "1050.0";
  }

  lemma ParseNone()
    ensures ParseCents("NONE") == None
  {
    assert FirstDot("NONE") == 4;
    assert !IsDigit("NONE"[0]);
  }

  /** The fold over the two good records of the scenario below. */
  lemma ScenarioFold()
    ensures Summarize([Txn("TXN-VALID", "CREDIT", 10000, 110000), Txn("TXN-VALID2", "DEBIT", 5000, 105000)])
            == Summary(2, 10000, 5000, 105000)
  {
    var t0 := Txn("TXN-VALID", "CREDIT", 10000, 110000);
    var t2 := Txn("TXN-VALID2", "DEBIT", 5000, 105000);
    assert IsCredit(t0);
    assert !IsCredit(t2) by {
      assert t2.kind[0] != CreditKind[0];
    }
    assert [t0, t2][1..] == [t2];
    assert [t2][1..] == [];
  }

  /** The scenario's first row decodes to the credit of 100.00. */
  lemma ScenarioFirstRow()
    ensures TransactionStream([["TXN-VALID", "CREDIT", "100.0", "1100.0"]], ParseCents)
         == [Txn("TXN-VALID", "CREDIT", 10000, 110000)]
  {
    var r0 := ["TXN-VALID", "CREDIT", "100.0", "1100.0"];
    Parse100();
    Parse1100();
    assert Decode(r0, ParseCents) == Some(Txn("TXN-VALID", "CREDIT", 10000, 110000));
    assert [r0][1..] == [];
  }

  /** The scenario's last row decodes to the debit of 50.00. */
  lemma ScenarioLastRow()
    ensures TransactionStream([["TXN-VALID2", "DEBIT", "50.0", "1050.0"]], ParseCents)
         == [Txn("TXN-VALID2", "DEBIT", 5000, 105000)]
  {
    var r2 := ["TXN-VALID2", "DEBIT", "50.0", "1050.0"];
    Parse50();
    Parse1050();
    assert Decode(r2, ParseCents) == Some(Txn("TXN-VALID2", "DEBIT", 5000, 105000));
    assert [r2][1..] == [];
  }

  /** The three scenario rows decode to their first and last records. */
  lemma ScenarioStream()
    ensures TransactionStream([["TXN-VALID", "CREDIT", "100.0", "1100.0"],
                               ["TXN-ERROR", "INVALID_TYPE", "NONE", "ERROR"],
                               ["TXN-VALID2", "DEBIT", "50.0", "1050.0"]], ParseCents)
         == [Txn("TXN-VALID", "CREDIT", 10000, 110000), Txn("TXN-VALID2", "DEBIT", 5000, 105000)]
  {
    var r0 := ["TXN-VALID", "CREDIT", "100.0", "1100.0"];
    var r1 := ["TXN-ERROR", "INVALID_TYPE", "NONE", "ERROR"];
    var r2 := ["TXN-VALID2", "DEBIT", "50.0", "1050.0"];
    assert [r0] + [r1] + [r2] == [r0, r1, r2];
    ScenarioFirstRow();
    ScenarioLastRow();
    ParseNone();
    SkipsMalformed([r0], r1, [r2], ParseCents);
  }

  /** Three rows with a malformed middle row: two records are counted, the
      credit is 100.00, the debit 50.00 and the final balance 1050.00. */
  lemma MalformedMiddleRow()
    ensures var rows := [["TXN-VALID", "CREDIT", "100.0", "1100.0"],
                         ["TXN-ERROR", "INVALID_TYPE", "NONE", "ERROR"],
                         ["TXN-VALID2", "DEBIT", "50.0", "1050.0"]];
            CalculateSummary(TransactionManager(rows, DefaultInitialBalance), ParseCents)
            == Summary(2, 10000, 5000, 105000)
  {
    ScenarioStream();
    ScenarioFold();
  }

  /** Generating zero records empties the file and yields the all-zero summary. */
  lemma ZeroRecords(m: TransactionManager, parse: Parser)
    ensures GenerateRecords(m, 0, []).file == []
    ensures CalculateSummary(GenerateRecords(m, 0, []), parse) == Empty
    ensures GenerateRecords(m, 0, []).currentBalance == m.currentBalance
  {
  }

  /** Without records the ledger law fails for any non-zero starting
      balance: the summary reports a final balance of 0. */
  lemma ZeroRecordsBreakLaw(m: TransactionManager, draws: seq<Draw>, parse: Parser)
    requires m.currentBalance != 0
    ensures var s := CalculateSummary(GenerateRecords(m, 0, draws), parse);
            s.finalBalance != m.currentBalance + s.totalCredit - s.totalDebit
  {
  }
}

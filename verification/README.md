# Transaction manager ledger, modelled in Dafny

This project models the `TransactionManager` of the transaction manager
repository (`Transaction_mng_Project/manager.py`). The manager does three
things:

- **Generation** (`generate_records`) writes `n` transaction records to a
  record file. Each record is an identifier `TXN-00001`, `TXN-00002`, …, a
  kind (`CREDIT` or `DEBIT`), an amount and the running balance after it.
  A debit is drawn from 1.00 up to the whole balance when the balance
  exceeds 1.00, and is 0 otherwise. A credit is drawn from 10.00 to 500.00.
  The running balance carries over from one call to the next.
- **Streaming** (`transaction_stream`) reads the record file back one row at
  a time. A row with at least four fields whose third and fourth fields
  parse as numbers becomes a record. Any other row the CSV reader delivers
  is skipped, and the stream goes on with the next row.
- **Summarising** (`calculate_summary`) folds the stream once. It counts the
  records, adds the amounts of `CREDIT` records to the credit total and
  every other amount to the debit total, and keeps the balance of the last
  record. With no records every field of the summary is zero.

Modelling choices:

- Money is integer cents. 1000.0 is `100000`; the policy bounds are
  `100`, `1000` and `50000`.
- The random choices are an explicit sequence of draws. A `Draw` holds the
  kind chosen and a raw number that the policy maps into the allowed range.
  `Writer.GenerateComplete` shows that every ledger the policy admits comes
  from some draw sequence, so no behaviour of the random generator is lost.
- The record file is a sequence of rows, and each row is a sequence of
  field strings. The manager value holds the file and the running balance.
  Generation replaces the file.
- Number parsing is a parameter of the reader: any function from field text
  to `Option<int>` cents. The round trip is proved for every parser that
  reads back what the writer renders (`Text.ReadsBack`). The concrete
  decimal parser `Text.ParseCents` is proved to be such a parser.

Modules follow the program's structure:

- `Text`: digits, zero padding, rendering and parsing cents.
- `Records`: the row and record shapes.
- `Aggregate`: the summary fold and its reference totals.
- `Reader`: row decoding, the record stream and the pull loop of the summary.
- `Writer`: identifiers, the amount policy and generation.
- `Manager`: the manager value, its two operations and the round trip.

Two behaviours of the code worth noting:

- The kind field is never checked. A row with kind `INVALID_TYPE` and
  numeric amounts is a record, and its amount counts as a debit
  (`Reader.KindNotChecked`, `Aggregate.UnknownKindIsDebit`).
- The ledger law `final_balance == initial + credit - debit` holds for
  every run that writes at least one record (`Manager.RoundTrip`). With
  zero records the summary's final balance is 0, so the law fails whenever
  the starting balance is not 0 (`Manager.ZeroRecords`,
  `Manager.ZeroRecordsBreakLaw`).

## Model

| member | source | states |
|---|---|---|
| Writer.TxnId | Transaction_mng_Project/manager.py:54 | an identifier is the prefix `TXN-` followed by at least five characters |
| Writer.Amount | Transaction_mng_Project/manager.py:58-64 | a credit amount lies in 10.00..500.00; a debit lies in 1.00..balance when the balance exceeds 1.00, and is 0 otherwise |
| Writer.IdRoundTrip | Transaction_mng_Project/manager.py:54 | the identifier of record `i` is `TXN-` followed by at least five digits, and reading the digits back gives `i` |
| Writer.IdsDistinct | Transaction_mng_Project/manager.py:53-54 | different record numbers never share an identifier |
| Writer.NumberedIdsIncrease | Transaction_mng_Project/manager.py:53-54 | in a generated ledger, identifiers are pairwise distinct and the numbers they carry are 1, 2, … in file order |
| Writer.Uniform | Transaction_mng_Project/manager.py:60-63 | every draw of an amount lands inside the range it is drawn from |
| Writer.UniformReaches | Transaction_mng_Project/manager.py:60-63 | every value of the range is the outcome of some draw |
| Writer.NextTxn | Transaction_mng_Project/manager.py:56-67 | one iteration writes a record with the next identifier and the drawn kind, whose amount and resulting balance obey the debit and credit policy |
| Writer.Generate | Transaction_mng_Project/manager.py:49-67 | a run writes exactly `n` records, numbered from 1, each following the policy from the balance before it, with kinds as drawn; the running balance afterwards is the last record's balance, or the starting balance when `n` is 0 |
| Writer.GenerateUsesPrefix | Transaction_mng_Project/manager.py:53-56 | a run of `n` records consumes only the first `n` draws |
| Writer.DrawFor | Transaction_mng_Project/manager.py:56-64 | every record the policy admits has a draw that produces its kind and amount |
| Writer.ReplayDraw | Transaction_mng_Project/manager.py:53-67 | replaying that draw from the same balance writes exactly the same record |
| Writer.GenerateComplete | Transaction_mng_Project/manager.py:49-67 | every numbered ledger that follows the policy is the output of generation for some draws |
| Writer.NeverNegativeAt | Transaction_mng_Project/manager.py:58-64 | from a non-negative starting balance, no amount and no balance is negative, and no debit exceeds the balance before it |
| Writer.NeverNegative | Transaction_mng_Project/manager.py:58-64 | from a non-negative starting balance, every balance a run writes, and the running balance after it, is non-negative |
| Writer.LedgerLaw | Transaction_mng_Project/manager.py:58-67 | the balance after a ledger equals the starting balance plus all credits minus all debits |
| Reader.Decode | Transaction_mng_Project/manager.py:74-85 | a row yields a record if and only if it has at least four fields and its amount and balance fields parse; the record carries the id and kind text and the parsed numbers |
| Reader.TransactionStream | Transaction_mng_Project/manager.py:69-85 | the records of the rows that decode, in file order, malformed rows left out; never more records than rows |
| Reader.StreamSound | Transaction_mng_Project/manager.py:73-81 | every record of the stream is the decoding of some row |
| Reader.StreamAppend | Transaction_mng_Project/manager.py:73-85 | the stream of concatenated rows is the concatenation of their streams, so file order is kept |
| Reader.SkipsMalformed | Transaction_mng_Project/manager.py:82-85 | a malformed row contributes nothing and does not stop the rows after it |
| Reader.KeepsWellFormed | Transaction_mng_Project/manager.py:73-81 | a well-formed row contributes its record between the records of the rows before and after it |
| Reader.StreamCount | Transaction_mng_Project/manager.py:73-85 | the stream holds exactly one record per well-formed row |
| Reader.ExtraFieldsIgnored | Transaction_mng_Project/manager.py:76-81 | fields after the fourth change nothing about the decoded record |
| Reader.KindNotChecked | Transaction_mng_Project/manager.py:76-81 | any kind text is accepted and kept as written |
| Reader.Next | Transaction_mng_Project/manager.py:73-85 | one pull from the stream skips malformed rows and returns the next record, with the rest of the stream after it, or reports the end |
| Reader.SummarizeRows | Transaction_mng_Project/manager.py:87-104 | the pull-and-fold loop computes the summary of the whole stream, and its count is the number of well-formed rows |
| Aggregate.Step | Transaction_mng_Project/manager.py:96-102 | one loop pass counts one more record, adds its amount to exactly one of the two totals, and makes its balance the final one |
| Aggregate.Fold | Transaction_mng_Project/manager.py:96-102 | the loop counts every record and adds every amount to one of the totals |
| Aggregate.FoldMeaning | Transaction_mng_Project/manager.py:96-102 | folding records into a running summary adds their count, credit total and debit total to it and leaves the last record's balance |
| Aggregate.FoldSnoc | Transaction_mng_Project/manager.py:96-102 | folding one more record is one more step of the loop |
| Aggregate.Summarize | Transaction_mng_Project/manager.py:89-104 | the summary is the number of records, the credit total, the debit total and the last balance; with no records it is all zero |
| Aggregate.SplitIsExhaustive | Transaction_mng_Project/manager.py:98-101 | credit and debit totals together are the sum of all amounts |
| Aggregate.UnknownKindIsDebit | Transaction_mng_Project/manager.py:98-102 | a record of any kind other than CREDIT adds to the debit total only, and its balance becomes the final balance |
| Text.ParseCents | Transaction_mng_Project/manager.py:79-80 | empty text is not a number, and a negative number needs a leading `-` |
| Text.FormatThenParse | Transaction_mng_Project/manager.py:79-80 | every amount the writer renders parses back to the same number of cents |
| Text.ParseCentsReadsBack | Transaction_mng_Project/manager.py:79-80 | the decimal parser reads back every rendered amount |
| Manager.ParseNone | Transaction_mng_Project/manager.py:79 | the text `NONE` is not a number |
| Manager.Render | Transaction_mng_Project/manager.py:67 | a written row has four fields, and every parser that reads back rendered amounts decodes it to the record it was written from |
| Manager.RenderAll | Transaction_mng_Project/manager.py:67 | one row per record, in order, each the rendering of its record |
| Manager.GenerateRecords | Transaction_mng_Project/manager.py:49-67 | generation replaces the file with `n` four-field rows whose ids are `TXN-1` to `TXN-n` padded, and the running balance moves to the balance after the last record |
| Manager.WrittenFileFollowsPolicy | Transaction_mng_Project/manager.py:53-67 | the rows a generation call writes read back as `n` records numbered from 1, with kinds as drawn, each following the debit and credit policy from the running balance before it, starting from the manager's balance |
| Manager.DefaultRun | Transaction_mng_Project/manager.py:45-67 | a fresh manager with the default balance 1000.00 and the default count of 100 writes rows whose summary counts 100 records, whose balances are all non-negative, and whose final balance is the running balance |
| Manager.CalculateSummary | Transaction_mng_Project/manager.py:87-104 | the summary counts exactly the well-formed rows of the file, and its credit and debit totals add up to all parsed amounts |
| Manager.DecodeRender | Transaction_mng_Project/manager.py:67-81 | a written row decodes back to the record it was written from |
| Manager.StreamRenderAll | Transaction_mng_Project/manager.py:67-85 | streaming the written rows gives back exactly the written records, in order |
| Manager.RoundTrip | Transaction_mng_Project/manager.py:49-104 | summarising the rows of a generation run counts `n` records; when `n > 0` the final balance is the generator's running balance; the running balance equals the starting balance plus the summary's credits minus its debits; with no rows the summary is all zero |
| Manager.RoundTripDecimal | Transaction_mng_Project/manager.py:49-104 | the same count and ledger law with the concrete decimal parser |
| Manager.SecondRunContinues | Transaction_mng_Project/manager.py:45-67 | a second generation starts from the first run's final balance and overwrites the file, so its summary covers only the second batch |
| Manager.ScenarioFold | Transaction_mng_Project/manager.py:96-102 | a CREDIT of 100.00 then a DEBIT of 50.00 with balance 1050.00 summarise to count 2, credit 100.00, debit 50.00, final 1050.00 |
| Manager.ScenarioStream | Transaction_mng_Project/test_system.py:15-18 | of the three test rows, the first and last decode and the malformed middle row is skipped |
| Manager.MalformedMiddleRow | Transaction_mng_Project/test_system.py:15-24 | the three-row file with a malformed middle row summarises to two records, credit 100.00, debit 50.00, final balance 1050.00 |
| Manager.ZeroRecordsBreakLaw | Transaction_mng_Project/manager.py:89-104 | with zero records and a starting balance other than 0, the summary's final balance differs from the starting balance plus credits minus debits |
| Manager.ZeroRecords | Transaction_mng_Project/manager.py:89-104 | generating no records empties the file, keeps the running balance, and the summary is all zero |

## Left out

- `TransactionFileHandler` (manager.py:18-40) is file opening and closing
  with logging. "Close exactly once and propagate the exception" is I/O
  discipline with no data logic. The record file is a value in the model.
- The logging setup and every log call (manager.py:8-16, 27, 31, 37, 39, 84)
  are side effects only.
- `random.choice` and `random.uniform` are replaced by the explicit draw
  sequence. The model does not state that the choices are uniformly
  distributed. It states only which values a draw can produce, and that
  every allowed value is produced by some draw.
- Floating point and rounding are not modelled. The source keeps an
  unrounded float balance and rounds only when writing (manager.py:60-67).
  A rounded debit can therefore exceed the true balance by under half a
  cent, and the float ledger law holds only approximately. The model uses
  exact integer cents, so the debit range is 1.00 to the balance in whole
  cents, and the ledger law is exact.
- Manager.Render: the written amount and balance texts differ from
  Python's. The model renders two fraction digits (`100.00`, `1100.00`),
  while `str` of a Python float gives `100.0` and `1100.0`. Both denote the
  same cents, and the reader accepts both.
- Text.ParseCents: Python's `float()` accepts more than the parser does.
  Exponents, `inf`, `nan`, surrounding whitespace, underscores and more
  than two fraction digits are all rejected by the model's parser. The
  reader and the round trip do not depend on this, because they take any
  parser.
- CSV quoting and line splitting by `csv.reader`/`csv.writer` are not
  modelled. Rows are already-split fields, and every generated field is
  free of commas.
- A row that `csv.reader` itself rejects is not modelled. Such a row can
  hold a field over `csv.field_size_limit`, a NUL byte on older Pythons, or
  bytes the text decoding rejects. It raises at the `for row in reader`
  line (manager.py:73), outside the `try`, so it ends the stream and the
  summary with an exception instead of being skipped. The model's rows are
  already split, so each one is either decoded or skipped.
- A negative count is not modelled: the count is a `nat`. In the source,
  `range(1, num_transactions + 1)` (manager.py:53) is then empty, so a
  negative count truncates the file exactly as a count of 0 does
  (`Manager.ZeroRecords`).
- The lazy generator's suspension and early abandonment are not modelled.
  `Reader.Next` models one pull, and `Reader.SummarizeRows` the consuming
  loop. Closing the file when iteration stops early belongs to the file
  handler.
- Writer.NumberedIdsIncrease: states the order of the numbers the
  identifiers carry, not the text order. From `TXN-100000` on, an
  identifier has six digits and sorts before `TXN-99999` as text.
- `main.py` creates directories and prints a report. `test_system.py` is a
  test script. Its first scenario is stated as `Manager.MalformedMiddleRow`;
  its file-handler and laziness checks are I/O.

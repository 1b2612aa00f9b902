/** The ledger's record shapes: a raw row as split fields, and the parsed
    transaction the reader yields (id, kind, amount, resulting balance).
    Amounts and balances are integer cents. */
module Records {

  /** One line of the record file, already split into its comma-separated fields. */
  type Row = seq<string>

  /** A parsed record. `kind` is kept as the text of the file: the reader
      never checks it against CREDIT or DEBIT. */
  datatype Txn = Txn(id: string, kind: string, amount: int, balance: int)

  const CreditKind: string := "CREDIT"
  const DebitKind: string := "DEBIT"

  predicate IsCredit(t: Txn) {
    t.kind == CreditKind
  }
}

/** The record stream of the transaction manager: rows of the record file are
    decoded one at a time; a row that cannot be decoded is skipped and the
    stream goes on with the next row. Number parsing is a parameter: any
    partial function from field text to cents. */
module Reader {
  import opened Text
  import opened Records
  import opened Aggregate

  type Parser = string -> Option<int>

  /** A row decodes when it has at least four fields and its third and
      fourth fields parse as numbers. Nothing else is checked. */
  predicate WellFormed(row: Row, parse: Parser) {
    && |row| >= 4
    && parse(row[2]).Some?
    && parse(row[3]).Some?
  }

  /** Decodes one row into a record, or None when the row is malformed
      (too few fields, or an amount or balance that does not parse). */
  function Decode(row: Row, parse: Parser): (r: Option<Txn>)
    ensures r.Some? <==> WellFormed(row, parse)
    ensures r.Some? ==> r.value.id == row[0] && r.value.kind == row[1]
    ensures r.Some? ==> parse(row[2]) == Some(r.value.amount) && parse(row[3]) == Some(r.value.balance)
  {
    if |row| < 4 then None
    else
      match (parse(row[2]), parse(row[3]))
      case (Some(amount), Some(balance)) => Some(Txn(row[0], row[1], amount, balance))
      case _ => None
  }

  /** The records of `rows`, in file order, malformed rows left out. */
  function TransactionStream(rows: seq<Row>, parse: Parser): (ts: seq<Txn>)
    ensures |ts| <= |rows|
  {
    if |rows| == 0 then []
    else
      var rest := TransactionStream(rows[1..], parse);
      match Decode(rows[0], parse)
      case Some(t) => [t] + rest
      case None => rest
  }

  /** Every record the stream yields is the decoding of some row. */
  lemma {:induction false} StreamSound(rows: seq<Row>, parse: Parser)
    ensures forall t | t in TransactionStream(rows, parse) ::
              exists i | 0 <= i < |rows| :: Decode(rows[i], parse) == Some(t)
    decreases |rows|
  {
    if |rows| > 0 {
      StreamSound(rows[1..], parse);
      forall t | t in TransactionStream(rows, parse)
        ensures exists i | 0 <= i < |rows| :: Decode(rows[i], parse) == Some(t)
      {
        if Decode(rows[0], parse) == Some(t) {
          assert Decode(rows[0], parse) == Some(t);
        } else {
          var j :| 0 <= j < |rows[1..]| && Decode(rows[1..][j], parse) == Some(t);
          assert rows[j + 1] == rows[1..][j];
        }
      }
    }
  }

  /** Streaming is compositional: the records of a concatenation are the
      records of each part, in order. */
  lemma {:induction false} StreamAppend(a: seq<Row>, b: seq<Row>, parse: Parser)
    ensures TransactionStream(a + b, parse) == TransactionStream(a, parse) + TransactionStream(b, parse)
    decreases |a|
  {
    if |a| == 0 {
      assert a + b == b;
    } else {
      assert (a + b)[1..] == a[1..] + b;
      assert (a + b)[0] == a[0];
      StreamAppend(a[1..], b, parse);
    }
  }

  /** A malformed row is skipped and never stops the rows after it. */
  lemma SkipsMalformed(before: seq<Row>, row: Row, after: seq<Row>, parse: Parser)
    requires !WellFormed(row, parse)
    ensures TransactionStream(before + [row] + after, parse)
         == TransactionStream(before, parse) + TransactionStream(after, parse)
  {
    StreamAppend(before + [row], after, parse);
    StreamAppend(before, [row], parse);
    assert [row][1..] == [];
  }

  /** A well-formed row yields its record between those of the rows before
      and after it. */
  lemma KeepsWellFormed(before: seq<Row>, row: Row, after: seq<Row>, parse: Parser)
    requires WellFormed(row, parse)
    ensures TransactionStream(before + [row] + after, parse)
         == TransactionStream(before, parse) + [Decode(row, parse).value] + TransactionStream(after, parse)
  {
    StreamAppend(before + [row], after, parse);
    StreamAppend(before, [row], parse);
    assert [row][1..] == [];
  }

  /** Indices of the rows that decode. */
  ghost function WellFormedIndices(rows: seq<Row>, parse: Parser): set<nat> {
    set i: nat | i < |rows| && WellFormed(rows[i], parse)
  }

  /** The stream yields exactly one record per well-formed row. */
  lemma {:induction false} StreamCount(rows: seq<Row>, parse: Parser)
    ensures |TransactionStream(rows, parse)| == |WellFormedIndices(rows, parse)|
    decreases |rows|
  {
    if |rows| == 0 {
      assert WellFormedIndices(rows, parse) == {};
    } else {
      var init := rows[..|rows| - 1];
      var last := rows[|rows| - 1];
      assert rows == init + [last];
      StreamAppend(init, [last], parse);
      StreamCount(init, parse);
      assert [last][1..] == [];
      var w := WellFormedIndices(init, parse);
      assert forall i | 0 <= i < |init| :: rows[i] == init[i];
      if WellFormed(last, parse) {
        assert WellFormedIndices(rows, parse) == w + {|init|};
      } else {
        assert WellFormedIndices(rows, parse) == w;
      }
    }
  }

  /** Rows with more than four fields decode as their first four do. */
  lemma ExtraFieldsIgnored(row: Row, extra: seq<string>, parse: Parser)
    requires |row| == 4
    ensures Decode(row + extra, parse) == Decode(row, parse)
  {
    var r := row + extra;
    assert r[0] == row[0] && r[1] == row[1] && r[2] == row[2] && r[3] == row[3];
  }

  /** The kind field is opaque: replacing it never changes whether a row
      decodes, and the record carries the new text as it stands. */
  lemma KindNotChecked(row: Row, kind: string, parse: Parser)
    requires |row| >= 2
    ensures WellFormed(row[1 := kind], parse) <==> WellFormed(row, parse)
    ensures Decode(row[1 := kind], parse).Some? ==> Decode(row[1 := kind], parse).value.kind == kind
  {
  }

  /** One pull from the stream: advances a cursor over malformed rows to the
      next record, or reports the end of the rows. */
  method Next(rows: seq<Row>, pos: nat, parse: Parser) returns (t: Option<Txn>, next: nat)
    requires pos <= |rows|
    ensures pos <= next <= |rows|
    ensures t.None? ==> next == |rows| && TransactionStream(rows[pos..], parse) == []
    ensures t.Some? ==> pos < next && TransactionStream(rows[pos..], parse) == [t.value] + TransactionStream(rows[next..], parse)
  {
    var k := pos;
    while k < |rows|
      invariant pos <= k <= |rows|
      invariant TransactionStream(rows[pos..], parse) == TransactionStream(rows[k..], parse)
    {
      assert rows[k..][1..] == rows[k + 1..];
      var d := Decode(rows[k], parse);
      if d.Some? {
        return d, k + 1;
      }
      k := k + 1;
    }
    return None, |rows|;
  }

  /** The summary loop as the source runs it: pulls records from the stream
      one at a time and folds each into the running summary. */
  method SummarizeRows(rows: seq<Row>, parse: Parser) returns (s: Summary)
    ensures s == Summarize(TransactionStream(rows, parse))
    ensures s.totalCount == |WellFormedIndices(rows, parse)|
  {
    s := Empty;
    var pos := 0;
    ghost var seen: seq<Txn> := [];
    while pos < |rows|
      invariant pos <= |rows|
      invariant seen + TransactionStream(rows[pos..], parse) == TransactionStream(rows, parse)
      invariant s == Fold(Empty, seen)
      decreases |rows| - pos
    {
      var t, next := Next(rows, pos, parse);
      if t.None? {
        break;
      }
      FoldSnoc(Empty, seen, t.value);
      s := Step(s, t.value);
      seen := seen + [t.value];
      pos := next;
    }
    assert seen == TransactionStream(rows, parse) by {
      assert TransactionStream(rows[pos..], parse) == [] by {
        if pos == |rows| {
          assert rows[pos..] == [];
        }
      }
    }
    StreamCount(rows, parse);
  }
}

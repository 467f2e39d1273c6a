/** `upsertSpreadsheetRow`: the tracking sheet's columns A:B held in memory. Column A is the
    key (the parent folder's name), column B the time of the backup processed last. */
module Ledger {
  import opened Wrappers
  import opened Strings

  /** A cell as the Sheets client returns it: a string, or some other value. */
  datatype Cell = Text(text: string) | NonText

  type Row = seq<Cell>

  datatype UpsertAction = UpdatedCell(a1Row: nat) | AppendedRow

  datatype LedgerError = ReadFailed | UpdateFailed(a1Row: nat) | AppendFailed

  /** A row is the key's when its first cell is a string equal to the key once both are trimmed. */
  predicate KeyMatches(row: Row, key: string) {
    |row| > 0 && row[0].Text? && TrimSpace(row[0].text) == TrimSpace(key)
  }

  /** The 0-based index of the first row of the key. */
  function FirstMatch(rows: seq<Row>, key: string): (r: Option<nat>)
    ensures r.None? <==> forall i :: 0 <= i < |rows| ==> !KeyMatches(rows[i], key)
    ensures r.Some? ==> r.value < |rows| && KeyMatches(rows[r.value], key)
                        && forall i :: 0 <= i < r.value ==> !KeyMatches(rows[i], key)
  {
    if |rows| == 0 then None
    else if KeyMatches(rows[0], key) then Some(0)
    else match FirstMatch(rows[1..], key)
      case None => None
      case Some(i) => Some(i + 1)
  }

  /** Writing column B of a row; a row holding only column A gains a second cell. */
  function WithColumnB(row: Row, time: string): (r: Row)
    requires |row| > 0
    ensures |r| == (if |row| >= 2 then |row| else 2)
    ensures r[0] == row[0] && r[1] == Text(time)
    ensures forall k :: 2 <= k < |row| ==> r[k] == row[k]
  {
    if |row| >= 2 then row[1 := Text(time)] else row + [Text(time)]
  }

  /** The grid after a successful upsert. */
  function Upserted(rows: seq<Row>, key: string, time: string): seq<Row> {
    match FirstMatch(rows, key)
    case Some(i) => rows[i := WithColumnB(rows[i], time)]
    case None => rows + [[Text(key), Text(time)]]
  }

  /** The search loop of `upsertSpreadsheetRow`: -1, or the index of the first row of the key. */
  method FindKeyRow(values: seq<Row>, key: string) returns (rowIndex: int)
    ensures -1 <= rowIndex < |values|
    ensures rowIndex == -1 <==> forall i :: 0 <= i < |values| ==> !KeyMatches(values[i], key)
    ensures rowIndex >= 0 ==> KeyMatches(values[rowIndex], key)
                              && forall i :: 0 <= i < rowIndex ==> !KeyMatches(values[i], key)
  {
    rowIndex := -1;
    var i := 0;
    while i < |values|
      invariant 0 <= i <= |values|
      invariant forall j :: 0 <= j < i ==> !KeyMatches(values[j], key)
    {
      var row := values[i];
      if |row| > 0 {
        if row[0].Text? && TrimSpace(row[0].text) == TrimSpace(key) {
          rowIndex := i;
          break;
        }
      }
      i := i + 1;
    }
  }

  class Sheet {
    /** The values of range A:B, row i being sheet row i + 1. */
    var rows: seq<Row>

    constructor (initial: seq<Row>)
      ensures rows == initial
    {
      rows := initial;
    }

    /** Reads A:B, then either rewrites column B of the key's first row or appends
        `[key, time]`. `readOk` and `writeOk` are the Sheets calls' outcomes; a failed call
        leaves the sheet as it was. */
    method Upsert(key: string, time: string, readOk: bool, writeOk: bool)
      returns (r: Result<UpsertAction, LedgerError>)
      modifies this
      ensures !readOk ==> r == Failure(ReadFailed)
      ensures readOk ==> match FirstMatch(old(rows), key)
                         case Some(i) => r == (if writeOk then Success(UpdatedCell(i + 1)) else Failure(UpdateFailed(i + 1)))
                         case None => r == (if writeOk then Success(AppendedRow) else Failure(AppendFailed))
      ensures r.Success? ==> rows == Upserted(old(rows), key, time)
      ensures r.Failure? ==> rows == old(rows)
    {
      if !readOk {
        return Failure(ReadFailed);
      }
      var rowIndex := FindKeyRow(rows, key);
      if rowIndex >= 0 {
        var a1Row := rowIndex + 1;
        if !writeOk {
          return Failure(UpdateFailed(a1Row));
        }
        rows := rows[rowIndex := WithColumnB(rows[rowIndex], time)];
        return Success(UpdatedCell(a1Row));
      }
      if !writeOk {
        return Failure(AppendFailed);
      }
      rows := rows + [[Text(key), Text(time)]];
      return Success(AppendedRow);
    }
  }

  /** A key already present: only column B of its first row changes and no row is added. */
  lemma UpsertUpdatesInPlace(rows: seq<Row>, key: string, time: string, i: nat)
    requires FirstMatch(rows, key) == Some(i)
    ensures var after := Upserted(rows, key, time);
      |after| == |rows| && after[i][0] == rows[i][0] && after[i][1] == Text(time)
      && (forall k :: 2 <= k < |rows[i]| ==> after[i][k] == rows[i][k])
      && forall j :: 0 <= j < |rows| && j != i ==> after[j] == rows[j]
  {
  }

  /** A new key: exactly one row `[key, time]` is appended and the others stay. */
  lemma UpsertAppendsNewKey(rows: seq<Row>, key: string, time: string)
    requires forall i :: 0 <= i < |rows| ==> !KeyMatches(rows[i], key)
    ensures Upserted(rows, key, time) == rows + [[Text(key), Text(time)]]
  {
  }

  /** The number of rows of a key. */
  function MatchCount(rows: seq<Row>, key: string): nat {
    if |rows| == 0 then 0
    else (if KeyMatches(rows[|rows| - 1], key) then 1 else 0) + MatchCount(rows[..|rows| - 1], key)
  }

  /** Upserting never adds a second row for a key: a missing key gets exactly one row and
      a present key keeps as many rows as it had. */
  lemma {:induction false} UpsertKeepsOneRowPerKey(rows: seq<Row>, key: string, time: string)
    ensures MatchCount(Upserted(rows, key, time), key)
         == (if MatchCount(rows, key) == 0 then 1 else MatchCount(rows, key))
  {
    match FirstMatch(rows, key)
    case None =>
      MatchCountNone(rows, key);
      var after := rows + [[Text(key), Text(time)]];
      assert after[..|after| - 1] == rows;
    case Some(i) =>
      MatchCountPositive(rows, key, i);
      MatchCountUpdate(rows, key, i, WithColumnB(rows[i], time));
  }

  lemma {:induction false} MatchCountNone(rows: seq<Row>, key: string)
    requires forall i :: 0 <= i < |rows| ==> !KeyMatches(rows[i], key)
    ensures MatchCount(rows, key) == 0
  {
    if |rows| > 0 {
      MatchCountNone(rows[..|rows| - 1], key);
    }
  }

  lemma {:induction false} MatchCountPositive(rows: seq<Row>, key: string, i: nat)
    requires i < |rows| && KeyMatches(rows[i], key)
    ensures MatchCount(rows, key) > 0
  {
    if i < |rows| - 1 {
      MatchCountPositive(rows[..|rows| - 1], key, i);
    }
  }

  /** Replacing a row by one that matches the key exactly when the old one did keeps the count. */
  lemma {:induction false} MatchCountUpdate(rows: seq<Row>, key: string, i: nat, row: Row)
    requires i < |rows|
    requires KeyMatches(row, key) == KeyMatches(rows[i], key)
    ensures MatchCount(rows[i := row], key) == MatchCount(rows, key)
  {
    var n := |rows| - 1;
    if i < n {
      assert rows[i := row][..n] == rows[..n][i := row];
      MatchCountUpdate(rows[..n], key, i, row);
    } else {
      assert rows[i := row][..n] == rows[..n];
    }
  }

  /** Upserting the same key twice is the same as upserting it once with the second time. */
  lemma UpsertTwice(rows: seq<Row>, key: string, t1: string, t2: string)
    ensures Upserted(Upserted(rows, key, t1), key, t2) == Upserted(rows, key, t2)
  {
    var once := Upserted(rows, key, t1);
    match FirstMatch(rows, key)
    case None =>
      assert KeyMatches(once[|rows|], key);
      assert FirstMatch(once, key) == Some(|rows|);
      assert WithColumnB(once[|rows|], t2) == [Text(key), Text(t2)];
      assert once[|rows| := [Text(key), Text(t2)]] == rows + [[Text(key), Text(t2)]];
    case Some(i) =>
      assert KeyMatches(once[i], key);
      assert FirstMatch(once, key) == Some(i);
      assert WithColumnB(once[i], t2) == WithColumnB(rows[i], t2);
      assert once[i := WithColumnB(rows[i], t2)] == rows[i := WithColumnB(rows[i], t2)];
  }
}

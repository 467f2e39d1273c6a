/** Reading the logical file names out of the `RESTORE FILELISTONLY` output, which
    `sqlcmd -h -1 -W -s "|"` prints as one `|`-separated row per file in the backup:
    logical name first, type code third. */
module Manifest {
  import opened Wrappers
  import opened Strings

  datatype FileKind = DataFile | LogFile

  datatype ManifestRow = ManifestRow(logicalName: string, kind: FileKind)

  /** The logical names the restore will move; "" means none was listed. */
  datatype LogicalNames = LogicalNames(data: string, log: string)

  /** A type code whose upper-cased form starts with "L" names the log file. */
  predicate IsLogTypeCode(code: string) {
    HasPrefix(ToUpper(code), "L")
  }

  /** The columns of one line, each trimmed. */
  function Columns(line: string): seq<string>
  {
    var parts := Split(TrimSpace(line), '|');
    seq(|parts|, i requires 0 <= i < |parts| => TrimSpace(parts[i]))
  }

  /** One line of the listing: blank lines and lines with fewer than three columns say nothing. */
  function RowOf(line: string): Option<ManifestRow> {
    if TrimSpace(line) == "" then None
    else
      var cols := Columns(line);
      if |cols| < 3 then None
      else if IsLogTypeCode(cols[2]) then Some(ManifestRow(cols[0], LogFile))
      else Some(ManifestRow(cols[0], DataFile))
  }

  function NameOf(names: LogicalNames, kind: FileKind): string {
    if kind == LogFile then names.log else names.data
  }

  /** Takes one more line into account: a row overwrites the name of its own kind. */
  function Absorb(names: LogicalNames, line: string): LogicalNames {
    match RowOf(line)
    case None => names
    case Some(row) =>
      if row.kind == LogFile then names.(log := row.logicalName)
      else names.(data := row.logicalName)
  }

  /** The names after reading `lines` in order. */
  function NamesOf(lines: seq<string>): LogicalNames {
    if |lines| == 0 then LogicalNames("", "")
    else Absorb(NamesOf(lines[..|lines| - 1]), lines[|lines| - 1])
  }

  /** The names read from the whole output of the listing command. */
  function FileListNames(output: string): LogicalNames {
    var listOut := TrimSpace(output);
    if listOut == "" then LogicalNames("", "")
    else NamesOf(Split(listOut, '\n'))
  }

  /** The lines of the listing that are read: none when the output is blank. */
  function ListingLines(output: string): seq<string> {
    if TrimSpace(output) == "" then [] else Split(TrimSpace(output), '\n')
  }

  lemma ListingLinesRead(output: string)
    ensures FileListNames(output) == NamesOf(ListingLines(output))
  {
  }

  /** The parsing loop of `restoreDB`: trims every line and every column in place and
      keeps the first column of the last row of each kind. */
  method ParseFileList(output: string) returns (dataLogical: string, logLogical: string)
    ensures LogicalNames(dataLogical, logLogical) == FileListNames(output)
  {
    dataLogical, logLogical := "", "";
    var listOut := TrimSpace(output);
    if listOut != "" {
      var lines := Split(listOut, '\n');
      var n := 0;
      while n < |lines|
        invariant 0 <= n <= |lines|
        invariant LogicalNames(dataLogical, logLogical) == NamesOf(lines[..n])
      {
        assert lines[..n + 1][..n] == lines[..n];
        var l := TrimSpace(lines[n]);
        TrimSpaceIdempotent(lines[n]);
        if l != "" {
          var cols := Split(l, '|');
          ghost var parts := cols;
          var i := 0;
          while i < |cols|
            invariant 0 <= i <= |cols| == |parts|
            invariant forall k :: 0 <= k < i ==> cols[k] == TrimSpace(parts[k])
            invariant forall k :: i <= k < |cols| ==> cols[k] == parts[k]
          {
            cols := cols[i := TrimSpace(cols[i])];
            i := i + 1;
          }
          assert cols == Columns(lines[n]);
          if |cols| >= 3 {
            var typ := ToUpper(cols[2]);
            if HasPrefix(typ, "L") {
              logLogical := cols[0];
            } else {
              dataLogical := cols[0];
            }
          }
        }
        n := n + 1;
      }
      assert lines[..n] == lines;
    }
  }

  predicate IsRowOfKind(line: string, kind: FileKind) {
    RowOf(line).Some? && RowOf(line).value.kind == kind
  }

  /** Later rows overwrite earlier ones: the name of a kind comes from the last row of that kind. */
  lemma {:induction false} LastRowOfKindWins(lines: seq<string>, kind: FileKind, i: nat)
    requires i < |lines| && IsRowOfKind(lines[i], kind)
    requires forall j :: i < j < |lines| ==> !IsRowOfKind(lines[j], kind)
    ensures NameOf(NamesOf(lines), kind) == RowOf(lines[i]).value.logicalName
  {
    var prefix := lines[..|lines| - 1];
    if i < |lines| - 1 {
      LastRowOfKindWins(prefix, kind, i);
    }
  }

  /** With no row of a kind, its name stays empty (and the restore falls back to a default). */
  lemma {:induction false} NoRowOfKind(lines: seq<string>, kind: FileKind)
    requires forall j :: 0 <= j < |lines| ==> !IsRowOfKind(lines[j], kind)
    ensures NameOf(NamesOf(lines), kind) == ""
  {
    if |lines| > 0 {
      NoRowOfKind(lines[..|lines| - 1], kind);
    }
  }

  /** The kind depends only on whether the type code starts with 'L' or 'l'. */
  lemma LogTypeCodeIff(code: string)
    ensures IsLogTypeCode(code) <==> |code| > 0 && (code[0] == 'L' || code[0] == 'l')
  {
    if |code| > 0 {
      UpperIsL(code[0]);
      assert ToUpper(code)[..1] == [UpperChar(code[0])];
    }
  }

  /** A listing row: at least three columns, none holding the separator or surrounding space. */
  predicate IsListingRow(cols: seq<string>) {
    |cols| >= 3 && forall i :: 0 <= i < |cols| ==> '|' !in cols[i] && Trimmed(cols[i])
  }

  /** The line printed for a listing row is read back as that row: its first column is the
      logical name and its type code alone decides the kind. */
  lemma RowOfListingRow(cols: seq<string>)
    requires IsListingRow(cols)
    ensures Columns(Join(cols, '|')) == cols
    ensures RowOf(Join(cols, '|')) == Some(ManifestRow(cols[0], if IsLogTypeCode(cols[2]) then LogFile else DataFile))
  {
    var line := Join(cols, '|');
    JoinOfTrimmedIsTrimmed(cols, '|');
    TrimmedIsFixed(line);
    SplitJoin(cols, '|');
    JoinLengthBound(cols, '|');
    forall i | 0 <= i < |cols|
      ensures Columns(line)[i] == cols[i]
    {
      TrimmedIsFixed(cols[i]);
    }
  }

  /** A data row and a log row are told apart by whether the type code starts with 'L',
      in whichever order the listing prints them. */
  lemma DataAndLogRows(dataCols: seq<string>, logCols: seq<string>)
    requires IsListingRow(dataCols) && IsListingRow(logCols)
    requires dataCols[2] == [] || (dataCols[2][0] != 'L' && dataCols[2][0] != 'l')
    requires logCols[2] != [] && (logCols[2][0] == 'L' || logCols[2][0] == 'l')
    ensures NamesOf([Join(dataCols, '|'), Join(logCols, '|')]) == LogicalNames(dataCols[0], logCols[0])
    ensures NamesOf([Join(logCols, '|'), Join(dataCols, '|')]) == LogicalNames(dataCols[0], logCols[0])
  {
    RowOfListingRow(dataCols);
    RowOfListingRow(logCols);
    LogTypeCodeIff(dataCols[2]);
    LogTypeCodeIff(logCols[2]);
    var d, l := Join(dataCols, '|'), Join(logCols, '|');
    assert [d, l][..1] == [d] && [l, d][..1] == [l];
    assert [d][..0] == [] && [l][..0] == [];
  }

  /** Empty output names nothing. */
  lemma EmptyListingNamesNothing(output: string)
    requires TrimSpace(output) == ""
    ensures FileListNames(output) == LogicalNames("", "")
  {
  }
}

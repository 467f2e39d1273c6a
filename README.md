# Backup restore pipeline — a Dafny model

The program lists 7-Zip backup archives in Google Drive, downloads and extracts each one,
finds the SQL Server `.bak` inside, restores it with `sqlcmd`, runs an update query, and
finally deletes the archive and records its time in a Google Sheet keyed by the parent
folder's name. This project models the decisions inside that plumbing and proves them:

- `Manifest` — reading the `RESTORE FILELISTONLY` listing (`|`-separated columns) into a data
  and a log logical name, as the loop in `restoreDB` does (imperative: a `while` loop over the
  lines, an inner loop trimming the columns in place, proved against `FileListNames`).
- `Restore` — the default logical names, the data-path fallback, the `.mdf`/`_log.ldf`
  targets, and the five `sqlcmd` steps with their fatal / non-fatal policy, as a function from
  the five commands' outcomes to the commands issued and the result.
- `Locator` — `findBakFile`: the walk's entries are an input sequence; a loop keeps the last
  entry whose name ends in ".bak" (proved against `FindBak`).
- `Permissions` — the service account derived from the host string and the two grants.
- `Ledger` — `upsertSpreadsheetRow` on an in-memory A:B grid held by the class `Sheet`: the
  first-match search loop, the in-place update of column B, or the append.
- `Processor` — `processFile`, `deleteSmallFile`, `deleteFileAndUpdateSpreadsheet` and
  `shouldDelete`: every external call is an outcome given as input, and the model yields the
  trace of effects issued (delete, download, extract, grant, `sqlcmd`, ledger write) and the
  error returned. `ProcessFile` is the step-by-step method with early returns, `FileRunOf` the
  function it is proved equal to.
- `Batch` — the `for` loop of `main`, proved to process every file once, in order, whatever
  the earlier files returned.
- `Strings`, `Paths`, `Sqlcmd`, `Wrappers` — `strings.TrimSpace`/`Split`/`ToUpper`/`EqualFold`,
  a reduced `filepath.Join`/`Dir`, the `sqlcmd` argument choice, and Option/Result/Outcome.

Where the code and its comments differ, the model follows the code:

- `findBakFile`'s comment says it returns the first `.bak` found; the code keeps the last one
  (main.go:468-470), and so does `Locator.FindBak`.
- Every error out of `downloadAndExtract`, download failures included, goes through the
  ten-minute age gate (main.go:170-205).
- The data-path query uses the text `cmd.Output()` returns even when the command failed: the
  fallback to the backup's directory happens when that text, trimmed, is empty or "NULL", and
  a failed query that printed a directory still yields that directory (main.go:524-539).
- On the age-gated branch the error of `deleteFileAndUpdateSpreadsheet` is ignored and the
  original error is returned (main.go:186, 204).

## Model

| member | source | states |
|---|---|---|
| `Strings.TrimSpaceShape` | main.go:497-508 | `Strings.TrimSpace` (`strings.TrimSpace`) keeps a contiguous middle of its input, drops only white space (Go's `unicode.IsSpace` set) around it and leaves none at either end |
| `Strings.TrimLeftShape` | main.go:502 | the leading white space and nothing else is removed |
| `Strings.TrimRightShape` | main.go:502 | the trailing white space and nothing else is removed |
| `Strings.TrimSpaceIdempotent` | main.go:502-508 | trimming twice is trimming once, so the per-line and per-column trims compose |
| `Strings.Split` | main.go:506 | `strings.Split` yields at least one piece and no piece contains the separator |
| `Strings.JoinSplit` | main.go:500-506 | joining the pieces of a split gives back the original text |
| `Strings.SplitJoin` | main.go:500-506 | splitting a join of separator-free pieces gives back the pieces |
| `Sqlcmd.AuthArgsRoundTrip` | main.go:592-598 | with the credentials chosen by `Sqlcmd.AuthFor` (main.go:484-488), the arguments begin `-S host -d db` and carry exactly those credentials: `-E` alone when both are empty, else `-U user -P password`; the argument list is modelled separately by `Sqlcmd.ConnectArgs`, and the traced commands carry host, database and credentials as values |
| `Manifest.ParseFileList` | main.go:497-521 | the parsing loop (lines trimmed, blank and short lines skipped, columns trimmed in place) computes exactly `FileListNames` of the output |
| `Manifest.LastRowOfKindWins` | main.go:513-519 | a later row of the same kind overwrites an earlier one: the name of a kind is the first column of the last row of that kind |
| `Manifest.NoRowOfKind` | main.go:498-521 | with no row of a kind, the name of that kind stays empty |
| `Manifest.LogTypeCodeIff` | main.go:513-514 | a row is a log row exactly when its type code starts with 'L' or 'l': the upper-casing by `Strings.ToUpper` matters only for the first character |
| `Manifest.RowOfListingRow` | main.go:502-519 | a printed row of at least three clean columns is read back as its first column with the kind its type code gives; `Manifest.Columns` (main.go:506-509) recovers exactly the printed columns |
| `Manifest.DataAndLogRows` | main.go:506-519 | a data row and a log row are told apart by the type code alone, in either order |
| `Manifest.EmptyListingNamesNothing` | main.go:497-499 | an empty (or all-blank) listing names neither file |
| `Restore.LastListedNameIsRestored` | main.go:497-547 | `Restore.PlanFor` moves, for each kind of file, the logical name in the first column of the last listed row of that kind (the default when that column is empty) |
| `Restore.UnlistedKindUsesDefault` | main.go:541-547 | with no listed row of a kind, `Restore.PlanFor` moves the database name as the data file and the database name plus "_log" as the log file |
| `Restore.NullSpellings` | main.go:533 | `Strings.EqualFold` with "NULL" accepts exactly the four-letter words n/N, u/U, l/L, l/L and nothing else |
| `Restore.DataPathFallback` | main.go:524-539 | the data directory (`Restore.ResolveDataPath`) is the trimmed printed text unless it is empty or spells NULL in any case, and then the directory of the `.bak`; the exit status plays no part |
| `Restore.RestoreDB` | main.go:482-589 | an error exactly when the listing, single-user or restore command fails; the commands issued are the canonical five against `master`, cut off right after the first fatal failure (1, 3 or 4 commands); success issues all five |
| `Restore.MultiUserFailureIsNotFatal` | main.go:575-589 | a failing multi-user command changes neither the result nor the commands |
| `Restore.SuccessIssuesAllFiveInOrder` | main.go:491-589 | on success the order is listing, data path, single user, restore with move, multi user |
| `Restore.TargetsIgnoreLogicalNames` | main.go:561-564 | the targets are the data path joined (`Paths.Join`) with `db.mdf` and `db_log.ldf`, the same whatever the listing held |
| `Restore.EmptyListingUsesDefaults` | main.go:541-547 | an empty listing restores under the logical names `db` and `db_log` |
| `Restore.NullDataPathFallsBack` | main.go:531-536 | any case spelling of "NULL" (n/N, u/U, l/L, l/L), with any surrounding space, resolves to the backup's directory, whatever the exit status |
| `Locator.FindBakFile` | main.go:451-480 | the walk loop (error ends the walk, each match overwrites the remembered path) computes exactly `FindBak` |
| `Locator.LastBakWins` | main.go:464-470 | the last entry whose name ends in ".bak" wins over every earlier one |
| `Locator.FoundPathIsBak` | main.go:468-479 | a path found is the path of an entry whose name ends in ".bak" |
| `Locator.NoBakMeansNotFound` | main.go:476-478 | a walk without errors and without any ".bak" is the "no .bak file found" error |
| `Locator.WalkErrorWins` | main.go:464-475 | an error reported by the walk is returned even if a match was seen |
| `Permissions.AfterFirstBackslash` | main.go:358-360 | what follows the first backslash is a proper suffix of the host string |
| `Permissions.DefaultInstance` | main.go:357 | `Permissions.ServiceAccount` of a host without a backslash is `NT SERVICE\MSSQLSERVER` |
| `Permissions.NamedInstance` | main.go:358-361 | `Permissions.ServiceAccount` maps `server\instance` to `NT SERVICE\MSSQL$instance`, everything after the first backslash being the instance |
| `Paths.DirOfJoin` | main.go:368 | `Paths.Dir` undoes `Paths.Join`: the directory of a file joined onto a folder is that folder |
| `Permissions.GrantsFolderHoldingFile` | main.go:363-373 | `Permissions.Grants` of a `.bak` inside a folder grants the file, then recursively exactly the folder holding it, both to the instance's service account |
| `Ledger.FirstMatch` | main.go:669-679 | the index of the first row whose first cell is a string equal to the key after trimming both, or none when no row is |
| `Ledger.FindKeyRow` | main.go:669-679 | the search loop with `break` returns -1 exactly when no row matches, else the first matching index |
| `Ledger.WithColumnB` | main.go:681-688 | writing column B sets the second cell and keeps column A and the cells after B |
| `Ledger.Sheet.Upsert` | main.go:659-704 | read failure: error, grid unchanged; match at index i: column B of row i (A1 row i+1) rewritten; no match: `[key, time]` appended; a failed write leaves the grid unchanged |
| `Ledger.UpsertUpdatesInPlace` | main.go:681-692 | with a match, the row count is unchanged and only column B of the first matching row changes |
| `Ledger.UpsertAppendsNewKey` | main.go:695-703 | without a match, exactly one row `[key, time]` is appended after the existing rows |
| `Ledger.UpsertKeepsOneRowPerKey` | main.go:669-703 | an upsert gives a missing key exactly one row and never adds a row for a present key |
| `Ledger.UpsertTwice` | main.go:669-703 | upserting a key twice equals upserting it once with the second time |
| `Processor.ProcessFile` | main.go:157-253 | the step-by-step procedure with early returns issues exactly the effects and returns exactly the result of `FileRunOf` |
| `Processor.SmallFileIsOnlyDeleted` | main.go:160-162 | a file under 10240 bytes goes to `Processor.DeleteSmallFile` (main.go:254-275) and is only deleted (no download, extraction, restore or ledger write) and the deletion's outcome is the result |
| `Processor.FetchFailureIsAgeGated` | main.go:170-205 | when `Processor.DownloadAndExtract` (main.go:286-353) fails at download, extraction or locate: the original error is returned; the source is deleted exactly when `Processor.ShouldDelete` holds (creation time parses and is at least 10 minutes old); the ledger is written only then, and always then when the deletion succeeds and the parent lookup does not fail, right after the deletion; nothing is granted or restored |
| `Processor.AgeGateStaysOpen` | main.go:376-383 | once `Processor.ShouldDelete` holds for a file it holds at every later time |
| `Processor.UnparsableCreatedTimeKeepsSource` | main.go:376-383 | a creation time that does not parse never lets a failed file be deleted or recorded |
| `Processor.UpdateRunsOnRestoredDatabase` | main.go:592-607 | once the restore succeeds, the command right after the restore's own is `Processor.UpdateCommand`: the update query against the restored database `dbName` (not `master`) on the same host with the same credential choice, while every restore command ran against `master` |
| `Processor.RestoreFailureKeepsSource` | main.go:209-225 | a failing restore or update query returns an error with no deletion and no ledger write |
| `Processor.LedgerOnlyAfterDelete` | main.go:406-427 | in `Processor.DeleteAndRecord`, a ledger write comes right after a successful deletion of the same file, only when the parent lookup returned no error, and carries the looked-up name and the creation time; a file without a parent (`Some("")`, main.go:643) is recorded under the empty key |
| `Processor.SuccessDeletesThenRecords` | main.go:246-252 | after a successful restore and update the run ends with the deletion, then, when the deletion succeeds and the parent lookup does not fail, the ledger write; the result is the deletion's |
| `Processor.LedgerIsBestEffort` | main.go:414-426 | the parent lookup, and so the ledger write, never changes the result |
| `Batch.ProcessBatch` | main.go:101-141 | one result per listed file, each that file's own result whatever earlier files returned, and the effects of all files in list order |
| `Batch.ConcatAround` | main.go:102-141 | the batch trace splits around any file |
| `Batch.EachFileInItsPlace` | main.go:102-141 | a file's effects (its entry in `Batch.FileTraces`) appear whole, after those of the files before it and before those of the files after it |

## Left out

- Listing Drive files (`getFilesFromFolder`, main.go:146-155) and its fatal error: the batch takes the listed files as input.
- Drive download, delete and the parent-folder lookup (`getParentFolderName`, main.go:622-644) are network calls: each is an outcome given as input (`downloadOk`, `deleteOk`, `parentName`).
- The Sheets read/update/append transport: `Sheet.Upsert` takes the calls' success as `readOk`/`writeOk`. The per-file trace records the `LedgerUpsert` call; the grid change it makes is what `Sheet.Upsert` states. Sheets' own table detection for `INSERT_ROWS` is taken to append after the last row read.
- Running `7z`, `icacls` and `sqlcmd`: only the exit status and the printed text come back. The `icacls` exit statuses are only logged by the program, so the grants carry no outcome.
- The SQL statement text and the formatting flags (`-h -1 -W -s "|"`): statements are modelled by the values they are built from.
- `formatCreatedTime` (main.go:385-404): time-zone loading and display formatting; the formatted text is the input `createdDisplay`.
- `shouldDelete`'s RFC 3339 parse and clock (main.go:377-382): the parsed creation time is an `Option<int>` in nanoseconds and the current time is the input `now`. The 64-bit range of Go's `time.Duration` is not modelled.
- The temporary directory: its creation failure is modelled (`ScratchFailed`), its removal by `defer os.RemoveAll` is not (local file system cleanup).
- `filepath.Walk` order: the walk is an input sequence.
- Ledger.Sheet.Upsert: the grid holds the key and time as written, but the program writes with `USER_ENTERED` (main.go:688, 699), so Sheets may store a parsed value instead. For example, the key "0101" may be stored as the number 101 and read back as "101". The model assumes every key reads back as the text written. Where it does not, the next upsert for that key finds no match and appends a second row, so `Ledger.UpsertTwice` and `Ledger.UpsertKeepsOneRowPerKey` hold only for keys Sheets leaves as text.
- `Paths.Join`, `Paths.Dir`: the `Clean` step of `filepath` (repeated separators, `..`, volume names) is not modelled.
- `Strings.ToUpper`, `Strings.EqualFold`: ASCII letters only. For the two uses here this is exact: no other character upper-cases to 'L', and none case-folds to a letter of "NULL".
- Start-up: `.env` loading, environment checks, `exec.LookPath`, authentication (main.go:38-91), and all logging.
- Go slice aliasing between the `append(args, ...)` calls in `restoreDB`: each command runs before the next append, so it has no effect.

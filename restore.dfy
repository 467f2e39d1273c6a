/** `restoreDB`: five `sqlcmd` steps against `master` that list the backup's logical files,
    ask for the instance's default data directory, force single-user mode, restore with
    explicit relocation, and return to multi-user mode. The listing, single-user and
    restore steps are fatal; the data-path query and multi-user steps are not. */
module Restore {
  import opened Wrappers
  import opened Strings
  import Paths
  import opened Sqlcmd
  import opened Manifest

  /** What the five commands report, in the order they would run. */
  datatype RestoreOutcomes = RestoreOutcomes(
    fileList: CommandResult,
    dataPath: CommandResult,
    singleUserOk: bool,
    restoreOk: bool,
    multiUserOk: bool)

  datatype RestoreError = FileListFailed | SingleUserFailed | RestoreFailed

  /** Where the restore puts the database files and which logical files it moves there. */
  datatype RestorePlan = RestorePlan(
    dataLogical: string, logLogical: string,
    dataPath: string, mdfTarget: string, ldfTarget: string)

  /** The commands issued, in order, and what `restoreDB` returns. */
  datatype RestoreRun = RestoreRun(commands: seq<Command>, result: Outcome<RestoreError>)

  /** The printed data path is used unless it is empty or NULL in any letter case. */
  predicate IsUsableDataPath(trimmed: string) {
    trimmed != "" && !EqualFold(trimmed, "NULL")
  }

  /** The directory the database files go to. Go's `Output` hands back what the command
      printed even when it failed, so the exit status plays no part here. */
  function ResolveDataPath(queryOutput: string, bakPath: string): string
  {
    var trimmed := TrimSpace(queryOutput);
    if IsUsableDataPath(trimmed) then trimmed else Paths.Dir(bakPath)
  }

  /** Logical names missing from the listing default to the database name and its "_log" form. */
  function WithDefaults(names: LogicalNames, dbName: string): LogicalNames
  {
    LogicalNames(if names.data == "" then dbName else names.data,
                 if names.log == "" then dbName + "_log" else names.log)
  }

  function PlanFor(dbName: string, bakPath: string, o: RestoreOutcomes): RestorePlan {
    var names := WithDefaults(FileListNames(o.fileList.stdout), dbName);
    var dataPath := ResolveDataPath(o.dataPath.stdout, bakPath);
    RestorePlan(names.data, names.log, dataPath,
                Paths.Join(dataPath, dbName + ".mdf"),
                Paths.Join(dataPath, dbName + "_log.ldf"))
  }

  /** The five statements in the order `restoreDB` issues them when nothing fails. */
  function RestoreStatements(dbName: string, bakPath: string, plan: RestorePlan): seq<Statement> {
    [ FileListOnly(bakPath),
      DefaultDataPath,
      SetSingleUser(dbName),
      RestoreWithMove(dbName, bakPath, plan.dataLogical, plan.mdfTarget, plan.logLogical, plan.ldfTarget),
      SetMultiUser(dbName) ]
  }

  predicate CommandsIssue(commands: seq<Command>, statements: seq<Statement>, host: string, auth: Auth) {
    |commands| <= |statements| &&
    forall i :: 0 <= i < |commands| ==> commands[i] == Command(host, "master", auth, statements[i])
  }

  function OnMaster(host: string, auth: Auth, statements: seq<Statement>): seq<Command>
  {
    seq(|statements|, i requires 0 <= i < |statements| => Command(host, "master", auth, statements[i]))
  }

  /** `restoreDB` over the reported outcomes of its five commands. */
  function RestoreDB(host: string, user: string, pass: string, dbName: string, bakPath: string,
                     o: RestoreOutcomes): (run: RestoreRun)
    // a failing listing, single-user or restore command is an error; nothing else is
    ensures run.result.Fail? <==> !o.fileList.ok || !o.singleUserOk || !o.restoreOk
    // the commands issued are the canonical sequence, cut off right after the first fatal failure
    ensures CommandsIssue(run.commands, RestoreStatements(dbName, bakPath, PlanFor(dbName, bakPath, o)),
                          host, AuthFor(user, pass))
    ensures !o.fileList.ok ==> run.result == Fail(FileListFailed) && |run.commands| == 1
    ensures o.fileList.ok && !o.singleUserOk ==> run.result == Fail(SingleUserFailed) && |run.commands| == 3
    ensures o.fileList.ok && o.singleUserOk && !o.restoreOk ==> run.result == Fail(RestoreFailed) && |run.commands| == 4
    ensures run.result.Pass? ==> |run.commands| == 5
  {
    var auth := AuthFor(user, pass);
    var all := OnMaster(host, auth, RestoreStatements(dbName, bakPath, PlanFor(dbName, bakPath, o)));
    if !o.fileList.ok then RestoreRun(all[..1], Fail(FileListFailed))
    else if !o.singleUserOk then RestoreRun(all[..3], Fail(SingleUserFailed))
    else if !o.restoreOk then RestoreRun(all[..4], Fail(RestoreFailed))
    else RestoreRun(all, Pass)
  }

  /** A failed return to multi-user mode is only a warning: the result and the commands
      are the same as when it succeeds. */
  lemma MultiUserFailureIsNotFatal(host: string, user: string, pass: string, dbName: string,
                                   bakPath: string, o: RestoreOutcomes)
    ensures RestoreDB(host, user, pass, dbName, bakPath, o.(multiUserOk := false))
         == RestoreDB(host, user, pass, dbName, bakPath, o.(multiUserOk := true))
  {
  }

  /** On success the commands run in the order listing, data path, single user, restore,
      multi user, all against `master` with the chosen credentials. */
  lemma SuccessIssuesAllFiveInOrder(host: string, user: string, pass: string, dbName: string,
                                    bakPath: string, o: RestoreOutcomes)
    requires RestoreDB(host, user, pass, dbName, bakPath, o).result.Pass?
    ensures var cs := RestoreDB(host, user, pass, dbName, bakPath, o).commands;
      |cs| == 5 && cs[0].statement == FileListOnly(bakPath) && cs[1].statement == DefaultDataPath
      && cs[2].statement == SetSingleUser(dbName) && cs[3].statement.RestoreWithMove?
      && cs[4].statement == SetMultiUser(dbName)
  {
    var run := RestoreDB(host, user, pass, dbName, bakPath, o);
    var st := RestoreStatements(dbName, bakPath, PlanFor(dbName, bakPath, o));
    assert CommandsIssue(run.commands, st, host, AuthFor(user, pass));
    assert |run.commands| == 5;
    assert run.commands[0].statement == st[0] && run.commands[1].statement == st[1];
    assert run.commands[2].statement == st[2] && run.commands[3].statement == st[3];
    assert run.commands[4].statement == st[4];
  }

  /** The relocation targets are `<dataPath>\<db>.mdf` and `<dataPath>\<db>_log.ldf`
      whatever logical names the listing held. */
  lemma TargetsIgnoreLogicalNames(dbName: string, bakPath: string, o: RestoreOutcomes, listing: string)
    ensures var p := PlanFor(dbName, bakPath, o);
            var q := PlanFor(dbName, bakPath, o.(fileList := CommandResult(o.fileList.ok, listing)));
            p.dataPath == q.dataPath && p.mdfTarget == q.mdfTarget && p.ldfTarget == q.ldfTarget
    ensures PlanFor(dbName, bakPath, o).mdfTarget == Paths.Join(PlanFor(dbName, bakPath, o).dataPath, dbName + ".mdf")
    ensures PlanFor(dbName, bakPath, o).ldfTarget == Paths.Join(PlanFor(dbName, bakPath, o).dataPath, dbName + "_log.ldf")
  {
  }

  /** An empty listing restores under the default logical names. */
  lemma EmptyListingUsesDefaults(dbName: string, bakPath: string, o: RestoreOutcomes)
    requires TrimSpace(o.fileList.stdout) == ""
    ensures PlanFor(dbName, bakPath, o).dataLogical == dbName
    ensures PlanFor(dbName, bakPath, o).logLogical == dbName + "_log"
  {
    EmptyListingNamesNothing(o.fileList.stdout);
  }

  /** "NULL" spelt in any mix of letter cases. */
  predicate SpellsNull(s: string) {
    |s| == 4 && s[0] in "nN" && s[1] in "uU" && s[2] in "lL" && s[3] in "lL"
  }

  /** The case-insensitive comparison with "NULL" accepts exactly the sixteen spellings of
      the word and nothing else: no longer or shorter text, no other letters. */
  lemma NullSpellings(s: string)
    ensures EqualFold(s, "NULL") <==> SpellsNull(s)
  {
    var u := ToUpper("NULL");
    assert u == "NULL" by {
      assert |u| == 4 && u[0] == 'N' && u[1] == 'U' && u[2] == 'L' && u[3] == 'L';
    }
    if SpellsNull(s) {
      assert ToUpper(s) == u by {
        assert |ToUpper(s)| == 4;
        assert ToUpper(s)[0] == 'N' && ToUpper(s)[1] == 'U' && ToUpper(s)[2] == 'L' && ToUpper(s)[3] == 'L';
      }
    }
    if EqualFold(s, "NULL") {
      assert |s| == 4;
      assert UpperChar(s[0]) == 'N' && UpperChar(s[1]) == 'U';
      assert UpperChar(s[2]) == 'L' && UpperChar(s[3]) == 'L';
    }
  }

  /** The data directory is the printed one unless the trimmed output is empty or spells
      NULL in any letter case; then it is the directory holding the backup file. The exit
      status of the query plays no part. */
  lemma DataPathFallback(queryOutput: string, bakPath: string)
    ensures var t := TrimSpace(queryOutput);
      ResolveDataPath(queryOutput, bakPath) == if t == "" || SpellsNull(t) then Paths.Dir(bakPath) else t
  {
    NullSpellings(TrimSpace(queryOutput));
  }

  /** A NULL data path (in any letter case, with any surrounding space) falls back to the
      directory holding the backup file, whether or not the query itself failed. */
  lemma NullDataPathFallsBack(queryOutput: string, bakPath: string)
    requires SpellsNull(TrimSpace(queryOutput))
    ensures ResolveDataPath(queryOutput, bakPath) == Paths.Dir(bakPath)
  {
    DataPathFallback(queryOutput, bakPath);
  }

  /** The logical name the restore moves for a kind of file. */
  function PlanName(plan: RestorePlan, kind: FileKind): string {
    if kind == LogFile then plan.logLogical else plan.dataLogical
  }

  /** The name used when the listing names no file of a kind. */
  function DefaultName(dbName: string, kind: FileKind): string {
    if kind == LogFile then dbName + "_log" else dbName
  }

  /** The restore moves the logical file named in the first column of the last listed row of
      its kind (the default name if that column is empty). */
  lemma LastListedNameIsRestored(dbName: string, bakPath: string, o: RestoreOutcomes, kind: FileKind, i: nat)
    requires var lines := ListingLines(o.fileList.stdout);
      i < |lines| && IsRowOfKind(lines[i], kind)
      && forall j :: i < j < |lines| ==> !IsRowOfKind(lines[j], kind)
    ensures var name := RowOf(ListingLines(o.fileList.stdout)[i]).value.logicalName;
      PlanName(PlanFor(dbName, bakPath, o), kind) == if name == "" then DefaultName(dbName, kind) else name
  {
    ListingLinesRead(o.fileList.stdout);
    LastRowOfKindWins(ListingLines(o.fileList.stdout), kind, i);
  }

  /** With no listed row of a kind, the restore moves the default logical name: the
      database name for the data file, the database name plus "_log" for the log file. */
  lemma UnlistedKindUsesDefault(dbName: string, bakPath: string, o: RestoreOutcomes, kind: FileKind)
    requires var lines := ListingLines(o.fileList.stdout);
      forall j :: 0 <= j < |lines| ==> !IsRowOfKind(lines[j], kind)
    ensures PlanName(PlanFor(dbName, bakPath, o), kind) == DefaultName(dbName, kind)
  {
    ListingLinesRead(o.fileList.stdout);
    NoRowOfKind(ListingLines(o.fileList.stdout), kind);
  }
}

/** `processFile` and the helpers it calls for one listed backup archive: the size gate,
    download and extraction, locating the ".bak", the permission grants, the restore, the
    update query, and the final deletion with its best-effort ledger update. Every call
    into Drive, Sheets, 7-Zip, `icacls` or `sqlcmd` is an input outcome; what the model
    produces is the trace of effects issued and the error returned. */
module Processor {
  import opened Wrappers
  import opened Sqlcmd
  import opened Restore
  import opened Locator
  import opened Permissions

  /** Files below 10 KiB are deleted without being opened. */
  const MinFileSize: int := 10 * 1024

  /** Ten minutes, in nanoseconds like Go's `time.Duration`. */
  const MaxAgeForDeletion: int := 10 * 60 * 1000000000

  /** The settings `main` reads from the environment and passes down. */
  datatype Config = Config(
    dbHost: string, dbUser: string, dbPass: string, dbName: string,
    archivePassword: string, updateQuery: string)

  /** A listed Drive file. `created` is its creation time parsed as RFC 3339, in nanoseconds
      since the epoch, or None when it does not parse. */
  datatype CandidateFile = CandidateFile(id: string, name: string, size: int, created: Option<int>)

  /** What the outside world answers while one file is processed. */
  datatype FileOutcomes = FileOutcomes(
    deleteOk: bool,              // the Drive delete call
    scratchOk: bool,             // creating the temporary directory
    downloadOk: bool,
    extractOk: bool,             // 7z's exit status
    walk: seq<WalkEntry>,        // the extracted tree as the walk reports it
    restore: RestoreOutcomes,
    updateOk: bool,              // the update query's exit status
    parentName: Option<string>,  // the parent folder lookup: None when it fails, Some("") for a file without a parent
    createdDisplay: string,      // the creation time as formatted for the sheet
    now: int)                    // the clock when the age is checked, in nanoseconds

  datatype Effect =
    | Delete(fileId: string)
    | Download(fileId: string)
    | Extract(archiveName: string, password: string)
    | GrantAccess(grant: Grant)
    | Sql(command: Command)
    | LedgerUpsert(key: string, time: string)

  datatype FileError =
    | DeleteSmallFailed
    | ScratchFailed
    | DownloadFailed
    | ExtractFailed
    | LocateFailed(locateError: LocateError)
    | RestoreDBFailed(restoreError: RestoreError)
    | UpdateQueryFailed
    | DeleteFailed

  datatype FileRun = FileRun(effects: seq<Effect>, result: Outcome<FileError>)

  /** `shouldDelete`: the creation time parses and is at least ten minutes before now. */
  predicate ShouldDelete(created: Option<int>, now: int) {
    created.Some? && now - created.value >= MaxAgeForDeletion
  }

  /** `deleteSmallFile`. */
  function DeleteSmallFile(f: CandidateFile, o: FileOutcomes): FileRun {
    FileRun([Delete(f.id)], if o.deleteOk then Pass else Fail(DeleteSmallFailed))
  }

  /** `deleteFileAndUpdateSpreadsheet`: delete, then record under the parent folder's name
      if it can be found. Only the deletion can fail it. */
  function DeleteAndRecord(f: CandidateFile, o: FileOutcomes): FileRun {
    if !o.deleteOk then FileRun([Delete(f.id)], Fail(DeleteFailed))
    else match o.parentName
      case None => FileRun([Delete(f.id)], Pass)
      case Some(parent) => FileRun([Delete(f.id), LedgerUpsert(parent, o.createdDisplay)], Pass)
  }

  /** `downloadAndExtract`: the effects issued and the ".bak" path or the error. */
  function DownloadAndExtract(f: CandidateFile, cfg: Config, o: FileOutcomes)
    : (seq<Effect>, Result<string, FileError>)
  {
    if !o.downloadOk then ([Download(f.id)], Failure(DownloadFailed))
    else if !o.extractOk then ([Download(f.id), Extract(f.name, cfg.archivePassword)], Failure(ExtractFailed))
    else
      var fetched := [Download(f.id), Extract(f.name, cfg.archivePassword)];
      match FindBak(o.walk)
      case Failure(e) => (fetched, Failure(LocateFailed(e)))
      case Success(bak) => (fetched, Success(bak))
  }

  function GrantEffects(grants: seq<Grant>): seq<Effect>
  {
    seq(|grants|, i requires 0 <= i < |grants| => GrantAccess(grants[i]))
  }

  function SqlEffects(commands: seq<Command>): seq<Effect>
  {
    seq(|commands|, i requires 0 <= i < |commands| => Sql(commands[i]))
  }

  /** `runUpdateQuery`: against the restored database, same credential choice as the restore. */
  function UpdateCommand(cfg: Config): Command {
    Command(cfg.dbHost, cfg.dbName, AuthFor(cfg.dbUser, cfg.dbPass), UpdateQuery(cfg.updateQuery))
  }

  /** The effects of everything after a successful locate, up to the update query. */
  function RestoreEffects(bak: string, cfg: Config, o: FileOutcomes): seq<Effect> {
    GrantEffects(Grants(bak, cfg.dbHost))
    + SqlEffects(RestoreDB(cfg.dbHost, cfg.dbUser, cfg.dbPass, cfg.dbName, bak, o.restore).commands)
  }

  /** `processFile` as a function of the outcomes it meets. */
  function FileRunOf(f: CandidateFile, cfg: Config, o: FileOutcomes): FileRun {
    if f.size < MinFileSize then DeleteSmallFile(f, o)
    else if !o.scratchOk then FileRun([], Fail(ScratchFailed))
    else
      var (fetched, located) := DownloadAndExtract(f, cfg, o);
      if located.Failure? then
        if ShouldDelete(f.created, o.now) then FileRun(fetched + DeleteAndRecord(f, o).effects, Fail(located.error))
        else FileRun(fetched, Fail(located.error))
      else
        var bak := located.value;
        var restored := RestoreDB(cfg.dbHost, cfg.dbUser, cfg.dbPass, cfg.dbName, bak, o.restore);
        var upToRestore := fetched + RestoreEffects(bak, cfg, o);
        if restored.result.Fail? then FileRun(upToRestore, Fail(RestoreDBFailed(restored.result.error)))
        else
          var upToUpdate := upToRestore + [Sql(UpdateCommand(cfg))];
          if !o.updateOk then FileRun(upToUpdate, Fail(UpdateQueryFailed))
          else
            var finish := DeleteAndRecord(f, o);
            FileRun(upToUpdate + finish.effects, finish.result)
  }

  /** `processFile` step by step, with its early returns. */
  method ProcessFile(f: CandidateFile, cfg: Config, o: FileOutcomes)
    returns (effects: seq<Effect>, result: Outcome<FileError>)
    ensures FileRun(effects, result) == FileRunOf(f, cfg, o)
  {
    if f.size < MinFileSize {
      effects := [Delete(f.id)];
      result := if o.deleteOk then Pass else Fail(DeleteSmallFailed);
      return;
    }
    if !o.scratchOk {
      return [], Fail(ScratchFailed);
    }
    var fetched, located := DownloadAndExtract(f, cfg, o).0, DownloadAndExtract(f, cfg, o).1;
    effects := fetched;
    if located.Failure? {
      if ShouldDelete(f.created, o.now) {
        // the outcome of this cleanup is not looked at; the extraction error is returned
        effects := effects + DeleteAndRecord(f, o).effects;
      }
      return effects, Fail(located.error);
    }
    var bak := located.value;
    effects := effects + GrantEffects(Grants(bak, cfg.dbHost));
    var restored := RestoreDB(cfg.dbHost, cfg.dbUser, cfg.dbPass, cfg.dbName, bak, o.restore);
    effects := effects + SqlEffects(restored.commands);
    assert effects == fetched + RestoreEffects(bak, cfg, o);
    if restored.result.Fail? {
      return effects, Fail(RestoreDBFailed(restored.result.error));
    }
    effects := effects + [Sql(UpdateCommand(cfg))];
    if !o.updateOk {
      return effects, Fail(UpdateQueryFailed);
    }
    var finish := DeleteAndRecord(f, o);
    effects := effects + finish.effects;
    result := finish.result;
  }

  predicate Deletes(effects: seq<Effect>) {
    exists i :: 0 <= i < |effects| && effects[i].Delete?
  }

  predicate Records(effects: seq<Effect>) {
    exists i :: 0 <= i < |effects| && effects[i].LedgerUpsert?
  }

  predicate Opens(effects: seq<Effect>) {
    exists i :: 0 <= i < |effects| && (effects[i].Download? || effects[i].Extract? || effects[i].Sql?)
  }

  /** Did downloading, extracting or locating fail? */
  predicate FetchFails(f: CandidateFile, cfg: Config, o: FileOutcomes) {
    DownloadAndExtract(f, cfg, o).1.Failure?
  }

  /** A file under 10 KiB is only deleted: no download, extraction, restore or ledger write,
      and the result is the deletion's. */
  lemma SmallFileIsOnlyDeleted(f: CandidateFile, cfg: Config, o: FileOutcomes)
    requires f.size < MinFileSize
    ensures FileRunOf(f, cfg, o).effects == [Delete(f.id)]
    ensures !Opens(FileRunOf(f, cfg, o).effects) && !Records(FileRunOf(f, cfg, o).effects)
    ensures FileRunOf(f, cfg, o).result == (if o.deleteOk then Pass else Fail(DeleteSmallFailed))
  {
  }

  /** When the archive cannot be downloaded, extracted or searched, the source is deleted and
      recorded only if it is at least ten minutes old; nothing is restored; and the original
      error is returned either way. */
  lemma FetchFailureIsAgeGated(f: CandidateFile, cfg: Config, o: FileOutcomes)
    requires f.size >= MinFileSize && o.scratchOk && FetchFails(f, cfg, o)
    ensures var run := FileRunOf(f, cfg, o);
      run.result == Fail(DownloadAndExtract(f, cfg, o).1.error)
      && (Deletes(run.effects) <==> ShouldDelete(f.created, o.now))
      && (Records(run.effects) ==> ShouldDelete(f.created, o.now) && o.deleteOk && o.parentName.Some?)
      && (ShouldDelete(f.created, o.now) && o.deleteOk && o.parentName.Some? ==>
            run.effects == DownloadAndExtract(f, cfg, o).0
                           + [Delete(f.id), LedgerUpsert(o.parentName.value, o.createdDisplay)])
      && forall i :: 0 <= i < |run.effects| ==> !run.effects[i].Sql? && !run.effects[i].GrantAccess?
  {
    var fetched := DownloadAndExtract(f, cfg, o).0;
    var run := FileRunOf(f, cfg, o);
    assert forall i :: 0 <= i < |fetched| ==> fetched[i].Download? || fetched[i].Extract?;
    if ShouldDelete(f.created, o.now) {
      var tail := DeleteAndRecord(f, o).effects;
      assert run.effects == fetched + tail;
      assert run.effects[|fetched|].Delete?;
      assert forall i :: 0 <= i < |tail| ==> tail[i].Delete? || tail[i].LedgerUpsert?;
      if Records(run.effects) {
        assert |tail| == 2;
      }
    } else {
      assert run.effects == fetched;
    }
  }

  /** A creation time that does not parse never lets a failed file be deleted. */
  lemma UnparsableCreatedTimeKeepsSource(f: CandidateFile, cfg: Config, o: FileOutcomes)
    requires f.size >= MinFileSize && o.scratchOk && FetchFails(f, cfg, o)
    requires f.created.None?
    ensures !Deletes(FileRunOf(f, cfg, o).effects) && !Records(FileRunOf(f, cfg, o).effects)
  {
    FetchFailureIsAgeGated(f, cfg, o);
  }

  /** After a successful restore, the next command is the update query, sent to the restored
      database rather than to `master`, on the same host and with the same credentials as
      the restore commands before it. */
  lemma UpdateRunsOnRestoredDatabase(f: CandidateFile, cfg: Config, o: FileOutcomes)
    requires f.size >= MinFileSize && o.scratchOk && !FetchFails(f, cfg, o)
    requires var bak := DownloadAndExtract(f, cfg, o).1.value;
      RestoreDB(cfg.dbHost, cfg.dbUser, cfg.dbPass, cfg.dbName, bak, o.restore).result.Pass?
    ensures var bak := DownloadAndExtract(f, cfg, o).1.value;
      var before := DownloadAndExtract(f, cfg, o).0 + RestoreEffects(bak, cfg, o);
      var run := FileRunOf(f, cfg, o);
      |before| < |run.effects| && run.effects[..|before|] == before
      && run.effects[|before|] == Sql(Command(cfg.dbHost, cfg.dbName, AuthFor(cfg.dbUser, cfg.dbPass), UpdateQuery(cfg.updateQuery)))
      && forall i :: 0 <= i < |before| && before[i].Sql? ==>
           before[i].command == Command(cfg.dbHost, "master", AuthFor(cfg.dbUser, cfg.dbPass), before[i].command.statement)
  {
    var (fetched, located) := DownloadAndExtract(f, cfg, o);
    var bak := located.value;
    var restored := RestoreDB(cfg.dbHost, cfg.dbUser, cfg.dbPass, cfg.dbName, bak, o.restore);
    var grants := GrantEffects(Grants(bak, cfg.dbHost));
    var sqls := SqlEffects(restored.commands);
    var before := fetched + RestoreEffects(bak, cfg, o);
    assert before == fetched + grants + sqls;
    assert forall i :: 0 <= i < |fetched| ==> !fetched[i].Sql?;
    assert forall i :: 0 <= i < |grants| ==> !grants[i].Sql?;
    assert forall i :: 0 <= i < |sqls| ==> sqls[i] == Sql(restored.commands[i]);
    var upToUpdate := before + [Sql(UpdateCommand(cfg))];
    if o.updateOk {
      assert FileRunOf(f, cfg, o).effects == upToUpdate + DeleteAndRecord(f, o).effects;
    }
    forall i | 0 <= i < |before| && before[i].Sql?
      ensures before[i].command == Command(cfg.dbHost, "master", AuthFor(cfg.dbUser, cfg.dbPass), before[i].command.statement)
    {
      var k := i - |fetched| - |grants|;
      assert 0 <= k < |sqls| && before[i] == sqls[k];
    }
  }

  /** A failed restore or update query leaves the source in Drive and the ledger untouched,
      so the file is retried on the next run. */
  lemma RestoreFailureKeepsSource(f: CandidateFile, cfg: Config, o: FileOutcomes)
    requires f.size >= MinFileSize && o.scratchOk && !FetchFails(f, cfg, o)
    requires var bak := DownloadAndExtract(f, cfg, o).1.value;
      RestoreDB(cfg.dbHost, cfg.dbUser, cfg.dbPass, cfg.dbName, bak, o.restore).result.Fail? || !o.updateOk
    ensures FileRunOf(f, cfg, o).result.Fail?
    ensures !Deletes(FileRunOf(f, cfg, o).effects) && !Records(FileRunOf(f, cfg, o).effects)
  {
    var (fetched, located) := DownloadAndExtract(f, cfg, o);
    var bak := located.value;
    var rest := RestoreEffects(bak, cfg, o);
    assert forall i :: 0 <= i < |fetched| ==> fetched[i].Download? || fetched[i].Extract?;
    assert forall i :: 0 <= i < |rest| ==> rest[i].GrantAccess? || rest[i].Sql?;
  }

  /** The ledger is written only after the source was deleted successfully, and only when
      the parent lookup did not fail; a file without a parent is recorded under "". */
  lemma LedgerOnlyAfterDelete(f: CandidateFile, cfg: Config, o: FileOutcomes, j: nat)
    requires j < |FileRunOf(f, cfg, o).effects| && FileRunOf(f, cfg, o).effects[j].LedgerUpsert?
    ensures 0 < j && FileRunOf(f, cfg, o).effects[j - 1] == Delete(f.id)
    ensures o.deleteOk && o.parentName.Some?
    ensures FileRunOf(f, cfg, o).effects[j] == LedgerUpsert(o.parentName.value, o.createdDisplay)
  {
    var before := RunShape(f, cfg, o);
    if FileRunOf(f, cfg, o).effects != before {
      RecordOnlyInTail(before, f, o, j);
    }
  }

  /** Every run is some effects without a ledger write, possibly followed by those of
      `DeleteAndRecord`. */
  lemma RunShape(f: CandidateFile, cfg: Config, o: FileOutcomes) returns (before: seq<Effect>)
    ensures forall i :: 0 <= i < |before| ==> !before[i].LedgerUpsert?
    ensures FileRunOf(f, cfg, o).effects == before
         || FileRunOf(f, cfg, o).effects == before + DeleteAndRecord(f, o).effects
  {
    if f.size < MinFileSize {
      before := [Delete(f.id)];
    } else if !o.scratchOk {
      before := [];
    } else {
      var (fetched, located) := DownloadAndExtract(f, cfg, o);
      assert forall i :: 0 <= i < |fetched| ==> fetched[i].Download? || fetched[i].Extract?;
      if located.Failure? {
        before := fetched;
      } else {
        var rest := RestoreEffects(located.value, cfg, o);
        assert forall i :: 0 <= i < |rest| ==> rest[i].GrantAccess? || rest[i].Sql?;
        var restored := RestoreDB(cfg.dbHost, cfg.dbUser, cfg.dbPass, cfg.dbName, located.value, o.restore);
        if restored.result.Fail? {
          before := fetched + rest;
        } else {
          before := fetched + rest + [Sql(UpdateCommand(cfg))];
        }
      }
    }
  }

  /** After effects with no ledger write, a ledger write can only be the one
      `DeleteAndRecord` issues right after a successful deletion. */
  lemma RecordOnlyInTail(before: seq<Effect>, f: CandidateFile, o: FileOutcomes, j: nat)
    requires forall i :: 0 <= i < |before| ==> !before[i].LedgerUpsert?
    requires j < |before + DeleteAndRecord(f, o).effects|
    requires (before + DeleteAndRecord(f, o).effects)[j].LedgerUpsert?
    ensures j == |before| + 1 && (before + DeleteAndRecord(f, o).effects)[j - 1] == Delete(f.id)
    ensures o.deleteOk && o.parentName.Some?
    ensures (before + DeleteAndRecord(f, o).effects)[j] == LedgerUpsert(o.parentName.value, o.createdDisplay)
  {
  }

  /** A file restored and updated successfully ends with its deletion and, when the parent
      folder is known, the ledger write; the result is the deletion's, never the ledger's. */
  lemma SuccessDeletesThenRecords(f: CandidateFile, cfg: Config, o: FileOutcomes)
    requires f.size >= MinFileSize && o.scratchOk && !FetchFails(f, cfg, o)
    requires var bak := DownloadAndExtract(f, cfg, o).1.value;
      RestoreDB(cfg.dbHost, cfg.dbUser, cfg.dbPass, cfg.dbName, bak, o.restore).result.Pass? && o.updateOk
    ensures var run := FileRunOf(f, cfg, o);
      var tail := if o.deleteOk && o.parentName.Some?
                  then [Delete(f.id), LedgerUpsert(o.parentName.value, o.createdDisplay)]
                  else [Delete(f.id)];
      |run.effects| >= |tail| && run.effects[|run.effects| - |tail|..] == tail
      && run.result == (if o.deleteOk then Pass else Fail(DeleteFailed))
  {
  }

  /** Once old enough to be deleted, a file stays old enough at every later time. */
  lemma AgeGateStaysOpen(created: Option<int>, now: int, later: int)
    requires ShouldDelete(created, now) && now <= later
    ensures ShouldDelete(created, later)
  {
  }

  /** Whether the parent folder can be named, and so whether the ledger is written, never
      changes what `processFile` returns. */
  lemma LedgerIsBestEffort(f: CandidateFile, cfg: Config, o: FileOutcomes, parent: Option<string>)
    ensures FileRunOf(f, cfg, o.(parentName := parent)).result == FileRunOf(f, cfg, o).result
  {
  }
}

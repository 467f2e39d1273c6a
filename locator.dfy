/** `findBakFile`: walks the extracted tree and keeps the path of the LAST entry whose
    name ends in ".bak". The walk itself is an input: the entries in the order the walk
    reports them, an unreadable entry standing for the error the walk passes on. */
module Locator {
  import opened Wrappers
  import opened Strings

  datatype WalkEntry = Visit(path: string, name: string) | WalkError

  datatype LocateError = WalkFailed | NoBakFile

  /** Files and directories alike match on their name. */
  predicate IsBak(e: WalkEntry) {
    e.Visit? && HasSuffix(e.name, ".bak")
  }

  predicate HasWalkError(entries: seq<WalkEntry>) {
    exists i :: 0 <= i < |entries| && entries[i].WalkError?
  }

  /** The path of the last matching entry, "" when nothing matched. */
  function LastBakPath(entries: seq<WalkEntry>): string {
    if |entries| == 0 then ""
    else if IsBak(entries[|entries| - 1]) then entries[|entries| - 1].path
    else LastBakPath(entries[..|entries| - 1])
  }

  /** What `findBakFile` returns for a walk. */
  function FindBak(entries: seq<WalkEntry>): Result<string, LocateError> {
    if HasWalkError(entries) then Failure(WalkFailed)
    else if LastBakPath(entries) == "" then Failure(NoBakFile)
    else Success(LastBakPath(entries))
  }

  /** The walk callback reassigns the remembered path at every match; an error ends the walk. */
  method FindBakFile(entries: seq<WalkEntry>) returns (r: Result<string, LocateError>)
    ensures r == FindBak(entries)
  {
    var bakFile := "";
    var i := 0;
    while i < |entries|
      invariant 0 <= i <= |entries|
      invariant !HasWalkError(entries[..i])
      invariant bakFile == LastBakPath(entries[..i])
    {
      assert entries[..i + 1][..i] == entries[..i];
      if entries[i].WalkError? {
        assert entries[i] == entries[..i + 1][i];
        assert HasWalkError(entries);
        return Failure(WalkFailed);
      }
      if HasSuffix(entries[i].name, ".bak") {
        bakFile := entries[i].path;
      }
      i := i + 1;
    }
    assert entries[..i] == entries;
    if bakFile == "" {
      return Failure(NoBakFile);
    }
    return Success(bakFile);
  }

  /** The last match wins: a later ".bak" entry replaces every earlier one. */
  lemma {:induction false} LastBakWins(entries: seq<WalkEntry>, i: nat)
    requires i < |entries| && IsBak(entries[i])
    requires forall j :: i < j < |entries| ==> !IsBak(entries[j])
    ensures LastBakPath(entries) == entries[i].path
  {
    if i < |entries| - 1 {
      LastBakWins(entries[..|entries| - 1], i);
    }
  }

  /** Whatever is found is the path of a matching entry. */
  lemma {:induction false} FoundPathIsBak(entries: seq<WalkEntry>)
    requires LastBakPath(entries) != ""
    ensures exists i :: 0 <= i < |entries| && IsBak(entries[i]) && entries[i].path == LastBakPath(entries)
  {
    var last := |entries| - 1;
    if !IsBak(entries[last]) {
      FoundPathIsBak(entries[..last]);
      var i :| 0 <= i < last && IsBak(entries[..last][i]) && entries[..last][i].path == LastBakPath(entries[..last]);
      assert entries[i] == entries[..last][i];
    }
  }

  /** A walk without errors and without any ".bak" entry is "no .bak file found". */
  lemma {:induction false} NoBakMeansNotFound(entries: seq<WalkEntry>)
    requires !HasWalkError(entries)
    requires forall i :: 0 <= i < |entries| ==> !IsBak(entries[i])
    ensures FindBak(entries) == Failure(NoBakFile)
  {
    NoBakPath(entries);
  }

  lemma {:induction false} NoBakPath(entries: seq<WalkEntry>)
    requires forall i :: 0 <= i < |entries| ==> !IsBak(entries[i])
    ensures LastBakPath(entries) == ""
  {
    if |entries| > 0 {
      NoBakPath(entries[..|entries| - 1]);
    }
  }

  /** An error anywhere in the walk is reported, even after a match. */
  lemma WalkErrorWins(entries: seq<WalkEntry>, i: nat)
    requires i < |entries| && entries[i].WalkError?
    ensures FindBak(entries) == Failure(WalkFailed)
  {
  }
}

/** The loop of `main`: every listed file is processed once, in list order, and an error on
    one file is logged and the loop goes on with the next. */
module Batch {
  import opened Wrappers
  import opened Processor

  /** Traces laid end to end. */
  function Concat(traces: seq<seq<Effect>>): seq<Effect> {
    if |traces| == 0 then [] else Concat(traces[..|traces| - 1]) + traces[|traces| - 1]
  }

  /** Each file's trace, in list order. */
  function FileTraces(files: seq<CandidateFile>, cfg: Config, outcomes: seq<FileOutcomes>)
    : seq<seq<Effect>>
    requires |outcomes| == |files|
  {
    seq(|files|, i requires 0 <= i < |files| => FileRunOf(files[i], cfg, outcomes[i]).effects)
  }

  /** Processes every file in order, whatever happened to the files before it; the results
      are what `main` logs per file. */
  method ProcessBatch(files: seq<CandidateFile>, cfg: Config, outcomes: seq<FileOutcomes>)
    returns (effects: seq<Effect>, results: seq<Outcome<FileError>>)
    requires |outcomes| == |files|
    ensures |results| == |files|
    ensures forall i :: 0 <= i < |files| ==> results[i] == FileRunOf(files[i], cfg, outcomes[i]).result
    ensures effects == Concat(FileTraces(files, cfg, outcomes))
  {
    ghost var traces := FileTraces(files, cfg, outcomes);
    effects, results := [], [];
    for i := 0 to |files|
      invariant |results| == i
      invariant forall k :: 0 <= k < i ==> results[k] == FileRunOf(files[k], cfg, outcomes[k]).result
      invariant effects == Concat(traces[..i])
    {
      var fileEffects, result := ProcessFile(files[i], cfg, outcomes[i]);
      assert traces[..i + 1][..i] == traces[..i];
      effects := effects + fileEffects;
      results := results + [result];
    }
    assert traces[..|files|] == traces;
  }

  /** Concatenation splits around any element. */
  lemma {:induction false} ConcatAround(traces: seq<seq<Effect>>, k: nat)
    requires k < |traces|
    ensures Concat(traces) == Concat(traces[..k]) + traces[k] + Concat(traces[k + 1..])
  {
    var n := |traces| - 1;
    if k == n {
      assert traces[k + 1..] == [];
      assert traces[..n] == traces[..k];
    } else {
      ConcatAround(traces[..n], k);
      assert traces[..n][..k] == traces[..k];
      var tail := traces[k + 1..];
      assert traces[..n][k + 1..] == tail[..|tail| - 1];
      assert tail[|tail| - 1] == traces[n];
    }
  }

  /** File k's effects come, whole and uninterrupted, after those of the files listed before
      it and before those of the files listed after it. */
  lemma EachFileInItsPlace(files: seq<CandidateFile>, cfg: Config, outcomes: seq<FileOutcomes>, k: nat)
    requires |outcomes| == |files| && k < |files|
    ensures var traces := FileTraces(files, cfg, outcomes);
      Concat(traces) == Concat(traces[..k]) + FileRunOf(files[k], cfg, outcomes[k]).effects + Concat(traces[k + 1..])
  {
    ConcatAround(FileTraces(files, cfg, outcomes), k);
  }
}

/**
 * The manifest bookkeeping of the documentation generator and the counting
 * loop of `process_directory` (class `Lich5DocumentationGenerator` in
 * generate_docs.py).
 */
module Generator {
  import opened Wrappers

  /** What the manifest records for a processed file: when, and with which provider. */
  datatype ProcessedEntry = ProcessedEntry(timestamp: string, provider: string)

  /** A Ruby file found under the input directory: its path and its base name. */
  datatype RubyFile = RubyFile(path: string, name: string)

  /** The statistics `process_directory` returns: the two-key dictionary when no file was found. */
  datatype Stats =
    | NoFiles
    | Summary(processed: nat, failed: nat, total: nat, provider: string, failedFiles: seq<string>)

  predicate NoDuplicates(s: seq<string>) {
    forall i, j :: 0 <= i < j < |s| ==> s[i] != s[j]
  }

  /** `is_file_processed` on the manifest's map: incremental mode, a recorded path and an existing output. */
  function AlreadyProcessed(incremental: bool, processedFiles: map<string, ProcessedEntry>, path: string, outputExists: bool): bool {
    incremental && path in processedFiles && outputExists
  }

  /** The manifest's failed list after a failure of `path`: appended only when absent. */
  function AddFailed(failed: seq<string>, path: string): (r: seq<string>)
    ensures failed <= r
    ensures forall p :: p in r <==> p in failed || p == path
    ensures |r| <= |failed| + 1
    ensures NoDuplicates(failed) ==> NoDuplicates(r)
  {
    if path in failed then failed else failed + [path]
  }

  /**
   * What a run of `process_directory` depends on besides the generator's
   * state: the mode, the provider's name, the output files that already
   * exist (by name), what `process_file` gives for each path (`None` when it
   * raised) and the clock reading used when a path is marked.
   */
  datatype Env = Env(
    incremental: bool,
    provider: string,
    existing: set<string>,
    results: string -> Option<string>,
    clock: string -> string)

  /**
   * The state a run of `process_directory` updates: the manifest's map and
   * failed list, the generator's own list of failed file names, the output
   * files written so far and the `processed` counter.
   */
  datatype RunState = RunState(
    processedFiles: map<string, ProcessedEntry>,
    manifestFailed: seq<string>,
    failedNames: seq<string>,
    written: set<string>,
    processed: nat)

  /** A documented result counts as success when it is a non-empty string (`if result:`). */
  predicate Succeeded(result: Option<string>) {
    result.Some? && result.value != []
  }

  /** `is_file_processed` at this point of the run: an output exists when it did before or was written since. */
  predicate Skipped(env: Env, st: RunState, f: RubyFile) {
    AlreadyProcessed(env.incremental, st.processedFiles, f.path, f.name in env.existing || f.name in st.written)
  }

  /** One iteration of the loop of `process_directory`. */
  function Step(env: Env, st: RunState, f: RubyFile): RunState {
    if Skipped(env, st, f) then
      st.(processed := st.processed + 1)
    else
      var result := env.results(f.path);
      var names := if result.None? then st.failedNames + [f.name] else st.failedNames;
      if Succeeded(result) then
        st.(processed := st.processed + 1,
            written := st.written + {f.name},
            processedFiles := st.processedFiles[f.path := ProcessedEntry(env.clock(f.path), env.provider)],
            failedNames := names)
      else
        st.(manifestFailed := AddFailed(st.manifestFailed, f.path), failedNames := names)
  }

  /** The loop of `process_directory` over `files`, from state `st`. */
  function Run(env: Env, st: RunState, files: seq<RubyFile>): RunState
    decreases |files|
  {
    if files == [] then st else Step(env, Run(env, st, files[..|files| - 1]), files[|files| - 1])
  }

  /** Each file adds at most one to the `processed` counter. */
  lemma {:induction false} RunProcessedBound(env: Env, st: RunState, files: seq<RubyFile>)
    ensures st.processed <= Run(env, st, files).processed <= st.processed + |files|
    decreases |files|
  {
    if files != [] {
      RunProcessedBound(env, st, files[..|files| - 1]);
    }
  }

  /** The manifest only grows: no recorded path is dropped and the failed list is only extended. */
  lemma {:induction false} RunGrows(env: Env, st: RunState, files: seq<RubyFile>)
    ensures st.processedFiles.Keys <= Run(env, st, files).processedFiles.Keys
    ensures st.manifestFailed <= Run(env, st, files).manifestFailed
    ensures st.failedNames <= Run(env, st, files).failedNames
    decreases |files|
  {
    if files != [] {
      RunGrows(env, st, files[..|files| - 1]);
    }
  }

  /** A failed list that starts without duplicates stays without them. */
  lemma {:induction false} RunNoDuplicates(env: Env, st: RunState, files: seq<RubyFile>)
    requires NoDuplicates(st.manifestFailed)
    ensures NoDuplicates(Run(env, st, files).manifestFailed)
    decreases |files|
  {
    if files != [] {
      RunNoDuplicates(env, st, files[..|files| - 1]);
    }
  }

  /**
   * After the loop, every file's path is recorded either as processed or as
   * failed in the manifest.
   */
  lemma {:induction false} RunCovers(env: Env, st: RunState, files: seq<RubyFile>)
    ensures forall f :: f in files ==>
      f.path in Run(env, st, files).processedFiles || f.path in Run(env, st, files).manifestFailed
    decreases |files|
  {
    if files != [] {
      var init := files[..|files| - 1];
      var last := files[|files| - 1];
      var mid := Run(env, st, init);
      RunCovers(env, st, init);
      RunGrows(env, mid, [last]);
      assert Run(env, mid, [last]) == Step(env, mid, last) by {
        assert [last][..0] == [];
      }
      forall f | f in files
        ensures f.path in Step(env, mid, last).processedFiles || f.path in Step(env, mid, last).manifestFailed
      {
        if f != last {
          assert f in init;
        }
      }
    }
  }

  /** The number of files whose processing succeeded. */
  function SuccessCount(env: Env, files: seq<RubyFile>): (n: nat)
    ensures n <= |files|
    decreases |files|
  {
    if files == [] then 0
    else SuccessCount(env, files[..|files| - 1]) + (if Succeeded(env.results(files[|files| - 1].path)) then 1 else 0)
  }

  /** Outside incremental mode nothing is skipped: `processed` counts exactly the successes. */
  lemma {:induction false} RunRebuildCounts(env: Env, st: RunState, files: seq<RubyFile>)
    requires !env.incremental
    ensures Run(env, st, files).processed == st.processed + SuccessCount(env, files)
    decreases |files|
  {
    if files != [] {
      RunRebuildCounts(env, st, files[..|files| - 1]);
    }
  }

  /**
   * The files of a run from `st` that reach the failure branch: not skipped
   * when their turn comes, and without a non-empty result.
   */
  function FailuresAlong(env: Env, st: RunState, files: seq<RubyFile>): (n: nat)
    ensures n <= |files|
    decreases |files|
  {
    if files == [] then 0
    else
      var init := files[..|files| - 1];
      var last := files[|files| - 1];
      FailuresAlong(env, st, init) + (if !Skipped(env, Run(env, st, init), last) && !Succeeded(env.results(last.path)) then 1 else 0)
  }

  /**
   * In either mode every file adds one to `processed`, whether skipped or
   * documented, except those that reach the failure branch.
   */
  lemma {:induction false} RunCounts(env: Env, st: RunState, files: seq<RubyFile>)
    ensures Run(env, st, files).processed + FailuresAlong(env, st, files) == st.processed + |files|
    decreases |files|
  {
    if files != [] {
      RunCounts(env, st, files[..|files| - 1]);
    }
  }

  /** Only a file whose result is not a success can reach the failure branch. */
  lemma {:induction false} FailuresAlongBound(env: Env, st: RunState, files: seq<RubyFile>)
    ensures FailuresAlong(env, st, files) + SuccessCount(env, files) <= |files|
    decreases |files|
  {
    if files != [] {
      FailuresAlongBound(env, st, files[..|files| - 1]);
    }
  }

  /**
   * Outside incremental mode no file is skipped, so exactly the files without
   * a success reach the failure branch.
   */
  lemma {:induction false} FailuresAlongRebuild(env: Env, st: RunState, files: seq<RubyFile>)
    requires !env.incremental
    ensures FailuresAlong(env, st, files) + SuccessCount(env, files) == |files|
    decreases |files|
  {
    if files != [] {
      FailuresAlongRebuild(env, st, files[..|files| - 1]);
    }
  }

  /** In either mode `processed` grows by at least the number of successes. */
  lemma RunCountsSuccesses(env: Env, st: RunState, files: seq<RubyFile>)
    ensures st.processed + SuccessCount(env, files) <= Run(env, st, files).processed
  {
    RunCounts(env, st, files);
    FailuresAlongBound(env, st, files);
  }

  /** The documentation generator's manifest state and failure list. */
  class DocumentationGenerator {
    const providerName: string
    const incremental: bool
    const forceRebuild: bool
    var processedFiles: map<string, ProcessedEntry>
    var manifestFailed: seq<string>
    var failedFiles: seq<string>

    /** A forced rebuild switches incremental mode off. */
    predicate Valid() {
      forceRebuild ==> !incremental
    }

    /**
     * `__init__` with the loaded manifest passed in: its processed map and
     * failed list, each empty when the manifest or the key is missing.
     */
    constructor(providerName: string, incremental: bool, forceRebuild: bool,
                processedFiles: map<string, ProcessedEntry>, manifestFailed: seq<string>)
      ensures Valid()
      ensures this.providerName == providerName
      ensures this.incremental == (incremental && !forceRebuild)
      ensures this.forceRebuild == forceRebuild
      ensures this.processedFiles == processedFiles && this.manifestFailed == manifestFailed
      ensures failedFiles == []
    {
      this.providerName := providerName;
      this.incremental := incremental && !forceRebuild;
      this.forceRebuild := forceRebuild;
      this.processedFiles := processedFiles;
      this.manifestFailed := manifestFailed;
      failedFiles := [];
    }

    /** `is_file_processed`: skip a file only in incremental mode, when recorded and its output exists. */
    function IsFileProcessed(path: string, outputExists: bool): (r: bool)
      reads this
      requires Valid()
      ensures forceRebuild ==> !r
      ensures r <==> incremental && path in processedFiles && outputExists
    {
      AlreadyProcessed(incremental, processedFiles, path, outputExists)
    }

    /**
     * `mark_file_processed`: on success record `path` with the time and the
     * provider; on failure add it to the failed list unless it is there.
     */
    method MarkFileProcessed(path: string, success: bool, timestamp: string)
      modifies this
      ensures success ==> processedFiles == old(processedFiles)[path := ProcessedEntry(timestamp, providerName)]
      ensures success ==> manifestFailed == old(manifestFailed)
      ensures !success ==> processedFiles == old(processedFiles)
      ensures !success ==> manifestFailed == AddFailed(old(manifestFailed), path)
      ensures failedFiles == old(failedFiles)
    {
      if success {
        processedFiles := processedFiles[path := ProcessedEntry(timestamp, providerName)];
      } else if path !in manifestFailed {
        manifestFailed := manifestFailed + [path];
      }
    }

    /**
     * The loop of `process_directory`: skip what is already processed,
     * otherwise take `process_file`'s result, count and mark a success,
     * mark a failure; then report the statistics.
     */
    method ProcessDirectory(files: seq<RubyFile>, existing: set<string>,
                            results: string -> Option<string>, clock: string -> string) returns (stats: Stats)
      requires Valid()
      modifies this
      ensures files == [] ==> stats == NoFiles
      ensures files == [] ==>
        (processedFiles == old(processedFiles) && manifestFailed == old(manifestFailed) && failedFiles == old(failedFiles))
      ensures files != [] ==>
        var env := Env(incremental, providerName, existing, results, clock);
        var st := Run(env, RunState(old(processedFiles), old(manifestFailed), old(failedFiles), {}, 0), files);
        && processedFiles == st.processedFiles
        && manifestFailed == st.manifestFailed
        && failedFiles == st.failedNames
        && stats == Summary(st.processed, |failedFiles|, |files|, providerName, failedFiles)
    {
      if files == [] {
        return NoFiles;
      }
      ghost var env := Env(incremental, providerName, existing, results, clock);
      ghost var st0 := RunState(processedFiles, manifestFailed, failedFiles, {}, 0);
      var processed := 0;
      var written: set<string> := {};
      for i := 0 to |files|
        invariant RunState(processedFiles, manifestFailed, failedFiles, written, processed) == Run(env, st0, files[..i])
      {
        var f := files[i];
        assert files[..i + 1][..i] == files[..i];
        if IsFileProcessed(f.path, f.name in existing || f.name in written) {
          processed := processed + 1;
          continue;
        }
        var result := results(f.path);
        if result.None? {
          failedFiles := failedFiles + [f.name];
        }
        if result.Some? && result.value != [] {
          processed := processed + 1;
          written := written + {f.name};
          MarkFileProcessed(f.path, true, clock(f.path));
        } else {
          MarkFileProcessed(f.path, false, clock(f.path));
        }
      }
      assert files[..|files|] == files;
      stats := Summary(processed, |failedFiles|, |files|, providerName, failedFiles);
    }
  }
}

/**
 * The export engine of lib.js: `exportFileSync`, `copyTracksSync` and the naming
 * and per-track error isolation of `copyTracksAsync`. A run is specified by pure
 * functions over the file table; the methods are proved to follow them.
 */
module Export {
  import opened Wrappers
  import opened Digits
  import opened FileUri
  import opened Naming
  import opened FileSystem
  import opened Document

  /** Why one track was skipped. */
  datatype ExportError =
    | MissingLocation
    | Unresolved(uriError: UriError)
    | CopyFailed(fsError: FsError)

  /** What one export run is given besides the file system: the tracks in playlist
      order, the destination directory and the URI parser (`url.parse`). */
  datatype Job = Job(tracks: seq<Track>, dest: Path, parseUrl: string -> ParsedUri)

  /** The file table after one attempt, and whether the attempt succeeded. */
  datatype Attempt = Attempt(files: map<Path, Bytes>, outcome: Outcome<ExportError>)

  /** The file table after a run, and the outcome of each track in playlist order. */
  datatype Run = Run(files: map<Path, Bytes>, log: seq<Outcome<ExportError>>)

  /** `exportFileSync` as a value: resolve first, copy only what resolved. */
  function ExportFile(files: map<Path, Bytes>, uri: ParsedUri, destPath: Path): (a: Attempt)
    ensures a.outcome.Pass? <==> NormalizeFileUri(uri).Ok? && NormalizeFileUri(uri).value in files
    ensures a.outcome.Pass? ==> a.files == files[destPath := files[NormalizeFileUri(uri).value]]
    ensures a.outcome.Fail? ==> a.files == files
    ensures NormalizeFileUri(uri).Err? ==> a.outcome == Fail(Unresolved(NormalizeFileUri(uri).error))
  {
    match NormalizeFileUri(uri)
    case Err(e) => Attempt(files, Fail(Unresolved(e)))
    case Ok(src) =>
      if src in files then Attempt(files[destPath := files[src]], Pass)
      else Attempt(files, Fail(CopyFailed(NoSuchFile(src))))
  }

  /** `exportFileSync(srcUri, destPath)`: a resolution error is thrown before any copy. */
  method ExportFileSync(fs: Fs, srcUri: string, destPath: Path, parseUrl: string -> ParsedUri)
    returns (r: Outcome<ExportError>)
    modifies fs
    ensures fs.dirs == old(fs.dirs)
    ensures Attempt(fs.files, r) == ExportFile(old(fs.files), parseUrl(srcUri), destPath)
  {
    var resolved := NormalizeFileUri(parseUrl(srcUri));
    if resolved.Err? {
      return Fail(Unresolved(resolved.error));
    }
    var copied := fs.CopyFile(resolved.value, destPath);
    r := if copied.Pass? then Pass else Fail(CopyFailed(copied.error));
  }

  /** Where the track at 0-based index `i` is copied to. */
  function DestPath(job: Job, i: nat): Path
    requires i < |job.tracks| && job.tracks[i].location.Some?
  {
    Join(job.dest, FileName(i, |job.tracks|, job.tracks[i].location.value))
  }

  /** Different tracks never share a destination, whatever their basenames. */
  lemma DestPathInjective(job: Job, i: nat, j: nat)
    requires i < |job.tracks| && job.tracks[i].location.Some?
    requires j < |job.tracks| && job.tracks[j].location.Some?
    ensures DestPath(job, i) == DestPath(job, j) <==> i == j
  {
    if i != j {
      var a := FileName(i, |job.tracks|, job.tracks[i].location.value);
      var b := FileName(j, |job.tracks|, job.tracks[j].location.value);
      FileNameOrder(i, j, |job.tracks|, job.tracks[i].location.value, job.tracks[j].location.value);
      JoinInjective(job.dest, a, b);
    }
  }

  /**
   * One iteration of the loop: a track with no location is skipped (see the
   * finding on lib.js:121), any other is exported under its positional name.
   */
  function TrackStep(files: map<Path, Bytes>, job: Job, i: nat): Attempt
    requires i < |job.tracks|
  {
    match job.tracks[i].location
    case None => Attempt(files, Fail(MissingLocation))
    case Some(loc) => ExportFile(files, job.parseUrl(loc), DestPath(job, i))
  }

  /** The first `k` iterations of `copyTracksSync`'s loop, in index order. */
  function RunSync(files: map<Path, Bytes>, job: Job, k: nat): Run
    requires k <= |job.tracks|
  {
    if k == 0 then Run(files, [])
    else
      var before := RunSync(files, job, k - 1);
      var a := TrackStep(before.files, job, k - 1);
      Run(a.files, before.log + [a.outcome])
  }

  /** The copies of `copyTracksAsync`, each applied atomically, in completion order. */
  function RunInOrder(files: map<Path, Bytes>, job: Job, order: seq<nat>): map<Path, Bytes>
    requires forall m :: 0 <= m < |order| ==> order[m] < |job.tracks|
  {
    if order == [] then files
    else
      var last := |order| - 1;
      TrackStep(RunInOrder(files, job, order[..last]), job, order[last]).files
  }

  /** `order` lists every track index exactly once. */
  predicate IsCompletionOrder(order: seq<nat>, n: nat) {
    && |order| == n
    && (forall m :: 0 <= m < n ==> order[m] < n)
    && (forall m, m' :: 0 <= m < m' < n ==> order[m] != order[m'])
    && (forall i :: 0 <= i < n ==> i in order)
  }

  /** The track at `i` has a location that the resolver accepts. */
  predicate Resolves(job: Job, i: nat) {
    && i < |job.tracks|
    && job.tracks[i].location.Some?
    && NormalizeFileUri(job.parseUrl(job.tracks[i].location.value)).Ok?
  }

  /** The local path a resolving track is copied from. */
  function SourcePath(job: Job, i: nat): Path
    requires Resolves(job, i)
  {
    NormalizeFileUri(job.parseUrl(job.tracks[i].location.value)).value
  }

  /** The track at `i` resolves and its source file exists in `files`. */
  predicate Copies(files: map<Path, Bytes>, job: Job, i: nat) {
    Resolves(job, i) && SourcePath(job, i) in files
  }

  /** No track is read from a path another track is written to. */
  predicate SourcesAreNotDestinations(job: Job) {
    forall i: nat, j: nat | i < |job.tracks| && j < |job.tracks| ::
      Resolves(job, i) && job.tracks[j].location.Some? ==> SourcePath(job, i) != DestPath(job, j)
  }

  /** `p` is the destination of a track in `done` that is copied. */
  ghost predicate IsWritten(files: map<Path, Bytes>, job: Job, done: set<nat>, p: Path) {
    exists i :: i in done && Copies(files, job, i) && p == DestPath(job, i)
  }

  /** The files present are the old ones and the destinations written. */
  ghost predicate KeysExported(result: map<Path, Bytes>, files: map<Path, Bytes>, job: Job, done: set<nat>) {
    forall p :: p in result <==> p in files || IsWritten(files, job, done, p)
  }

  /** Each destination written holds its source's original bytes. */
  ghost predicate CopiesExported(result: map<Path, Bytes>, files: map<Path, Bytes>, job: Job, done: set<nat>) {
    forall i :: i in done && Copies(files, job, i) ==>
      DestPath(job, i) in result && result[DestPath(job, i)] == files[SourcePath(job, i)]
  }

  /** Every file that is not a destination written is unchanged. */
  ghost predicate OthersKept(result: map<Path, Bytes>, files: map<Path, Bytes>, job: Job, done: set<nat>) {
    forall p :: p in files && !IsWritten(files, job, done, p) ==> p in result && result[p] == files[p]
  }

  /** `result` is `files` after exactly the tracks in `done` were attempted (in any order). */
  ghost predicate Exported(result: map<Path, Bytes>, files: map<Path, Bytes>, job: Job, done: set<nat>) {
    && KeysExported(result, files, job, done)
    && CopiesExported(result, files, job, done)
    && OthersKept(result, files, job, done)
  }

  /** A track that is not copied leaves the table as it is. */
  lemma StepSkips(result: map<Path, Bytes>, files: map<Path, Bytes>, job: Job, done: set<nat>, i: nat)
    requires SourcesAreNotDestinations(job)
    requires i < |job.tracks| && Exported(result, files, job, done) && !Copies(files, job, i)
    ensures TrackStep(result, job, i).files == result && TrackStep(result, job, i).outcome.Fail?
  {
  }

  /** A track that is copied writes its source's original bytes to its destination. */
  lemma StepCopies(result: map<Path, Bytes>, files: map<Path, Bytes>, job: Job, done: set<nat>, i: nat)
    requires SourcesAreNotDestinations(job)
    requires i < |job.tracks| && Exported(result, files, job, done) && Copies(files, job, i)
    ensures TrackStep(result, job, i).outcome.Pass?
    ensures TrackStep(result, job, i).files == result[DestPath(job, i) := files[SourcePath(job, i)]]
  {
    var src := SourcePath(job, i);
    assert !IsWritten(files, job, done, src);
    assert src in result && result[src] == files[src];
  }

  /** Recording a skipped track as attempted changes nothing else. */
  lemma ExportedSkip(result: map<Path, Bytes>, files: map<Path, Bytes>, job: Job, done: set<nat>, i: nat)
    requires Exported(result, files, job, done) && !Copies(files, job, i)
    ensures Exported(result, files, job, done + {i})
  {
    forall p
      ensures IsWritten(files, job, done + {i}, p) <==> IsWritten(files, job, done, p)
    {
    }
  }

  /** The destinations written after one more copy are the earlier ones and its own. */
  lemma WrittenAfterCopy(files: map<Path, Bytes>, job: Job, done: set<nat>, i: nat, p: Path)
    requires Copies(files, job, i)
    ensures IsWritten(files, job, done + {i}, p) <==> IsWritten(files, job, done, p) || p == DestPath(job, i)
  {
    if IsWritten(files, job, done + {i}, p) {
      var j :| j in done + {i} && Copies(files, job, j) && p == DestPath(job, j);
      if j != i {
        assert IsWritten(files, job, done, p);
      }
    }
  }

  lemma KeysAfterCopy(result: map<Path, Bytes>, files: map<Path, Bytes>, job: Job, done: set<nat>, i: nat)
    requires KeysExported(result, files, job, done) && Copies(files, job, i)
    ensures KeysExported(result[DestPath(job, i) := files[SourcePath(job, i)]], files, job, done + {i})
  {
    forall p {
      WrittenAfterCopy(files, job, done, i, p);
    }
  }

  lemma CopiesAfterCopy(result: map<Path, Bytes>, files: map<Path, Bytes>, job: Job, done: set<nat>, i: nat)
    requires CopiesExported(result, files, job, done) && Copies(files, job, i)
    ensures CopiesExported(result[DestPath(job, i) := files[SourcePath(job, i)]], files, job, done + {i})
  {
    forall j | j in done + {i} && Copies(files, job, j) {
      DestPathInjective(job, i, j);
    }
  }

  lemma OthersAfterCopy(result: map<Path, Bytes>, files: map<Path, Bytes>, job: Job, done: set<nat>, i: nat)
    requires OthersKept(result, files, job, done) && Copies(files, job, i)
    ensures OthersKept(result[DestPath(job, i) := files[SourcePath(job, i)]], files, job, done + {i})
  {
    forall p | p in files && !IsWritten(files, job, done + {i}, p)
      ensures p in result[DestPath(job, i) := files[SourcePath(job, i)]]
      ensures result[DestPath(job, i) := files[SourcePath(job, i)]][p] == files[p]
    {
      KeptAfterCopyAt(result, files, job, done, i, p);
    }
  }

  lemma KeptAfterCopyAt(result: map<Path, Bytes>, files: map<Path, Bytes>, job: Job, done: set<nat>, i: nat, p: Path)
    requires OthersKept(result, files, job, done) && Copies(files, job, i)
    requires p in files && !IsWritten(files, job, done + {i}, p)
    ensures p in result[DestPath(job, i) := files[SourcePath(job, i)]]
    ensures result[DestPath(job, i) := files[SourcePath(job, i)]][p] == files[p]
  {
    WrittenAfterCopy(files, job, done, i, p);
  }

  /** Recording a copied track as attempted adds exactly its destination. */
  lemma ExportedCopy(result: map<Path, Bytes>, files: map<Path, Bytes>, job: Job, done: set<nat>, i: nat)
    requires Exported(result, files, job, done) && Copies(files, job, i)
    ensures Exported(result[DestPath(job, i) := files[SourcePath(job, i)]], files, job, done + {i})
  {
    KeysAfterCopy(result, files, job, done, i);
    CopiesAfterCopy(result, files, job, done, i);
    OthersAfterCopy(result, files, job, done, i);
  }

  /** A track's attempt passes exactly when it is copied, whatever was attempted before it. */
  lemma StepOutcome(result: map<Path, Bytes>, files: map<Path, Bytes>, job: Job, done: set<nat>, i: nat)
    requires SourcesAreNotDestinations(job)
    requires i < |job.tracks| && Exported(result, files, job, done)
    ensures TrackStep(result, job, i).outcome.Pass? <==> Copies(files, job, i)
  {
    if Copies(files, job, i) {
      StepCopies(result, files, job, done, i);
    } else {
      StepSkips(result, files, job, done, i);
    }
  }

  /** Attempting one more track extends the set of attempted tracks by it. */
  lemma ExportedStep(result: map<Path, Bytes>, files: map<Path, Bytes>, job: Job, done: set<nat>, i: nat)
    requires SourcesAreNotDestinations(job)
    requires i < |job.tracks| && Exported(result, files, job, done)
    ensures TrackStep(result, job, i).outcome.Pass? <==> Copies(files, job, i)
    ensures Exported(TrackStep(result, job, i).files, files, job, done + {i})
  {
    if Copies(files, job, i) {
      StepCopies(result, files, job, done, i);
      ExportedCopy(result, files, job, done, i);
    } else {
      StepSkips(result, files, job, done, i);
      ExportedSkip(result, files, job, done, i);
    }
  }

  /** Two tables that both result from attempting the same tracks are equal. */
  lemma ExportedUnique(r1: map<Path, Bytes>, r2: map<Path, Bytes>, files: map<Path, Bytes>, job: Job, done: set<nat>)
    requires Exported(r1, files, job, done) && Exported(r2, files, job, done)
    ensures r1 == r2
  {
    forall p | p in r1
      ensures p in r2 && r1[p] == r2[p]
    {
      if IsWritten(files, job, done, p) {
        var i :| i in done && Copies(files, job, i) && p == DestPath(job, i);
      } else {
        assert p in files;
      }
    }
    assert r1.Keys == r2.Keys;
  }

  /** A track that was attempted still reads the same source afterwards. */
  lemma SourceKept(result: map<Path, Bytes>, files: map<Path, Bytes>, job: Job, done: set<nat>, i: nat)
    requires SourcesAreNotDestinations(job)
    requires i < |job.tracks| && Exported(result, files, job, done)
    ensures Copies(result, job, i) <==> Copies(files, job, i)
    ensures Copies(files, job, i) ==> result[SourcePath(job, i)] == files[SourcePath(job, i)]
  {
    if Resolves(job, i) {
      assert !IsWritten(files, job, done, SourcePath(job, i));
    }
  }

  /** Attempting the same tracks again, starting from their result, changes nothing. */
  lemma ExportedFixpoint(result: map<Path, Bytes>, files: map<Path, Bytes>, job: Job, done: set<nat>)
    requires SourcesAreNotDestinations(job)
    requires forall i :: i in done ==> i < |job.tracks|
    requires Exported(result, files, job, done)
    ensures Exported(result, result, job, done)
  {
    forall i | i in done
      ensures Copies(result, job, i) <==> Copies(files, job, i)
      ensures Copies(files, job, i) ==> result[SourcePath(job, i)] == files[SourcePath(job, i)]
    {
      SourceKept(result, files, job, done, i);
    }
    forall p | IsWritten(result, job, done, p)
      ensures p in result
    {
      var i :| i in done && Copies(result, job, i) && p == DestPath(job, i);
    }
  }

  /** The indices below `k`. */
  function Upto(k: nat): (s: set<nat>)
    ensures forall i :: i in s <==> 0 <= i < k
  {
    if k == 0 then {} else Upto(k - 1) + {k - 1}
  }

  /** The indices of the tracks whose copies have completed. */
  function Completed(order: seq<nat>): set<nat> {
    set m | 0 <= m < |order| :: order[m]
  }

  /** After `k` iterations, exactly the first `k` tracks were attempted. */
  lemma {:induction false} RunSyncExported(files: map<Path, Bytes>, job: Job, k: nat)
    requires SourcesAreNotDestinations(job) && k <= |job.tracks|
    ensures Exported(RunSync(files, job, k).files, files, job, Upto(k))
  {
    if k > 0 {
      RunSyncExported(files, job, k - 1);
      ExportedStep(RunSync(files, job, k - 1).files, files, job, Upto(k - 1), k - 1);
      assert Upto(k - 1) + {k - 1} == Upto(k);
    }
  }

  /** The log of the first `k` iterations has one entry per track, the outcome of its own attempt. */
  lemma {:induction false} RunSyncLogEntry(files: map<Path, Bytes>, job: Job, k: nat, i: nat)
    requires i < k <= |job.tracks|
    ensures |RunSync(files, job, k).log| == k
    ensures RunSync(files, job, k).log[i] == TrackStep(RunSync(files, job, i).files, job, i).outcome
  {
    if i < k - 1 {
      RunSyncLogEntry(files, job, k - 1, i);
    } else if k > 1 {
      RunSyncLogEntry(files, job, k - 1, 0);
    }
  }

  /** Each entry of the log is a pass exactly when its track was copied. */
  lemma RunSyncLog(files: map<Path, Bytes>, job: Job, i: nat)
    requires SourcesAreNotDestinations(job) && i < |job.tracks|
    ensures |RunSync(files, job, |job.tracks|).log| == |job.tracks|
    ensures RunSync(files, job, |job.tracks|).log[i].Pass? <==> Copies(files, job, i)
  {
    RunSyncLogEntry(files, job, |job.tracks|, i);
    RunSyncExported(files, job, i);
    StepOutcome(RunSync(files, job, i).files, files, job, Upto(i), i);
  }

  /**
   * The files of a sequential run: every other file is kept, and each track that
   * resolves to an existing source gets exactly one new file, named after its
   * original position, holding the source's bytes. Every track is attempted once,
   * in order, and its outcome says whether it was copied.
   */
  lemma SyncExportContents(files: map<Path, Bytes>, job: Job)
    requires SourcesAreNotDestinations(job)
    ensures var run := RunSync(files, job, |job.tracks|);
      && (forall p :: p in run.files <==>
            p in files || exists i :: 0 <= i < |job.tracks| && Copies(files, job, i) && p == DestPath(job, i))
      && (forall i :: 0 <= i < |job.tracks| && Copies(files, job, i) ==>
            DestPath(job, i) in run.files && run.files[DestPath(job, i)] == files[SourcePath(job, i)])
      && (forall p :: p in files && (forall i :: 0 <= i < |job.tracks| && Copies(files, job, i) ==> p != DestPath(job, i))
            ==> run.files[p] == files[p])
      && |run.log| == |job.tracks|
      && (forall i :: 0 <= i < |job.tracks| ==> (run.log[i].Pass? <==> Copies(files, job, i)))
  {
    RunSyncExported(files, job, |job.tracks|);
    if |job.tracks| > 0 {
      RunSyncLogEntry(files, job, |job.tracks|, 0);
    }
    forall i | 0 <= i < |job.tracks|
      ensures RunSync(files, job, |job.tracks|).log[i].Pass? <==> Copies(files, job, i)
    {
      RunSyncLog(files, job, i);
    }
  }

  /**
   * Exporting again into the same destination leaves the files as the first
   * export left them.
   */
  lemma ExportIdempotent(files: map<Path, Bytes>, job: Job)
    requires SourcesAreNotDestinations(job)
    ensures var once := RunSync(files, job, |job.tracks|).files;
      RunSync(once, job, |job.tracks|).files == once
  {
    var n := |job.tracks|;
    var once := RunSync(files, job, n).files;
    RunSyncExported(files, job, n);
    RunSyncExported(once, job, n);
    ExportedFixpoint(once, files, job, Upto(n));
    ExportedUnique(RunSync(once, job, n).files, once, once, job, Upto(n));
  }

  /** After the first `m` completions, exactly the tracks completed so far were attempted. */
  lemma {:induction false} RunInOrderExported(files: map<Path, Bytes>, job: Job, order: seq<nat>)
    requires SourcesAreNotDestinations(job)
    requires forall m :: 0 <= m < |order| ==> order[m] < |job.tracks|
    ensures Exported(RunInOrder(files, job, order), files, job, Completed(order))
  {
    if order != [] {
      var last := |order| - 1;
      RunInOrderExported(files, job, order[..last]);
      ExportedStep(RunInOrder(files, job, order[..last]), files, job, Completed(order[..last]), order[last]);
      assert Completed(order[..last]) + {order[last]} == Completed(order);
    }
  }

  /**
   * Sequential and concurrent export leave the same files behind, whatever order
   * the concurrent copies complete in.
   */
  lemma SyncAndAsyncAgree(files: map<Path, Bytes>, job: Job, order: seq<nat>)
    requires SourcesAreNotDestinations(job)
    requires IsCompletionOrder(order, |job.tracks|)
    ensures RunInOrder(files, job, order) == RunSync(files, job, |job.tracks|).files
  {
    var n := |job.tracks|;
    RunInOrderExported(files, job, order);
    RunSyncExported(files, job, n);
    forall i | i in Upto(n)
      ensures i in Completed(order)
    {
      assert i in order;
      var m :| 0 <= m < |order| && order[m] == i;
    }
    assert Completed(order) == Upto(n);
    ExportedUnique(RunInOrder(files, job, order), RunSync(files, job, n).files, files, job, Upto(n));
  }

  /**
   * `copyTracksSync(tracks, dest)`: create the destination, then attempt every
   * track once, in order, a failure of one not stopping the others. Only a
   * failure to create the directory fails the call.
   */
  method CopyTracksSync(fs: Fs, job: Job) returns (r: Outcome<FsError>, log: seq<Outcome<ExportError>>)
    modifies fs
    ensures r.Pass? <==> job.dest in old(fs.dirs) || fs.canCreateDirs
    ensures r.Fail? ==> r == Fail(CannotCreateDirectory(job.dest))
    ensures r.Fail? ==> fs.files == old(fs.files) && fs.dirs == old(fs.dirs) && log == []
    ensures r.Pass? ==> fs.dirs == old(fs.dirs) + {job.dest}
    ensures r.Pass? ==> Run(fs.files, log) == RunSync(old(fs.files), job, |job.tracks|)
  {
    log := [];
    r := fs.Mkdir(job.dest);
    if r.Fail? {
      return;
    }
    var n := |job.tracks|;
    var trackPad := |Decimal(n)|;
    if trackPad < 2 {
      trackPad := 2;
    }
    for i := 0 to n
      invariant fs.dirs == old(fs.dirs) + {job.dest}
      invariant Run(fs.files, log) == RunSync(old(fs.files), job, i)
    {
      var track := job.tracks[i];
      if track.location.None? {
        log := log + [Fail(MissingLocation)];
        continue;
      }
      var location := track.location.value;
      var prefix := ZeroPad(Decimal(i + 1), trackPad);
      var fileName := prefix + ". " + Basename(location);
      var outcome := ExportFileSync(fs, location, Join(job.dest, fileName), job.parseUrl);
      log := log + [outcome];
    }
  }

  /** The `tracks.map` pass of `copyTracksAsync`: every track's destination, by index. */
  method DestinationPaths(job: Job) returns (destPaths: seq<Path>)
    ensures |destPaths| == |job.tracks|
    ensures forall k :: 0 <= k < |job.tracks| && job.tracks[k].location.Some? ==> destPaths[k] == DestPath(job, k)
  {
    var n := |job.tracks|;
    var trackPad := |Decimal(n)|;
    if trackPad < 2 {
      trackPad := 2;
    }
    assert trackPad == PadWidth(n);
    destPaths := [];
    for i := 0 to n
      invariant |destPaths| == i
      invariant forall k :: 0 <= k < i && job.tracks[k].location.Some? ==> destPaths[k] == DestPath(job, k)
    {
      var track := job.tracks[i];
      var fileName := "";
      if track.location.Some? {
        var prefix := ZeroPad(Decimal(i + 1), trackPad);
        fileName := prefix + ". " + Basename(track.location.value);
        assert fileName == FileName(i, n, track.location.value);
      }
      destPaths := destPaths + [Join(job.dest, fileName)];
    }
  }

  /**
   * `copyTracksAsync(tracks, dest)`: the same names, computed for every track
   * before any copy starts; the copies then complete in `order`, each failure
   * caught on its own.
   */
  method CopyTracksAsync(fs: Fs, job: Job, order: seq<nat>) returns (r: Outcome<FsError>)
    requires IsCompletionOrder(order, |job.tracks|)
    modifies fs
    ensures r.Pass? <==> job.dest in old(fs.dirs) || fs.canCreateDirs
    ensures r.Fail? ==> fs.files == old(fs.files) && fs.dirs == old(fs.dirs)
    ensures r.Pass? ==> fs.dirs == old(fs.dirs) + {job.dest}
    ensures r.Pass? ==> fs.files == RunInOrder(old(fs.files), job, order)
  {
    r := fs.Mkdir(job.dest);
    if r.Fail? {
      return;
    }
    var n := |job.tracks|;
    var destPaths := DestinationPaths(job);
    for m := 0 to n
      invariant fs.dirs == old(fs.dirs) + {job.dest}
      invariant fs.files == RunInOrder(old(fs.files), job, order[..m])
    {
      var i := order[m];
      assert order[..m + 1][..m] == order[..m];
      var track := job.tracks[i];
      if track.location.Some? {
        var _ := ExportFileSync(fs, track.location.value, destPaths[i], job.parseUrl);
      }
    }
    assert order[..n] == order;
  }

  predicate IsFileName(name: string) {
    name != [] && forall k :: 0 <= k < |name| ==> name[k] != '/'
  }

  /** Three local tracks `dir/name1`, `dir/name2`, `dir/name3`, exported to `dest`. */
  function ThreeTrackJob(dir: string, name1: string, name2: string, name3: string, dest: Path): Job {
    Job([Track(Some(Join(dir, name1))), Track(Some(Join(dir, name2))), Track(Some(Join(dir, name3)))],
        dest, u => ParsedUri(None, None, u))
  }

  /** The first and third of three tracks are named `01. <name1>` and `03. <name3>`. */
  lemma ThreeTrackDestPaths(dir: string, name1: string, name2: string, name3: string, dest: Path)
    requires IsFileName(name1) && IsFileName(name3)
    ensures DestPath(ThreeTrackJob(dir, name1, name2, name3, dest), 0) == Join(dest, "01. " + name1)
    ensures DestPath(ThreeTrackJob(dir, name1, name2, name3, dest), 2) == Join(dest, "03. " + name3)
  {
    var job := ThreeTrackJob(dir, name1, name2, name3, dest);
    assert |job.tracks| == 3;
    assert job.tracks[0].location.value == Join(dir, name1);
    assert job.tracks[2].location.value == Join(dir, name3);
    SmallPlaylistFileName(0, 3, dir, name1);
    SmallPlaylistFileName(2, 3, dir, name3);
    assert DigitChar(1) == '1' && DigitChar(3) == '3';
    assert FileName(0, 3, Join(dir, name1)) == "01. " + name1;
    assert FileName(2, 3, Join(dir, name3)) == "03. " + name3;
  }

  /** A track given by a plain local path is copied from that path. */
  lemma LocalTrackStep(files: map<Path, Bytes>, job: Job, i: nat)
    requires i < |job.tracks| && job.tracks[i].location.Some?
    requires job.parseUrl(job.tracks[i].location.value) == ParsedUri(None, None, job.tracks[i].location.value)
    ensures var src := job.tracks[i].location.value;
      TrackStep(files, job, i)
        == if src in files then Attempt(files[DestPath(job, i) := files[src]], Pass)
           else Attempt(files, Fail(CopyFailed(NoSuchFile(src))))
  {
  }

  lemma NoSlashInPrefixedName(prefix: string, name: string)
    requires prefix == "01. " || prefix == "03. "
    requires IsFileName(name)
    ensures forall k :: 0 <= k < |prefix + name| ==> (prefix + name)[k] != '/'
  {
  }

  /** The files after copying the first of three tracks. */
  function AfterFirst(files: map<Path, Bytes>, dir: string, name1: string, dest: Path): map<Path, Bytes>
    requires Join(dir, name1) in files
  {
    files[Join(dest, "01. " + name1) := files[Join(dir, name1)]]
  }

  lemma ThreeTrackSecond(files: map<Path, Bytes>, dir: string, name1: string, name2: string, name3: string, dest: Path)
    requires IsFileName(name1) && IsFileName(name2) && IsFileName(name3) && dir != dest
    requires Join(dir, name1) in files && Join(dir, name2) !in files
    ensures RunSync(files, ThreeTrackJob(dir, name1, name2, name3, dest), 2)
         == Run(AfterFirst(files, dir, name1, dest), [Pass, Fail(CopyFailed(NoSuchFile(Join(dir, name2))))])
  {
    var job := ThreeTrackJob(dir, name1, name2, name3, dest);
    var f1 := AfterFirst(files, dir, name1, dest);
    ThreeTrackDestPaths(dir, name1, name2, name3, dest);
    NoSlashInPrefixedName("01. ", name1);
    JoinSplits(dir, name2, dest, "01. " + name1);
    LocalTrackStep(files, job, 0);
    assert RunSync(files, job, 1) == Run(f1, [Pass]);
    LocalTrackStep(f1, job, 1);
    assert Join(dir, name2) !in f1;
  }

  /**
   * The export test: of three tracks the second is missing, so exactly
   * `dest/01. <name1>` and `dest/03. <name3>` are written, with the sources' bytes,
   * and nothing named `02.` appears.
   */
  lemma ThreeTrackScenario(files: map<Path, Bytes>, dir: string, name1: string, name2: string, name3: string, dest: Path)
    requires IsFileName(name1) && IsFileName(name2) && IsFileName(name3) && dir != dest
    requires Join(dir, name1) in files && Join(dir, name2) !in files && Join(dir, name3) in files
    ensures var run := RunSync(files, ThreeTrackJob(dir, name1, name2, name3, dest), 3);
      && run.files == files[Join(dest, "01. " + name1) := files[Join(dir, name1)]]
                           [Join(dest, "03. " + name3) := files[Join(dir, name3)]]
      && run.log == [Pass, Fail(CopyFailed(NoSuchFile(Join(dir, name2)))), Pass]
  {
    var job := ThreeTrackJob(dir, name1, name2, name3, dest);
    var f1 := AfterFirst(files, dir, name1, dest);
    ThreeTrackSecond(files, dir, name1, name2, name3, dest);
    ThreeTrackDestPaths(dir, name1, name2, name3, dest);
    NoSlashInPrefixedName("01. ", name1);
    JoinSplits(dir, name3, dest, "01. " + name1);
    LocalTrackStep(f1, job, 2);
    assert f1[Join(dir, name3)] == files[Join(dir, name3)];
  }

  /** How a run of the loop as written ends: normally, or by an exception at some index. */
  datatype Completion = Finished(run: Run) | Aborted(run: Run, at: nat)

  /**
   * The loop of `copyTracksSync` as written: the name is computed before the
   * `try`, so a track with no location throws out of the loop and ends the run.
   */
  function RunSyncAsWritten(files: map<Path, Bytes>, job: Job, k: nat): Completion
    requires k <= |job.tracks|
  {
    if k == 0 then Finished(Run(files, []))
    else
      var before := RunSyncAsWritten(files, job, k - 1);
      if before.Aborted? then before
      else if job.tracks[k - 1].location.None? then Aborted(before.run, k - 1)
      else
        var a := TrackStep(before.run.files, job, k - 1);
        Finished(Run(a.files, before.run.log + [a.outcome]))
  }

  /** When every track has a location, the loop as written and the corrected loop agree. */
  lemma {:induction false} AsWrittenAgreesWhenLocated(files: map<Path, Bytes>, job: Job, k: nat)
    requires k <= |job.tracks|
    requires forall i :: 0 <= i < |job.tracks| ==> job.tracks[i].location.Some?
    ensures RunSyncAsWritten(files, job, k) == Finished(RunSync(files, job, k))
  {
    if k > 0 {
      AsWrittenAgreesWhenLocated(files, job, k - 1);
      var before := RunSync(files, job, k - 1);
      assert job.tracks[k - 1].location.Some?;
      var a := TrackStep(before.files, job, k - 1);
      assert RunSyncAsWritten(files, job, k) == Finished(Run(a.files, before.log + [a.outcome]));
    }
  }

  /** A playlist whose first track has no location and whose second is a valid local file. */
  function FindingJob(): Job {
    Job([Track(None), Track(Some("a.mp3"))], "out", u => ParsedUri(None, None, u))
  }

  /**
   * As written, a first track without a location stops the loop before the valid
   * second track is copied.
   */
  lemma MissingLocationAbortsAsWritten(b: Bytes)
    ensures RunSyncAsWritten(map["a.mp3" := b], FindingJob(), 2) == Aborted(Run(map["a.mp3" := b], []), 0)
    ensures DestPath(FindingJob(), 1) !in map["a.mp3" := b]
  {
    assert DestPath(FindingJob(), 1)[0] == 'o';
    assert RunSyncAsWritten(map["a.mp3" := b], FindingJob(), 1) == Aborted(Run(map["a.mp3" := b], []), 0);
  }

  /** Corrected, the track without a location is skipped and the second one is copied. */
  lemma MissingLocationSkipped(b: Bytes)
    ensures DestPath(FindingJob(), 1) in RunSync(map["a.mp3" := b], FindingJob(), 2).files
    ensures RunSync(map["a.mp3" := b], FindingJob(), 2).log == [Fail(MissingLocation), Pass]
  {
    assert RunSync(map["a.mp3" := b], FindingJob(), 1) == Run(map["a.mp3" := b], [Fail(MissingLocation)]);
  }
}

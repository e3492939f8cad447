# xspf-playlist-exporter, modelled in Dafny

The exporter reads an XSPF playlist and copies every track it lists into a
destination directory. Each copy is renamed `NN. <basename>`. `NN` is the
track's 1-based position in the playlist, zero-padded to the width of the track
count (at least two digits). A track whose location is not a local file, or
whose file is missing, is skipped, and the other tracks are still copied.

This project models the two core files:

- `lib.js`. `normalizeFileUri` decides whether a location is local and yields
  its path. `exportFileSync` copies one file. `zpad` is the zero-padding loop.
  The pad-width and file-name expressions are shared by `copyTracksSync` and
  `copyTracksAsync`. Both of those export loops are modelled.
- `xspf-reader.js`. The `XSPFPlaylist` reader object has fields `dom` and
  `fileName`, set in its constructor and overwritten by `loadFile`. It also has
  the static two-step `validate` and the getters `tracks` and `document`.

Modules, one per file:

- `Wrappers`: `Option`, `Result` and `Outcome`.
- `Digits`: JavaScript's decimal rendering of an integer, the value of a digit
  string, and JavaScript's string order.
- `FileUri`: `normalizeFileUri` over a parsed-URI record.
- `Naming`: `zpad`, the pad width, `path.basename`, `path.join` and the file
  name.
- `Document`: the parsed XSPF tree.
- `FileSystem`: a class `Fs` that holds a table from path to bytes and a set of
  directories. A copy succeeds exactly when its source is in the table.
- `Export`: `exportFileSync`, `copyTracksSync` and `copyTracksAsync`.
- `XspfReader`: the class `XspfPlaylist`.

An export run is specified by two pure functions:

- `Export.RunSync` runs the loop in index order.
- `Export.RunInOrder` applies the asynchronous copies in any completion order.

The methods `CopyTracksSync` and `CopyTracksAsync` are proved to follow these
functions. The lemmas then characterise the files a run leaves behind:

- exactly one new file per track that resolves to an existing source;
- each file is named after the track's original position and holds the
  source's bytes;
- every other file is unchanged.

These lemmas assume that no track reads from another track's destination.
Under that assumption, the sequential and concurrent runs provably leave the
same files, and exporting twice changes nothing.

## Model

| member | source | states |
|---|---|---|
| FileUri.ToLower | lib.js:19 | lowercasing keeps the length and maps each character to its lower-case form (ASCII) |
| FileUri.ToLowerIdempotent | lib.js:19 | lowercasing twice is lowercasing once |
| FileUri.NormalizeFileUri | lib.js:16-27 | the protocol error is raised iff the lowercased protocol is present and not `file:`, and names the lowercased protocol; the host error is raised iff the protocol passed and the host is non-empty, and names the host; on success the pathname is returned unchanged |
| FileUri.AcceptsExactlyLocal | lib.js:17-26 | a location is accepted iff it is local, i.e. it has no protocol or a case-insensitive `file:`, and no host; it then resolves to its pathname |
| FileUri.ProtocolCaseInsensitive | lib.js:19-20 | the letter case of the protocol never changes the outcome |
| FileUri.ProtocolExamples | lib.js:19-25 | `FILE:` is accepted, `http:` with a host reports the protocol error (the protocol is checked first), and `file:` with a host reports the host error |
| Digits.DecimalDigits | lib.js:118 | `n.toString()` is a non-empty digit string with no leading zero that denotes `n` |
| Digits.DecimalLengthMonotone | lib.js:118 | a larger count never has fewer digits |
| Naming.ZeroPad | lib.js:96-102 | the result is as long as the larger of `width` and `s`, ends with `s` and adds only `'0'`s; a string already at least `width` long is returned unchanged; the default width is 2 |
| Naming.PaddedValue | lib.js:96-102 | zero-padding a digit string keeps the number it denotes |
| Naming.PadWidthIsLeast | lib.js:118 | the pad width is at least 2, every position 1..count fits in it, and above 2 it is the digit count of the track count |
| Naming.PrefixShape | lib.js:118-121 | every prefix `zpad(i + 1, trackPad)` is exactly the pad width long, all digits, and denotes the 1-based position `i + 1` |
| Naming.PrefixOrder | lib.js:118-121 | prefixes of two positions are equal iff the positions are, and string order of prefixes is playlist order |
| Naming.TrimTrailingSlashesShape | lib.js:121 | the first step of `path.basename` drops exactly the trailing `/`s |
| Naming.LastSegmentShape | lib.js:121 | the second step of `path.basename` takes the suffix after the last `/` |
| Naming.BasenameShape | lib.js:121 | `path.basename` yields the text after the last `/` of the path with its trailing slashes dropped; it holds no `/` |
| Naming.BasenameOfJoin | lib.js:121 | the basename of `dir/name` is `name` |
| Naming.JoinInjective | lib.js:126 | joining two names to one directory gives equal paths iff the names are equal |
| Naming.JoinSplits | lib.js:126 | a joined path determines both its directory and its slash-free name |
| Naming.FileNameOrder | lib.js:118-121 | file names of different positions differ whatever the basenames, and sort in playlist order |
| Naming.SmallPlaylistFileName | lib.js:118-121 | with fewer than ten tracks, the file `dir/name` at position `i` is named `0<i+1>. name` |
| Naming.WidePrefixExample | lib.js:118-121 | with 100 tracks, the tenth prefix is `010` |
| FileSystem.Fs.CopyFile | lib.js:41 | a copy succeeds iff the source exists; it then overwrites the destination with the source's bytes, and otherwise changes nothing |
| FileSystem.Fs.Mkdir | lib.js:66-68 | creating an existing directory is not an error; creating a missing one succeeds iff the environment allows it; files are untouched |
| Export.ExportFile | lib.js:39-42 | an attempt passes iff the location resolves and its source exists; only then is the destination written; a resolution error is reported before any copy |
| Export.ExportFileSync | lib.js:39-42 | the method's new file table and outcome are those of `ExportFile`; directories are untouched |
| Export.DestPathInjective | lib.js:118-127 | two tracks share a destination iff they are the same track |
| Export.StepOutcome | lib.js:123-130 | a track's attempt passes exactly when it resolves to an existing source, whatever was exported before it |
| Export.ExportedStep | lib.js:119-131 | one more iteration adds exactly that track's copy (if any) to the characterised result |
| Export.ExportedUnique | lib.js:119-131 | the characterisation of a run's files determines them |
| Export.SourceKept | lib.js:119-131 | a run never changes a track's source |
| Export.ExportedFixpoint | lib.js:119-131 | attempting the same tracks again from their result yields that result |
| Export.RunSyncExported | lib.js:119-131 | after `k` iterations, exactly the first `k` tracks were attempted: the files are the old ones plus one destination per copied track |
| Export.RunSyncLogEntry | lib.js:119-131 | the loop records one outcome per track, in order, each the outcome of that track's own attempt |
| Export.RunSyncLog | lib.js:123-130 | each track's outcome is a pass exactly when it was copied; failures are caught per track |
| Export.SyncExportContents | lib.js:115-132 | after `copyTracksSync`, the files are the old ones plus, for each track that resolves to an existing source, the file named with its original position and holding the source's bytes; every other file is unchanged; every track was attempted once |
| Export.ExportIdempotent | lib.js:112-113 | re-exporting into the same destination leaves the files exactly as the first export did |
| Export.RunInOrderExported | lib.js:144-156 | whatever order the concurrent copies complete in, the completed tracks are exactly the ones copied |
| Export.SyncAndAsyncAgree | lib.js:115-157 | `copyTracksAsync` and `copyTracksSync` leave the same files for every completion order |
| Export.CopyTracksSync | lib.js:115-132 | only directory creation can fail the call, and then nothing changes; otherwise the files and the per-track log are those of the sequential run, with every track attempted once, in order |
| Export.DestinationPaths | lib.js:143-150 | the `tracks.map` pass computes, for each track, the same destination as the sequential loop |
| Export.CopyTracksAsync | lib.js:140-157 | only directory creation can fail the call; otherwise the files are those of the copies applied in their completion order |
| Export.ThreeTrackDestPaths | export-tracks.spec.js:25-28 | the first and third of three tracks are named `01. <name>` and `03. <name>` |
| Export.LocalTrackStep | lib.js:39-42 | a plain local path is copied from that path |
| Export.ThreeTrackSecond | export-tracks.spec.js:12-29 | after two of three tracks, with the second missing, only `01.` has been written and the second attempt failed with a missing file |
| Export.ThreeTrackScenario | export-tracks.spec.js:12-29 | with the second of three tracks missing, exactly `01. <name1>` and `03. <name3>` are written, with their sources' bytes, and the log is pass, fail, pass |
| Export.AsWrittenAgreesWhenLocated | lib.js:119-131 | when every track has a location, the loop as written and the corrected loop agree |
| Export.MissingLocationAbortsAsWritten | lib.js:120-121 | as written, a first track without a location aborts the loop before the valid second track is copied |
| Export.MissingLocationSkipped | lib.js:120-130 | corrected, that track is recorded as skipped and the second track is copied |
| XspfReader.XspfPlaylist.constructor | xspf-reader.js:13-16 | a new reader holds the empty document and no file name |
| XspfReader.XspfPlaylist.Validate | xspf-reader.js:55-65 | "not XSPF" iff there is no playlist node; "track list missing" iff there is a playlist without a track list; valid iff both are present, and nothing deeper is inspected |
| XspfReader.XspfPlaylist.LoadFile | xspf-reader.js:23-45 | a read failure rejects and changes nothing; otherwise the file name and the parsed tree are stored before validation, so they stay stored on rejection; the call resolves with the reader iff validation passes, and otherwise rejects with the validation error |
| XspfReader.XspfPlaylist.Tracks | xspf-reader.js:67-69 | the track list is available exactly when the document validates, and is `dom.playlist.trackList.track` |
| XspfReader.XspfPlaylist.Document | xspf-reader.js:71-73 | the `document` getter returns the stored tree itself and changes nothing |
| XspfReader.MissingTrackListMessage | xspf-reader.spec.js:4-10 | a playlist without a track list is rejected with a message containing "Track list is missing"; a tree without a playlist is rejected as not XSPF |
| XspfReader.LoadThenTracks | export-tracks.js:47-49 | after loading a file that validates, `playlist.tracks` is the track list in the file; otherwise no tracks are obtained |

## Left out

- File-system I/O is an in-memory table of path to bytes, with an outcome per
  operation. Read, copy and directory errors other than a missing source or an
  uncreatable directory are not modelled: permissions, a missing destination
  parent, and a full disk.
- Recursive creation of intermediate directories by `mkdir` is not modelled.
  `Mkdir` records only the destination directory itself.
- `url.parse` is not modelled. Callers pass it in as a function to a record
  holding the protocol, the host and the pathname. Its `null` pathname, for
  inputs like `file:`, is represented as a string.
- The XML parser and entity decoding (`fast-xml-parser`, `he`) are not
  modelled. The parser is a function from bytes to the document tree. Parser
  output shapes other than a sequence of tracks are not modelled: a single
  track given as an object, or an empty `trackList` element. Neither are
  playlist fields other than `location`.
- `FileUri.ToLower` lowercases ASCII letters only. JavaScript's
  `toLowerCase` maps all of Unicode.
- `Naming.Join` is `dir + "/" + name`. The normalisation `path.join` applies is
  not modelled: collapsing `//`, resolving `..`, and an empty `dest`.
- `Naming.Basename` follows POSIX `path.basename`. Windows separators are not
  modelled.
- `Export.CopyTracksAsync` treats each copy as atomic and models concurrency
  as an arbitrary completion order. How the individual `copyFile` calls
  interleave is not modelled. The promise plumbing of `exportFileAsync` and
  `mkdirPromised` (lib.js:50-57, 76-85) is represented by the same
  resolve-then-copy step as the sync path.
- `Export.CopyTracksAsync` applies the same correction as the sync loop to a
  track without a location: that track is skipped. As written, `tracks.map`
  throws at such a track, so the call rejects and the tracks after it are
  never started. Only the sync loop's as-written behaviour is modelled, in
  `Export.RunSyncAsWritten`.
- Console logging of names and skip messages is not modelled. The per-track
  outcome log returned by `Export.CopyTracksSync` stands in for it.
- The command shell `export-tracks.js` is not part of this model: argument
  parsing, `process.exit` and elapsed-time reporting. Only its load-then-tracks
  sequence is modelled (`XspfReader.LoadThenTracks`).
- `Export.SyncExportContents`, `Export.SyncAndAsyncAgree` and
  `Export.ExportIdempotent` assume that no track's source is another track's
  destination. Without that assumption, a copy can read a file an earlier copy
  wrote, and the result depends on the order.

## Findings

| source | as written | input that shows it | evidently intended | confidence | as-written member | corrected member |
|---|---|---|---|---|---|---|
| lib.js:121 | `path.basename(track.location)` runs before the `try`, so a track without a location throws a `TypeError` that ends `copyTracksSync` (and rejects `copyTracksAsync`) | a playlist whose first track has no location and whose second is the existing local file `a.mp3` | a track without a location is skipped like any other per-track failure, and the remaining tracks are still copied | medium, not executed | Export.MissingLocationAbortsAsWritten | Export.MissingLocationSkipped |

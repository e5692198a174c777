/**
 The collaborators the object store borrows from the shared filesystem
 storage package: the index, the snapshot, the file record and the poller's
 options. Their internals live outside the object store; here they are
 opaque types and the functions the store calls on them.
 */
module StorageFs {
  import opened Errors
  import opened Blob

  /** A parsed index: which relative keys belong to the configuration. */
  type Index(==)

  /** A fully built read-only snapshot of the configuration state. */
  type Snapshot(==)

  /** Name of the index object, looked up under the store's prefix. */
  const IndexFileName: string := ".flipt.yml"

  /** One object handed to the snapshot builder: its key relative to the
      store's prefix, its size, the reader opened on it and its modification
      time. */
  datatype File = File(key: string, size: int, reader: Reader, modTime: ModTime)

  /** The package functions the store calls: parse an index from a reader,
      produce the default index, match a relative key against an index, and
      build a snapshot from a sequence of files. Each may fail except
      matching. */
  datatype Library = Library(
    parseIndex: Reader -> Result<Index>,
    defaultIndex: Result<Index>,
    matches: (Index, string) -> bool,
    snapshotFromFiles: seq<File> -> Result<Snapshot>)

  /** Durations in nanoseconds, as Go's `time.Duration`. */
  const Second: int := 1_000_000_000

  /** An option of the background poller. `WithInterval` sets the time
      between two refreshes; any other poller option is carried opaquely. */
  datatype PollOption = WithInterval(interval: int) | OtherPollOption(id: nat)
}

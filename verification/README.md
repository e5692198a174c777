# Object-storage snapshot store

A Dafny model of flipt's object-storage `SnapshotStore`. The store serves a
read-only snapshot of flag configuration that it builds from the objects in
a blob bucket (S3 and similar backends). It refreshes that snapshot
periodically. The model covers the refresh pipeline and the store built
around it:

- **Configuration.** The store starts from a default configuration: empty
  prefix and a single 60-second poll interval. `WithPrefix` overwrites the
  prefix. `WithPollOptions` appends poller options after the default.
- **Index resolution (`getIndex`).** The store reads `prefix + .flipt.yml`.
  If the read succeeds, the object is parsed and a parse error is returned.
  If the read fails with `NotFound`, the default index is used. Any other
  read error is returned.
- **Build (`build`).** The build walks a forward-only listing of the bucket
  under the prefix. It strips the prefix from each key and skips objects the
  index rejects without opening them. For each accepted object it opens a
  reader and records a file: relative key, size, reader and modification
  time. A listing error or a failed open aborts the build with that error.
  End-of-listing hands the files to the snapshot builder.
- **Store (`update`, `NewSnapshotStore`, `View`, `String`).**
  - A failed build leaves the published snapshot untouched and reports
    `(false, err)`.
  - A successful build replaces the snapshot and reports `(true, nil)`.
  - Construction fails if the first update fails.
  - `View` runs the caller's function on the current snapshot.
  - `String` returns the scheme.

I/O is modelled as data:
- The bucket is a pair of functions: `list(prefix)` gives a sequence of
  listing events (`Item`, `ListFailed`, `EndOfListing`), and
  `newReader(key)` gives a reader or an error.
- The collaborators from the shared storage package are the fields of a
  `Library` record, over opaque `Index` and `Snapshot` types: index parsing,
  the default index, index matching and snapshot building.
- The index read, the listing, each reader open, the index parse or
  default, and the snapshot build are recorded as `Effect`s, in order:
  `OpenReader`, `ListObjects`, `ParseIndex`, `UseDefaultIndex` and
  `BuildSnapshot`. Cursor steps, index matching and `NewFile` are not
  recorded. This record is what lets the model state which objects
  are opened, that the bucket is not listed after an index failure, and
  that the snapshot builder gets only complete file sets.

Files:
- `errors.dfy`: error codes and `Result`.
- `strings.dfy`: `HasPrefix`, `TrimPrefix`.
- `blob.dfy`: the bucket, the listing events, `Listed` and `ListingError`.
- `storagefs.dfy`: the collaborator types, `File`, `IndexFileName`,
  `PollOption`.
- `store.dfy`: the store itself.
- `properties.dfy`: the lemmas.

## Model

| member | source | states |
|---|---|---|
| Strings.TrimPrefix | internal/storage/fs/object/store.go:147 | If the key starts with the prefix, putting the prefix back in front of the result gives the key. Otherwise the key comes back unchanged. |
| Strings.ReaderKeyRoundTrip | internal/storage/fs/object/store.go:147-152 | The key the store reopens, `prefix + TrimPrefix(key, prefix)`, equals the listed key if and only if the key starts with the prefix. |
| ObjectStore.Apply | internal/storage/fs/object/store.go:86-98 | `WithPrefix` leaves the poller options alone. `WithPollOptions` keeps the prefix and extends the existing poller options. Neither changes the scheme. |
| ObjectStore.ApplyAll | internal/storage/fs/object/store.go:71 | Applying the options never changes the scheme and only extends the poller options. The exact result is stated by `ApplyAllOptions`. |
| StoreProperties.ApplyAllOptions | internal/storage/fs/object/store.go:86-98 | Applying options in order leaves the scheme unchanged. The prefix is the last `WithPrefix` argument, or the previous prefix if there is none. The poller options are the previous ones followed by every `WithPollOptions` argument, in order. |
| StoreProperties.LastPrefixDefault | internal/storage/fs/object/store.go:86-91 | Without a `WithPrefix` option the prefix keeps its previous value. |
| StoreProperties.LastPrefixWins | internal/storage/fs/object/store.go:86-91 | With several `WithPrefix` options, the prefix is the argument of the last one. |
| StoreProperties.ConstructionConfig | internal/storage/fs/object/store.go:62-71 | A constructed store has the given scheme and `""` as its default prefix. Its first poller option is the 60-second interval (60,000,000,000 ns), followed by the caller's poller options in order. |
| ObjectStore.GetIndex | internal/storage/fs/object/store.go:168-190 | Index resolution always starts by opening `prefix + IndexFileName`. |
| StoreProperties.IndexResolution | internal/storage/fs/object/store.go:168-190 | A successful read gives the parser's result, including its error. A `NotFound` read gives the default index's result. Any other read error is returned unchanged. The default is consulted if and only if the read failed with `NotFound`. The parser is consulted if and only if the read succeeded. |
| Blob.Listed | internal/storage/fs/object/store.go:137-145 | The objects the loop sees are the leading run of `Item` events, in order. The cursor stops at the first event after them that is not an object. |
| Blob.ListingError | internal/storage/fs/object/store.go:139-145 | The listing fails if and only if the event right after the listed objects is an error, and the error is that event's, unchanged. End-of-listing, or events that run out, is not an error. |
| ObjectStore.Collect | internal/storage/fs/object/store.go:137-163 | On success the build loop returns one file per reader it opened. Each file's reader is the one the bucket opens at `prefix` + the file's key. |
| StoreProperties.CollectOpensAccepted | internal/storage/fs/object/store.go:147-155 | The keys the build loop opens are a prefix, in listing order, of the reader keys of the objects the index accepts. On success they are all of those keys. |
| ObjectStore.CollectLoop | internal/storage/fs/object/store.go:137-163 | The imperative loop (cursor steps, accumulation, break at EOF, early return on error) computes exactly the files, error and opened keys of `Collect`. |
| StoreProperties.AcceptedFilter | internal/storage/fs/object/store.go:147-150 | An object is among the accepted ones if and only if it was listed and the index matches its prefix-stripped key. |
| StoreProperties.CollectFiles | internal/storage/fs/object/store.go:147-162 | A successful loop saw end-of-listing, not an error. It returns exactly one file per accepted object, in listing order. Each file has the object's relative key, size and modification time, and the reader the bucket opens at `prefix + key`. |
| StoreProperties.CollectSucceedsIff | internal/storage/fs/object/store.go:138-163 | The loop succeeds if and only if the listing ends at end-of-listing and every accepted object's reader opens. |
| StoreProperties.CollectError | internal/storage/fs/object/store.go:139-155 | A failed loop returns the first error in listing order, unchanged. Either the last reader it tried failed after all earlier ones opened, or every accepted reader opened and the listing failed with that error. |
| StoreProperties.PrefixScoping | internal/storage/fs/object/store.go:133-152 | If the bucket lists only keys under the prefix, the key the store opens for an accepted object is that object's own listed key. |
| StoreProperties.RejectedNeverOpened | internal/storage/fs/object/store.go:147-152 | After the index read, no reader is ever opened for an object the index rejects, neither under its listed key nor under the key the store would reopen for it. This holds for any bucket: two objects with the same reader key have the same relative key, so the index answers the same for both. |
| StoreProperties.BuildOpensOnlyAccepted | internal/storage/fs/object/store.go:147-155 | Apart from the index object, every reader the build opens has the reader key of an accepted object, and an index was resolved first. |
| ObjectStore.Build | internal/storage/fs/object/store.go:127-166 | The first call of a build is the index read. A successful build ends with a call to the snapshot builder. |
| StoreProperties.BuildIndexFailure | internal/storage/fs/object/store.go:127-131 | If the index cannot be resolved, the build fails with that error. The bucket is never listed and the snapshot builder never runs. |
| StoreProperties.BuildAbortsOnCollectionError | internal/storage/fs/object/store.go:139-155 | If listing or opening a reader fails, the build fails with the loop's first error and the snapshot builder never runs. |
| StoreProperties.BuildHandsOnlyCompleteFileSets | internal/storage/fs/object/store.go:157-165 | The snapshot builder runs at most once, as the last call, and its result is the build's result. It runs only after the index resolved and the listing reached its end, and only with one file for every accepted object. |
| StoreProperties.BuildReachesBuilderIff | internal/storage/fs/object/store.go:137-165 | The snapshot builder runs if and only if the index resolves, the listing ends at end-of-listing, and every accepted reader opens. |
| ObjectStore.Update | internal/storage/fs/object/store.go:114-125 | `changed` is true exactly when there is no error. On a build error the store is unchanged and the error is the build's. On success the published snapshot is the one the build produced. The configuration never changes. |
| StoreProperties.ViewAfterUpdate | internal/storage/fs/object/store.go:103-125 | After an update, a view sees the new snapshot if the build succeeded. If it failed, the view sees exactly what it saw before. |
| ObjectStore.View | internal/storage/fs/object/store.go:103-107 | Runs the caller's function on the published snapshot. Its contract is stated by `ViewAfterUpdate` and `NewStoreSemantics`: after an update the view sees the newly built snapshot, or the old one if the build failed. |
| ObjectStore.String | internal/storage/fs/object/store.go:109-111 | Gives the store's scheme. Its contract is stated by `NewStoreSemantics`, where it gives the scheme passed at construction, and by `TicksServeLastGood`, where it never changes. |
| ObjectStore.NewSnapshotStore | internal/storage/fs/object/store.go:61-84 | A constructed store always has a snapshot and carries the given scheme. |
| StoreProperties.NewStoreSemantics | internal/storage/fs/object/store.go:61-111 | Construction succeeds if and only if the first build does. On failure it returns that build's error. On success the store has the option-derived configuration, `String` gives the scheme, and `View(fn)` gives `fn` of the freshly built snapshot. |
| ObjectStore.Ticks | internal/storage/fs/object/store.go:79-81 | Repeated refreshes never change the configuration. Once a snapshot is published, the store is never left without one. |
| StoreProperties.TicksServeLastGood | internal/storage/fs/object/store.go:114-125 | After any run of refreshes, the store serves the snapshot of the most recent successful build, or its starting snapshot if none succeeded. Failed refreshes leave the previous snapshot in place. The scheme stays the same. |

## Left out

- The `s3i` scheme, `init` registration and `urlSessionOpener`
  (store.go:27-46): foreign S3 client wiring with no decision logic.
- The background poller goroutine, the read/write mutex and context
  cancellation: concurrency is not modelled. `Ticks` is a sequential
  stand-in that runs one update per bucket state. Each lock-protected
  read or write of the snapshot counts as one atomic step.
- Logging: the debug line on index fallback is a side channel.
- The internals of index parsing, the default index, matching, snapshot
  building and `NewFile` are not part of this model. They are the fields
  of `Library` and the `File` record.
- `IndexFileName` is defined in the shared storage package, which is not
  part of this model. Its value `.flipt.yml` comes from that package, and
  no property depends on it.
- `ApplyAll` assumes that `containers.ApplyAll`, whose source is not part
  of this model, applies options in argument order.
- Poller options other than `WithInterval` are opaque
  (`OtherPollOption`). The poller's own handling of them is not modelled.
- Byte streams and `time.Time` are opaque (`Reader`, `ModTime`). Readers
  that are never closed (the index reader, readers of failed builds) are
  not tracked.
- Go strings are byte sequences. Keys here are `seq<char>`, and prefix
  stripping is the same operation on either.
- Object sizes are unbounded integers. The store only copies them, so
  `int64` width does not matter.
- Listing cursor: a cursor whose events run out counts as end-of-listing,
  as Go's iterator returns `io.EOF` after exhaustion. A wrapped `io.EOF`
  is the `EndOfListing` event.
- `DefaultFliptIndex()` returns `(*FliptIndex, error)`, so the default
  index can fail too (`defaultIndex: Result<Index>`), and the store
  returns that error (store.go:189).
- The store relies on the bucket's `List(Prefix)` contract to list only
  keys under the prefix. A key outside it passes `TrimPrefix` unchanged
  and is reopened as `prefix + key`, which is a different object
  (`ReaderKeyRoundTrip`). `PrefixScoping` therefore assumes a bucket that
  honours the prefix.
- BuildOpensOnlyAccepted: states membership among the accepted reader
  keys. Listing order is stated separately by `CollectOpensAccepted`.

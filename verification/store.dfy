/**
 The object-storage snapshot store: configuration by options, index
 resolution, the build pass over the bucket listing, and the store's
 refresh transition.

 The index read, the listing, each reader open, the index parse or default,
 and the snapshot build are recorded as `Effect`s, in the order the store
 performs them, so that what the store reads, lists, parses and hands to the
 snapshot builder can be stated. Cursor steps, index matching and building a
 file record are not recorded.
 */
module ObjectStore {
  import opened Errors
  import opened Strings
  import opened Blob
  import opened StorageFs

  // ---------------------------------------------------------------- config

  /** The store's immutable configuration. */
  datatype Config = Config(scheme: string, prefix: string, pollOpts: seq<PollOption>)

  /** A construction option of the store. */
  datatype StoreOption = WithPrefix(prefix: string) | WithPollOptions(opts: seq<PollOption>)

  /** The poller option every store starts with: refresh once a minute. */
  const DefaultPollOption: PollOption := WithInterval(60 * Second)

  /** The configuration before any option is applied. */
  function DefaultConfig(scheme: string): Config {
    Config(scheme, "", [DefaultPollOption])
  }

  /** One option: `WithPrefix` overwrites the prefix, `WithPollOptions`
      appends its poller options after the ones already present. */
  function Apply(c: Config, o: StoreOption): (r: Config)
    ensures r.scheme == c.scheme
    ensures c.pollOpts <= r.pollOpts
    ensures o.WithPrefix? ==> r.pollOpts == c.pollOpts
    ensures o.WithPollOptions? ==> r.prefix == c.prefix
  {
    match o
    case WithPrefix(p) => c.(prefix := p)
    case WithPollOptions(os) => c.(pollOpts := c.pollOpts + os)
  }

  /** The options applied one after another, in the order given. */
  function ApplyAll(c: Config, opts: seq<StoreOption>): (r: Config)
    ensures r.scheme == c.scheme
    ensures c.pollOpts <= r.pollOpts
    decreases |opts|
  {
    if |opts| == 0 then c else ApplyAll(Apply(c, opts[0]), opts[1..])
  }

  // --------------------------------------------------------------- effects

  /** A call the store makes on the bucket or on the collaborator package. */
  datatype Effect =
    | OpenReader(key: string)
    | ListObjects(prefix: string)
    | ParseIndex
    | UseDefaultIndex
    | BuildSnapshot(files: seq<File>)

  /** The outcome of a step together with the calls it made, in order. */
  datatype Run<+T> = Run(outcome: Result<T>, effects: seq<Effect>)

  /** The world a build runs against: the bucket as it is now and the
      collaborator package. */
  datatype Env = Env(bucket: Bucket, lib: Library)

  /** One reader open per key, in order. */
  function Opens(keys: seq<string>): seq<Effect>
  {
    seq(|keys|, i requires 0 <= i < |keys| => OpenReader(keys[i]))
  }

  // ----------------------------------------------------------------- index

  /** The object the index is read from. */
  function IndexKey(prefix: string): string {
    prefix + IndexFileName
  }

  /** Resolve the index: parse the index object when it opens, fall back to
      the default index when it does not exist, and fail with any other
      error of the bucket or with the parser's error. */
  function GetIndex(prefix: string, env: Env): (r: Run<Index>)
    ensures |r.effects| > 0 && r.effects[0] == OpenReader(IndexKey(prefix))
  {
    match env.bucket.newReader(IndexKey(prefix))
    case Ok(rd) =>
      Run(env.lib.parseIndex(rd), [OpenReader(IndexKey(prefix)), ParseIndex])
    case Err(e) =>
      if e.code != NotFound then Run(Err(e), [OpenReader(IndexKey(prefix))])
      else Run(env.lib.defaultIndex, [OpenReader(IndexKey(prefix)), UseDefaultIndex])
  }

  // ---------------------------------------------------------------- build

  /** The key of a listed object relative to the store's prefix. */
  function RelativeKey(prefix: string, a: ObjectAttrs): string {
    TrimPrefix(a.key, prefix)
  }

  /** The index accepts the listed object. */
  predicate Accepts(env: Env, idx: Index, prefix: string, a: ObjectAttrs) {
    env.lib.matches(idx, RelativeKey(prefix, a))
  }

  /** The listed objects the index accepts, in listing order. */
  function Accepted(items: seq<ObjectAttrs>, prefix: string, idx: Index, env: Env): (r: seq<ObjectAttrs>)
    ensures forall i :: 0 <= i < |r| ==> Accepts(env, idx, prefix, r[i])
  {
    if |items| == 0 then []
    else if Accepts(env, idx, prefix, items[0]) then [items[0]] + Accepted(items[1..], prefix, idx, env)
    else Accepted(items[1..], prefix, idx, env)
  }

  /** The keys the store opens for the given objects: the prefix in front of
      each relative key. */
  function ReaderKeys(items: seq<ObjectAttrs>, prefix: string): seq<string>
  {
    seq(|items|, i requires 0 <= i < |items| => prefix + RelativeKey(prefix, items[i]))
  }

  /** The result of the collection loop: the files or the error that aborted
      it, and the keys it opened readers for, in order. */
  datatype Collected = Collected(outcome: Result<seq<File>>, readerKeys: seq<string>)

  /** The collection loop of a build over the listing events: each object
      is matched by its relative key; an accepted object has its reader
      opened and becomes a file; a listing error or a failed open aborts;
      end-of-listing ends it. On success there is one file per opened
      reader, and each file's reader is the one opened under its key. */
  function Collect(events: seq<ListEvent>, prefix: string, idx: Index, env: Env): (r: Collected)
    ensures r.outcome.Ok? ==> |r.outcome.value| == |r.readerKeys|
    ensures r.outcome.Ok? ==> forall i :: 0 <= i < |r.readerKeys| ==>
              r.readerKeys[i] == prefix + r.outcome.value[i].key
              && env.bucket.newReader(r.readerKeys[i]) == Ok(r.outcome.value[i].reader)
    decreases |events|
  {
    if |events| == 0 then Collected(Ok([]), [])
    else match events[0]
      case EndOfListing => Collected(Ok([]), [])
      case ListFailed(e) => Collected(Err(e), [])
      case Item(a) =>
        var key := TrimPrefix(a.key, prefix);
        if !env.lib.matches(idx, key) then Collect(events[1..], prefix, idx, env)
        else match env.bucket.newReader(prefix + key)
          case Err(e) => Collected(Err(e), [prefix + key])
          case Ok(rd) =>
            var rest := Collect(events[1..], prefix, idx, env);
            var files := if rest.outcome.Ok? then Ok([File(key, a.size, rd, a.modTime)] + rest.outcome.value)
                         else rest.outcome;
            Collected(files, [prefix + key] + rest.readerKeys)
  }

  /** The collection already done (`files`, `keys`) followed by the
      collection `c` of the remaining events. */
  function Resume(files: seq<File>, keys: seq<string>, c: Collected): Collected {
    Collected(if c.outcome.Ok? then Ok(files + c.outcome.value) else c.outcome, keys + c.readerKeys)
  }

  lemma ResumeStart(c: Collected)
    ensures Resume([], [], c) == c
  {
    assert c.outcome.Ok? ==> [] + c.outcome.value == c.outcome.value;
    assert [] + c.readerKeys == c.readerKeys;
  }

  lemma ResumeDone(files: seq<File>, keys: seq<string>)
    ensures Resume(files, keys, Collected(Ok([]), [])) == Collected(Ok(files), keys)
  {
    assert files + [] == files && keys + [] == keys;
  }

  lemma ResumeStep(files: seq<File>, keys: seq<string>, f: File, k: string, c: Collected)
    ensures Resume(files, keys, Collected(if c.outcome.Ok? then Ok([f] + c.outcome.value) else c.outcome, [k] + c.readerKeys))
         == Resume(files + [f], keys + [k], c)
  {
    assert c.outcome.Ok? ==> files + ([f] + c.outcome.value) == (files + [f]) + c.outcome.value;
    assert keys + ([k] + c.readerKeys) == (keys + [k]) + c.readerKeys;
  }

  /** The collection loop as the store runs it: one cursor step per
      iteration, accumulating files, breaking at end-of-listing and
      returning at the first error. It computes exactly `Collect`. */
  method CollectLoop(events: seq<ListEvent>, prefix: string, idx: Index, env: Env)
    returns (outcome: Result<seq<File>>, readerKeys: seq<string>)
    ensures Collected(outcome, readerKeys) == Collect(events, prefix, idx, env)
  {
    var files: seq<File> := [];
    readerKeys := [];
    var i := 0;
    assert events[i..] == events;
    ResumeStart(Collect(events, prefix, idx, env));
    while i < |events|
      invariant 0 <= i <= |events|
      invariant Collect(events, prefix, idx, env) == Resume(files, readerKeys, Collect(events[i..], prefix, idx, env))
    {
      match events[i]
      case EndOfListing =>
        ResumeDone(files, readerKeys);
        return Ok(files), readerKeys;
      case ListFailed(e) =>
        assert readerKeys + [] == readerKeys;
        return Err(e), readerKeys;
      case Item(a) =>
        var key := TrimPrefix(a.key, prefix);
        assert events[i..][1..] == events[i + 1..];
        if env.lib.matches(idx, key) {
          var rd := env.bucket.newReader(prefix + key);
          if rd.Err? {
            return Err(rd.error), readerKeys + [prefix + key];
          }
          ResumeStep(files, readerKeys, File(key, a.size, rd.value, a.modTime), prefix + key,
                     Collect(events[i + 1..], prefix, idx, env));
          files := files + [File(key, a.size, rd.value, a.modTime)];
          readerKeys := readerKeys + [prefix + key];
        }
        i := i + 1;
    }
    assert events[i..] == [];
    ResumeDone(files, readerKeys);
    return Ok(files), readerKeys;
  }

  /** One build pass: resolve the index, list the bucket under the prefix,
      collect the accepted files, and hand them to the snapshot builder. */
  function Build(prefix: string, env: Env): (r: Run<Snapshot>)
    ensures |r.effects| > 0 && r.effects[0] == OpenReader(IndexKey(prefix))
    ensures r.outcome.Ok? ==> r.effects[|r.effects| - 1].BuildSnapshot?
  {
    var ir := GetIndex(prefix, env);
    match ir.outcome
    case Err(e) => Run(Err(e), ir.effects)
    case Ok(idx) =>
      var c := Collect(env.bucket.list(prefix), prefix, idx, env);
      var listed := ir.effects + [ListObjects(prefix)] + Opens(c.readerKeys);
      match c.outcome
      case Err(e) => Run(Err(e), listed)
      case Ok(files) => Run(env.lib.snapshotFromFiles(files), listed + [BuildSnapshot(files)])
  }

  // ---------------------------------------------------------------- store

  /** The store: its configuration and the published snapshot, absent only
      before the first successful update. */
  datatype Store = Store(config: Config, snap: Option<Snapshot>)

  /** The answer of one update: the store after it, and `(changed, err)`. */
  datatype Updated = Updated(store: Store, changed: bool, err: Option<Error>)

  /** Rebuild and publish: on failure the store is left as it was and the
      error is reported; on success the new snapshot replaces the old one. */
  function Update(s: Store, env: Env): (r: Updated)
    ensures r.changed <==> r.err.None?
    ensures r.store.config == s.config
    ensures r.err.Some? ==> r.store == s && Build(s.config.prefix, env).outcome == Err(r.err.value)
    ensures r.err.None? ==> r.store.snap.Some? && Build(s.config.prefix, env).outcome == Ok(r.store.snap.value)
  {
    match Build(s.config.prefix, env).outcome
    case Err(e) => Updated(s, false, Some(e))
    case Ok(snap) => Updated(s.(snap := Some(snap)), true, None)
  }

  /** Construct a store: apply the options to the default configuration and
      run one update; the store exists only if that update succeeds. */
  function NewSnapshotStore(scheme: string, opts: seq<StoreOption>, env: Env): (r: Result<Store>)
    ensures r.Ok? ==> r.value.snap.Some? && r.value.config.scheme == scheme
  {
    var u := Update(Store(ApplyAll(DefaultConfig(scheme), opts), None), env);
    match u.err
    case Some(e) => Err(e)
    case None => Ok(u.store)
  }

  /** Run the caller's function on the published snapshot and return what it returns. */
  function View<R>(s: Store, fn: Option<Snapshot> -> R): R {
    fn(s.snap)
  }

  /** The store's name: its configured scheme. */
  function String(s: Store): string {
    s.config.scheme
  }

  /** The store after the poller has run one update per bucket state, in
      order; failed updates are swallowed. */
  function Ticks(s: Store, envs: seq<Env>): (r: Store)
    ensures r.config == s.config
    ensures s.snap.Some? ==> r.snap.Some?
    decreases |envs|
  {
    if |envs| == 0 then s else Ticks(Update(s, envs[0]).store, envs[1..])
  }
}

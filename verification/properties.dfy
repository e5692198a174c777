/**
 Properties of the object snapshot store: what configuration the options
 produce, what the collection loop opens and returns, how a build fails,
 and what a reader sees across updates.
 */
module StoreProperties {
  import opened Errors
  import opened Strings
  import opened Blob
  import opened StorageFs
  import opened ObjectStore

  // ------------------------------------------------------------- options

  /** Reference meaning of the prefix options: the argument of the last
      `WithPrefix`, or `d` when there is none. */
  function LastPrefix(opts: seq<StoreOption>, d: string): string
    decreases |opts|
  {
    if |opts| == 0 then d
    else match opts[|opts| - 1]
      case WithPrefix(p) => p
      case WithPollOptions(_) => LastPrefix(opts[..|opts| - 1], d)
  }

  /** Reference meaning of the poller options: all arguments of all
      `WithPollOptions`, in order. */
  function PollOptionsOf(opts: seq<StoreOption>): seq<PollOption>
    decreases |opts|
  {
    if |opts| == 0 then []
    else (match opts[0] case WithPrefix(_) => [] case WithPollOptions(os) => os)
         + PollOptionsOf(opts[1..])
  }

  lemma {:induction false} LastPrefixFront(o: StoreOption, rest: seq<StoreOption>, d: string)
    ensures LastPrefix([o] + rest, d) == LastPrefix(rest, if o.WithPrefix? then o.prefix else d)
    decreases |rest|
  {
    if |rest| > 0 {
      var all := [o] + rest;
      assert all[..|all| - 1] == [o] + rest[..|rest| - 1];
      assert all[|all| - 1] == rest[|rest| - 1];
      LastPrefixFront(o, rest[..|rest| - 1], d);
    } else {
      assert ([o] + rest)[..0] == [];
    }
  }

  /** Applying options in order yields the last prefix given (or the one
      already configured) and appends every poller option, in order, after
      the ones already present; the scheme never changes. */
  lemma {:induction false} ApplyAllOptions(c: Config, opts: seq<StoreOption>)
    ensures ApplyAll(c, opts) == Config(c.scheme, LastPrefix(opts, c.prefix), c.pollOpts + PollOptionsOf(opts))
    decreases |opts|
  {
    if |opts| > 0 {
      ApplyAllOptions(Apply(c, opts[0]), opts[1..]);
      assert opts == [opts[0]] + opts[1..];
      LastPrefixFront(opts[0], opts[1..], c.prefix);
    }
  }

  /** Without a `WithPrefix` the prefix stays `d`. */
  lemma {:induction false} LastPrefixDefault(opts: seq<StoreOption>, d: string)
    requires forall i :: 0 <= i < |opts| ==> opts[i].WithPollOptions?
    ensures LastPrefix(opts, d) == d
    decreases |opts|
  {
    if |opts| > 0 {
      LastPrefixDefault(opts[..|opts| - 1], d);
    }
  }

  /** `WithPrefix` is last-one-wins: the prefix is the argument of the
      `WithPrefix` that no other one follows. */
  lemma {:induction false} LastPrefixWins(opts: seq<StoreOption>, d: string, i: nat)
    requires i < |opts| && opts[i].WithPrefix?
    requires forall j :: i < j < |opts| ==> opts[j].WithPollOptions?
    ensures LastPrefix(opts, d) == opts[i].prefix
    decreases |opts|
  {
    if i < |opts| - 1 {
      var init := opts[..|opts| - 1];
      assert opts[|opts| - 1].WithPollOptions?;
      LastPrefixWins(init, d, i);
    }
  }

  /** A store built with options starts from scheme, empty prefix and the
      one-minute poll interval: the default poller option comes first and
      every caller-supplied poller option follows it in order. */
  lemma ConstructionConfig(scheme: string, opts: seq<StoreOption>)
    ensures var cfg := ApplyAll(DefaultConfig(scheme), opts);
      && cfg.scheme == scheme
      && cfg.prefix == LastPrefix(opts, "")
      && cfg.pollOpts == [WithInterval(60 * Second)] + PollOptionsOf(opts)
      && cfg.pollOpts[0] == WithInterval(60_000_000_000)
  {
    ApplyAllOptions(DefaultConfig(scheme), opts);
  }

  // ------------------------------------------------------- index resolution

  /** The index comes from the parser when the index object opens (its
      error included), from the default when the object does not exist, and
      any other read error is the result. The default is consulted exactly
      when the read failed with `NotFound`, the parser exactly when it
      succeeded. */
  lemma IndexResolution(prefix: string, env: Env)
    ensures var read := env.bucket.newReader(IndexKey(prefix));
      var r := GetIndex(prefix, env);
      && (read.Ok? ==> r.outcome == env.lib.parseIndex(read.value))
      && (read.Err? && read.error.code == NotFound ==> r.outcome == env.lib.defaultIndex)
      && (read.Err? && read.error.code != NotFound ==> r.outcome == Err(read.error))
      && (UseDefaultIndex in r.effects <==> read.Err? && read.error.code == NotFound)
      && (ParseIndex in r.effects <==> read.Ok?)
  {
  }

  // ----------------------------------------------------- collection loop

  /** `f` is the file the store makes of the listed object `a`: its key is
      the relative key, its size and modification time are the listed ones,
      and its reader is what the bucket opens at `prefix + key`. */
  predicate FileFor(f: File, a: ObjectAttrs, prefix: string, b: Bucket) {
    && f.key == RelativeKey(prefix, a)
    && f.size == a.size
    && f.modTime == a.modTime
    && b.newReader(prefix + f.key) == Ok(f.reader)
  }

  predicate FilesFor(files: seq<File>, items: seq<ObjectAttrs>, prefix: string, b: Bucket) {
    |files| == |items| && forall i :: 0 <= i < |files| ==> FileFor(files[i], items[i], prefix, b)
  }

  /** Every key opens. */
  predicate AllOpen(keys: seq<string>, b: Bucket) {
    forall i :: 0 <= i < |keys| ==> b.newReader(keys[i]).Ok?
  }

  /** The objects the index accepts are exactly the listed ones it matches. */
  lemma {:induction false} AcceptedFilter(items: seq<ObjectAttrs>, prefix: string, idx: Index, env: Env, a: ObjectAttrs)
    ensures a in Accepted(items, prefix, idx, env) <==> a in items && Accepts(env, idx, prefix, a)
    decreases |items|
  {
    if |items| > 0 {
      AcceptedFilter(items[1..], prefix, idx, env, a);
      assert items == [items[0]] + items[1..];
    }
  }

  /** Unfolding the accepted keys of a listing that starts with an
      accepted object. */
  lemma AcceptedKeysCons(events: seq<ListEvent>, prefix: string, idx: Index, env: Env)
    requires |events| > 0 && events[0].Item? && Accepts(env, idx, prefix, events[0].attrs)
    ensures ReaderKeys(Accepted(Listed(events), prefix, idx, env), prefix)
         == [prefix + RelativeKey(prefix, events[0].attrs)]
            + ReaderKeys(Accepted(Listed(events[1..]), prefix, idx, env), prefix)
  {
  }

  lemma AllOpenCons(k: string, ks: seq<string>, b: Bucket)
    ensures AllOpen([k] + ks, b) <==> b.newReader(k).Ok? && AllOpen(ks, b)
  {
    if b.newReader(k).Ok? && AllOpen(ks, b) {
      forall i | 0 <= i < |[k] + ks|
        ensures b.newReader(([k] + ks)[i]).Ok?
      {
        if i > 0 {
          assert ([k] + ks)[i] == ks[i - 1];
        }
      }
    }
    if AllOpen([k] + ks, b) {
      assert ([k] + ks)[0] == k;
      forall i | 0 <= i < |ks|
        ensures b.newReader(ks[i]).Ok?
      {
        assert ([k] + ks)[i + 1] == ks[i];
      }
    }
  }

  /** Readers are opened only for accepted objects, in listing order, and
      on success for all of them. */
  lemma {:induction false} CollectOpensAccepted(events: seq<ListEvent>, prefix: string, idx: Index, env: Env)
    ensures var r := Collect(events, prefix, idx, env);
      var keys := ReaderKeys(Accepted(Listed(events), prefix, idx, env), prefix);
      && r.readerKeys <= keys
      && (r.outcome.Ok? ==> r.readerKeys == keys)
    decreases |events|
  {
    if |events| > 0 && events[0].Item? {
      CollectOpensAccepted(events[1..], prefix, idx, env);
      if Accepts(env, idx, prefix, events[0].attrs) {
        AcceptedKeysCons(events, prefix, idx, env);
      }
    }
  }

  /** A collection that succeeds saw end-of-listing and returns one file per
      accepted object, in listing order, each carrying the object's relative
      key, size, modification time and the reader opened on it. */
  lemma {:induction false} CollectFiles(events: seq<ListEvent>, prefix: string, idx: Index, env: Env)
    ensures var r := Collect(events, prefix, idx, env);
      r.outcome.Ok? ==>
        && ListingError(events).None?
        && FilesFor(r.outcome.value, Accepted(Listed(events), prefix, idx, env), prefix, env.bucket)
    decreases |events|
  {
    if |events| > 0 && events[0].Item? {
      CollectFiles(events[1..], prefix, idx, env);
    }
  }

  /** The collection succeeds if and only if the listing ends at
      end-of-listing and the reader of every accepted object opens. */
  lemma {:induction false} CollectSucceedsIff(events: seq<ListEvent>, prefix: string, idx: Index, env: Env)
    ensures Collect(events, prefix, idx, env).outcome.Ok?
        <==> ListingError(events).None?
             && AllOpen(ReaderKeys(Accepted(Listed(events), prefix, idx, env), prefix), env.bucket)
    decreases |events|
  {
    if |events| > 0 && events[0].Item? {
      var a := events[0].attrs;
      CollectSucceedsIff(events[1..], prefix, idx, env);
      if Accepts(env, idx, prefix, a) {
        AcceptedKeysCons(events, prefix, idx, env);
        AllOpenCons(prefix + RelativeKey(prefix, a),
                    ReaderKeys(Accepted(Listed(events[1..]), prefix, idx, env), prefix), env.bucket);
      }
    }
  }

  /** The collection stopped at its first error: either the last reader it
      tried failed with that error after every earlier one opened, or all
      the readers `keys` opened and the listing stopped with that error. */
  predicate FirstError(r: Collected, keys: seq<string>, listing: Option<Error>, b: Bucket)
    requires r.outcome.Err?
  {
    var n := |r.readerKeys|;
    || (n > 0 && AllOpen(r.readerKeys[..n - 1], b) && b.newReader(r.readerKeys[n - 1]) == Err(r.outcome.error))
    || (r.readerKeys == keys && AllOpen(keys, b) && listing == Some(r.outcome.error))
  }

  /** A failed collection fails with the first error met in listing order,
      unchanged. */
  lemma {:induction false} CollectError(events: seq<ListEvent>, prefix: string, idx: Index, env: Env)
    ensures var r := Collect(events, prefix, idx, env);
      r.outcome.Err? ==>
        FirstError(r, ReaderKeys(Accepted(Listed(events), prefix, idx, env), prefix), ListingError(events), env.bucket)
    decreases |events|
  {
    if |events| > 0 && events[0].Item? {
      CollectError(events[1..], prefix, idx, env);
      var a := events[0].attrs;
      if Accepts(env, idx, prefix, a) && env.bucket.newReader(prefix + RelativeKey(prefix, a)).Ok? {
        CollectErrorStep(events, prefix, idx, env);
      }
    }
  }

  /** The inductive step of `CollectError` for an accepted object whose
      reader opens: the error is the rest of the listing's error, and the
      object's key joins the front of the opened keys. */
  lemma CollectErrorStep(events: seq<ListEvent>, prefix: string, idx: Index, env: Env)
    requires |events| > 0 && events[0].Item?
    requires Accepts(env, idx, prefix, events[0].attrs)
    requires env.bucket.newReader(prefix + RelativeKey(prefix, events[0].attrs)).Ok?
    requires var t := Collect(events[1..], prefix, idx, env);
      t.outcome.Err? ==>
        FirstError(t, ReaderKeys(Accepted(Listed(events[1..]), prefix, idx, env), prefix), ListingError(events[1..]), env.bucket)
    ensures var r := Collect(events, prefix, idx, env);
      r.outcome.Err? ==>
        FirstError(r, ReaderKeys(Accepted(Listed(events), prefix, idx, env), prefix), ListingError(events), env.bucket)
  {
    var k := prefix + RelativeKey(prefix, events[0].attrs);
    var t := Collect(events[1..], prefix, idx, env);
    var r := Collect(events, prefix, idx, env);
    assert r.readerKeys == [k] + t.readerKeys;
    assert r.outcome.Err? ==> t.outcome == r.outcome;
    assert ListingError(events) == ListingError(events[1..]);
    AcceptedKeysCons(events, prefix, idx, env);
    if r.outcome.Err? {
      FirstErrorCons(k, t, r, ReaderKeys(Accepted(Listed(events[1..]), prefix, idx, env), prefix),
                     ListingError(events), env.bucket);
    }
  }

  /** A first error stays the first error when a key that opens is put in
      front of the opened keys and of the expected keys. */
  lemma FirstErrorCons(k: string, t: Collected, r: Collected, keys: seq<string>, listing: Option<Error>, b: Bucket)
    requires t.outcome.Err? && r.outcome == t.outcome
    requires r.readerKeys == [k] + t.readerKeys
    requires b.newReader(k).Ok?
    requires FirstError(t, keys, listing, b)
    ensures FirstError(r, [k] + keys, listing, b)
  {
  }

  /** When the bucket lists only keys under the prefix, the key the store
      opens for an accepted object is that object's own listed key. */
  lemma PrefixScoping(b: Bucket, prefix: string, idx: Index, lib: Library)
    requires HonoursPrefix(b, prefix)
    ensures var acc := Accepted(Listed(b.list(prefix)), prefix, idx, Env(b, lib));
      forall i :: 0 <= i < |acc| ==> ReaderKeys(acc, prefix)[i] == acc[i].key
  {
    var items := Listed(b.list(prefix));
    var acc := Accepted(items, prefix, idx, Env(b, lib));
    forall i | 0 <= i < |acc|
      ensures ReaderKeys(acc, prefix)[i] == acc[i].key
    {
      AcceptedFilter(items, prefix, idx, Env(b, lib), acc[i]);
      assert acc[i] in items;
      ReaderKeyRoundTrip(acc[i].key, prefix);
    }
  }

  // --------------------------------------------------------------- build

  /** An index that cannot be resolved fails the build with its error,
      before the bucket is listed and before the snapshot builder runs. */
  lemma BuildIndexFailure(prefix: string, env: Env)
    requires GetIndex(prefix, env).outcome.Err?
    ensures var r := Build(prefix, env);
      && r.outcome == Err(GetIndex(prefix, env).outcome.error)
      && forall i :: 0 <= i < |r.effects| ==> !r.effects[i].ListObjects? && !r.effects[i].BuildSnapshot?
  {
  }

  /** The snapshot builder runs at most once, as the last step, and only on
      the complete file set: the index resolved, the listing reached its
      end, and there is one file for every accepted object. The build's
      outcome is then the builder's. */
  lemma BuildHandsOnlyCompleteFileSets(prefix: string, env: Env)
    ensures var r := Build(prefix, env);
      var events := env.bucket.list(prefix);
      forall i :: 0 <= i < |r.effects| && r.effects[i].BuildSnapshot? ==>
        && i == |r.effects| - 1
        && r.outcome == env.lib.snapshotFromFiles(r.effects[i].files)
        && GetIndex(prefix, env).outcome.Ok?
        && ListingError(events).None?
        && FilesFor(r.effects[i].files,
                    Accepted(Listed(events), prefix, GetIndex(prefix, env).outcome.value, env),
                    prefix, env.bucket)
  {
    var ir := GetIndex(prefix, env);
    if ir.outcome.Ok? {
      CollectFiles(env.bucket.list(prefix), prefix, ir.outcome.value, env);
    }
  }

  /** The build reaches the snapshot builder if and only if the index
      resolves, the listing reaches its end, and every accepted object's
      reader opens. */
  lemma BuildReachesBuilderIff(prefix: string, env: Env)
    ensures var r := Build(prefix, env);
      var events := env.bucket.list(prefix);
      r.effects[|r.effects| - 1].BuildSnapshot? <==>
        (&& GetIndex(prefix, env).outcome.Ok?
         && ListingError(events).None?
         && AllOpen(ReaderKeys(Accepted(Listed(events), prefix, GetIndex(prefix, env).outcome.value, env), prefix),
                    env.bucket))
  {
    var ir := GetIndex(prefix, env);
    if ir.outcome.Ok? {
      CollectSucceedsIff(env.bucket.list(prefix), prefix, ir.outcome.value, env);
    }
  }

  /** Apart from the index object, the build opens readers only under the
      reader keys of objects the index accepted. */
  lemma BuildOpensOnlyAccepted(prefix: string, env: Env)
    ensures var r := Build(prefix, env);
      forall i :: 1 <= i < |r.effects| && r.effects[i].OpenReader? ==>
        && GetIndex(prefix, env).outcome.Ok?
        && r.effects[i].key in ReaderKeys(Accepted(Listed(env.bucket.list(prefix)), prefix,
                                                   GetIndex(prefix, env).outcome.value, env), prefix)
  {
    var ir := GetIndex(prefix, env);
    if ir.outcome.Ok? {
      var c := Collect(env.bucket.list(prefix), prefix, ir.outcome.value, env);
      var keys := ReaderKeys(Accepted(Listed(env.bucket.list(prefix)), prefix, ir.outcome.value, env), prefix);
      CollectOpensAccepted(env.bucket.list(prefix), prefix, ir.outcome.value, env);
      var r := Build(prefix, env);
      var m := |ir.effects| + 1;
      forall i | 1 <= i < |r.effects| && r.effects[i].OpenReader?
        ensures r.effects[i].key in keys
      {
        assert i >= m && i - m < |c.readerKeys|;
        assert r.effects[i] == OpenReader(c.readerKeys[i - m]);
        assert keys[i - m] == c.readerKeys[i - m];
      }
    }
  }

  /** No accepted object has the reader key of a rejected one, whether
      that key is taken as the rejected object's listed key or as the key
      the store would reopen for it. Equal reader keys mean equal relative
      keys, and the index answers the same for both. */
  lemma RejectedKeyNotAccepted(items: seq<ObjectAttrs>, prefix: string, idx: Index, env: Env, a: ObjectAttrs)
    requires !Accepts(env, idx, prefix, a)
    ensures a.key !in ReaderKeys(Accepted(items, prefix, idx, env), prefix)
    ensures prefix + RelativeKey(prefix, a) !in ReaderKeys(Accepted(items, prefix, idx, env), prefix)
  {
    var acc := Accepted(items, prefix, idx, env);
    var keys := ReaderKeys(acc, prefix);
    forall j | 0 <= j < |acc|
      ensures keys[j] != a.key && keys[j] != prefix + RelativeKey(prefix, a)
    {
      assert acc[j] in acc;
      AcceptedFilter(items, prefix, idx, env, acc[j]);
      var x := RelativeKey(prefix, acc[j]);
      TrimPrefixOfPrefixed(prefix, x);
      PrefixCancel(prefix, x, RelativeKey(prefix, a));
    }
  }

  /** An object the index rejects is never opened: after the index read, no
      reader is opened under its listed key, nor under the key the store
      would reopen for it. */
  lemma RejectedNeverOpened(prefix: string, env: Env, a: ObjectAttrs)
    requires GetIndex(prefix, env).outcome.Ok?
    requires !Accepts(env, GetIndex(prefix, env).outcome.value, prefix, a)
    ensures var r := Build(prefix, env);
      forall i :: 1 <= i < |r.effects| ==>
        && r.effects[i] != OpenReader(a.key)
        && r.effects[i] != OpenReader(prefix + RelativeKey(prefix, a))
  {
    BuildOpensOnlyAccepted(prefix, env);
    RejectedKeyNotAccepted(Listed(env.bucket.list(prefix)), prefix, GetIndex(prefix, env).outcome.value, env, a);
  }

  /** A listing error or a failed reader aborts the build with that error:
      the snapshot builder never runs and the error is the first one met
      in listing order. */
  lemma BuildAbortsOnCollectionError(prefix: string, env: Env)
    requires GetIndex(prefix, env).outcome.Ok?
    ensures var idx := GetIndex(prefix, env).outcome.value;
      var events := env.bucket.list(prefix);
      var c := Collect(events, prefix, idx, env);
      var r := Build(prefix, env);
      c.outcome.Err? ==>
        && r.outcome == Err(c.outcome.error)
        && (forall i :: 0 <= i < |r.effects| ==> !r.effects[i].BuildSnapshot?)
        && FirstError(c, ReaderKeys(Accepted(Listed(events), prefix, idx, env), prefix), ListingError(events), env.bucket)
  {
    CollectError(env.bucket.list(prefix), prefix, GetIndex(prefix, env).outcome.value, env);
  }

  // --------------------------------------------------------------- store

  /** What a reader sees after an update: the new snapshot when the build
      succeeded, and exactly what it saw before when it failed. */
  lemma ViewAfterUpdate<R>(s: Store, env: Env, fn: Option<Snapshot> -> R)
    ensures var b := Build(s.config.prefix, env).outcome;
      View(Update(s, env).store, fn) == if b.Ok? then fn(Some(b.value)) else View(s, fn)
  {
  }

  /** Construction succeeds exactly when the first build does; the new
      store then carries the configured scheme and options, and every view
      sees the freshly built snapshot. Otherwise the build's error is
      returned and no store exists. */
  lemma NewStoreSemantics<R>(scheme: string, opts: seq<StoreOption>, env: Env, fn: Option<Snapshot> -> R)
    ensures var cfg := ApplyAll(DefaultConfig(scheme), opts);
      var b := Build(cfg.prefix, env).outcome;
      var r := NewSnapshotStore(scheme, opts, env);
      && (r.Ok? <==> b.Ok?)
      && (r.Err? ==> r.error == b.error)
      && (r.Ok? ==> r.value.config == cfg && String(r.value) == scheme
                    && View(r.value, fn) == fn(Some(b.value)))
  {
  }

  /** The snapshot a reader sees after a run of refreshes: the one from the
      most recent refresh whose build succeeded, or the starting one when
      none did. */
  function LastGood(prefix: string, envs: seq<Env>, start: Option<Snapshot>): Option<Snapshot>
    decreases |envs|
  {
    if |envs| == 0 then start
    else
      var b := Build(prefix, envs[|envs| - 1]).outcome;
      if b.Ok? then Some(b.value) else LastGood(prefix, envs[..|envs| - 1], start)
  }

  lemma {:induction false} TicksAppend(s: Store, envs: seq<Env>, e: Env)
    ensures Ticks(s, envs + [e]) == Update(Ticks(s, envs), e).store
    decreases |envs|
  {
    if |envs| == 0 {
      assert ([] + [e])[1..] == [];
    } else {
      assert (envs + [e])[1..] == envs[1..] + [e];
      TicksAppend(Update(s, envs[0]).store, envs[1..], e);
    }
  }

  /** Refreshes never leave a reader without a snapshot once one exists,
      and the store always serves the snapshot of the last successful
      build: failed refreshes leave the previous one in place. */
  lemma {:induction false} TicksServeLastGood(s: Store, envs: seq<Env>)
    ensures Ticks(s, envs).snap == LastGood(s.config.prefix, envs, s.snap)
    ensures String(Ticks(s, envs)) == String(s)
    decreases |envs|
  {
    if |envs| > 0 {
      var init := envs[..|envs| - 1];
      var e := envs[|envs| - 1];
      assert envs == init + [e];
      TicksAppend(s, init, e);
      TicksServeLastGood(s, init);
    }
  }
}

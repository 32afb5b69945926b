/** The loader's cache of templates (EbonEntities.load around the parser):
    a map from entity names to soft references, consulted before the file is
    read and refilled after a successful parse. */
module EntityCache {
  import opened Wrappers
  import opened EntityModel
  import opened EntityParser

  /** What opening `res/entities/<name>/<name>.entity` gives the loader: no
      reader at all, a reader whose readLine throws an IOException once the
      lines of `prefix` have been read, or a reader over the whole file. */
  datatype Source = Missing | Unreadable(prefix: seq<string>) | Readable(lines: seq<string>)

  /** The file system as the loader sees it, one source per entity name. */
  type Files = string -> Source

  /** The `loaded` map. A key maps to its soft reference, modelled as the
      referent or None once the collector has cleared it. */
  type Cache = map<string, Option<Template>>

  /** What load gives its caller: the template, null (no reader, or an
      IOException that was caught), or an unchecked exception that escapes. */
  datatype Outcome = Loaded(template: Template) | Absent | Crashed(failure: Failure)

  datatype LoadResult = LoadResult(outcome: Outcome, cache: Cache)

  /** `ref == null ? null : ref.get()`. */
  function Cached(cache: Cache, name: string): Option<Template> {
    if name in cache then cache[name] else None
  }

  /** Reading and parsing the file on a cache miss. */
  function ReadSource(src: Source): (r: Outcome)
    ensures r.Loaded? <==> src.Readable? && Parse(src.lines).Ok?
    ensures r.Loaded? ==> Parse(src.lines) == Ok(r.template)
    ensures src.Missing? ==> r == Absent
    ensures r.Crashed? && src.Readable? ==> Parse(src.lines) == Err(r.failure)
    ensures r.Crashed? && src.Unreadable? ==> Run(Initial, src.prefix) == Err(r.failure)
    ensures src.Readable? && Parse(src.lines).Err? ==> r == Crashed(Parse(src.lines).error)
    ensures src.Unreadable? ==> (r.Crashed? <==> Run(Initial, src.prefix).Err?)
    ensures src.Unreadable? && !r.Crashed? ==> r == Absent
  {
    match src
    case Missing => Absent
    case Unreadable(prefix) =>
      (match Run(Initial, prefix)
       case Err(e) => Crashed(e)
       case Ok(_) => Absent)
    case Readable(lines) =>
      (match Parse(lines)
       case Err(e) => Crashed(e)
       case Ok(t) => Loaded(t))
  }

  /** EbonEntities.load. A live reference answers without touching the
      files. Otherwise the key is removed first and put back, with the new
      template, only when the parse succeeds. */
  function Load(cache: Cache, files: Files, name: string): (r: LoadResult)
    ensures Cached(cache, name).Some? ==> r.outcome == Loaded(Cached(cache, name).value) && r.cache == cache
    ensures Cached(cache, name).None? ==> r.outcome == ReadSource(files(name))
    ensures r.outcome.Loaded? ==> Cached(r.cache, name) == Some(r.outcome.template)
    ensures !r.outcome.Loaded? ==> name !in r.cache
    ensures forall k :: k != name ==> Cached(r.cache, k) == Cached(cache, k)
    ensures forall k :: k != name ==> (k in r.cache <==> k in cache)
  {
    var hit := Cached(cache, name);
    if hit.Some? then LoadResult(Loaded(hit.value), cache)
    else
      var out := ReadSource(files(name));
      var without := map k | k in cache && k != name :: cache[k];
      LoadResult(out, if out.Loaded? then without[name := Some(out.template)] else without)
  }

  /** The collector clearing the soft references of `victims`; the keys
      stay in the map. */
  function Reclaim(cache: Cache, victims: set<string>): (r: Cache)
    ensures r.Keys == cache.Keys
    ensures forall k :: k in victims ==> Cached(r, k) == None
    ensures forall k :: k !in victims ==> Cached(r, k) == Cached(cache, k)
  {
    map k | k in cache :: if k in victims then None else cache[k]
  }

  /** Every live reference holds what reading its file gives now. */
  predicate Coherent(cache: Cache, files: Files) {
    forall k :: k in cache && cache[k].Some? ==> ReadSource(files(k)) == Loaded(cache[k].value)
  }

  // ---------------------------------------------------------------------
  // Properties
  // ---------------------------------------------------------------------

  /** A hit never reads a file: whatever the files hold, the answer and the
      cache are the same. */
  lemma HitIgnoresFiles(cache: Cache, a: Files, b: Files, name: string)
    requires Cached(cache, name).Some?
    ensures Load(cache, a, name) == Load(cache, b, name)
  {
  }

  /** Loading twice is loading once: after a success the second call is a
      hit that returns the same template whatever the files say; after a
      failure the second call reads the same file and fails the same way. */
  lemma LoadTwice(cache: Cache, files: Files, later: Files, name: string)
    ensures var r := Load(cache, files, name);
            r.outcome.Loaded? ==> Load(r.cache, later, name) == r
    ensures var r := Load(cache, files, name);
            !r.outcome.Loaded? ==> Load(r.cache, files, name) == r
  {
    var r := Load(cache, files, name);
    if !r.outcome.Loaded? {
      var r2 := Load(r.cache, files, name);
      assert r2.outcome == r.outcome;
      assert r2.cache.Keys == r.cache.Keys;
      assert forall k :: k in r.cache ==> Cached(r.cache, k) == r.cache[k];
      assert r2.cache == r.cache;
    }
  }

  /** Loading keeps the cache faithful to the files. */
  lemma LoadKeepsCoherent(cache: Cache, files: Files, name: string)
    requires Coherent(cache, files)
    ensures Coherent(Load(cache, files, name).cache, files)
  {
    var r := Load(cache, files, name);
    forall k | Cached(r.cache, k).Some?
      ensures ReadSource(files(k)) == Loaded(Cached(r.cache, k).value)
    {
      if k != name {
        assert Cached(r.cache, k) == Cached(cache, k);
      }
    }
  }

  /** With a faithful cache, load answers what a load with an empty cache
      answers: the cache is invisible to callers. */
  lemma CoherentLoadIsFresh(cache: Cache, files: Files, name: string)
    requires Coherent(cache, files)
    ensures Load(cache, files, name).outcome == Load(map[], files, name).outcome
  {
  }

  /** Clearing references never makes the cache unfaithful. */
  lemma ReclaimKeepsCoherent(cache: Cache, files: Files, victims: set<string>)
    requires Coherent(cache, files)
    ensures Coherent(Reclaim(cache, victims), files)
  {
    var r := Reclaim(cache, victims);
    forall k | Cached(r, k).Some?
      ensures ReadSource(files(k)) == Loaded(Cached(r, k).value)
    {
      assert k !in victims;
    }
  }

  /** A reclaimed entry is read again, and with a faithful cache the
      collector is invisible: loading after any reclaim answers as before. */
  lemma ReclaimThenLoad(cache: Cache, files: Files, victims: set<string>, name: string)
    requires Coherent(cache, files)
    ensures name in victims ==> Load(Reclaim(cache, victims), files, name).outcome == ReadSource(files(name))
    ensures Load(Reclaim(cache, victims), files, name).outcome == Load(cache, files, name).outcome
  {
    ReclaimKeepsCoherent(cache, files, victims);
    CoherentLoadIsFresh(cache, files, name);
    CoherentLoadIsFresh(Reclaim(cache, victims), files, name);
  }

  /** An IOException part-way through cannot hide a crash the lines read so
      far already cause: if those lines crash the loader, so does every file
      that starts with them. */
  lemma {:induction false} CrashBeforeIoError(prefix: seq<string>, rest: seq<string>)
    ensures ReadSource(Unreadable(prefix)).Crashed? ==>
              ReadSource(Readable(prefix + rest)) == ReadSource(Unreadable(prefix))
    ensures ReadSource(Readable(prefix + rest)).Loaded? ==> ReadSource(Unreadable(prefix)) == Absent
  {
    RunAppend(Initial, prefix, rest);
  }
}

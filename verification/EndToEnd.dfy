/** Files replaced with `atomic_write` and read while being replaced: the values in them, not the bytes. */
module EndToEnd {
  import opened Bytes
  import opened Prelude
  import opened Reads
  import opened Format
  import opened TempNames
  import opened Streams
  import opened Protocol
  import opened ProtocolInvariant
  import opened ProtocolSteps
  import opened ProtocolTheorems
  import opened AtomicWriter
  import opened CrashRecovery
  import opened ProtocolCounterexamples
  import Images
  import Headers
  import Sagas
  import Centroids
  import Tags
  import KvCaches
  import BlobSizes
  import Scrub

  /** What callers meant: the value `target` started with, and the value each call for it was to write. */
  datatype Intent<T> = Intent(first: Option<T>, values: map<nat, T>)

  /** The value that the bytes in the register stand for. */
  function Meant<T>(log: seq<Publication>, intent: Intent<T>, target: Name, k: nat): Option<T>
    requires k <= |log|
  {
    match LastPub(log, target, k)
    case Some(j) => if log[j].call in intent.values then Some(intent.values[log[j].call]) else None
    case None => intent.first
  }

  /** The first content and every output published on `target` read back as what was meant. */
  ghost predicate Faithful<T(!new)>(s: State, target: Name, intent: Intent<T>, read: seq<byte> -> Outcome<T>) {
    && (intent.first.Some? <==> target in s.origin)
    && (target in s.origin ==> read(s.origin[target]) == Ok(intent.first.value))
    && forall i :: 0 <= i < |s.calls| && Published(s.calls[i]) && s.calls[i].target == target ==>
         i in intent.values && read(s.calls[i].output) == Ok(intent.values[i])
  }

  lemma RegisterDecodes<T(!new)>(s0: State, run: seq<Action>, s: State, target: Name, k: nat,
                                 intent: Intent<T>, read: seq<byte> -> Outcome<T>)
    requires ReachedBy(s0, run, s) && target in s.targets && k <= |s.log|
    requires Faithful(s, target, intent, read)
    ensures match Register(s, target, k)
            case None => Meant(s.log, intent, target, k).None?
            case Some(b) => Meant(s.log, intent, target, k).Some?
                            && read(b) == Ok(Meant(s.log, intent, target, k).value)
  {
    hide ReachedBy;
    RegisterIsOneOutput(s0, run, s, target, k);
  }

  // ----- Sagas -----

  predicate GoodSaga(saga: Sagas.Saga) {
    Sagas.Writable(saga) && |saga.centroids| < U32_LIMIT && |saga.tags| < U32_LIMIT
  }

  /** `target` held a saga or nothing, and every call for it writes one. */
  ghost predicate WritesSagas(s: State, target: Name, intent: Intent<Sagas.Saga>) {
    && (intent.first.Some? <==> target in s.origin)
    && (target in s.origin ==>
          GoodSaga(intent.first.value) && s.origin[target] == Sagas.SagaImage(intent.first.value))
    && forall i :: 0 <= i < |s.calls| && Published(s.calls[i]) && s.calls[i].target == target ==>
         i in intent.values && GoodSaga(intent.values[i]) && s.calls[i].output == Sagas.SagaImage(intent.values[i])
  }

  lemma SagasAreFaithful(s: State, target: Name, intent: Intent<Sagas.Saga>)
    requires WritesSagas(s, target, intent)
    ensures Faithful(s, target, intent, Sagas.ReadSaga)
  {
    hide Sagas.Writable, Sagas.SagaImage, Sagas.ReadSaga;
    if target in s.origin { Sagas.SagaRoundTrip(intent.first.value); }
    forall i | 0 <= i < |s.calls| && Published(s.calls[i]) && s.calls[i].target == target
      ensures i in intent.values && Sagas.ReadSaga(s.calls[i].output) == Ok(intent.values[i])
    {
      Sagas.SagaRoundTrip(intent.values[i]);
    }
  }

  /**
    However calls and this read interleave, a completed read decodes to the one saga that was in place
    when the file was opened.
   */
  lemma ConcurrentReadGivesOneSaga(s0: State, run: seq<Action>, s: State, r: nat, lo: nat, hi: nat,
                                   intent: Intent<Sagas.Saga>)
    requires ReachedBy(s0, run, s) && r < |s.readers| && ReadsWhole(s.readers[r], lo, hi)
    requires WritesSagas(s, s.readers[r].target, intent)
    ensures var rd := s.readers[r];
            && rd.pubs <= |s.log|
            && Meant(s.log, intent, rd.target, rd.pubs).Some?
            && Sagas.ReadSaga(Joined(rd.pieces[lo..hi])) == Ok(Meant(s.log, intent, rd.target, rd.pubs).value)
  {
    hide ReachedBy, Follow, Joined, Register, Meant, Sagas.ReadSaga, WritesSagas, Faithful;
    var rd := s.readers[r];
    ReadsAreSnapshots(s0, run, s, r);
    WholeReadGivesValue(s0, run, s, r, lo, hi);
    SagasAreFaithful(s, rd.target, intent);
    RegisterDecodes(s0, run, s, rd.target, rd.pubs, intent, Sagas.ReadSaga);
  }

  /** And so does a read after a crash, whenever it comes: some saga that was in place, whole. */
  lemma CrashLeavesOneSaga(s0: State, run: seq<Action>, s: State, dir: map<Name, Inode>, disk: map<Inode, seq<byte>>,
                           target: Name, intent: Intent<Sagas.Saga>) returns (k: nat)
    requires ReachedBy(s0, run, s) && target in s.targets && CrashLeaves(s, dir, disk)
    requires WritesSagas(s, target, intent)
    ensures k <= |s.log|
    ensures match Lookup(dir, disk, target)
            case None => Meant(s.log, intent, target, k).None?
            case Some(b) => Meant(s.log, intent, target, k).Some?
                            && Sagas.ReadSaga(b) == Ok(Meant(s.log, intent, target, k).value)
  {
    hide ReachedBy, Register, Meant, Sagas.ReadSaga, WritesSagas, Faithful, CrashLeaves, Lookup;
    k := CrashLeavesWholeValue(s0, run, s, dir, disk, target);
    SagasAreFaithful(s, target, intent);
    RegisterDecodes(s0, run, s, target, k, intent, Sagas.ReadSaga);
  }

  ghost predicate IsSagaImage(b: seq<byte>) {
    exists saga :: GoodSaga(saga) && b == Sagas.SagaImage(saga)
  }

  /** `target` first held a saga or nothing, and in every era every call for it wrote one. */
  ghost predicate AlwaysSagas(es: seq<Era>, target: Name) {
    && |es| > 0
    && (Now(es[0].start, target).Some? ==> IsSagaImage(Now(es[0].start, target).value))
    && forall e, c :: 0 <= e < |es| && 0 <= c < |es[e].end.calls| ==>
         var call := es[e].end.calls[c];
         Published(call) && call.target == target ==> IsSagaImage(call.output)
  }

  /** Through any number of crashes, the target is absent or reads as the very saga it is the image of. */
  lemma AlwaysReadsAsSaga(es: seq<Era>, i: nat, target: Name)
    requires Eras(es) && i < |es| && target in es[i].end.targets && AlwaysSagas(es, target)
    ensures var v := Now(es[i].end, target);
            v.Some? ==> exists saga :: GoodSaga(saga) && v.value == Sagas.SagaImage(saga) && Sagas.ReadSaga(v.value) == Ok(saga)
  {
    hide Eras, Sagas.ReadSaga, Sagas.SagaImage, Sagas.Writable, Now;
    AlwaysWhole(es, i, target);
    var v := Now(es[i].end, target);
    if v.Some? {
      assert IsSagaImage(v.value);
      var saga :| GoodSaga(saga) && v.value == Sagas.SagaImage(saga);
      Sagas.SagaRoundTrip(saga);
    }
  }

  // ----- Caches -----

  predicate GoodCache(cache: KvCaches.Cache) {
    KvCaches.Writable(cache) && BlobSizes.Expected(cache.shape) == Ok(|cache.kvBlob|)
  }

  /** `target` held a size-consistent cache or nothing, and every call for it writes one. */
  ghost predicate WritesCaches(s: State, target: Name, intent: Intent<KvCaches.Cache>) {
    && (intent.first.Some? <==> target in s.origin)
    && (target in s.origin ==>
          GoodCache(intent.first.value) && s.origin[target] == KvCaches.CacheImage(intent.first.value))
    && forall i :: 0 <= i < |s.calls| && Published(s.calls[i]) && s.calls[i].target == target ==>
         i in intent.values && GoodCache(intent.values[i]) && s.calls[i].output == KvCaches.CacheImage(intent.values[i])
  }

  lemma GoodCacheReads(cache: KvCaches.Cache)
    requires GoodCache(cache)
    ensures KvCaches.ReadKvCache(KvCaches.CacheImage(cache)) == Ok(cache)
  {
    hide KvCaches.Writable, KvCaches.CacheImage, KvCaches.ReadKvCache, BlobSizes.Expected, BlobSizes.Computable, BlobSizes.FullSize;
    BlobSizes.ExpectedExactly(cache.shape);
    KvCaches.CacheRoundTrip(cache);
  }

  lemma CachesAreFaithful(s: State, target: Name, intent: Intent<KvCaches.Cache>)
    requires WritesCaches(s, target, intent)
    ensures Faithful(s, target, intent, KvCaches.ReadKvCache)
  {
    hide KvCaches.Writable, KvCaches.CacheImage, KvCaches.ReadKvCache, BlobSizes.Expected, BlobSizes.Computable, BlobSizes.FullSize;
    if target in s.origin { GoodCacheReads(intent.first.value); }
    forall i | 0 <= i < |s.calls| && Published(s.calls[i]) && s.calls[i].target == target
      ensures i in intent.values && KvCaches.ReadKvCache(s.calls[i].output) == Ok(intent.values[i])
    {
      GoodCacheReads(intent.values[i]);
    }
  }

  lemma ConcurrentReadGivesOneCache(s0: State, run: seq<Action>, s: State, r: nat, lo: nat, hi: nat,
                                   intent: Intent<KvCaches.Cache>)
    requires ReachedBy(s0, run, s) && r < |s.readers| && ReadsWhole(s.readers[r], lo, hi)
    requires WritesCaches(s, s.readers[r].target, intent)
    ensures var rd := s.readers[r];
            && rd.pubs <= |s.log|
            && Meant(s.log, intent, rd.target, rd.pubs).Some?
            && KvCaches.ReadKvCache(Joined(rd.pieces[lo..hi])) == Ok(Meant(s.log, intent, rd.target, rd.pubs).value)
  {
    hide ReachedBy, Follow, Joined, Register, Meant, KvCaches.ReadKvCache, WritesCaches, Faithful;
    var rd := s.readers[r];
    ReadsAreSnapshots(s0, run, s, r);
    WholeReadGivesValue(s0, run, s, r, lo, hi);
    CachesAreFaithful(s, rd.target, intent);
    RegisterDecodes(s0, run, s, rd.target, rd.pubs, intent, KvCaches.ReadKvCache);
  }

  lemma CrashLeavesOneCache(s0: State, run: seq<Action>, s: State, dir: map<Name, Inode>, disk: map<Inode, seq<byte>>,
                            target: Name, intent: Intent<KvCaches.Cache>) returns (k: nat)
    requires ReachedBy(s0, run, s) && target in s.targets && CrashLeaves(s, dir, disk)
    requires WritesCaches(s, target, intent)
    ensures k <= |s.log|
    ensures match Lookup(dir, disk, target)
            case None => Meant(s.log, intent, target, k).None?
            case Some(b) => Meant(s.log, intent, target, k).Some?
                            && KvCaches.ReadKvCache(b) == Ok(Meant(s.log, intent, target, k).value)
  {
    hide ReachedBy, Register, Meant, KvCaches.ReadKvCache, WritesCaches, Faithful, CrashLeaves, Lookup;
    k := CrashLeavesWholeValue(s0, run, s, dir, disk, target);
    CachesAreFaithful(s, target, intent);
    RegisterDecodes(s0, run, s, target, k, intent, KvCaches.ReadKvCache);
  }

  // ----- Scrubbing while calls replace the file -----

  /** The reader has done a whole scrub and nothing else, with these reads for the header and the sections. */
  ghost predicate Scrubbing(rd: Reader, top: seq<Piece>, groups: seq<seq<Piece>>) {
    rd.phase == Reading && rd.pieces == top + Scrub.Flat(groups) && Scrub.ReadsFile(File, top, groups)
  }

  /**
    However its seeks and reads interleave with renames onto the file, a scrub reports on the one value
    the target had when the scrubber opened it, sound or damaged.
   */
  lemma ScrubIsOfOneValue(s0: State, run: seq<Action>, s: State, r: nat, top: seq<Piece>, groups: seq<seq<Piece>>)
    requires ReachedBy(s0, run, s) && r < |s.readers| && Scrubbing(s.readers[r], top, groups)
    ensures var rd := s.readers[r];
            && rd.pubs <= |s.log|
            && Register(s, rd.target, rd.pubs).Some?
            && Scrub.ReportFrom(File, Joined(top), groups) == Scrub.Report(File, Register(s, rd.target, rd.pubs).value)
  {
    hide ReachedBy, Register, Joined, AllFrom, Scrub.Report, Scrub.ReportFrom, Scrub.ReadsFile, Scrub.Flat;
    ReadsAreSnapshots(s0, run, s, r);
    Scrub.ReadsGiveReport(File, Register(s, s.readers[r].target, s.readers[r].pubs).value, top, groups);
  }

  /** So it is clean if every call for the target writes a saga. */
  lemma ScrubOfSagasIsClean(s0: State, run: seq<Action>, s: State, r: nat, top: seq<Piece>, groups: seq<seq<Piece>>,
                            intent: Intent<Sagas.Saga>)
    requires ReachedBy(s0, run, s) && r < |s.readers| && Scrubbing(s.readers[r], top, groups)
    requires WritesSagas(s, s.readers[r].target, intent)
    ensures Scrub.ReadsFile(File, top, groups) && Scrub.IsClean(Scrub.ReportFrom(File, Joined(top), groups))
  {
    hide ReachedBy, Joined, AllFrom, Scrub.Report, Scrub.ReportFrom, Scrub.ReadsFile, Scrub.Flat, Scrub.IsClean,
         Sagas.Writable, Sagas.SagaImage;
    var rd := s.readers[r];
    ReadsAreSnapshots(s0, run, s, r);
    ScrubIsOfOneValue(s0, run, s, r, top, groups);
    RegisterIsOneOutput(s0, run, s, rd.target, rd.pubs);
    match LastPub(s.log, rd.target, rd.pubs)
    case Some(j) => Scrub.SagaScrubsClean(intent.values[s.log[j].call]);
    case None => Scrub.SagaScrubsClean(intent.first.value);
  }

  /** Or a cache. */
  lemma ScrubOfCachesIsClean(s0: State, run: seq<Action>, s: State, r: nat, top: seq<Piece>, groups: seq<seq<Piece>>,
                             intent: Intent<KvCaches.Cache>)
    requires ReachedBy(s0, run, s) && r < |s.readers| && Scrubbing(s.readers[r], top, groups)
    requires WritesCaches(s, s.readers[r].target, intent)
    ensures Scrub.ReadsFile(File, top, groups) && Scrub.IsClean(Scrub.ReportFrom(File, Joined(top), groups))
  {
    hide ReachedBy, Joined, AllFrom, Scrub.Report, Scrub.ReportFrom, Scrub.ReadsFile, Scrub.Flat, Scrub.IsClean,
         KvCaches.Writable, KvCaches.CacheImage, BlobSizes.Expected;
    var rd := s.readers[r];
    ReadsAreSnapshots(s0, run, s, r);
    ScrubIsOfOneValue(s0, run, s, r, top, groups);
    RegisterIsOneOutput(s0, run, s, rd.target, rd.pubs);
    match LastPub(s.log, rd.target, rd.pubs)
    case Some(j) => Scrub.CacheScrubsClean(intent.values[s.log[j].call]);
    case None => Scrub.CacheScrubsClean(intent.first.value);
  }

  // ----- Writing to a path -----

  /**
    `Saga::write_to_path`: Ok means that the whole image of this saga was in place from one moment on. A
    saga that cannot be encoded is refused before anything is written, with the error that says why.
   */
  method WriteSagaToPath(m: Machine, pid: nat, target: Name, nanos: nat, saga: Sagas.Saga, faults: Faults)
    returns (r: Outcome<()>, ghost i: nat)
    requires m.Valid() && target in m.now.targets && nanos < U64_LIMIT
    requires NewName(m.now, NextTemp(m.now, target, pid, nanos))
    requires Sagas.Encodable(saga) ==> Images.Fits(Sagas.SagaParts(saga))
    modifies m
    ensures m.Valid() && m.origin == old(m.origin) && old(m.run) <= m.run
    ensures i == |old(m.now.calls)| < |m.now.calls|
    ensures r.Ok? ==>
              && Sagas.Writable(saga)
              && var c := m.now.calls[i];
              && c.phase == ReturnedOk && c.pub < |m.now.log|
              && m.now.log[c.pub] == Publication(i, target, Sagas.SagaImage(saga), m.now.log[c.pub].at)
              && old(m.now.time) < m.now.log[c.pub].at < c.returned
    ensures !r.Ok? ==> forall k :: 0 <= k < |m.now.log| ==> m.now.log[k].call != i
    ensures faults.create ==> r == Err(Io)
    ensures !faults.create && !Centroids.VectorsFit(saga.centroids, saga.embeddingDim) ==> r == Err(Malformed(VectorLength))
    ensures !faults.create && Centroids.VectorsFit(saga.centroids, saga.embeddingDim) && !Tags.TagsFit(saga.tags) ==>
              r == Err(Malformed(TagTooLong))
    ensures !faults.create && Sagas.Encodable(saga) ==>
              r == if faults.write == Some(0) || faults.flush || faults.sync || faults.rename then Err(Io) else Ok(())
  {
    hide Sagas.SagaImage, Sagas.SagaParts, Images.Fits, ReachedBy, Overwrite, Headers.ParseHeader,
         Centroids.VectorsFit, Tags.TagsFit, NextTemp, NewName;
    var file := new Stream([], true, File);
    var outcome := Sagas.WriteSaga(saga, file);
    UnitOk(outcome);
    if outcome.Ok? { Images.OverwriteFresh(Sagas.SagaImage(saga)); }
    r, i := AtomicWrite(m, pid, target, nanos, if outcome.Ok? then [file.data] else [], outcome, faults);
    assert Concat([file.data]) == file.data;
  }

  /**
    A directory to start in, a machine on it, and a call on that machine: in a directory with nothing but
    a leftover, whichever name the first call draws, it writes its saga if no system call fails.
   */
  method WriteFirstSaga(tmp: Name, pid: nat, nanos: nat, saga: Sagas.Saga) returns (r: Outcome<()>, m: Machine)
    requires TempShaped(tmp) && nanos < U64_LIMIT && GoodSaga(saga)
    ensures fresh(m) && m.Valid() && m.origin == WithLeftover(tmp)
    ensures r == Ok(()) && exists k :: 0 <= k < |m.now.log| && m.now.log[k].bytes == Sagas.SagaImage(saga)
  {
    hide Sagas.SagaImage, Sagas.SagaParts, Images.Fits, ReachedBy, Init, TempShaped;
    LeftoverIsInitial(tmp);
    m := new Machine(WithLeftover(tmp));
    ghost var i;
    r, i := WriteSagaToPath(m, pid, DATA, nanos, saga, Faults(false, None, false, false, false, false, false));
    assert m.now.log[m.now.calls[i].pub].bytes == Sagas.SagaImage(saga);
  }
}

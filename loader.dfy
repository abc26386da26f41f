/** main.py: the sequential loader populate_vector_collection and the start
    of a run in __main__ (batch size 100, collection "emails", start point
    from the checkpoint or the operator), with the theorems that make the
    checkpoint a safe place to resume from. */
module Loader {
  import opened Common
  import opened CsvLogging
  import opened Qdrant
  import opened MboxUtil
  import opened VectorDbRepository

  const BatchSize := 100
  const CollectionName := "emails"

  /** The loop __main__ runs over an archive. */
  function MainJob(mbox: seq<RawMessage>, env: Env): Job {
    Loading(CollectionName, BatchSize, mbox, env)
  }

  /** The world the loop of a run starts on: a fresh, empty buffer and the
      store after create_collection, which adds the collection when it is
      missing and leaves an existing one as it is. */
  function Opened(store: Store, csv: CsvFile): World {
    CreateStep(World([], store, csv), CollectionName).0
  }

  /** What a run of __main__ leaves behind, from the store and checkpoint file
      it starts with: nothing when read_stats raises; otherwise the loop
      from the start point, after create_collection, with the skip counter
      taken from the checkpoint. */
  function PipelineRun(store: Store, csv: CsvFile, mbox: seq<RawMessage>, env: Env, override: Option<int>)
    : Result<Progress>
  {
    match StatsOf(csv)
    case Err(e) => Err(e)
    case Ok(c) =>
      Ok(RunTo(Progress(Opened(store, csv), c.skipped, None), MainJob(mbox, env), StartPoint(c, override), |mbox|))
  }

  // -------------------------------------------------------------------
  // The checkpoint as a place to resume from
  // -------------------------------------------------------------------

  /** A world with an empty buffer whose checkpoint tells the truth about the
      collection: the frontier processed + skipped is the start point of the
      next run. */
  predicate Checkpointed(w: World, name: string) {
    w.buffer == [] && StatsOf(w.csv).Ok?
    && Frontier(w, StatsOf(w.csv).value.skipped, name, FrontierOf(StatsOf(w.csv).value))
  }

  /** When the process ends, the buffer is lost; the checkpoint still tells
      the truth, and its frontier is at or behind the position the loop got to. */
  lemma DropBuffer(w: World, skipped: int, name: string, reached: int)
    requires Frontier(w, skipped, name, reached)
    ensures Checkpointed(w.(buffer := []), name)
    ensures FrontierOf(StatsOf(w.csv).value) <= reached
  {
    var c := StatsOf(w.csv).value;
    assert FrontierOf(c) + |w.buffer| + (skipped - c.skipped) == reached;
  }

  /** A first run: a zero checkpoint in front of a store without the collection. */
  lemma FreshStart(store: Store, csv: CsvFile, name: string)
    requires name !in store && StatsOf(csv) == Ok(ZeroStats)
    ensures Checkpointed(CreateStep(World([], store, csv), name).0, name)
  {
    var w := CreateStep(World([], store, csv), name).0;
    assert w.store[name].points == map[];
  }

  /** delete_collection followed by create_collection starts over with a
      truthful checkpoint, whatever state they are called in. */
  lemma RecreateResets(w: World, name: string)
    requires w.csv.Some?
    ensures var d := DeleteStep(w.(buffer := []), name);
      d.outcome.Pass? && Checkpointed(CreateStep(d.world, name).0, name)
  {
    var d := DeleteStep(w.(buffer := []), name);
    assert d.world.csv.Some? && StatsOf(d.world.csv) == Ok(ZeroStats);
    assert name !in d.world.store;
    FreshStart(d.world.store, d.world.csv, name);
  }

  /** The first run: the collection is missing and the checkpoint is zero, so
      the world after create_collection starts out truthful and holds nothing. */
  lemma FirstRunOpens(store: Store, csv: CsvFile, mbox: seq<RawMessage>, env: Env)
    requires CollectionName !in store && StatsOf(csv) == Ok(ZeroStats)
    ensures Checkpointed(Opened(store, csv), CollectionName)
    ensures Faithful(Opened(store, csv), MainJob(mbox, env))
  {
    FreshStart(store, csv, CollectionName);
  }

  /** A later run: with the collection there, create_collection changes
      nothing and the loop starts on the world as it is. */
  lemma LaterRunOpens(store: Store, csv: CsvFile)
    requires CollectionName in store
    ensures Opened(store, csv) == World([], store, csv)
  {
  }

  /** From a truthful checkpoint, a run of __main__ without an operator
      override starts at the checkpoint's frontier, with its skipped as the
      skip counter. */
  lemma PipelineFromCheckpoint(store: Store, csv: CsvFile, mbox: seq<RawMessage>, env: Env)
    requires Checkpointed(Opened(store, csv), CollectionName)
    ensures StatsOf(csv).Ok?
    ensures var c := StatsOf(csv).value;
      PipelineRun(store, csv, mbox, env, None)
      == Ok(RunTo(Progress(Opened(store, csv), c.skipped, None), MainJob(mbox, env), FrontierOf(c), |mbox|))
  {
    assert Opened(store, csv).csv == csv;
  }

  /** Such a run writes only truthful checkpoints: after the buffer is lost
      when the process ends, the next run can resume from the checkpoint. */
  lemma PipelineResumes(store: Store, csv: CsvFile, mbox: seq<RawMessage>, env: Env)
    requires Checkpointed(Opened(store, csv), CollectionName) && EmbedsFit(env.embed)
    ensures var r := PipelineRun(store, csv, mbox, env, None);
      r.Ok? && Checkpointed(r.value.world.(buffer := []), CollectionName)
  {
    var c := StatsOf(csv).value;
    var w := Opened(store, csv);
    var p0 := Progress(w, c.skipped, None);
    var f := FrontierOf(c);
    PipelineFromCheckpoint(store, csv, mbox, env);
    if f <= |mbox| {
      var r := RunTo(p0, MainJob(mbox, env), f, |mbox|);
      FrontierRun(p0, MainJob(mbox, env), f, |mbox|);
      DropBuffer(r.world, r.skipped, CollectionName, Reached(r, |mbox|));
    } else {
      assert RunTo(p0, MainJob(mbox, env), f, |mbox|) == p0;
    }
  }

  /** What such a run did up to the position it got to: the frontier holds
      there, the skip counter counts the messages without text since the
      checkpoint's frontier, and when it finished, fewer than batch_size
      records are left unflushed.
      A checkpoint beyond the end of the archive is left out here: that run
      does nothing at all, and PipelineResumes covers it. */
  lemma PipelineAccounts(store: Store, csv: CsvFile, mbox: seq<RawMessage>, env: Env)
    requires Checkpointed(Opened(store, csv), CollectionName) && EmbedsFit(env.embed)
    requires FrontierOf(StatsOf(csv).value) <= |mbox|
    ensures var c := StatsOf(csv).value;
      var r := PipelineRun(store, csv, mbox, env, None);
      r.Ok?
      && var reached := Reached(r.value, |mbox|);
         Frontier(r.value.world, r.value.skipped, CollectionName, reached)
         && r.value.skipped == c.skipped + SkipsIn(MainJob(mbox, env), FrontierOf(c), reached)
         && (r.value.halted.None? ==> |r.value.world.buffer| < BatchSize)
  {
    var c := StatsOf(csv).value;
    var job := MainJob(mbox, env);
    var p0 := Progress(Opened(store, csv), c.skipped, None);
    PipelineFromCheckpoint(store, csv, mbox, env);
    FrontierRun(p0, job, FrontierOf(c), |mbox|);
    SkipAccounting(p0, job, FrontierOf(c), |mbox|);
    BufferBound(p0, job, FrontierOf(c), |mbox|);
  }

  /** Every id such a run left buffered or stored is an old one or a position
      with text between the checkpoint's frontier and the position it got to,
      and each such position is there.
      A checkpoint beyond the end of the archive is left out here: that run
      does nothing at all, and PipelineResumes covers it. */
  lemma PipelineLoads(store: Store, csv: CsvFile, mbox: seq<RawMessage>, env: Env)
    requires Checkpointed(Opened(store, csv), CollectionName) && EmbedsFit(env.embed)
    requires FrontierOf(StatsOf(csv).value) <= |mbox|
    ensures var c := StatsOf(csv).value;
      var r := PipelineRun(store, csv, mbox, env, None);
      r.Ok? && CollectionName in r.value.world.store
      && Loaded(r.value.world, CollectionName)
         == Opened(store, csv).store[CollectionName].points.Keys + AddedIn(MainJob(mbox, env), FrontierOf(c), Reached(r.value, |mbox|))
  {
    var c := StatsOf(csv).value;
    var w := Opened(store, csv);
    var p0 := Progress(w, c.skipped, None);
    PipelineFromCheckpoint(store, csv, mbox, env);
    FrontierReady(w, c.skipped, CollectionName, FrontierOf(c));
    LoadedRun(p0, MainJob(mbox, env), FrontierOf(c), |mbox|);
  }

  /** Each position with text that such a run got past is held under its own
      id as the record of its embedding and its metadata, provided what the
      collection held before came from the same archive and model (as it
      does on a first run).
      A checkpoint beyond the end of the archive is left out here: that run
      does nothing at all, and PipelineResumes covers it. */
  lemma PipelineStores(store: Store, csv: CsvFile, mbox: seq<RawMessage>, env: Env, i: int)
    requires Checkpointed(Opened(store, csv), CollectionName) && EmbedsFit(env.embed)
    requires FrontierOf(StatsOf(csv).value) <= |mbox|
    requires Faithful(Opened(store, csv), MainJob(mbox, env))
    requires var r := PipelineRun(store, csv, mbox, env, None);
      r.Ok? && i in AddedIn(MainJob(mbox, env), FrontierOf(StatsOf(csv).value), Reached(r.value, |mbox|))
    ensures var m := MetadataAt(mbox, i, env);
      m.Ok? && m.value.Some? && env.embed(m.value.value.data).Some?
    ensures var w := PipelineRun(store, csv, mbox, env, None).value.world;
      var x := MetadataAt(mbox, i, env).value.value;
      var rec := Record(i, env.embed(x.data).value, x.metadata);
      CollectionName in w.store
      && ((i in w.store[CollectionName].points && w.store[CollectionName].points[i] == Stored(rec))
          || (i !in w.store[CollectionName].points && rec in w.buffer))
  {
    var c := StatsOf(Opened(store, csv).csv).value;
    var w := Opened(store, csv);
    PipelineFromCheckpoint(store, csv, mbox, env);
    FrontierReady(w, c.skipped, CollectionName, FrontierOf(c));
    AddedStored(Progress(w, c.skipped, None), MainJob(mbox, env), FrontierOf(c), |mbox|, i);
  }

  // -------------------------------------------------------------------
  // The program
  // -------------------------------------------------------------------

  /** populate_vector_collection(vector_db, start_point, skipped_count):
      create_collection (a no-op when the collection is there), then the loop
      over range(start_point, mbox_count), returning at the first exception
      and never flushing the buffer at the end. */
  method PopulateVectorCollection(repo: Repository, mbox: seq<RawMessage>, env: Env,
                                  startPoint: int, skippedCount: int)
    returns (skipped: int, stop: Option<Halt>)
    modifies repo, repo.client, repo.log
    ensures Progress(repo.State(), skipped, stop)
      == RunTo(Progress(CreateStep(old(repo.State()), repo.name).0, skippedCount, None),
               Loading(repo.name, repo.batchSize, mbox, env), startPoint, |mbox|)
  {
    var _ := repo.CreateCollection();
    LoadingReads(repo.name, repo.batchSize, mbox, env);
    skipped, stop := repo.IngestRange(mbox, env, startPoint, skippedCount,
                                      Loading(repo.name, repo.batchSize, mbox, env));
  }

  /** What __main__ printed. */
  datatype RunReport =
    | Failed(error: Error)                                         // caught by the last handler
    | Ran(existing: Option<nat>, skipped: int, stop: Option<Halt>) // the count it found, if any, and the loop's end

  /** __main__: read_stats (raising when there is no checkpoint file), the
      start point, the count of an existing collection (which is loaded into,
      not refused), then populate_vector_collection with the checkpoint's
      skipped as the starting skip counter. */
  method RunPipeline(server: Server, log: CheckpointFile, mbox: seq<RawMessage>, env: Env, override: Option<int>)
    returns (r: RunReport)
    modifies server, log
    ensures var p := PipelineRun(old(server.collections), old(log.file), mbox, env, override);
      p.Err? ==> r == Failed(p.error) && server.collections == old(server.collections) && log.file == old(log.file)
    ensures var p := PipelineRun(old(server.collections), old(log.file), mbox, env, override);
      p.Ok? ==> r.Ran? && r.skipped == p.value.skipped && r.stop == p.value.halted
                && server.collections == p.value.world.store && log.file == p.value.world.csv
    ensures r.Ran? ==> (r.existing.Some? <==> CollectionName in old(server.collections))
    ensures r.Ran? && r.existing.Some? ==> r.existing.value == |old(server.collections)[CollectionName].points|
  {
    var repo := new Repository(CollectionName, BatchSize, server, log);
    var stats := log.ReadStats();
    if stats.Err? {
      return Failed(stats.error);
    }
    var startPoint := StartPoint(stats.value, override);
    var existing := None;
    var present := repo.CollectionExists();
    if present {
      var count := repo.Count();
      existing := Some(count.value);
    }
    var skipped, stop := PopulateVectorCollection(repo, mbox, env, startPoint, stats.value.skipped);
    r := Ran(existing, skipped, stop);
  }
}

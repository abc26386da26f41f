/** VectorDBRepository: a buffer of points in front of one Qdrant collection,
    flushed every batch_size additions, each flush first recording a
    checkpoint (processed, skipped) in the checkpoint file and then upserting
    the buffer; and the loop that reads archive positions one after another
    into it. */
module VectorDbRepository {
  import opened Common
  import opened CsvLogging
  import opened Qdrant
  import opened MboxUtil

  /** vectors_config of create_collection. */
  const CollectionConfig := VectorParams(384, Cosine)

  /** Everything a repository call can change: its buffer, the vector store
      and the checkpoint file. */
  datatype World = World(buffer: seq<Point>, store: Store, csv: CsvFile)

  /** The new world after a call and whether the call raised. */
  datatype Step = Step(world: World, outcome: Outcome)

  /** The payload of add_document without its None-valued keys. */
  function DropNulls(payload: Payload): (r: Payload)
    ensures forall k :: k in r <==> k in payload && payload[k] != Null
    ensures forall k :: k in r ==> r[k] == payload[k]
  {
    map k | k in payload && payload[k] != Null :: payload[k]
  }

  /** The record add_document buffers. */
  function Record(id: int, vector: Vector, payload: Payload): Point {
    Point(id, vector, DropNulls(payload))
  }

  // -------------------------------------------------------------------
  // The calls of the repository, on values
  // -------------------------------------------------------------------

  /** create_collection: false and nothing changes when the collection is
      there; otherwise a new empty collection of size 384 and cosine distance. */
  function CreateStep(w: World, name: string): (r: (World, bool))
    ensures r.1 <==> name !in w.store
    ensures !r.1 ==> r.0 == w
    ensures r.0.buffer == w.buffer && r.0.csv == w.csv
    ensures r.1 ==> r.0.store.Keys == w.store.Keys + {name}
    ensures r.1 ==> r.0.store[name] == Collection(CollectionConfig, map[])
    ensures r.1 ==> forall n :: n in w.store ==> r.0.store[n] == w.store[n]
  {
    match Created(w.store, name, CollectionConfig)
    case Err(_) => (w, false)
    case Ok(s) => (w.(store := s), true)
  }

  /** delete_collection: the checkpoint is reset to (0, 0) first, then the
      collection is removed; a missing checkpoint file raises before anything
      is deleted. */
  function DeleteStep(w: World, name: string): (r: Step)
    ensures r.outcome.Fail? <==> w.csv.None?
    ensures r.outcome.Fail? ==> r == Step(w, Fail(FileNotFound))
    ensures r.outcome.Pass? ==> StatsOf(r.world.csv) == Ok(ZeroStats)
    ensures r.outcome.Pass? ==> r.world.store == Deleted(w.store, name) && r.world.buffer == w.buffer
  {
    match Overwritten(w.csv, 0, 0)
    case Err(e) => Step(w, Fail(e))
    case Ok(csv) => Step(World(w.buffer, Deleted(w.store, name), csv), Pass)
  }

  /** The pair flush records: the buffer's length plus the collection's count,
      both taken before the upsert, and the caller's skip counter. */
  function CheckpointOf(w: World, name: string, skipped: int): Stats
    requires name in w.store
  {
    Stats(|w.buffer| + |w.store[name].points|, skipped)
  }

  /** flush(skipped_count). An empty buffer is left alone. Otherwise count()
      (raising for a missing collection), then update_csv (raising for a
      missing file), then upsert (raising for a vector of the wrong size),
      then the buffer is cleared. */
  function FlushStep(w: World, name: string, skipped: int): (r: Step)
    // flushing an empty buffer writes neither the checkpoint nor the store
    ensures w.buffer == [] ==> r == Step(w, Pass)
    // a successful flush stores the whole buffer and empties it
    ensures r.outcome.Pass? && w.buffer != [] ==> name in w.store && r.world.buffer == []
    ensures r.outcome.Pass? && w.buffer != [] ==> StatsOf(r.world.csv) == Ok(CheckpointOf(w, name, skipped))
    ensures r.outcome.Pass? && w.buffer != [] ==> r.world.store.Keys == w.store.Keys
    ensures r.outcome.Pass? && w.buffer != [] ==>
      r.world.store[name] == Collection(w.store[name].config, Upserted(w.store[name].points, w.buffer))
    ensures r.outcome.Pass? && w.buffer != [] ==>
      forall n :: n in w.store && n != name ==> r.world.store[n] == w.store[n]
    // a failed flush keeps the buffer and the store
    ensures r.outcome.Fail? ==> r.world.buffer == w.buffer && r.world.store == w.store
    // the checkpoint is written before the upsert: an upsert that is refused
    // leaves the new checkpoint behind
    ensures r.outcome.Fail? && r.outcome.error != WrongDimension ==> r.world.csv == w.csv
    ensures r.outcome == Fail(WrongDimension) ==>
      name in w.store && StatsOf(r.world.csv) == Ok(CheckpointOf(w, name, skipped))
  {
    if w.buffer == [] then Step(w, Pass)
    else
      var count := CountIn(w.store, name);
      if count.Err? then Step(w, Fail(count.error))
      else
        var csv := Overwritten(w.csv, |w.buffer| + count.value, skipped);
        if csv.Err? then Step(w, Fail(csv.error))
        else
          var store := UpsertInto(w.store, name, w.buffer);
          if store.Err? then Step(w.(csv := csv.value), Fail(store.error))
          else Step(World([], store.value, csv.value), Pass)
  }

  /** Which call of a flush raised: count() for a missing collection,
      update_csv for a missing checkpoint file, upsert for a vector of the
      wrong size; nothing raises otherwise. */
  lemma FlushFailures(w: World, name: string, skipped: int)
    requires w.buffer != []
    ensures FlushStep(w, name, skipped).outcome == Fail(CollectionNotFound) <==> name !in w.store
    ensures FlushStep(w, name, skipped).outcome == Fail(FileNotFound) <==> name in w.store && w.csv.None?
    ensures FlushStep(w, name, skipped).outcome == Fail(WrongDimension) <==>
      name in w.store && w.csv.Some? && !Fits(w.store[name].config, w.buffer)
    ensures FlushStep(w, name, skipped).outcome.Pass? <==>
      name in w.store && w.csv.Some? && Fits(w.store[name].config, w.buffer)
  {
  }

  /** add_document: the record is appended, and a buffer that reaches
      batch_size is flushed at once. */
  function AddStep(w: World, name: string, batchSize: int, id: int, vector: Vector,
                   payload: Payload, skipped: int): (r: Step)
    // below the batch size the record is only buffered
    ensures |w.buffer| + 1 < batchSize ==>
      r == Step(w.(buffer := w.buffer + [Record(id, vector, payload)]), Pass)
    // reaching it, the buffer with the record goes to the store and is emptied
    ensures |w.buffer| + 1 >= batchSize && r.outcome.Pass? ==>
      name in w.store && name in r.world.store && r.world.buffer == []
    ensures |w.buffer| + 1 >= batchSize && r.outcome.Pass? ==>
      r.world.store[name].points == Upserted(w.store[name].points, w.buffer + [Record(id, vector, payload)])
    ensures |w.buffer| + 1 >= batchSize ==>
      r == FlushStep(w.(buffer := w.buffer + [Record(id, vector, payload)]), name, skipped)
    // after a successful add the buffer is below the batch size
    ensures batchSize >= 1 && r.outcome.Pass? ==> |r.world.buffer| < batchSize
    // a failed add keeps the record in the buffer and leaves the store alone
    ensures r.outcome.Fail? ==>
      r.world.buffer == w.buffer + [Record(id, vector, payload)] && r.world.store == w.store
  {
    var w1 := w.(buffer := w.buffer + [Record(id, vector, payload)]);
    if |w1.buffer| >= batchSize then FlushStep(w1, name, skipped) else Step(w1, Pass)
  }

  /** After a successful flush the checkpoint's processed equals the
      collection's new count exactly when the buffered ids are distinct and
      none was stored before; otherwise it is larger. */
  lemma FlushCheckpointCounts(w: World, name: string, skipped: int)
    requires w.buffer != [] && FlushStep(w, name, skipped).outcome.Pass?
    ensures var r := FlushStep(w, name, skipped).world;
      StatsOf(r.csv).value.processed >= |r.store[name].points|
      && (StatsOf(r.csv).value.processed == |r.store[name].points| <==>
          DistinctIds(w.buffer) && w.store[name].points.Keys !! Ids(w.buffer))
  {
    UpsertedSize(w.store[name].points, w.buffer);
  }

  /** A flush whose buffer repeats an id that is already stored records more
      points than the collection holds afterwards. */
  lemma FlushOverCounts(w: World, name: string, skipped: int, k: int)
    requires FlushStep(w, name, skipped).outcome.Pass?
    requires 0 <= k < |w.buffer| && name in w.store && w.buffer[k].id in w.store[name].points
    ensures var r := FlushStep(w, name, skipped).world;
      StatsOf(r.csv).value.processed > |r.store[name].points|
  {
    assert w.buffer[k].id in Ids(w.buffer);
    FlushCheckpointCounts(w, name, skipped);
  }

  // -------------------------------------------------------------------
  // The loading loop
  // -------------------------------------------------------------------

  /** What the loop works with: the collection, the batch size,
      extract_metadata on each position and the embedding model. */
  datatype Job = Job(
    name: string,
    batchSize: int,
    extract: int -> Result<Option<Extracted>>,
    embed: string -> Option<Vector>)

  /** The loop of a repository over an archive. */
  function Loading(name: string, batchSize: int, mbox: seq<RawMessage>, env: Env): Job {
    Job(name, batchSize, i => MetadataAt(mbox, i, env), env.embed)
  }

  /** The job extracts from this archive with these collaborators. */
  ghost predicate Reads(job: Job, mbox: seq<RawMessage>, env: Env) {
    job.embed == env.embed
    && forall i {:trigger MetadataAt(mbox, i, env)} :: job.extract(i) == MetadataAt(mbox, i, env)
  }

  lemma LoadingReads(name: string, batchSize: int, mbox: seq<RawMessage>, env: Env)
    ensures Reads(Loading(name, batchSize, mbox, env), mbox, env)
  {
  }

  /** The loop raised at this position with this error and returned. */
  datatype Halt = Halt(position: int, error: Error)

  /** The loop's state: the world, the skip counter and whether it stopped. */
  datatype Progress = Progress(world: World, skipped: int, halted: Option<Halt>)

  /** One iteration at position i: a message without text is skipped and
      counted, any exception stops the loop, otherwise the message is embedded
      and added under id i with the current skip counter. */
  function StepAt(p: Progress, job: Job, i: int): (q: Progress)
    ensures p.halted.Some? ==> q == p
    ensures q.halted.Some? && p.halted.None? ==> q.halted.value.position == i && job.extract(i) != Ok(None)
    ensures q.skipped == p.skipped + (if p.halted.None? && job.extract(i) == Ok(None) then 1 else 0)
    ensures job.extract(i) == Ok(None) ==> q.world == p.world && q.halted == p.halted
    ensures job.extract(i).Err? && p.halted.None? ==>
      q == p.(halted := Some(Halt(i, job.extract(i).error)))
    // a message whose text the model cannot embed stops the loop
    ensures p.halted.None? && HasText(job, i) && job.embed(job.extract(i).value.value.data).None? ==>
      q == p.(halted := Some(Halt(i, EmbeddingFailed)))
    // otherwise the record goes through add_document, whose failure stops the loop
    ensures p.halted.None? && HasText(job, i) && job.embed(job.extract(i).value.value.data).Some? ==>
      var x := job.extract(i).value.value;
      var s := AddStep(p.world, job.name, job.batchSize, i, job.embed(x.data).value, x.metadata, p.skipped);
      q.world == s.world && q.skipped == p.skipped
      && (q.halted.None? <==> s.outcome.Pass?)
      && (s.outcome.Fail? ==> q.halted == Some(Halt(i, s.outcome.error)))
  {
    if p.halted.Some? then p
    else match job.extract(i)
      case Err(e) => p.(halted := Some(Halt(i, e)))
      case Ok(None) => p.(skipped := p.skipped + 1)
      case Ok(Some(x)) =>
        match job.embed(x.data)
        case None => p.(halted := Some(Halt(i, EmbeddingFailed)))
        case Some(v) =>
          var s := AddStep(p.world, job.name, job.batchSize, i, v, x.metadata, p.skipped);
          Progress(s.world, p.skipped, if s.outcome.Pass? then None else Some(Halt(i, s.outcome.error)))
  }

  /** The loop's state after the positions start, start + 1, ..., end - 1. */
  function RunTo(p0: Progress, job: Job, start: int, end: int): Progress
    decreases end - start
  {
    if end <= start then p0 else StepAt(RunTo(p0, job, start, end - 1), job, end - 1)
  }

  lemma RunToNext(p0: Progress, job: Job, start: int, i: int)
    requires start <= i
    ensures RunTo(p0, job, start, i + 1) == StepAt(RunTo(p0, job, start, i), job, i)
  {
  }

  /** The position the loop got to: where it stopped, or the end of the range. */
  function Reached(p: Progress, end: int): int {
    if p.halted.Some? then p.halted.value.position else end
  }

  /** Once stopped, the loop stays stopped: later positions change nothing. */
  lemma {:induction false} HaltStays(p0: Progress, job: Job, start: int, end: int, end': int)
    requires start <= end <= end' && RunTo(p0, job, start, end).halted.Some?
    ensures RunTo(p0, job, start, end') == RunTo(p0, job, start, end)
    decreases end' - end
  {
    if end' > end {
      HaltStays(p0, job, start, end, end' - 1);
    }
  }

  /** A loop that did not start stopped cannot stop over an empty range. */
  lemma HaltedRange(p0: Progress, job: Job, start: int, end: int)
    requires p0.halted.None? && RunTo(p0, job, start, end).halted.Some?
    ensures start < end
  {
  }

  /** A stop happens at a position of the range that the loop reached
      without stopping, and the state after that position is the state
      at the stop. */
  lemma {:induction false} HaltPosition(p0: Progress, job: Job, start: int, end: int)
    requires p0.halted.None? && start <= end && RunTo(p0, job, start, end).halted.Some?
    ensures var k := RunTo(p0, job, start, end).halted.value.position;
      start <= k < end && RunTo(p0, job, start, k).halted.None?
      && RunTo(p0, job, start, k + 1) == RunTo(p0, job, start, end)
    decreases end - start
  {
    HaltedRange(p0, job, start, end);
    var p, q := RunTo(p0, job, start, end - 1), RunTo(p0, job, start, end);
    RunToNext(p0, job, start, end - 1);
    if p.halted.Some? {
      HaltPosition(p0, job, start, end - 1);
      assert q == p;
    } else {
      assert q.halted.value.position == end - 1;
      assert RunTo(p0, job, start, end - 1 + 1) == q;
    }
  }

  /** The first exception ends the loop: it stopped at a position of the
      range, every earlier position went through, and no later position is
      visited. */
  lemma {:induction false} HaltIsFinal(p0: Progress, job: Job, start: int, end: int, end': int)
    requires p0.halted.None? && start <= end <= end'
    requires RunTo(p0, job, start, end).halted.Some?
    ensures var k := RunTo(p0, job, start, end).halted.value.position;
      start <= k < end && RunTo(p0, job, start, k).halted.None?
      && RunTo(p0, job, start, end') == RunTo(p0, job, start, end)
      && RunTo(p0, job, start, k + 1) == RunTo(p0, job, start, end)
  {
    HaltPosition(p0, job, start, end);
    HaltStays(p0, job, start, end, end');
  }

  /** Number of positions in [lo, hi) whose message has no text. */
  function SkipsIn(job: Job, lo: int, hi: int): (n: nat)
    ensures n <= if hi <= lo then 0 else hi - lo
    decreases hi - lo
  {
    if hi <= lo then 0
    else SkipsIn(job, lo, hi - 1) + (if job.extract(hi - 1) == Ok(None) then 1 else 0)
  }

  /** The skip counter grows by one for each position without text that the
      loop got to, and by nothing else. */
  lemma {:induction false} SkipAccounting(p0: Progress, job: Job, start: int, end: int)
    requires p0.halted.None? && start <= end
    ensures RunTo(p0, job, start, end).skipped
         == p0.skipped + SkipsIn(job, start, Reached(RunTo(p0, job, start, end), end))
    decreases end - start
  {
    if end > start {
      var p := RunTo(p0, job, start, end - 1);
      var q := StepAt(p, job, end - 1);
      assert RunTo(p0, job, start, end) == q;
      SkipAccounting(p0, job, start, end - 1);
      if p.halted.None? && q.halted.None? {
        assert SkipsIn(job, start, end) == SkipsIn(job, start, end - 1)
          + (if job.extract(end - 1) == Ok(None) then 1 else 0);
      }
    }
  }

  /** The buffer never exceeds batch_size, and is below it unless the loop
      stopped on a failed flush. */
  lemma {:induction false} BufferBound(p0: Progress, job: Job, start: int, end: int)
    requires job.batchSize >= 1 && |p0.world.buffer| < job.batchSize && p0.halted.None?
    ensures |RunTo(p0, job, start, end).world.buffer| <= job.batchSize
    ensures RunTo(p0, job, start, end).halted.None? ==> |RunTo(p0, job, start, end).world.buffer| < job.batchSize
    decreases end - start
  {
    if end > start {
      BufferBound(p0, job, start, end - 1);
    }
  }

  // -------------------------------------------------------------------
  // The checkpoint frontier
  // -------------------------------------------------------------------

  /** Every embedding has the collection's size. */
  ghost predicate EmbedsFit(embed: string -> Option<Vector>) {
    forall d :: embed(d).Some? ==> |embed(d).value| == CollectionConfig.size
  }

  predicate Increasing(b: seq<Point>) {
    forall i, j :: 0 <= i < j < |b| ==> b[i].id < b[j].id
  }

  /** The frontier of a checkpoint (processed, skipped): processed + skipped. */
  function FrontierOf(c: Stats): int {
    c.processed + c.skipped
  }

  /** The loop has got to position `reached` with this world and skip counter,
      and the checkpoint tells the truth about it:
      - its processed is the count of the collection, all of whose ids lie
        below the checkpoint's frontier;
      - the buffer holds the added positions after the frontier, in order;
      - the frontier, the buffered points and the skips since the checkpoint
        together account for every position before `reached`. */
  predicate Frontier(w: World, skipped: int, name: string, reached: int) {
    name in w.store && w.store[name].config == CollectionConfig && StatsOf(w.csv).Ok?
    && var c := StatsOf(w.csv).value;
       var points := w.store[name].points;
       c.processed == |points|
       && c.skipped <= skipped
       && (forall id :: id in points ==> id < FrontierOf(c))
       && (forall i :: 0 <= i < |w.buffer| ==> FrontierOf(c) <= w.buffer[i].id < reached)
       && Increasing(w.buffer)
       && Fits(CollectionConfig, w.buffer)
       && FrontierOf(c) + |w.buffer| + (skipped - c.skipped) == reached
  }

  lemma IncreasingDistinct(b: seq<Point>)
    requires Increasing(b)
    ensures DistinctIds(b)
  {
  }

  /** Adding position i at the frontier's edge keeps the frontier, with or
      without a flush. */
  lemma FrontierAdd(w: World, skipped: int, job: Job, i: int, v: Vector, metadata: Payload)
    requires Frontier(w, skipped, job.name, i) && |v| == CollectionConfig.size
    ensures var s := AddStep(w, job.name, job.batchSize, i, v, metadata, skipped);
      s.outcome.Pass? && Frontier(s.world, skipped, job.name, i + 1)
  {
    var w1 := w.(buffer := w.buffer + [Record(i, v, metadata)]);
    FrontierBuffered(w, skipped, job.name, i, v, metadata);
    var s := AddStep(w, job.name, job.batchSize, i, v, metadata, skipped);
    if |w1.buffer| >= job.batchSize {
      FrontierFlush(w1, skipped, job.name, i + 1);
      assert s == FlushStep(w1, job.name, skipped);
    } else {
      assert s == Step(w1, Pass);
    }
  }

  /** Buffering the record of position i at the frontier's edge keeps the frontier. */
  lemma FrontierBuffered(w: World, skipped: int, name: string, i: int, v: Vector, metadata: Payload)
    requires Frontier(w, skipped, name, i) && |v| == CollectionConfig.size
    ensures Frontier(w.(buffer := w.buffer + [Record(i, v, metadata)]), skipped, name, i + 1)
  {
    var b := w.buffer + [Record(i, v, metadata)];
    var c := StatsOf(w.csv).value;
    assert forall k :: 0 <= k < |w.buffer| ==> b[k] == w.buffer[k];
    assert b[|w.buffer|].id == i;
    assert FrontierOf(c) <= i;
  }

  /** Under the frontier the buffer holds fresh, distinct ids. */
  lemma FrontierBufferFresh(w: World, skipped: int, name: string, reached: int)
    requires Frontier(w, skipped, name, reached)
    ensures DistinctIds(w.buffer) && w.store[name].points.Keys !! Ids(w.buffer)
  {
    var c := StatsOf(w.csv).value;
    IncreasingDistinct(w.buffer);
    forall id | id in Ids(w.buffer)
      ensures id !in w.store[name].points
    {
      var k :| 0 <= k < |w.buffer| && w.buffer[k].id == id;
      assert FrontierOf(c) <= id;
    }
  }

  /** A flush keeps the frontier: the checkpoint it writes moves the frontier
      up to the position reached. */
  lemma FrontierFlush(w: World, skipped: int, name: string, reached: int)
    requires Frontier(w, skipped, name, reached) && w.buffer != []
    ensures FlushStep(w, name, skipped).outcome.Pass?
    ensures Frontier(FlushStep(w, name, skipped).world, skipped, name, reached)
  {
    var c := StatsOf(w.csv).value;
    var points := w.store[name].points;
    FlushFailures(w, name, skipped);
    var r := FlushStep(w, name, skipped).world;
    FrontierBufferFresh(w, skipped, name, reached);
    UpsertedSize(points, w.buffer);
    var points' := r.store[name].points;
    assert points' == Upserted(points, w.buffer);
    assert |points'| == |points| + |w.buffer|;
    var c' := StatsOf(r.csv).value;
    assert c' == Stats(|w.buffer| + |points|, skipped);
    assert FrontierOf(c') == reached;
    forall id | id in points'
      ensures id < FrontierOf(c')
    {
      if id !in points {
        var k :| 0 <= k < |w.buffer| && w.buffer[k].id == id;
      }
    }
    assert r.buffer == [];
    assert Increasing(r.buffer) && Fits(CollectionConfig, r.buffer);
  }

  /** One iteration keeps the frontier, moving it on by one position unless
      the loop stopped there, in which case nothing changed. */
  lemma FrontierStep(p: Progress, job: Job, i: int)
    requires p.halted.None? && Frontier(p.world, p.skipped, job.name, i) && EmbedsFit(job.embed)
    ensures var q := StepAt(p, job, i);
      Frontier(q.world, q.skipped, job.name, Reached(q, i + 1))
      && (q.halted.Some? ==> q.world == p.world && q.skipped == p.skipped)
  {
    match job.extract(i)
    case Err(_) =>
    case Ok(None) =>
    case Ok(Some(x)) =>
      match job.embed(x.data)
      case None =>
      case Some(v) =>
        FrontierAdd(p.world, p.skipped, job, i, v, x.metadata);
  }

  /** The frontier holds wherever the loop gets to. */
  lemma {:induction false} FrontierRun(p0: Progress, job: Job, start: int, end: int)
    requires p0.halted.None? && Frontier(p0.world, p0.skipped, job.name, start) && EmbedsFit(job.embed)
    requires start <= end
    ensures var p := RunTo(p0, job, start, end);
      Frontier(p.world, p.skipped, job.name, Reached(p, end))
    decreases end - start
  {
    if end > start {
      var p := RunTo(p0, job, start, end - 1);
      FrontierRun(p0, job, start, end - 1);
      if p.halted.None? {
        FrontierStep(p, job, end - 1);
      }
    }
  }

  /** The ids a world holds for the collection: stored or waiting in the buffer. */
  function Loaded(w: World, name: string): set<int>
    requires name in w.store
  {
    w.store[name].points.Keys + Ids(w.buffer)
  }

  /** The message at position i has text to embed. */
  predicate HasText(job: Job, i: int) {
    job.extract(i).Ok? && job.extract(i).value.Some?
  }

  /** The positions in [lo, hi) whose message has text to embed. */
  function AddedIn(job: Job, lo: int, hi: int): set<int>
    decreases hi - lo
  {
    if hi <= lo then {} else AddedIn(job, lo, hi - 1) + (if HasText(job, hi - 1) then {hi - 1} else {})
  }

  lemma {:induction false} AddedInMembers(job: Job, lo: int, hi: int)
    ensures forall i :: i in AddedIn(job, lo, hi) <==> lo <= i < hi && HasText(job, i)
    decreases hi - lo
  {
    if hi > lo {
      AddedInMembers(job, lo, hi - 1);
    }
  }

  /** Every flush will go through: the collection exists with its
      configuration, the checkpoint file exists and every buffered vector has
      the collection's size. */
  predicate Ready(w: World, name: string) {
    name in w.store && w.store[name].config == CollectionConfig && w.csv.Some?
    && Fits(CollectionConfig, w.buffer)
  }

  lemma FrontierReady(w: World, skipped: int, name: string, reached: int)
    requires Frontier(w, skipped, name, reached)
    ensures Ready(w, name)
  {
  }

  /** A flush of a ready world goes through, stays ready and loses no id. */
  lemma FlushLoads(w: World, name: string, skipped: int)
    requires Ready(w, name) && w.buffer != []
    ensures var r := FlushStep(w, name, skipped);
      r.outcome.Pass? && Ready(r.world, name) && Loaded(r.world, name) == Loaded(w, name)
  {
    FlushFailures(w, name, skipped);
    var r := FlushStep(w, name, skipped).world;
    assert r.store[name].points.Keys == w.store[name].points.Keys + Ids(w.buffer);
    assert Ids(r.buffer) == {};
  }

  /** Adding a record of the right size to a ready world goes through and
      loads its id, with or without a flush. */
  lemma LoadedAdd(w: World, name: string, batchSize: int, i: int, v: Vector, metadata: Payload, skipped: int)
    requires Ready(w, name) && |v| == CollectionConfig.size
    ensures var s := AddStep(w, name, batchSize, i, v, metadata, skipped);
      s.outcome.Pass? && Ready(s.world, name) && Loaded(s.world, name) == Loaded(w, name) + {i}
  {
    var r := Record(i, v, metadata);
    var w1 := w.(buffer := w.buffer + [r]);
    assert forall k :: 0 <= k < |w.buffer| ==> w1.buffer[k] == w.buffer[k];
    assert w1.buffer[|w.buffer|] == r;
    assert Ready(w1, name);
    IdsSnoc(w.buffer, r);
    var keys := w.store[name].points.Keys;
    assert keys + (Ids(w.buffer) + {i}) == (keys + Ids(w.buffer)) + {i};
    assert Loaded(w1, name) == Loaded(w, name) + {i};
    if |w1.buffer| >= batchSize {
      FlushLoads(w1, name, skipped);
    }
  }

  /** One iteration of a ready loop loads position i exactly when the message
      there has text and the iteration went through; a stop changes nothing. */
  lemma LoadedStep(p: Progress, job: Job, i: int)
    requires p.halted.None? && Ready(p.world, job.name) && EmbedsFit(job.embed)
    ensures var q := StepAt(p, job, i);
      Ready(q.world, job.name)
      && (q.halted.Some? ==> q.world == p.world)
      && Loaded(q.world, job.name) == Loaded(p.world, job.name)
           + (if q.halted.None? && HasText(job, i) then {i} else {})
  {
    match job.extract(i)
    case Err(_) =>
    case Ok(None) =>
    case Ok(Some(x)) =>
      match job.embed(x.data)
      case None =>
      case Some(v) =>
        LoadedAdd(p.world, job.name, job.batchSize, i, v, x.metadata, p.skipped);
  }

  lemma LoadedNext(p: Progress, job: Job, start: int, i: int, l0: set<int>)
    requires p.halted.None? && start <= i && Ready(p.world, job.name) && EmbedsFit(job.embed)
    requires Loaded(p.world, job.name) == l0 + AddedIn(job, start, i)
    ensures var q := StepAt(p, job, i);
      Ready(q.world, job.name) && Loaded(q.world, job.name) == l0 + AddedIn(job, start, Reached(q, i + 1))
  {
    var q := StepAt(p, job, i);
    var a := AddedIn(job, start, i);
    LoadedStep(p, job, i);
    if q.halted.None? {
      var extra := if HasText(job, i) then {i} else {};
      assert AddedIn(job, start, i + 1) == a + extra;
      assert (l0 + a) + extra == l0 + (a + extra);
    }
  }

  /** Every position with text that the loop got past is added under its own
      position as id, and nothing else is added. */
  lemma {:induction false} LoadedRun(p0: Progress, job: Job, start: int, end: int)
    requires p0.halted.None? && Ready(p0.world, job.name) && EmbedsFit(job.embed)
    requires start <= end
    ensures var p := RunTo(p0, job, start, end);
      Ready(p.world, job.name)
      && Loaded(p.world, job.name) == Loaded(p0.world, job.name) + AddedIn(job, start, Reached(p, end))
    decreases end - start
  {
    if end > start {
      var p := RunTo(p0, job, start, end - 1);
      LoadedRun(p0, job, start, end - 1);
      if p.halted.None? {
        LoadedNext(p, job, start, end - 1, Loaded(p0.world, job.name));
      }
    }
  }

  /** The point is what the loop makes of the position p.id: the model's
      embedding of the text there, with the message's metadata without its
      None values as payload. */
  ghost predicate Embeds(job: Job, p: Point) {
    HasText(job, p.id)
    && var x := job.extract(p.id).value.value;
       job.embed(x.data) == Some(p.vector) && p.payload == DropNulls(x.metadata)
  }

  /** Every point the world holds for the collection, stored under its id or
      waiting in the buffer, is what the loop makes of that id. */
  ghost predicate Faithful(w: World, job: Job) {
    (job.name in w.store ==>
       forall id :: id in w.store[job.name].points ==>
         Embeds(job, Point(id, w.store[job.name].points[id].vector, w.store[job.name].points[id].payload)))
    && forall k :: 0 <= k < |w.buffer| ==> Embeds(job, w.buffer[k])
  }

  /** A flush stores each buffered point under its id, so it keeps every
      stored point faithful. */
  lemma FaithfulFlush(w: World, job: Job, skipped: int)
    requires Faithful(w, job)
    ensures Faithful(FlushStep(w, job.name, skipped).world, job)
  {
    var r := FlushStep(w, job.name, skipped);
    if r.outcome.Pass? && w.buffer != [] {
      var before := w.store[job.name].points;
      var after := r.world.store[job.name].points;
      assert after == Upserted(before, w.buffer);
      forall id | id in after
        ensures Embeds(job, Point(id, after[id].vector, after[id].payload))
      {
        if id in Ids(w.buffer) {
          var k := LastIndex(w.buffer, id);
          assert after[id] == Stored(w.buffer[k]);
          assert Point(id, after[id].vector, after[id].payload) == w.buffer[k];
        } else {
          assert after[id] == before[id];
        }
      }
    }
  }

  /** Adding a faithful record keeps the world faithful, with or without a flush. */
  lemma FaithfulAdd(w: World, job: Job, i: int, v: Vector, metadata: Payload, skipped: int)
    requires Faithful(w, job) && Embeds(job, Record(i, v, metadata))
    ensures Faithful(AddStep(w, job.name, job.batchSize, i, v, metadata, skipped).world, job)
  {
    var w1 := w.(buffer := w.buffer + [Record(i, v, metadata)]);
    assert forall k :: 0 <= k < |w.buffer| ==> w1.buffer[k] == w.buffer[k];
    assert Faithful(w1, job);
    if |w1.buffer| >= job.batchSize {
      FaithfulFlush(w1, job, skipped);
    }
  }

  lemma FaithfulStep(p: Progress, job: Job, i: int)
    requires Faithful(p.world, job)
    ensures Faithful(StepAt(p, job, i).world, job)
  {
    if p.halted.None? {
      match job.extract(i)
      case Err(_) =>
      case Ok(None) =>
      case Ok(Some(x)) =>
        match job.embed(x.data)
        case None =>
        case Some(v) =>
          assert Embeds(job, Record(i, v, x.metadata));
          FaithfulAdd(p.world, job, i, v, x.metadata, p.skipped);
    }
  }

  /** Whatever the loop stores or buffers under id i is the embedding of the
      text at position i with the metadata extracted there, whether or not the
      loop stopped. */
  lemma {:induction false} FaithfulRun(p0: Progress, job: Job, start: int, end: int)
    requires Faithful(p0.world, job)
    ensures Faithful(RunTo(p0, job, start, end).world, job)
    decreases end - start
  {
    if end > start {
      FaithfulRun(p0, job, start, end - 1);
      FaithfulStep(RunTo(p0, job, start, end - 1), job, end - 1);
    }
  }

  /** Every position with text that a ready loop got past is held under its
      own id as the record of its embedding and its metadata: stored, or still
      in the buffer. */
  lemma AddedStored(p0: Progress, job: Job, start: int, end: int, i: int)
    requires p0.halted.None? && Ready(p0.world, job.name) && EmbedsFit(job.embed) && start <= end
    requires Faithful(p0.world, job)
    requires i in AddedIn(job, start, Reached(RunTo(p0, job, start, end), end))
    ensures HasText(job, i) && job.embed(job.extract(i).value.value.data).Some?
    ensures job.name in RunTo(p0, job, start, end).world.store
    ensures var w := RunTo(p0, job, start, end).world;
      var x := job.extract(i).value.value;
      var rec := Record(i, job.embed(x.data).value, x.metadata);
      (i in w.store[job.name].points && w.store[job.name].points[i] == Stored(rec))
      || (i !in w.store[job.name].points && rec in w.buffer)
  {
    var w := RunTo(p0, job, start, end).world;
    LoadedRun(p0, job, start, end);
    FaithfulRun(p0, job, start, end);
    AddedInMembers(job, start, Reached(RunTo(p0, job, start, end), end));
    assert i in Loaded(w, job.name);
    var points := w.store[job.name].points;
    if i in points {
      assert Embeds(job, Point(i, points[i].vector, points[i].payload));
    } else {
      var k :| 0 <= k < |w.buffer| && w.buffer[k].id == i;
      assert Embeds(job, w.buffer[k]);
    }
  }

  /** The start point of a run: processed + skipped from the checkpoint,
      unless the operator typed one. */
  function StartPoint(stats: Stats, override: Option<int>): (r: int)
    ensures override.None? ==> r == FrontierOf(stats)
    ensures override.Some? ==> r == override.value
  {
    match override
    case None => stats.processed + stats.skipped
    case Some(s) => s
  }

  /** What a populate call printed before returning. */
  datatype Report =
    | Aborted(error: Error)                        // the outer handler caught an exception
    | AlreadyLoaded(count: nat)                    // the collection was there; nothing was added
    | Finished(skipped: int, stop: Option<Halt>)   // the loop ran, possibly stopping early

  /** The repository object: a collection name, a batch size, the buffer and
      the two external resources it writes, the vector store and the
      checkpoint file. */
  class Repository {
    const name: string
    const batchSize: int
    var buffer: seq<Point>
    const client: Server
    const log: CheckpointFile

    constructor (collectionName: string, size: int, server: Server, file: CheckpointFile)
      ensures name == collectionName && batchSize == size && buffer == []
      ensures client == server && log == file
    {
      name := collectionName;
      batchSize := size;
      buffer := [];
      client := server;
      log := file;
    }

    ghost function State(): World
      reads this, client, log
    {
      World(buffer, client.collections, log.file)
    }

    method CreateCollection() returns (created: bool)
      modifies client
      ensures (State(), created) == CreateStep(old(State()), name)
    {
      var present := client.CollectionExists(name);
      if present {
        return false;
      }
      var o := client.CreateCollection(name, CollectionConfig);
      assert o.Pass?;
      created := true;
    }

    method DeleteCollection() returns (o: Outcome)
      modifies client, log
      ensures Step(State(), o) == DeleteStep(old(State()), name)
    {
      o := log.UpdateCsv(0, 0);
      if o.Fail? {
        return;
      }
      client.DeleteCollection(name);
    }

    method CollectionExists() returns (b: bool)
      ensures b <==> name in client.collections
    {
      b := client.CollectionExists(name);
    }

    method Count() returns (r: Result<nat>)
      ensures r == CountIn(client.collections, name)
    {
      r := client.Count(name);
    }

    method Flush(skipped: int) returns (o: Outcome)
      modifies this, client, log
      ensures Step(State(), o) == FlushStep(old(State()), name, skipped)
    {
      if buffer == [] {
        return Pass;
      }
      var n := Count();
      if n.Err? {
        return Fail(n.error);
      }
      o := log.UpdateCsv(|buffer| + n.value, skipped);
      if o.Fail? {
        return;
      }
      o := client.Upsert(name, buffer);
      if o.Fail? {
        return;
      }
      buffer := [];
    }

    method AddDocument(id: int, vector: Vector, payload: Payload, skipped: int) returns (o: Outcome)
      modifies this, client, log
      ensures Step(State(), o) == AddStep(old(State()), name, batchSize, id, vector, payload, skipped)
    {
      buffer := buffer + [Record(id, vector, payload)];
      o := Pass;
      if |buffer| >= batchSize {
        o := Flush(skipped);
      }
    }

    /** The loop over range(start, mbox_count) shared by populate_collection
        and populate_vector_collection. */
    method IngestRange(mbox: seq<RawMessage>, env: Env, start: int, skipped0: int, ghost job: Job)
      returns (skipped: int, stop: Option<Halt>)
      requires job.name == name && job.batchSize == batchSize && Reads(job, mbox, env)
      modifies this, client, log
      ensures Progress(State(), skipped, stop) == RunTo(Progress(old(State()), skipped0, None), job, start, |mbox|)
    {
      ghost var p0 := Progress(State(), skipped0, None);
      skipped := skipped0;
      stop := None;
      var i := start;
      while i < |mbox|
        invariant start <= i && (i <= |mbox| || i == start)
        invariant RunTo(p0, job, start, i) == Progress(State(), skipped, None) && stop.None?
        decreases |mbox| - i
      {
        RunToNext(p0, job, start, i);
        skipped, stop := Visit(mbox, env, i, skipped, job);
        if stop.Some? {
          HaltIsFinal(p0, job, start, i + 1, |mbox|);
          return;
        }
        i := i + 1;
      }
      assert |mbox| <= start ==> RunTo(p0, job, start, |mbox|) == p0;
    }

    /** One pass of the loop's body at position i; an exception is caught and
        reported in `stop`. */
    method Visit(mbox: seq<RawMessage>, env: Env, i: int, skipped0: int, ghost job: Job)
      returns (skipped: int, stop: Option<Halt>)
      requires job.name == name && job.batchSize == batchSize && Reads(job, mbox, env)
      modifies this, client, log
      ensures Progress(State(), skipped, stop) == StepAt(Progress(old(State()), skipped0, None), job, i)
    {
      skipped, stop := skipped0, None;
      var md := ExtractMetadata(mbox, i, env);
      assert md == job.extract(i);
      if md.Err? {
        return skipped, Some(Halt(i, md.error));
      }
      if md.value.None? {
        return skipped + 1, None;
      }
      var x := md.value.value;
      var vector := env.embed(x.data);
      if vector.None? {
        return skipped, Some(Halt(i, EmbeddingFailed));
      }
      var o := AddDocument(i, vector.value, x.metadata, skipped);
      if o.Fail? {
        stop := Some(Halt(i, o.error));
      }
    }

    /** populate_collection(start_point, skipped_count): the start_point
        argument is overwritten before it is read, by the checkpoint's
        processed + skipped or the operator's override, so it is no parameter
        here. Refuses a collection that already exists, creates it and runs
        the loop with a skip counter that starts from the skipped_count
        argument, not from the checkpoint. Every exception before the loop is
        caught and printed. */
    method PopulateCollection(mbox: seq<RawMessage>, env: Env, override: Option<int>, skipped0: int)
      returns (r: Report)
      modifies this, client, log
      ensures StatsOf(old(log.file)).Err? ==> r == Aborted(FileNotFound) && State() == old(State())
      ensures StatsOf(old(log.file)).Ok? && name in old(client.collections) ==>
        r == AlreadyLoaded(|old(client.collections)[name].points|) && State() == old(State())
      ensures StatsOf(old(log.file)).Ok? && name !in old(client.collections) ==>
        r.Finished? && Progress(State(), r.skipped, r.stop)
          == RunTo(Progress(CreateStep(old(State()), name).0, skipped0, None),
                   Loading(name, batchSize, mbox, env),
                   StartPoint(StatsOf(old(log.file)).value, override), |mbox|)
    {
      var stats := log.ReadStats();
      if stats.Err? {
        return Aborted(stats.error);
      }
      var startPoint := StartPoint(stats.value, override);
      var present := CollectionExists();
      if present {
        var count := Count();
        return AlreadyLoaded(count.value);
      }
      var _ := CreateCollection();
      LoadingReads(name, batchSize, mbox, env);
      var skipped, stop := IngestRange(mbox, env, startPoint, skipped0, Loading(name, batchSize, mbox, env));
      r := Finished(skipped, stop);
    }
  }
}

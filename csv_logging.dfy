/** The checkpoint store kept in process_log.csv: a header row
    "processed,skipped" followed by data rows. The file is rewritten whole on
    every update; only its first data row is ever read. */
module CsvLogging {
  import opened Common

  /** One data row of the checkpoint file. */
  datatype Stats = Stats(processed: int, skipped: int)

  /** The checkpoint file: None when it does not exist, otherwise the data rows
      below its header. */
  type CsvFile = Option<seq<Stats>>

  const ZeroStats := Stats(0, 0)

  /** read_stats(): the first data row, or (0, 0) when the file holds a header
      only; opening an absent file raises. */
  function StatsOf(f: CsvFile): Result<Stats> {
    match f
    case None => Err(FileNotFound)
    case Some(rows) => if rows == [] then Ok(ZeroStats) else Ok(rows[0])
  }

  /** init_csv(): writes the header and a (0, 0) row, but only when there is no
      file yet. */
  function Initialized(f: CsvFile): (r: CsvFile)
    ensures StatsOf(r).Ok?
    ensures f.None? ==> StatsOf(r) == Ok(ZeroStats)
    ensures f.Some? ==> r == f
  {
    if f.None? then Some([ZeroStats]) else f
  }

  /** update_csv(p, s): reads the file (raising when it is absent), then
      rewrites it with the single row (p, s); the values read are discarded. */
  function Overwritten(f: CsvFile, p: int, s: int): (r: Result<CsvFile>)
    ensures r.Err? <==> f.None?
    ensures r.Err? ==> r.error == FileNotFound
    ensures r.Ok? ==> StatsOf(r.value) == Ok(Stats(p, s))
  {
    match StatsOf(f)
    case Err(e) => Err(e)
    case Ok(_) => Ok(Some([Stats(p, s)]))
  }

  /** Despite the parameter names processed_increment and skipped_increment,
      the stored pair does not depend on what was stored before. */
  lemma UpdateIgnoresPrevious(f: CsvFile, g: CsvFile, p: int, s: int)
    requires f.Some? && g.Some?
    ensures Overwritten(f, p, s) == Overwritten(g, p, s)
  {
  }

  /** Calling init_csv again changes nothing. */
  lemma InitIdempotent(f: CsvFile)
    ensures Initialized(Initialized(f)) == Initialized(f)
  {
  }

  /** The file as a mutable resource shared by everyone who imports the module. */
  class CheckpointFile {
    var file: CsvFile

    constructor (f: CsvFile)
      ensures file == f
    {
      file := f;
    }

    method InitCsv()
      modifies this
      ensures file == Initialized(old(file))
      ensures old(file).Some? ==> unchanged(this)
    {
      if file.None? {
        file := Some([ZeroStats]);
      }
    }

    method ReadStats() returns (r: Result<Stats>)
      ensures r == StatsOf(file)
      ensures r.Err? <==> file.None?
      ensures file == Some([]) ==> r == Ok(ZeroStats)
      ensures file.Some? && file.value != [] ==> r == Ok(file.value[0])
    {
      if file.None? {
        return Err(FileNotFound);
      }
      var rows := file.value;
      r := if rows == [] then Ok(ZeroStats) else Ok(rows[0]);
    }

    method UpdateCsv(processedIncrement: int, skippedIncrement: int) returns (o: Outcome)
      modifies this
      ensures old(file).None? ==> o == Fail(FileNotFound) && file == old(file)
      ensures old(file).Some? ==> o == Pass && file == Overwritten(old(file), processedIncrement, skippedIncrement).value
      ensures o.Pass? ==> StatsOf(file) == Ok(Stats(processedIncrement, skippedIncrement))
    {
      var current := ReadStats();
      if current.Err? {
        return Fail(current.error);
      }
      file := Some([Stats(processedIncrement, skippedIncrement)]);
      o := Pass;
    }
  }
}

# MBOX-Chatbot ingestion pipeline, modelled in Dafny

The pipeline reads an mbox archive one position at a time. For each position it:

- extracts the message text (`get_message`);
- derives a metadata dictionary (`extract_metadata`);
- embeds the text;
- buffers `{id, vector, payload}` records in a `VectorDBRepository`.

The repository flushes its buffer to a Qdrant collection every `batch_size` additions. Each flush first records a checkpoint `(processed, skipped)` in `process_log.csv`, then upserts. The next run starts at `processed + skipped`, unless the operator types a start point.

The model has one Dafny module per source file. It also has the two external services whose behaviour the code relies on, and the Python string functions it calls:

| file | module | models |
|---|---|---|
| `common.dfy` | `Common` | Option, Result, an `Error` per exception the pipeline can raise, and payload values |
| `py_strings.dfy` | `PyStrings` | `str.isspace`, `strip`, `lstrip`, `rstrip`, `split(sep)`, `split()`, `splitlines`, `join`, `lower` (ASCII), `in` |
| `csv_logging.dfy` | `CsvLogging` | `src/csv_logging_repository.py`: the checkpoint file as `Option<seq<Stats>>` (absent, or its data rows), and a `CheckpointFile` class holding it |
| `qdrant.dfy` | `Qdrant` | the vector store as a map from collection names to collections of points keyed by id, and a `Server` class holding it |
| `mbox_util.dfy` | `MboxUtil` | `src/mbox_util.py` over a MIME tree; `GetMessage` keeps the source's two loops, as `PlainPass` and `HtmlPass` |
| `vector_db_repository.dfy` | `VectorDbRepository` | `src/vector_db_repository.py`, in two layers (below) |
| `loader.dfy` | `Loader` | `src/main.py`: `populate_vector_collection` and `__main__`'s start point |

`vector_db_repository.dfy` has two layers:

- Each call is a function on a `World`, which holds the buffer, the store and the checkpoint file. The loop is the function `RunTo`, built from one iteration, `StepAt`.
- The `Repository` class has the buffer as a field, held next to the `Server` and `CheckpointFile` objects. Every method is proved to compute the corresponding function on its state.

Collaborators the code calls but does not implement are function-valued fields of `MboxUtil.Env`:

- the charset decoder;
- BeautifulSoup's text extraction;
- `dateutil` parsing;
- MD5;
- the embedding model.

Being functions, they are deterministic.

The main theorems are the following.

- **The checkpoint is truthful.** `VectorDbRepository.Frontier` states when a world's checkpoint tells the truth:
  - the stored ids lie below `processed + skipped`;
  - `processed` is the collection's count;
  - the buffer holds the later positions, in order;
  - frontier + buffer + skips since the checkpoint account for every position reached.

  The loop keeps this (`FrontierRun`). A run of `__main__` whose checkpoint is truthful once `create_collection` has run, which holds on a first run (`Loader.FirstRunOpens`), leaves a truthful checkpoint even after losing its buffer (`Loader.PipelineResumes`).
- **Exactly the right positions are loaded.** Ids reached through the loop are exactly the positions with text before where it stopped (`LoadedRun`, `Loader.PipelineLoads`).
- **Skips are counted exactly** (`SkipAccounting`).
- **The first exception ends the run** (`HaltIsFinal`).
- **No final flush.** The buffer never holds more than `batch_size` records. A loop that did not stop leaves fewer than `batch_size` unflushed; a loop stopped by a failed flush can leave exactly `batch_size` (`BufferBound`).
- **The right records are stored.** Every point the loop stores or buffers under id i is the embedding of the text at position i with that message's metadata (`FaithfulRun`, `AddedStored`, `Loader.PipelineStores`).

## Model

| member | source | states |
|---|---|---|
| PyStrings.Strip | src/mbox_util.py:39 | `strip()` returns a slice `s[i..j]` of its input with only whitespace before `i` and after `j`, and no whitespace at either end of the slice; it returns its input exactly when that input is already trimmed |
| PyStrings.StripKeepsText | src/mbox_util.py:75 | `strip()` removes whitespace only: the non-whitespace text is unchanged |
| PyStrings.StripKeepsOut | src/mbox_util.py:75 | a character absent from a string is absent from its strip |
| PyStrings.SplitOn | src/mbox_util.py:75 | `split(sep)` gives one more piece than there are separators; no piece holds the separator; joining the pieces with it gives the input back |
| PyStrings.SplitOnJoin | src/mbox_util.py:39 | splitting a join on its separator returns the pieces, when none holds the separator |
| PyStrings.SplitOnHead | src/mbox_util.py:101 | the first piece of a split is the text up to the first separator, or the whole text when there is none |
| PyStrings.SplitLines | src/mbox_util.py:39 | `splitlines()` yields lines that hold no line boundary, and none exactly for the empty text; joined with "\n" they give back the text with every boundary written as "\n", "\r\n" as one boundary and a final boundary dropped (`Canon`) |
| PyStrings.CanonBreaks | src/mbox_util.py:39 | "\r" and "\r\n" each count as one line boundary, and a final "\n" ends the last line without starting another |
| PyStrings.SplitLinesJoin | src/mbox_util.py:39 | for a text whose only line breaks are "\n" and that does not end in one, joining the lines with "\n" gives the text back: the lines are the text between the breaks, in order |
| PyStrings.SplitLinesKeepText | src/mbox_util.py:39 | splitting into lines drops whitespace only |
| PyStrings.Words | src/mbox_util.py:100 | `split()` yields non-empty words without whitespace |
| PyStrings.WordsKeepText | src/mbox_util.py:100 | the words, run together, are exactly the non-whitespace text, in order |
| PyStrings.WordCount | src/mbox_util.py:100 | `len(data.split())` is the number of word starts: positions holding a non-whitespace character that is first or follows whitespace |
| PyStrings.Lower | src/mbox_util.py:98 | `lower()` keeps the length and lowers each character independently |
| PyStrings.ContainsAt | src/mbox_util.py:99 | substring test `t in s` holds exactly when `t` occurs at some position of `s` |
| CsvLogging.Initialized | src/csv_logging_repository.py:6-11 | `init_csv` writes a (0, 0) record only when there is no file; an existing file is kept as it is |
| CsvLogging.InitIdempotent | src/csv_logging_repository.py:6-11 | calling `init_csv` twice is the same as once |
| CsvLogging.Overwritten | src/csv_logging_repository.py:13-23 | `update_csv(p, s)` fails with file-not-found exactly when there is no file; otherwise a following `read_stats` reads exactly `(p, s)` |
| CsvLogging.UpdateIgnoresPrevious | src/csv_logging_repository.py:13-23 | despite the `*_increment` names, the pair written does not depend on the pair stored before |
| CsvLogging.CheckpointFile.InitCsv | src/csv_logging_repository.py:6-11 | the file becomes the init-if-absent file; an existing file is unchanged |
| CsvLogging.CheckpointFile.ReadStats | src/csv_logging_repository.py:25-32 | an absent file raises; a header-only file reads (0, 0); otherwise the first data row is read |
| CsvLogging.CheckpointFile.UpdateCsv | src/csv_logging_repository.py:13-23 | reads first, so an absent file raises and is left absent; otherwise the file holds exactly the new pair |
| Qdrant.Upserted | src/vector_db_repository.py:156-159 | after an upsert, the ids are the old ids plus the batch's; each batch id holds its last point in the batch; every other id keeps its point |
| Qdrant.IdsBound | src/vector_db_repository.py:156-159 | a batch mentions at most as many ids as it has points, and exactly that many when its ids are distinct |
| Qdrant.UpsertedSize | src/vector_db_repository.py:151-159 | the count grows by at most the batch's length, and by exactly that when the ids are distinct and new |
| Qdrant.UpsertedIdempotent | src/vector_db_repository.py:156-159 | upserting the same batch again changes nothing |
| Qdrant.CountIn | src/vector_db_repository.py:60-64 | `count` is the number of stored points; a missing collection raises |
| Qdrant.Created | src/vector_db_repository.py:33-39 | `create_collection` adds an empty collection with the given config, keeps every other collection, and refuses an existing name |
| Qdrant.Deleted | src/vector_db_repository.py:50-52 | `delete_collection` removes exactly that collection |
| Qdrant.UpsertInto | src/vector_db_repository.py:156-159 | `upsert` into a missing collection raises, and so does one with a vector of the wrong size; otherwise it writes `Upserted` into that collection only |
| Qdrant.RecreateEmpties | src/vector_db_repository.py:42-52 | delete followed by create always succeeds and leaves a count of 0 |
| Qdrant.Server.CollectionExists | src/vector_db_repository.py:54-58 | true exactly when the collection is present |
| Qdrant.Server.Count | src/vector_db_repository.py:60-64 | returns `CountIn` of the store |
| Qdrant.Server.CreateCollection | src/vector_db_repository.py:33-39 | the store becomes `Created`, or is unchanged and the call raises |
| Qdrant.Server.DeleteCollection | src/vector_db_repository.py:50-52 | the store becomes `Deleted` |
| Qdrant.Server.Upsert | src/vector_db_repository.py:156-159 | the store becomes `UpsertInto`, or is unchanged and the call raises its error |
| VectorDbRepository.DropNulls | src/vector_db_repository.py:138 | the buffered payload has exactly the input's keys whose value is not None, with the same values |
| VectorDbRepository.CreateStep | src/vector_db_repository.py:26-40 | returns false and changes nothing when the collection exists; otherwise returns true and adds an empty 384/Cosine collection; every other collection, the buffer and the checkpoint are untouched |
| VectorDbRepository.DeleteStep | src/vector_db_repository.py:42-52 | resets the checkpoint to (0, 0) before deleting; it fails, with nothing changed, exactly when the checkpoint file is missing |
| VectorDbRepository.FlushStep | src/vector_db_repository.py:144-160 | empty buffer: nothing is written. Success: the checkpoint becomes (buffer length + count before the upsert, skipped), the collection becomes `Upserted` of the buffer, other collections stay, and the buffer empties. Failure: buffer and store are kept. Because the checkpoint is written first, a refused upsert leaves the new checkpoint behind |
| VectorDbRepository.FlushFailures | src/vector_db_repository.py:148-159 | a non-empty flush raises at `count()` exactly when the collection is missing; at `update_csv` exactly when the file is missing; at `upsert` exactly when a vector has the wrong size. It succeeds exactly when none of these holds |
| VectorDbRepository.AddStep | src/vector_db_repository.py:129-142 | one record (id, vector, payload without None values) is appended. Below `batch_size` nothing else changes; reaching it, the result is exactly `FlushStep` of the extended buffer with the given skip counter, so the checkpoint and the failure cases are those of `flush`. After a successful add the buffer is below `batch_size`; a failed add keeps the record in the buffer and the store as it was |
| VectorDbRepository.FlushCheckpointCounts | src/vector_db_repository.py:151-159 | the recorded `processed` is never below the new count; it equals it exactly when the buffered ids are distinct and none was stored before |
| VectorDbRepository.FlushOverCounts | src/vector_db_repository.py:151-159 | re-buffering an id that is already stored makes the checkpoint over-count the collection |
| VectorDbRepository.StepAt | src/vector_db_repository.py:97-110 | one loop iteration. A stopped loop stays stopped. A message without text counts one skip and changes nothing else. An extraction error stops the loop at that position with that error; a stop is never a skip. A failed embedding stops it with `EmbeddingFailed`. Otherwise the new world is `AddStep` of the embedding and the metadata under id i with the current skip counter, and the loop stops exactly when that add fails, with its error |
| VectorDbRepository.HaltStays | src/vector_db_repository.py:108-110 | once the loop has stopped, running it further changes nothing |
| VectorDbRepository.HaltPosition | src/vector_db_repository.py:108-110 | a stop is there because one position of the range stopped the loop: the loop had not stopped before it, and the state right after it is the final state |
| VectorDbRepository.HaltIsFinal | src/vector_db_repository.py:108-110 | a stop happens at a position of the range. Every earlier position went through, and the state after the stop is the final state however far the range goes |
| VectorDbRepository.SkipsIn | src/vector_db_repository.py:100-103 | the number of positions without text in a range is at most the range's length |
| VectorDbRepository.SkipAccounting | src/vector_db_repository.py:100-103 | the skip counter grows by the number of positions without text that the loop got to, and by nothing else |
| VectorDbRepository.BufferBound | src/main.py:30-50 | the buffer never exceeds `batch_size`; after a loop that did not stop it is below it (the source has no final flush) |
| VectorDbRepository.FrontierAdd | src/vector_db_repository.py:129-142 | adding the next position of the right size keeps the checkpoint truthful, moved on by one position, with or without a flush |
| VectorDbRepository.FrontierBufferFresh | src/vector_db_repository.py:151-159 | under a truthful checkpoint the buffered ids are distinct and none is stored yet, so a flush does not over-count |
| VectorDbRepository.FrontierFlush | src/vector_db_repository.py:144-160 | a flush under a truthful checkpoint succeeds and moves the checkpoint's frontier up to the position reached |
| VectorDbRepository.FrontierStep | src/vector_db_repository.py:97-110 | one iteration keeps the checkpoint truthful; when it stops, nothing changed |
| VectorDbRepository.FrontierRun | src/vector_db_repository.py:97-110 | the checkpoint stays truthful at every position the loop reaches, when embeddings have the collection's size |
| VectorDbRepository.AddedInMembers | src/vector_db_repository.py:99-106 | the positions added in a range are exactly those in the range whose message has text |
| VectorDbRepository.FlushLoads | src/vector_db_repository.py:144-160 | a flush with collection and file present and vectors of the right size succeeds and loses no id |
| VectorDbRepository.LoadedAdd | src/vector_db_repository.py:129-142 | such an add succeeds and adds exactly its id to the stored-or-buffered ids |
| VectorDbRepository.LoadedStep | src/vector_db_repository.py:97-110 | one iteration loads position i exactly when the message there has text and the iteration did not stop |
| VectorDbRepository.LoadedNext | src/vector_db_repository.py:97-110 | one iteration extends the loaded ids by the added positions up to where it got |
| VectorDbRepository.LoadedRun | src/vector_db_repository.py:97-110 | every position with text that the loop got past is loaded under its own position as id, and no other id is added |
| VectorDbRepository.FaithfulFlush | src/vector_db_repository.py:144-160 | a flush stores each buffered point under its own id, so every stored point stays the embedding and metadata of its position |
| VectorDbRepository.FaithfulAdd | src/vector_db_repository.py:129-142 | adding the record of a position's embedding and metadata keeps that true of every stored and buffered point, with or without a flush |
| VectorDbRepository.FaithfulStep | src/vector_db_repository.py:97-110 | one iteration stores or buffers only the embedding and metadata of its own position |
| VectorDbRepository.FaithfulRun | src/vector_db_repository.py:97-110 | whatever the loop stores or buffers under id i is the embedding of the text at position i with its metadata, whether or not the loop stopped |
| VectorDbRepository.AddedStored | src/vector_db_repository.py:99-106 | every position with text that a ready loop got past is held under its id as the record of its embedding and metadata, stored or still buffered |
| VectorDbRepository.StartPoint | src/vector_db_repository.py:80-85 | the start point is processed + skipped, or the operator's value unchanged |
| VectorDbRepository.Repository.constructor | src/vector_db_repository.py:15-19 | collection name and batch size as given, empty buffer |
| VectorDbRepository.Repository.CreateCollection | src/vector_db_repository.py:26-40 | the repository's new state and result are `CreateStep` of the old state |
| VectorDbRepository.Repository.DeleteCollection | src/vector_db_repository.py:42-52 | the new state and outcome are `DeleteStep` of the old state |
| VectorDbRepository.Repository.CollectionExists | src/vector_db_repository.py:54-58 | true exactly when the collection is in the store |
| VectorDbRepository.Repository.Count | src/vector_db_repository.py:60-64 | the store's count for the collection, or the missing-collection error |
| VectorDbRepository.Repository.Flush | src/vector_db_repository.py:144-160 | the new state and outcome are `FlushStep` of the old state |
| VectorDbRepository.Repository.AddDocument | src/vector_db_repository.py:129-142 | the new state and outcome are `AddStep` of the old state |
| VectorDbRepository.Repository.IngestRange | src/vector_db_repository.py:97-110 | the `for` loop with its early `return` leaves the state, skip counter and stop that `RunTo` gives |
| VectorDbRepository.Repository.Visit | src/vector_db_repository.py:98-110 | one pass of the loop body computes `StepAt` |
| VectorDbRepository.Repository.PopulateCollection | src/vector_db_repository.py:66-120 | a missing checkpoint file is reported and nothing changes. An existing collection is reported with its count and nothing is added. Otherwise the collection is created and the loop runs from the start point, with the skip counter starting from the argument, not the checkpoint |
| MboxUtil.Walk | src/mbox_util.py:49 | `walk()` yields the entity itself first |
| MboxUtil.FirstHtml | src/mbox_util.py:57-64 | finds the first `text/html` entity with a non-empty payload in walk order, or reports that there is none |
| MboxUtil.PlainTextAppend | src/mbox_util.py:48-55 | the text/plain pass over two runs of entities is the concatenation of the two passes |
| MboxUtil.WalkInPreorder | src/mbox_util.py:49 | the text/plain pass over `walk()` equals a pre-order traversal of the tree |
| MboxUtil.HtmlFallbackIgnoresLaterParts | src/mbox_util.py:57-64 | entities after the first HTML candidate never affect the fallback |
| MboxUtil.MultipartText | src/mbox_util.py:48-64 | multipart: the decodable text/plain parts in walk order, each followed by a newline; if none contributed, the first HTML candidate, decoded and cleaned; if there is none, "" |
| MboxUtil.SinglePartCases | src/mbox_util.py:65-70 | non-multipart: "" for an empty or absent payload; otherwise the payload decoded without HTML cleaning; an unknown codec raises |
| MboxUtil.GetMessage | src/mbox_util.py:44-70 | the two loops over `walk()`, with the `break` and the swallowed decode errors, compute `MessageText` |
| MboxUtil.PlainPass | src/mbox_util.py:49-55 | the first loop appends the decoded text of every text/plain entity, each with a newline, in walk order, and nothing for an entity whose payload does not decode |
| MboxUtil.HtmlPass | src/mbox_util.py:57-64 | the second loop gives the first text/html entity with a non-empty payload, decoded and cleaned; "" when there is none |
| MboxUtil.CleanLinesMembers | src/mbox_util.py:39 | a line is kept exactly when it is the non-empty strip of some input line (`CleanLines`, the generator inside `clean_html`) |
| MboxUtil.CleanLinesShape | src/mbox_util.py:39 | every kept line is non-empty, equal to its own strip, and free of newlines |
| MboxUtil.CleanLinesKeepText | src/mbox_util.py:39 | stripping lines and dropping the empty ones loses whitespace only |
| MboxUtil.JoinNewlinesKeepText | src/mbox_util.py:39 | joining with "\n" adds whitespace only |
| MboxUtil.CleanHtmlShape | src/mbox_util.py:32-41 | `clean_html` (`CleanHtml`) output splits on "\n" into non-empty lines, each equal to its own strip; when it is not empty, those lines are exactly the stripped non-empty lines of the extracted text, in order; it keeps all non-whitespace text of the extracted text, in order |
| MboxUtil.Header | src/mbox_util.py:83-95 | `message.get(name)` is None exactly when no field has that name, ignoring case; otherwise it is the value of the first field that has it |
| MboxUtil.StripAll | src/mbox_util.py:75 | the comprehension strips each piece and keeps the count and order |
| MboxUtil.CleanAddr | src/mbox_util.py:72-75 | [] for an absent or empty field; otherwise one address per comma piece, each that piece with only the whitespace at its ends cut off, so trimmed and comma-free |
| MboxUtil.CleanAddrKeepsText | src/mbox_util.py:72-75 | the addresses, joined back with ",", keep all non-whitespace text of the field |
| MboxUtil.StripAllKeepsText | src/mbox_util.py:75 | stripping each piece of a join loses whitespace only |
| MboxUtil.MarkerLength | src/mbox_util.py:88 | the length of the leading `re:`, `fw:` or `fwd:`, ignoring case: what it covers is a marker, and it is 0 exactly when the text does not begin with one |
| MboxUtil.ThreadKey | src/mbox_util.py:88 | the text hashed into `thread_id` is trimmed and is a tail of the stripped subject; it is the whole stripped subject exactly when that does not begin with a marker; otherwise what is cut off is that marker followed by whitespace only |
| MboxUtil.StripPadded | src/mbox_util.py:88 | `strip()` of a trimmed text with whitespace on either side is that text |
| MboxUtil.ThreadKeyOfStrip | src/mbox_util.py:88 | the key depends on the stripped subject only |
| MboxUtil.PaddedMarker | src/mbox_util.py:88 | a marked subject "p w x", with x trimmed and any whitespace at either end, keys as x |
| MboxUtil.TrailingBlankSubject | src/mbox_util.py:88 | the subject "Re: x " keys as "x" |
| MboxUtil.StripsOneMarker | src/mbox_util.py:88 | a subject "marker, whitespace, X", with X trimmed, has X as its thread key, whatever X begins with |
| MboxUtil.ReplySharesThread | src/mbox_util.py:87-89 | "Re: X" and "X" get the same `thread_id` (`ThreadId`, the MD5 of `ThreadKey`) when X is trimmed and carries no marker |
| MboxUtil.OnlyOneMarkerStripped | src/mbox_util.py:88 | "Re: Fwd: X" keys as "Fwd: X": only one marker is removed |
| MboxUtil.ReplyPrefix | src/mbox_util.py:98 | a subject flagged `is_reply` (`IsReply`) begins with a marker |
| MboxUtil.StripKeepsMarker | src/mbox_util.py:88 | stripping a subject that begins with a marker keeps the marker in front |
| MboxUtil.ReplyKeepsMarker | src/mbox_util.py:88 | a subject flagged `is_reply` still begins with a marker after `strip()` |
| MboxUtil.MarkedKeyShorter | src/mbox_util.py:88 | when a marker is found, the thread key is strictly shorter than the stripped subject |
| MboxUtil.ReplyMarkerIsStripped | src/mbox_util.py:87-98 | every subject flagged `is_reply` has a marker removed from its thread key |
| MboxUtil.IndentedIsNotReply | src/mbox_util.py:98 | `is_reply` looks at the unstripped subject: leading whitespace hides a marker from it |
| MboxUtil.IndentationKeepsThreadKey | src/mbox_util.py:88 | leading whitespace does not change the thread key |
| MboxUtil.IndentedMarker | src/mbox_util.py:87-98 | an indented "Re: X" is not a reply, yet its thread key is still X |
| MboxUtil.ReplyFlagIgnoresIndentedMarker | src/mbox_util.py:87-98 | the subject " Re: x" is not a reply and keys as "x" |
| MboxUtil.HasLink | src/mbox_util.py:99 | `has_link` holds exactly when "http" occurs at some position of the lower-cased text |
| MboxUtil.MainType | src/mbox_util.py:101 | `get_content_maintype()` is the prefix of the content type up to its first '/', or all of it when there is none |
| MboxUtil.MainTypeText | src/mbox_util.py:101 | the main type is "text" exactly for "text" and the "text/..." content types |
| MboxUtil.SubjectOf | src/mbox_util.py:87 | the Subject header's value, or "(No Subject)" when there is none |
| MboxUtil.DateText | src/mbox_util.py:83 | `str(message.get('Date'))`: the Date header's value, or the text "None" when there is none |
| MboxUtil.DerivedFields | src/mbox_util.py:87-101 | the fields of `Fields`, the metadata dictionary: the subject defaults to "(No Subject)"; `has_link` holds exactly when "http" occurs in the lower-cased text; `n_tokens` is the number of word starts of the text, and those words make up its non-whitespace; `attachments` holds exactly outside "text" |
| MboxUtil.FieldsKeys | src/mbox_util.py:91-102 | the metadata dictionary (`Fields`) has exactly the ten keys |
| MboxUtil.MetadataOfCases | src/mbox_util.py:77-103 | (None, None) exactly when `get_message` returns ""; otherwise the data is `get_message`'s text and the dictionary has the ten keys; an error of `get_message` or of the date parse propagates |
| MboxUtil.ExtractMetadata | src/mbox_util.py:77-103 | a position outside the archive raises; otherwise `MetadataOf` of the message at that position |
| Loader.DropBuffer | src/main.py:30-50 | losing the unflushed buffer at exit leaves a truthful checkpoint, at or behind the position reached |
| Loader.FreshStart | src/main.py:28 | a zero checkpoint plus `create_collection` on a store without the collection is a truthful start |
| Loader.RecreateResets | src/vector_db_repository.py:42-52 | `delete_collection` then `create_collection` always starts over with a truthful checkpoint |
| Loader.FirstRunOpens | src/main.py:28 | on a first run (no collection, zero checkpoint) the world after `create_collection` has a truthful checkpoint and holds nothing that did not come from the archive |
| Loader.LaterRunOpens | src/main.py:28 | when the collection exists, `create_collection` changes nothing and the loop starts on the world as it is |
| Loader.PipelineFromCheckpoint | src/main.py:57-78 | without an override, a run whose world after `create_collection` has a truthful checkpoint starts at the checkpoint's frontier, with the checkpoint's skipped as its skip counter |
| Loader.PipelineResumes | src/main.py:52-85 | such a run, first run included, leaves a truthful checkpoint even after its buffer is lost, so the next run can resume from it |
| Loader.PipelineAccounts | src/main.py:30-50 | the checkpoint stays truthful where the run got to; the skip counter counts the messages without text since the frontier; a run that did not stop leaves fewer than 100 records unflushed |
| Loader.PipelineLoads | src/main.py:30-45 | the ids the run left stored or buffered are the ids there after `create_collection` plus exactly the positions with text from the frontier up to where it got |
| Loader.PipelineStores | src/main.py:30-40 | each such position is held under its own id as the embedding of its text with its metadata, stored or buffered, when what the collection held before came from the same archive and model |
| Loader.PopulateVectorCollection | src/main.py:19-50 | `create_collection` (a no-op when present), then the loop from the start point with the given skip counter, returning at the first exception without a final flush |
| Loader.RunPipeline | src/main.py:52-85 | a missing checkpoint file is reported and nothing changes. Otherwise the run is `PipelineRun`: the start point from the checkpoint or the override, the skip counter from the checkpoint, and an existing collection's count reported and then loaded into |

## Left out

- I/O is not modelled: opening `process_log.csv`, the mbox file and the Qdrant connection, and `QdrantClient(url=...)`. The checkpoint file, the store and the archive are values or objects handed in.
- Transport failures of the Qdrant calls (`count`, `upsert`, `create_collection`) are not modelled. Such a failure raises an error, and the state it leaves is that of the modelled refusal of the same call. For `count` and `create_collection`, nothing changes. For `upsert`, it is the `WrongDimension` case: the new checkpoint is already written, and the store and the buffer are unchanged.
- CSV row syntax and the `int()` conversion of CSV cells are not modelled: a checkpoint row is a pair of integers.
- `int(custom_start)` on non-numeric input would raise a ValueError; it is not modelled. A typed start point arrives as an integer `Some(n)`, and Enter arrives as `None`.
- The `else` branch of `if stats:` (src/main.py:62-64, src/vector_db_repository.py:76-78) can never run: `read_stats` returns a non-empty tuple or raises. The model has no such branch.
- `input()`, `print`, `tqdm` and the elapsed-time measurement are not modelled. The printed outcome appears as `Report` and `RunReport` values.
- `signal`/`timeout_handler` and the `KeyboardInterrupt`/`TimeoutError` handlers are not modelled: the only interruption the model has is an exception inside the loop.
- `search` and the rest of the Qdrant client are not modelled. The store's own semantics are assumed:
  - an upsert writes the batch one point after another, so the last point with an id wins;
  - deleting a missing collection does nothing;
  - a vector whose length differs from the collection's size is refused.
- The code itself never checks a vector's length before adding it. The frontier theorems assume, through `EmbedsFit`, that the embedding model always returns 384 floats.
- The embedding model, BeautifulSoup, charset decoding, `dateutil` and MD5 are parameters (fields of `MboxUtil.Env`). In that form:
  - `errors='replace'` means only an unknown codec can make a decode fail;
  - a raising `create_vector_embedding` becomes `EmbeddingFailed`;
  - a parse failure becomes `BadDate`.
- `get_mbox_count` and `mbox[idx]` are the length and indexing of a sequence of messages. `get_message(idx)` re-reads `mbox[idx]`; `MboxUtil.GetMessage` is given that message.
- MIME parsing (`mailbox`, header decoding, content-type defaulting) is not modelled. A message arrives already parsed into a `Part` tree. Header lookup matches names ignoring ASCII case.
- `create_vector_embedding_from_idx`, playground.py, src/src_playground.py and fastapi-gmail/main.py are not part of this model.
- The assertion `isinstance(payload, dict)` in `add_document` can never fail: a payload is always a map.
- PyStrings.Lower: lower-cases ASCII letters only, whereas Python's `str.lower()` and `re.IGNORECASE` cover all of Unicode. So `is_reply` and the thread-id marker are modelled for ASCII-case variants of `re:`/`fw:`/`fwd:`.
- PyStrings.IsSpace: follows CPython's whitespace table. The model takes `\s` in the thread-id regular expression to be the same set.
- In five places the code departs from the intended design of the pipeline; the model follows the code, and each can be checked at the cited lines:
  - `flush` writes the checkpoint before the upsert, not after (src/vector_db_repository.py:151-159). The checkpoint therefore says that a batch the store refused was processed (`FlushStep`).
  - It records `len(buffer) + count()` from before the upsert, not the count after it. This over-counts when a buffered id was already stored (`FlushOverCounts`).
  - An unparseable `Date` header raises and stops the loop (src/mbox_util.py:84); it is not stored as a null field.
  - A non-multipart HTML message is decoded but not cleaned (src/mbox_util.py:65-68).
  - There is no final flush, so a run's checkpoint reflects only its last automatic flush (src/main.py:30-50).

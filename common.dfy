/** Shared vocabulary of the ingestion pipeline: optional values, results with
    the exceptions the pipeline can raise, payload values and opaque vectors. */
module Common {

  datatype Option<+T> = None | Some(value: T) {
    function GetOr(default: T): T {
      match this
      case Some(v) => v
      case None => default
    }
  }

  /** The exceptions that can escape a step of the pipeline. */
  datatype Error =
    | NoSuchKey           // mailbox lookup of a position outside the archive (KeyError)
    | UnknownCodec        // bytes.decode with a charset Python does not know (LookupError)
    | BadDate             // dateutil could not parse the Date header text
    | EmbeddingFailed     // the embedding model raised
    | FileNotFound        // the checkpoint file process_log.csv does not exist
    | CollectionNotFound  // the vector store has no collection of that name
    | CollectionExists    // the vector store refuses to create a collection twice
    | WrongDimension      // the vector store rejects a vector whose length differs from the collection's size

  datatype Result<+T> = Ok(value: T) | Err(error: Error)

  /** A call that returns nothing but may raise. */
  datatype Outcome = Pass | Fail(error: Error)

  /** Raw bytes, as returned by get_payload(decode=True). */
  type Bytes = seq<bv8>

  /** An embedding; its floats are never inspected by the pipeline. */
  type Vector = seq<real>

  /** A value of a metadata dictionary; Null stands for Python's None. */
  datatype Value = Str(s: string) | Bool(b: bool) | Int(i: int) | Null

  type Payload = map<string, Value>
}

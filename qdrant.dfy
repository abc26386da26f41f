/** The part of the Qdrant vector store the pipeline relies on: named
    collections of points keyed by integer id, created with a vector size and a
    distance, counted, upserted into (an existing id is overwritten) and
    deleted. */
module Qdrant {
  import opened Common

  datatype Distance = Cosine

  /** vectors_config of a collection. */
  datatype VectorParams = VectorParams(size: nat, distance: Distance)

  /** A point as sent to upsert: {"id": ..., "vector": ..., "payload": ...}. */
  datatype Point = Point(id: int, vector: Vector, payload: Payload)

  /** What the store keeps under a point's id. */
  datatype StoredPoint = StoredPoint(vector: Vector, payload: Payload)

  datatype Collection = Collection(config: VectorParams, points: map<int, StoredPoint>)

  type Store = map<string, Collection>

  function Stored(p: Point): StoredPoint {
    StoredPoint(p.vector, p.payload)
  }

  /** The ids a batch mentions. */
  function Ids(batch: seq<Point>): set<int> {
    set i | 0 <= i < |batch| :: batch[i].id
  }

  predicate DistinctIds(batch: seq<Point>) {
    forall i, j :: 0 <= i < j < |batch| ==> batch[i].id != batch[j].id
  }

  /** No later point of the batch has the id of batch[i]. */
  predicate LastWithId(batch: seq<Point>, i: int)
    requires 0 <= i < |batch|
  {
    forall j :: i < j < |batch| ==> batch[j].id != batch[i].id
  }

  lemma IdsSnoc(batch: seq<Point>, p: Point)
    ensures Ids(batch + [p]) == Ids(batch) + {p.id}
  {
    var b := batch + [p];
    assert b[|batch|] == p;
    assert forall i :: 0 <= i < |batch| ==> b[i] == batch[i];
  }

  /** The points of a collection after upserting a batch, one point after
      another: every id of the batch ends up holding its last point in the
      batch, and every other id keeps what it held. */
  function Upserted(points: map<int, StoredPoint>, batch: seq<Point>): (r: map<int, StoredPoint>)
    ensures r.Keys == points.Keys + Ids(batch)
    ensures forall i :: 0 <= i < |batch| && LastWithId(batch, i) ==> r[batch[i].id] == Stored(batch[i])
    ensures forall id :: id in points && id !in Ids(batch) ==> r[id] == points[id]
  {
    if batch == [] then points
    else
      var init := batch[..|batch| - 1];
      var last := batch[|batch| - 1];
      assert batch == init + [last];
      IdsSnoc(init, last);
      LastWithIdSnoc(init, last);
      Upserted(points, init)[last.id := Stored(last)]
  }

  /** A point that is the last with its id in init + [p] is the last with it in init. */
  lemma LastWithIdSnoc(init: seq<Point>, p: Point)
    ensures forall i :: 0 <= i < |init| && LastWithId(init + [p], i) ==>
      LastWithId(init, i) && (init + [p])[i] == init[i]
  {
  }

  lemma DistinctSnoc(init: seq<Point>, p: Point)
    ensures DistinctIds(init + [p]) <==> DistinctIds(init) && p.id !in Ids(init)
  {
    var b := init + [p];
    assert forall i :: 0 <= i < |init| ==> b[i] == init[i];
    if p.id in Ids(init) {
      var k :| 0 <= k < |init| && init[k].id == p.id;
      assert b[k].id == b[|init|].id;
    }
  }

  /** Upserting never adds more ids than the batch has points. */
  lemma {:induction false} IdsBound(batch: seq<Point>)
    ensures |Ids(batch)| <= |batch|
    ensures |Ids(batch)| == |batch| <==> DistinctIds(batch)
  {
    if batch == [] {
    } else {
      var init := batch[..|batch| - 1];
      var last := batch[|batch| - 1];
      assert batch == init + [last];
      IdsSnoc(init, last);
      IdsBound(init);
      DistinctSnoc(init, last);
    }
  }

  /** The collection grows by the whole batch exactly when the batch's ids are
      distinct and none of them is stored yet. */
  lemma UpsertedSize(points: map<int, StoredPoint>, batch: seq<Point>)
    ensures |Upserted(points, batch)| <= |points| + |batch|
    ensures |Upserted(points, batch)| == |points| + |batch| <==> DistinctIds(batch) && points.Keys !! Ids(batch)
  {
    var r := Upserted(points, batch);
    IdsBound(batch);
    assert |r| == |r.Keys|;
    assert |points| == |points.Keys|;
    assert |points.Keys + Ids(batch)| + |points.Keys * Ids(batch)| == |points.Keys| + |Ids(batch)|;
    assert points.Keys !! Ids(batch) <==> |points.Keys * Ids(batch)| == 0 by {
      if |points.Keys * Ids(batch)| == 0 {
        assert points.Keys * Ids(batch) == {};
      }
    }
  }

  /** Upserting the same batch twice leaves what upserting it once left, so
      re-sending a batch after a restart changes nothing. */
  lemma UpsertedIdempotent(points: map<int, StoredPoint>, batch: seq<Point>)
    ensures Upserted(Upserted(points, batch), batch) == Upserted(points, batch)
  {
    var once := Upserted(points, batch);
    var twice := Upserted(once, batch);
    forall id | id in Ids(batch)
      ensures twice[id] == once[id]
    {
      var i := LastIndex(batch, id);
      assert twice[batch[i].id] == once[batch[i].id];
    }
  }

  /** The position of the last point of the batch with the given id. */
  lemma LastIndex(batch: seq<Point>, id: int) returns (i: int)
    requires id in Ids(batch)
    ensures 0 <= i < |batch| && batch[i].id == id && LastWithId(batch, i)
  {
    var j :| 0 <= j < |batch| && batch[j].id == id;
    i := j;
    while i + 1 < |batch| && exists k :: i < k < |batch| && batch[k].id == id
      invariant j <= i < |batch| && batch[i].id == id
      decreases |batch| - i
    {
      var k :| i < k < |batch| && batch[k].id == id;
      i := k;
    }
  }

  // -------------------------------------------------------------------
  // The store as values: what each call of the client does to it
  // -------------------------------------------------------------------

  /** client.count(name).count; asking about a missing collection raises. */
  function CountIn(s: Store, name: string): (r: Result<nat>)
    ensures r.Ok? <==> name in s
    ensures r.Err? ==> r.error == CollectionNotFound
    ensures r.Ok? ==> r.value == |s[name].points|
  {
    if name in s then Ok(|s[name].points|) else Err(CollectionNotFound)
  }

  /** client.create_collection: a new empty collection; an existing name is refused. */
  function Created(s: Store, name: string, config: VectorParams): (r: Result<Store>)
    ensures r.Err? <==> name in s
    ensures r.Err? ==> r.error == CollectionExists
    ensures r.Ok? ==> r.value.Keys == s.Keys + {name} && r.value[name] == Collection(config, map[])
    ensures r.Ok? ==> forall n :: n in s ==> r.value[n] == s[n]
  {
    if name in s then Err(CollectionExists) else Ok(s[name := Collection(config, map[])])
  }

  /** client.delete_collection: the collection and all its points are gone. */
  function Deleted(s: Store, name: string): (r: Store)
    ensures name !in r && r.Keys == s.Keys - {name}
    ensures forall n :: n in r ==> r[n] == s[n]
  {
    s - {name}
  }

  /** Whether a vector matches the collection's size. */
  predicate Fits(config: VectorParams, batch: seq<Point>) {
    forall i :: 0 <= i < |batch| ==> |batch[i].vector| == config.size
  }

  /** client.upsert: the batch is written into an existing collection when all
      its vectors have the collection's size; nothing is written otherwise. */
  function UpsertInto(s: Store, name: string, batch: seq<Point>): (r: Result<Store>)
    ensures name !in s ==> r == Err(CollectionNotFound)
    ensures name in s && !Fits(s[name].config, batch) ==> r == Err(WrongDimension)
    ensures r.Ok? <==> name in s && Fits(s[name].config, batch)
    ensures r.Ok? ==> r.value.Keys == s.Keys
    ensures r.Ok? ==> r.value[name] == Collection(s[name].config, Upserted(s[name].points, batch))
    ensures r.Ok? ==> forall n :: n in s && n != name ==> r.value[n] == s[n]
  {
    if name !in s then Err(CollectionNotFound)
    else if !Fits(s[name].config, batch) then Err(WrongDimension)
    else Ok(s[name := s[name].(points := Upserted(s[name].points, batch))])
  }

  /** Deleting a collection and creating it again leaves it empty. */
  lemma RecreateEmpties(s: Store, name: string, config: VectorParams)
    ensures Created(Deleted(s, name), name, config).Ok?
    ensures CountIn(Created(Deleted(s, name), name, config).value, name) == Ok(0)
  {
  }

  /** The server the client talks to. */
  class Server {
    var collections: Store

    constructor (s: Store)
      ensures collections == s
    {
      collections := s;
    }

    method CollectionExists(name: string) returns (b: bool)
      ensures b <==> name in collections
    {
      b := name in collections;
    }

    method Count(name: string) returns (r: Result<nat>)
      ensures r == CountIn(collections, name)
    {
      if name !in collections {
        return Err(CollectionNotFound);
      }
      r := Ok(|collections[name].points|);
    }

    method CreateCollection(name: string, config: VectorParams) returns (o: Outcome)
      modifies this
      ensures Created(old(collections), name, config).Ok? ==>
        o == Pass && collections == Created(old(collections), name, config).value
      ensures Created(old(collections), name, config).Err? ==>
        o == Fail(Error.CollectionExists) && collections == old(collections)
    {
      if name in collections {
        return Fail(Error.CollectionExists);
      }
      collections := collections[name := Collection(config, map[])];
      o := Pass;
    }

    method DeleteCollection(name: string)
      modifies this
      ensures collections == Deleted(old(collections), name)
    {
      collections := collections - {name};
    }

    method Upsert(name: string, batch: seq<Point>) returns (o: Outcome)
      modifies this
      ensures UpsertInto(old(collections), name, batch).Ok? ==>
        o == Pass && collections == UpsertInto(old(collections), name, batch).value
      ensures UpsertInto(old(collections), name, batch).Err? ==>
        o == Fail(UpsertInto(old(collections), name, batch).error) && collections == old(collections)
    {
      var r := UpsertInto(collections, name, batch);
      if r.Err? {
        return Fail(r.error);
      }
      collections := r.value;
      o := Pass;
    }
  }
}

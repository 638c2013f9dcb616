/**
 * The vector collection as the RAG client uses it: points keyed by id,
 * `upsert` writes a batch over whatever is stored under the same ids, and a
 * filter selector deletes every point whose payload the filter selects.
 */
module Store {
  import opened Wrappers
  import opened Records
  import opened Filters

  /** The points that survive deleting with selector `f`. */
  function Kept(pts: map<string, Point>, f: Option<Filter>): map<string, Point> {
    map id | id in pts && !Selects(f, pts[id].payload) :: pts[id]
  }

  /** Deleting after an upsert is upserting what survives the delete: of the
      batch, the points the filter does not select; of the stored points,
      those it does not select and the batch does not overwrite. */
  lemma DeleteOverUpsert(pts: map<string, Point>, batch: map<string, Point>, f: Option<Filter>)
    ensures Kept(pts + batch, f) == (Kept(pts, f) - batch.Keys) + Kept(batch, f)
  {
    var l, r := Kept(pts + batch, f), (Kept(pts, f) - batch.Keys) + Kept(batch, f);
    assert l.Keys == r.Keys;
    forall id | id in l ensures l[id] == r[id] {
      if id in batch { assert (pts + batch)[id] == batch[id]; }
    }
  }

  /** Two filtered deletes give the same collection in either order. */
  lemma DeleteCommutes(pts: map<string, Point>, f: Option<Filter>, g: Option<Filter>)
    ensures Kept(Kept(pts, f), g) == Kept(Kept(pts, g), f)
  {
    assert Kept(Kept(pts, f), g).Keys == Kept(Kept(pts, g), f).Keys;
  }

  /** Deleting twice with the same filter is deleting once. */
  lemma {:induction false} DeleteIdempotent(pts: map<string, Point>, f: Option<Filter>)
    ensures Kept(Kept(pts, f), f) == Kept(pts, f)
  {
    var once := Kept(pts, f);
    assert Kept(once, f).Keys == once.Keys;
  }

  /** A selector without a filter empties the collection. */
  lemma DeleteUnfilteredClears(pts: map<string, Point>)
    ensures Kept(pts, None) == map[]
  {
    assert Kept(pts, None).Keys == {};
  }

  /** After an upsert every id of the batch holds the batch's point, and every
      other id keeps what it held; nothing of an overwritten point survives. */
  lemma {:induction false} UpsertOverwrites(pts: map<string, Point>, batch: map<string, Point>)
    ensures (pts + batch).Keys == pts.Keys + batch.Keys
    ensures forall id :: id in batch ==> (pts + batch)[id] == batch[id]
    ensures forall id :: id in pts && id !in batch ==> (pts + batch)[id] == pts[id]
  {
  }

  class VectorStore {
    var points: map<string, Point>

    constructor()
      ensures points == map[]
    {
      points := map[];
    }

    /** `client.upsert(points=...)`. */
    method Upsert(batch: map<string, Point>)
      modifies this
      ensures points == old(points) + batch
    {
      points := points + batch;
    }

    /** `client.delete(points_selector=FilterSelector(filter=f))`. */
    method Delete(f: Option<Filter>)
      modifies this
      ensures points == Kept(old(points), f)
      ensures forall id :: id in points ==> !Selects(f, points[id].payload)
    {
      points := Kept(points, f);
    }
  }
}

/**
 * Documents as the store hands them out: field-name to value mappings.
 * A stored document always carries its identifier under "_id"; the
 * storage helper may add an integer "created_at" stamp.
 */
module Documents {
  import opened Wrappers
  import opened ObjectIds

  datatype Value =
    | VNull                              // Python None
    | VStr(s: string)
    | VInt(i: int)
    | VReal(r: real)
    | VDate(t: int)                      // an opaque datetime
    | VOid(oid: ObjectId)
    | VDoc(fields: map<string, Value>)   // a nested document

  type Doc = map<string, Value>

  /** A lookup with a default: the value under `k`, or null when the key is absent. */
  function Get(d: Doc, k: string): Value {
    if k in d then d[k] else VNull
  }

  /** What every document in a collection looks like. */
  predicate WellFormed(d: Doc) {
    && "_id" in d && d["_id"].VOid?
    && ("created_at" in d ==> d["created_at"].VInt?)
  }

  /** The identifier of a stored document. */
  function IdOf(d: Doc): ObjectId
    requires WellFormed(d)
  {
    d["_id"].oid
  }

  /**
   * What the storage helper writes for a payload: the dumped fields, the
   * identifier it generated and, when it sets one, the creation stamp.
   */
  function Stamped(fields: Doc, id: ObjectId, createdAt: Option<int>): (d: Doc)
    requires "created_at" !in fields
    ensures WellFormed(d) && IdOf(d) == id
    ensures "created_at" in d <==> createdAt.Some?
    ensures createdAt.Some? ==> d["created_at"] == VInt(createdAt.value)
    ensures forall k :: k != "_id" && k != "created_at" ==> (k in d <==> k in fields)
    ensures forall k :: k in fields && k != "_id" ==> d[k] == fields[k]
  {
    match createdAt
    case None => fields["_id" := VOid(id)]
    case Some(t) => fields["_id" := VOid(id)]["created_at" := VInt(t)]
  }
}

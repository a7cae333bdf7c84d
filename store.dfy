/**
 * The `contracts` collection of the document store: records keyed by their
 * `contract_number`, kept in insertion order, read by key or by filter and
 * changed by `insert_one` and `update_one` with `$set`.
 */
module ContractStore {
  import opened Common
  import opened Values
  import Text

  /** A field a `$set` or a filter names: a top-level field, or `details.<name>`. */
  datatype FieldPath = Top(name: string) | InDetails(name: string)

  function Lookup(doc: Document, path: FieldPath): Option<Value> {
    match path
    case Top(n) => if n in doc then Some(doc[n]) else None
    case InDetails(n) =>
      if "details" in doc && doc["details"].Dict? && n in doc["details"].entries
      then Some(doc["details"].entries[n]) else None
  }

  /** A `$set` of `details.<name>` can be applied: `details` is absent or a document. */
  predicate DetailsWritable(doc: Document) {
    "details" !in doc || doc["details"].Dict?
  }

  /** The entries of `details` when it is a document, else none. */
  function DetailsEntries(doc: Document): map<string, Value> {
    if "details" in doc && doc["details"].Dict? then doc["details"].entries else map[]
  }

  /**
   * One `update_one(…, {"$set": …})` on a record: `top` sets top-level fields,
   * `inDetails` sets fields inside `details` (creating it when absent). The
   * update is all or nothing: None when the store refuses it.
   */
  function ApplySet(doc: Document, top: Document, inDetails: map<string, Value>): (r: Option<Document>)
    requires "details" !in top
    ensures r.Some? <==> inDetails == map[] || DetailsWritable(doc)
    ensures r.Some? && inDetails == map[] ==> r.value == doc + top
    ensures r.Some? && inDetails != map[] ==> r.value == doc + top + map["details" := Dict(DetailsEntries(doc) + inDetails)]
  {
    if inDetails == map[] then Some(doc + top)
    else if DetailsWritable(doc) then Some(doc + top + map["details" := Dict(DetailsEntries(doc) + inDetails)])
    else None
  }

  /** One condition of a `find` filter. */
  datatype Condition =
    | Equals(path: FieldPath, value: Value)                 // {"field": value}
    | RegexIgnoreCase(path: FieldPath, pattern: string)     // {"field": {"$regex": pattern, "$options": "i"}}
    | AnyOf(alternatives: seq<Condition>)                   // {"$or": [...]}

  /** A filter document: all of its conditions must hold. */
  type Query = seq<Condition>

  predicate Holds(c: Condition, doc: Document) {
    match c
    case Equals(p, v) => Lookup(doc, p) == Some(v)
    case RegexIgnoreCase(p, pattern) =>
      Lookup(doc, p).Some? && Lookup(doc, p).value.Str?
      && Text.ContainsIgnoringCase(Lookup(doc, p).value.s, pattern)
    case AnyOf(alts) => exists i :: 0 <= i < |alts| && Holds(alts[i], doc)
  }

  predicate Matches(q: Query, doc: Document) {
    forall i :: 0 <= i < |q| ==> Holds(q[i], doc)
  }

  class Collection {
    /** The records, by `contract_number`. */
    var docs: map<Value, Document>
    /** The keys in insertion order (the store's natural order). */
    var order: seq<Value>

    ghost predicate Valid()
      reads this
    {
      && (forall k :: k in docs ==> "contract_number" in docs[k] && docs[k]["contract_number"] == k)
      && (forall i, j :: 0 <= i < j < |order| ==> order[i] != order[j])
      && (forall k :: k in docs <==> k in order)
    }

    constructor ()
      ensures Valid() && docs == map[] && order == []
    {
      docs := map[];
      order := [];
    }

    /** `find_one({"contract_number": key})`. */
    function FindOne(key: Value): (r: Option<Document>)
      reads this
      ensures r.Some? <==> key in docs
      ensures r.Some? ==> r.value == docs[key]
    {
      if key in docs then Some(docs[key]) else None
    }

    /** `insert_one(doc)` of a record whose number is not yet stored. */
    method InsertOne(doc: Document)
      requires Valid()
      requires "contract_number" in doc && doc["contract_number"] !in docs
      modifies this
      ensures Valid()
      ensures docs == old(docs)[doc["contract_number"] := doc]
      ensures order == old(order) + [doc["contract_number"]]
    {
      docs := docs[doc["contract_number"] := doc];
      order := order + [doc["contract_number"]];
    }

    /**
     * `update_one({"contract_number": key}, {"$set": …})`. Matching nothing is
     * not an error; a refused `$set` (ok false) is the driver's WriteError.
     */
    method UpdateOne(key: Value, top: Document, inDetails: map<string, Value>) returns (ok: bool)
      requires Valid()
      requires "contract_number" !in top && "details" !in top
      modifies this
      ensures Valid() && order == old(order)
      ensures key !in old(docs) ==> ok && docs == old(docs)
      ensures key in old(docs) && ApplySet(old(docs)[key], top, inDetails).None? ==> !ok && docs == old(docs)
      ensures key in old(docs) && ApplySet(old(docs)[key], top, inDetails).Some? ==>
                ok && docs == old(docs)[key := ApplySet(old(docs)[key], top, inDetails).value]
    {
      ok := true;
      if key in docs {
        var updated := ApplySet(docs[key], top, inDetails);
        if updated.None? {
          ok := false;
        } else {
          docs := docs[key := updated.value];
        }
      }
    }

    /** The records among `keys` that match `q`, in the order of `keys`. */
    function Select(q: Query, keys: seq<Value>): (r: seq<Document>)
      reads this
      requires forall k :: k in keys ==> k in docs
      ensures forall d :: d in r ==> Matches(q, d) && d in docs.Values
      ensures forall k :: k in keys && Matches(q, docs[k]) ==> docs[k] in r
      ensures |r| <= |keys|
    {
      if keys == [] then []
      else if Matches(q, docs[keys[0]]) then [docs[keys[0]]] + Select(q, keys[1..])
      else Select(q, keys[1..])
    }

    /** Over distinct keys that are the records' own numbers, no record is selected twice. */
    lemma {:induction false} SelectDistinct(q: Query, keys: seq<Value>)
      requires forall k :: k in keys ==> k in docs && "contract_number" in docs[k] && docs[k]["contract_number"] == k
      requires forall i, j :: 0 <= i < j < |keys| ==> keys[i] != keys[j]
      ensures forall d :: d in Select(q, keys) ==> "contract_number" in d && d["contract_number"] in keys
      ensures forall i, j :: 0 <= i < j < |Select(q, keys)| ==> Select(q, keys)[i] != Select(q, keys)[j]
      decreases |keys|
    {
      if keys != [] {
        var rest := keys[1..];
        assert forall i, j :: 0 <= i < j < |rest| ==> rest[i] == keys[i + 1] && rest[j] == keys[j + 1];
        SelectDistinct(q, rest);
        assert keys[0] !in rest by {
          assert forall i :: 0 <= i < |rest| ==> rest[i] == keys[i + 1];
        }
      }
    }

    /** `find(q)`: every record that matches `q`, in the store's natural order. */
    function Find(q: Query): (r: seq<Document>)
      reads this
      requires Valid()
      ensures forall d :: d in r ==> Matches(q, d) && d in docs.Values
      ensures forall k :: k in docs && Matches(q, docs[k]) ==> docs[k] in r
    {
      Select(q, order)
    }
  }
}

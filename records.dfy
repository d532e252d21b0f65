/**
 * The JSON values a graph document is made of, and the two record shapes the
 * store relies on: entities (an open field map with a mandatory "id") and
 * relationships (an open field map with mandatory "from", "to" and "type").
 */
module Records {
  /** A JSON value as loaded from the graph document (floating point left out). */
  datatype Value =
    | Null
    | Bool(b: bool)
    | Num(n: int)
    | Str(s: string)
    | Arr(items: seq<Value>)
    | Obj(fields: map<string, Value>)

  /** An entity: an open mapping of named fields whose only mandated field is "id". */
  type Entity = e: map<string, Value> | "id" in e witness map["id" := Null]

  /** A relationship record: "from", "to" and "type" are mandated, every other field is open. */
  type Rel = r: map<string, Value> | "from" in r && "to" in r && "type" in r
    witness map["from" := Null, "to" := Null, "type" := Null]

  /** The identity of a relationship for deduplication: its (from, to, type) triple. */
  datatype Key = Key(from: Value, to: Value, relType: Value)

  function KeyOf(r: Rel): Key {
    Key(r["from"], r["to"], r["type"])
  }

  /** The set of identifiers of the entities of a collection. */
  function Ids(coll: seq<Entity>): set<Value> {
    if coll == [] then {} else Ids(coll[..|coll| - 1]) + {coll[|coll| - 1]["id"]}
  }

  /** Appending an entity adds its id to the collection's ids. */
  lemma IdsAppend(coll: seq<Entity>, e: Entity)
    ensures Ids(coll + [e]) == Ids(coll) + {e["id"]}
  {
    assert (coll + [e])[..|coll|] == coll;
  }

  /** An id is known exactly when some entity of the collection carries it. */
  lemma {:induction false} IdsMember(coll: seq<Entity>, id: Value)
    ensures id in Ids(coll) <==> exists i :: 0 <= i < |coll| && coll[i]["id"] == id
  {
    if coll != [] {
      var init := coll[..|coll| - 1];
      IdsMember(init, id);
      if id in Ids(init) {
        var i :| 0 <= i < |init| && init[i]["id"] == id;
        assert coll[i]["id"] == id;
      }
      if exists i :: 0 <= i < |coll| && coll[i]["id"] == id {
        var i :| 0 <= i < |coll| && coll[i]["id"] == id;
        if i < |init| {
          assert init[i]["id"] == id;
        }
      }
    }
  }

  /** The set of triples of a relationship list. */
  function Keys(rels: seq<Rel>): set<Key> {
    if rels == [] then {} else Keys(rels[..|rels| - 1]) + {KeyOf(rels[|rels| - 1])}
  }

  /** A triple is known exactly when some relationship of the list carries it. */
  lemma {:induction false} KeysMember(rels: seq<Rel>, k: Key)
    ensures k in Keys(rels) <==> exists i :: 0 <= i < |rels| && KeyOf(rels[i]) == k
  {
    if rels != [] {
      var init := rels[..|rels| - 1];
      KeysMember(init, k);
      if k in Keys(init) {
        var i :| 0 <= i < |init| && KeyOf(init[i]) == k;
        assert KeyOf(rels[i]) == k;
      }
      if exists i :: 0 <= i < |rels| && KeyOf(rels[i]) == k {
        var i :| 0 <= i < |rels| && KeyOf(rels[i]) == k;
        if i < |init| {
          assert KeyOf(init[i]) == k;
        }
      }
    }
  }

  /** No two entities of a collection share an identifier. */
  predicate UniqueIds(coll: seq<Entity>) {
    forall i, j :: 0 <= i < j < |coll| ==> coll[i]["id"] != coll[j]["id"]
  }

  /** No two relationships of a list share a (from, to, type) triple. */
  predicate UniqueKeys(rels: seq<Rel>) {
    forall i, j :: 0 <= i < j < |rels| ==> KeyOf(rels[i]) != KeyOf(rels[j])
  }

  /** The keys of the document that never name an entity collection. */
  const MetadataKey := "metadata"
  const RelationshipsKey := "relationships"

  /**
   * A graph document as persisted: a metadata block, one entity list per
   * collection name, and the flat relationship list.
   */
  datatype Document = Document(
    metadata: map<string, Value>,
    collections: map<string, seq<Entity>>,
    relationships: seq<Rel>)
}

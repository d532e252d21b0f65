/**
 * The graph store (`GraphManager` in core/graph_manager.py): a document held
 * in memory and the operations that insert, update, look up, merge, count
 * and validate its entities and relationships.
 */
module GraphManager {
  import opened Wrappers
  import opened Records
  import opened GraphConfig
  import opened Provenance
  import opened MergeSpec
  import opened Validation

  /** The errors the store raises: ValueError from add_entity, KeyError from update_entity and get_entity. */
  datatype StoreError = UnknownCollection(name: Value) | MissingCollection(name: Value)

  /** The statistics merge returns: per collection, how many entities were added and merged. */
  datatype MergeStats = MergeStats(added: map<string, nat>, merged: map<string, nat>)

  /** A schema a store can be built on: valid, and no collection named like a reserved document key. */
  predicate StoreSchema(cfg: Config) {
    && MissingField(cfg.settings) == None
    && Schema(cfg)
    && forall i :: 0 <= i < |CollectionNames(cfg)| ==>
         CollectionNames(cfg)[i] != MetadataKey && CollectionNames(cfg)[i] != RelationshipsKey
  }

  lemma ReservedKeysNotConfigured(cfg: Config)
    requires StoreSchema(cfg)
    ensures MetadataKey !in CollectionNames(cfg) && RelationshipsKey !in CollectionNames(cfg)
  {
  }

  /** The position of the first entity carrying `id`, the one update_entity and get_entity find. */
  function FirstIndexOfId(coll: seq<Entity>, id: Value): (r: Option<nat>)
    ensures r.None? <==> id !in Ids(coll)
    ensures r.Some? ==> r.value < |coll| && coll[r.value]["id"] == id
                        && forall j :: 0 <= j < r.value ==> coll[j]["id"] != id
  {
    IdsMember(coll, id);
    if coll == [] then None
    else if coll[0]["id"] == id then Some(0)
    else
      assert coll == [coll[0]] + coll[1..];
      IdsMember(coll[1..], id);
      match FirstIndexOfId(coll[1..], id)
      case None => None
      case Some(k) => Some(k + 1)
  }

  /** A shallow update: every key of `updates` overwrites, every other field keeps its value. */
  function Updated(e: Entity, updates: map<string, Value>): (r: Entity)
    ensures forall k :: k in updates ==> k in r && r[k] == updates[k]
    ensures forall k :: k !in updates ==> (k in r <==> k in e) && (k in e ==> r[k] == e[k])
  {
    e + updates
  }

  /** The collection with its entity at position `i` shallow-updated. */
  function UpdatedAt(coll: seq<Entity>, i: nat, updates: map<string, Value>): (r: seq<Entity>)
    requires i < |coll|
    ensures |r| == |coll| && r[i] == Updated(coll[i], updates)
    ensures forall j :: 0 <= j < |coll| && j != i ==> r[j] == coll[j]
  {
    var e: Entity := Updated(coll[i], updates);
    coll[i := e]
  }

  /** The record add_relationship appends. */
  function NewRelationship(fromId: Value, toId: Value, relType: Value, description: Value, strength: Value): (r: Rel)
    ensures KeyOf(r) == Key(fromId, toId, relType)
    ensures r.Keys == {"from", "to", "type", "description", "strength"}
    ensures r["description"] == description && r["strength"] == strength
  {
    map["from" := fromId, "to" := toId, "type" := relType, "description" := description, "strength" := strength]
  }

  /** Appending an entity whose id is unseen keeps the ids of a collection distinct. */
  lemma AppendUnseenKeepsIdsUnique(coll: seq<Entity>, e: Entity)
    requires UniqueIds(coll) && e["id"] !in Ids(coll)
    ensures UniqueIds(coll + [e])
  {
    IdsMember(coll, e["id"]);
  }

  /** add_relationship is a merge of the single record it builds. */
  lemma AddRelationshipIsSingletonMerge(rels: seq<Rel>, rec: Rel)
    ensures MergeRelationships(rels, [rec]) == if KeyOf(rec) in Keys(rels) then rels else rels + [rec]
  {
    assert [rec][..0] == [];
  }

  /**
   * The guard of add_entity as written (`entity_name not in self.graph_data`):
   * the document's keys are the collections plus "metadata" and "relationships".
   */
  function AddEntityGuardAsWritten(collections: map<string, seq<Entity>>, name: Value): (passes: bool)
    ensures passes <==> name.Str? && (name.s in collections || name.s == MetadataKey || name.s == RelationshipsKey)
  {
    name.Str? && (name.s in collections || name.s in {MetadataKey, RelationshipsKey})
  }

  /** The outcome of add_entity as written: it raised, or it returned with the document it left. */
  datatype AsWrittenOutcome =
    | Raised
    | Returned(collections: map<string, seq<Entity>>, relationships: seq<map<string, Value>>, added: bool)

  /** Exactly the ids the raw records carry. */
  function RecordIds(records: seq<map<string, Value>>): (r: set<Value>)
    ensures forall i :: 0 <= i < |records| && "id" in records[i] ==> records[i]["id"] in r
    ensures forall v :: v in r ==> exists i :: 0 <= i < |records| && "id" in records[i] && records[i]["id"] == v
  {
    set i | 0 <= i < |records| && "id" in records[i] :: records[i]["id"]
  }

  /**
   * add_entity as written, on a document whose relationship records are taken
   * as raw mappings: the guard accepts every document key. For "metadata" the
   * id scan walks the mapping's string keys and raises (and an empty mapping
   * has no `append`); for "relationships" the id scan raises on the first
   * record without an `id`, and otherwise the entity is appended to the
   * relationship list.
   */
  function AddEntityAsWritten(collections: map<string, seq<Entity>>, relationships: seq<map<string, Value>>,
                              name: Value, entity: Entity): (r: AsWrittenOutcome)
    requires MetadataKey !in collections && RelationshipsKey !in collections
    ensures r == Raised <==>
              || !AddEntityGuardAsWritten(collections, name)
              || name == Str(MetadataKey)
              || (name == Str(RelationshipsKey) && exists i :: 0 <= i < |relationships| && "id" !in relationships[i])
    ensures r.Returned? && name.s in collections ==>
              && r.relationships == relationships
              && (r.added <==> entity["id"] !in Ids(collections[name.s]))
              && r.collections == (if r.added then collections[name.s := collections[name.s] + [entity]] else collections)
    ensures r.Returned? && name == Str(RelationshipsKey) ==>
              && r.collections == collections
              && (r.added <==> entity["id"] !in RecordIds(relationships))
              && r.relationships == (if r.added then relationships + [entity] else relationships)
  {
    if !AddEntityGuardAsWritten(collections, name) then Raised
    else if name.s in collections then
      if entity["id"] in Ids(collections[name.s]) then Returned(collections, relationships, false)
      else Returned(collections[name.s := collections[name.s] + [entity]], relationships, true)
    else if name.s == MetadataKey then Raised
    else if exists i :: 0 <= i < |relationships| && "id" !in relationships[i] then Raised
    else if entity["id"] in RecordIds(relationships) then Returned(collections, relationships, false)
    else Returned(collections, relationships + [entity], true)
  }

  /**
   * As written, an undeclared category called "relationships" resolves to the
   * relationship list's key and passes the guard; with an empty relationship
   * list the entity is then appended to it, leaving a relationship record
   * without "from". The store's own guard rejects the name.
   */
  lemma AddEntityGuardLetsRelationshipsThrough(cfg: Config, collections: map<string, seq<Entity>>, entity: Entity)
    requires TypesShaped(cfg)
    requires RelationshipsKey !in cfg.settings["entity_types"].fields
    requires MetadataKey !in collections && RelationshipsKey !in collections
    requires "from" !in entity
    ensures EntityName(cfg, RelationshipsKey) == Str(RelationshipsKey)
    ensures var r := AddEntityAsWritten(collections, [], EntityName(cfg, RelationshipsKey), entity);
            && r.Returned? && r.added && r.collections == collections
            && |r.relationships| == 1 && "from" !in r.relationships[0]
  {
    assert AddEntityGuardAsWritten(collections, Str(RelationshipsKey));
    assert RecordIds([]) == {};
  }

  /**
   * The lookup `existing` that merge builds once per collection: each id of
   * the collection mapped to the position of the last entity carrying it.
   */
  method BuildLookup(coll: seq<Entity>) returns (existing: map<Value, nat>)
    ensures forall id :: id in existing <==> id in Ids(coll)
    ensures forall id :: id in existing ==> LastIndexOfId(coll, id) == Some(existing[id])
  {
    existing := map[];
    var p := 0;
    while p < |coll|
      invariant 0 <= p <= |coll|
      invariant forall id :: id in existing <==> id in Ids(coll[..p])
      invariant forall id :: id in existing ==> LastIndexOfId(coll[..p], id) == Some(existing[id])
    {
      assert coll[..p + 1] == coll[..p] + [coll[p]];
      assert coll[..p + 1][..p] == coll[..p];
      IdsAppend(coll[..p], coll[p]);
      existing := existing[coll[p]["id"] := p];
      p := p + 1;
    }
    assert coll[..p] == coll;
  }

  /**
   * The inner loop of merge for one collection: each incoming entity whose id
   * the pre-merge lookup holds is merged into the entity it finds, any other
   * is appended; the lookup is built once and never extended.
   */
  method MergeEntities(orig: seq<Entity>, inc: seq<Entity>) returns (coll: seq<Entity>, added: nat, merged: nat)
    requires AllTyped(orig) && AllTyped(inc)
    ensures coll == MergeCollection(orig, inc)
    ensures merged == CountKnown(orig, inc) && added + merged == |inc|
    ensures |coll| == |orig| + added
  {
    var existing := BuildLookup(orig);
    coll := orig;
    added, merged := 0, 0;
    var j := 0;
    while j < |inc|
      invariant 0 <= j <= |inc|
      invariant coll == MergeCollection(orig, inc[..j])
      invariant merged == CountKnown(orig, inc[..j]) && added + merged == j
    {
      var e := inc[j];
      if e["id"] in existing {
        var p := existing[e["id"]];
        MergeCollectionStepKnown(orig, inc, j, p);
        var m := MergeEntity(coll[p], e);
        assert coll[p := m] == MergeCollection(orig, inc[..j + 1]);
        coll := coll[p := m];
        merged := merged + 1;
      } else {
        MergeCollectionStepNew(orig, inc, j);
        assert coll + [e] == MergeCollection(orig, inc[..j + 1]);
        coll := coll + [e];
        added := added + 1;
      }
      j := j + 1;
    }
    assert inc[..j] == inc;
    MergeCollectionSize(orig, inc);
  }

  /**
   * The relationship loop of merge: the set of known triples starts as the
   * list's own and grows with each appended relationship.
   */
  method AppendNewRelationships(rels: seq<Rel>, inc: seq<Rel>) returns (merged: seq<Rel>, added: nat)
    ensures merged == MergeRelationships(rels, inc)
    ensures added == |merged| - |rels|
  {
    var existingRels := Keys(rels);
    merged := rels;
    added := 0;
    var j := 0;
    while j < |inc|
      invariant 0 <= j <= |inc|
      invariant merged == MergeRelationships(rels, inc[..j])
      invariant existingRels == Keys(rels) + Keys(inc[..j])
      invariant added == |merged| - |rels|
    {
      var rel := inc[j];
      MergeRelationshipsStep(rels, inc, j);
      if KeyOf(rel) !in existingRels {
        assert merged + [rel] == MergeRelationships(rels, inc[..j + 1]);
        merged := merged + [rel];
        existingRels := existingRels + {KeyOf(rel)};
        added := added + 1;
      } else {
        assert merged == MergeRelationships(rels, inc[..j + 1]);
      }
      assert existingRels == Keys(rels) + Keys(inc[..j + 1]);
      j := j + 1;
    }
    assert inc[..j] == inc;
  }

  /**
   * The collection loop of merge: visits the configured names in order and
   * merges each collection the incoming data carries, recording per name how
   * many incoming entities were added and how many merged.
   */
  method MergeConfiguredCollections(cols: map<string, seq<Entity>>, names: seq<string>, incoming: map<string, seq<Entity>>)
    returns (result: map<string, seq<Entity>>, stats: MergeStats)
    requires CollectionsTyped(cols) && CollectionsTyped(incoming)
    requires forall n :: n in names && n in incoming ==> n in cols
    ensures result == MergeCollections(cols, names, incoming)
    ensures stats.merged == MergedCounts(cols, names, incoming)
    ensures stats.added == AddedCounts(cols, names, incoming)
  {
    result := cols;
    stats := MergeStats(map[], map[]);
    var i := 0;
    while i < |names|
      invariant 0 <= i <= |names|
      invariant result == MergeCollections(cols, names[..i], incoming)
      invariant stats.merged == MergedCounts(cols, names[..i], incoming)
      invariant stats.added == AddedCounts(cols, names[..i], incoming)
    {
      var name := names[i];
      if name in incoming {
        var coll, added, merged := MergeEntities(result[name], incoming[name]);
        VisitedStep(cols, names, incoming, i, coll, added, merged);
        result := result[name := coll];
        stats := MergeStats(stats.added[name := added], stats.merged[name := merged]);
      } else {
        SkippedStep(cols, names, incoming, i);
      }
      i := i + 1;
    }
    assert names[..i] == names;
  }


  /**
   * merge on values: the configured collections first, then the relationship
   * list, with the counts merge reports.
   */
  method MergeDocumentValues(doc: Document, names: seq<string>, incoming: Document)
    returns (r: Document, stats: MergeStats)
    requires CollectionsTyped(doc.collections) && CollectionsTyped(incoming.collections)
    requires forall n :: n in names && n in incoming.collections ==> n in doc.collections
    requires RelationshipsKey !in names
    ensures r == MergeDocument(doc, names, incoming)
    ensures stats.merged == MergedCounts(doc.collections, names, incoming.collections)
    ensures stats.added == AddedCounts(doc.collections, names, incoming.collections)[RelationshipsKey := |r.relationships| - |doc.relationships|]
  {
    var cols, perCollection := MergeConfiguredCollections(doc.collections, names, incoming.collections);
    var rels, added := AppendNewRelationships(doc.relationships, incoming.relationships);
    r := Document(doc.metadata, cols, rels);
    stats := MergeStats(perCollection.added[RelationshipsKey := added], perCollection.merged);
  }

  /** The id-gathering loop of validate, for one collection. */
  method AddIds(acc: set<Value>, coll: seq<Entity>) returns (r: set<Value>)
    ensures r == acc + Ids(coll)
  {
    r := acc;
    var j := 0;
    while j < |coll|
      invariant 0 <= j <= |coll|
      invariant r == acc + Ids(coll[..j])
    {
      assert coll[..j + 1] == coll[..j] + [coll[j]];
      IdsAppend(coll[..j], coll[j]);
      r := r + {coll[j]["id"]};
      j := j + 1;
    }
    assert coll[..j] == coll;
  }

  /** The id-gathering loops of validate: every configured collection, a missing one counting as empty. */
  method CollectIds(cols: map<string, seq<Entity>>, names: seq<string>) returns (ids: set<Value>)
    ensures ids == AllIds(cols, names)
  {
    ids := {};
    var i := 0;
    while i < |names|
      invariant 0 <= i <= |names|
      invariant ids == AllIds(cols, names[..i])
    {
      assert names[..i + 1][..i] == names[..i] && names[..i + 1][i] == names[i];
      if names[i] in cols {
        ids := AddIds(ids, cols[names[i]]);
      }
      i := i + 1;
    }
    assert names[..i] == names;
  }

  /** The checking loop of validate: one issue per unknown endpoint, `from` before `to`. */
  method ListIssues(rels: seq<Rel>, ids: set<Value>) returns (issues: seq<Issue>)
    ensures issues == Issues(rels, ids)
  {
    issues := [];
    var k := 0;
    while k < |rels|
      invariant 0 <= k <= |rels|
      invariant issues == Issues(rels[..k], ids)
    {
      var rel := rels[k];
      assert rels[..k + 1][..k] == rels[..k] && rels[..k + 1][k] == rel;
      if rel["from"] !in ids {
        issues := issues + [UnknownFrom(rel["from"])];
      }
      if rel["to"] !in ids {
        issues := issues + [UnknownTo(rel["to"])];
      }
      k := k + 1;
    }
    assert rels[..k] == rels;
  }

  /**
   * The in-memory graph document of one store, together with the schema it
   * was built from.
   */
  class GraphStore {
    const config: Config
    /** The configured collection names, in declaration order. */
    const names: seq<string>
    var metadata: map<string, Value>
    var collections: map<string, seq<Entity>>
    var relationships: seq<Rel>

    ghost predicate Valid()
      reads this
    {
      && ConfigValid()
      && MetadataKey !in collections && RelationshipsKey !in collections
    }

    /** The part of the invariant that concerns the configuration alone. */
    ghost predicate ConfigValid() {
      && StoreSchema(config)
      && names == CollectionNames(config)
    }

    /**
     * `_init_graph`: one empty collection per configured name, no
     * relationships, and metadata stamped with the configured domain and
     * version and with `today` as both creation and update date.
     */
    constructor Init(cfg: Config, today: string)
      requires StoreSchema(cfg)
      ensures Valid() && config == cfg
      ensures collections == map n | n in names :: []
      ensures relationships == []
      ensures metadata == map["domain" := Domain(cfg), "version" := Version(cfg),
                              "created" := Str(today), "last_updated" := Str(today)]
    {
      var declared := CollectionNames(cfg);
      var cols: map<string, seq<Entity>> := map[];
      var i := 0;
      while i < |declared|
        invariant 0 <= i <= |declared|
        invariant cols == map n | n in declared[..i] :: []
      {
        assert declared[..i + 1] == declared[..i] + [declared[i]];
        cols := cols[declared[i] := []];
        i := i + 1;
      }
      assert declared[..i] == declared;
      config := cfg;
      names := declared;
      metadata := map["domain" := Domain(cfg), "version" := Version(cfg),
                      "created" := Str(today), "last_updated" := Str(today)];
      collections := cols;
      relationships := [];
    }

    /** A store over a document loaded verbatim. */
    constructor FromDocument(cfg: Config, doc: Document)
      requires StoreSchema(cfg)
      requires MetadataKey !in doc.collections && RelationshipsKey !in doc.collections
      ensures Valid() && config == cfg
      ensures metadata == doc.metadata && collections == doc.collections && relationships == doc.relationships
    {
      config := cfg;
      names := CollectionNames(cfg);
      metadata := doc.metadata;
      collections := doc.collections;
      relationships := doc.relationships;
    }

    /** The document the store holds. */
    function Contents(): Document
      reads this
    {
      Document(metadata, collections, relationships)
    }

    /** The in-memory part of `save`: refreshes `last_updated` and changes nothing else. */
    method Save(today: string)
      requires Valid()
      modifies this
      ensures Valid()
      ensures metadata == old(metadata)["last_updated" := Str(today)]
      ensures collections == old(collections) && relationships == old(relationships)
    {
      metadata := metadata["last_updated" := Str(today)];
    }

    /**
     * `add_entity`: appends the entity to its category's collection unless an
     * entity with the same id is there already.
     */
    method AddEntity(category: string, entity: Entity) returns (r: Result<bool, StoreError>)
      requires Valid()
      modifies this
      ensures Valid() && metadata == old(metadata) && relationships == old(relationships)
      ensures var name := EntityName(config, category);
              && (r.Err? <==> !(name.Str? && name.s in old(collections)))
              && (r.Err? ==> r.error == UnknownCollection(name) && collections == old(collections))
              && (r.Ok? ==> (r.value <==> entity["id"] !in Ids(old(collections)[name.s])))
              && (r == Ok(false) ==> collections == old(collections))
              && (r == Ok(true) ==> collections == old(collections)[name.s := old(collections)[name.s] + [entity]])
      ensures collections.Keys == old(collections).Keys
      ensures forall n :: n in old(collections) && UniqueIds(old(collections)[n]) ==> UniqueIds(collections[n])
      ensures r.Ok? ==> AddEntityAsWritten(old(collections), old(relationships), EntityName(config, category), entity)
                        == Returned(collections, relationships, r.value)
    {
      var name := EntityName(config, category);
      if !(name.Str? && name.s in collections) {
        return Err(UnknownCollection(name));
      }
      var existingIds := Ids(collections[name.s]);
      if entity["id"] in existingIds {
        return Ok(false);
      }
      if UniqueIds(collections[name.s]) {
        AppendUnseenKeepsIdsUnique(collections[name.s], entity);
      }
      collections := collections[name.s := collections[name.s] + [entity]];
      return Ok(true);
    }

    /**
     * `update_entity`: shallow-updates the first entity of the category's
     * collection that carries `id`.
     */
    method UpdateEntity(category: string, id: Value, updates: map<string, Value>) returns (r: Result<bool, StoreError>)
      requires Valid()
      modifies this
      ensures Valid() && metadata == old(metadata) && relationships == old(relationships)
      ensures var name := EntityName(config, category);
              && (r.Err? <==> !(name.Str? && name.s in old(collections)))
              && (r.Err? ==> r.error == MissingCollection(name) && collections == old(collections))
              && (r.Ok? ==>
                    var coll := old(collections)[name.s];
                    match FirstIndexOfId(coll, id)
                    case None => r == Ok(false) && collections == old(collections)
                    case Some(i) => r == Ok(true) && collections == old(collections)[name.s := UpdatedAt(coll, i, updates)])
    {
      var name := EntityName(config, category);
      if !(name.Str? && name.s in collections) {
        return Err(MissingCollection(name));
      }
      var coll := collections[name.s];
      IdsMember(coll, id);
      var i := 0;
      while i < |coll|
        invariant 0 <= i <= |coll|
        invariant forall j :: 0 <= j < i ==> coll[j]["id"] != id
      {
        if coll[i]["id"] == id {
          collections := collections[name.s := UpdatedAt(coll, i, updates)];
          return Ok(true);
        }
        i := i + 1;
      }
      return Ok(false);
    }

    /** `get_entity`: the first entity of the category's collection that carries `id`, if any. */
    method GetEntity(category: string, id: Value) returns (r: Result<Option<Entity>, StoreError>)
      requires Valid()
      ensures var name := EntityName(config, category);
              && (r.Err? <==> !(name.Str? && name.s in collections))
              && (r.Err? ==> r.error == MissingCollection(name))
              && (r.Ok? ==>
                    var coll := collections[name.s];
                    && (r.value.None? <==> id !in Ids(coll))
                    && (r.value.Some? ==> exists i :: 0 <= i < |coll| && coll[i] == r.value.value && coll[i]["id"] == id
                                                     && forall j :: 0 <= j < i ==> coll[j]["id"] != id))
    {
      var name := EntityName(config, category);
      if !(name.Str? && name.s in collections) {
        return Err(MissingCollection(name));
      }
      var coll := collections[name.s];
      IdsMember(coll, id);
      var i := 0;
      while i < |coll|
        invariant 0 <= i <= |coll|
        invariant forall j :: 0 <= j < i ==> coll[j]["id"] != id
      {
        if coll[i]["id"] == id {
          return Ok(Some(coll[i]));
        }
        i := i + 1;
      }
      return Ok(None);
    }

    /**
     * `add_relationship`: appends a record unless one with the same
     * (from, to, type) triple exists; never checks that the endpoints exist.
     */
    method AddRelationship(fromId: Value, toId: Value, relType: Value,
                           description: Value := Str(""), strength: Value := Str("moderate"))
      returns (added: bool)
      requires Valid()
      modifies this
      ensures Valid() && metadata == old(metadata) && collections == old(collections)
      ensures added <==> Key(fromId, toId, relType) !in Keys(old(relationships))
      ensures !added ==> relationships == old(relationships)
      ensures added ==> relationships == old(relationships) + [NewRelationship(fromId, toId, relType, description, strength)]
      ensures UniqueKeys(old(relationships)) ==> UniqueKeys(relationships)
    {
      var i := 0;
      while i < |relationships|
        invariant 0 <= i <= |relationships|
        invariant forall j :: 0 <= j < i ==> KeyOf(relationships[j]) != Key(fromId, toId, relType)
      {
        var rel := relationships[i];
        if rel["from"] == fromId && rel["to"] == toId && rel["type"] == relType {
          KeysMember(relationships, Key(fromId, toId, relType));
          return false;
        }
        i := i + 1;
      }
      KeysMember(relationships, Key(fromId, toId, relType));
      relationships := relationships + [NewRelationship(fromId, toId, relType, description, strength)];
      return true;
    }

    /**
     * `merge`: for each configured collection the incoming document carries,
     * entities whose id the pre-merge collection holds are merged into the
     * entity the lookup finds, the others are appended; then incoming
     * relationships with a new triple are appended. Metadata is untouched.
     */
    method Merge(incoming: Document) returns (stats: MergeStats)
      requires Valid()
      requires CollectionsTyped(collections) && CollectionsTyped(incoming.collections)
      requires forall n :: n in names && n in incoming.collections ==> n in collections
      modifies this
      ensures Valid()
      ensures Contents() == MergeDocument(old(Contents()), names, incoming)
      ensures stats.merged == MergedCounts(old(collections), names, incoming.collections)
      ensures stats.added == AddedCounts(old(collections), names, incoming.collections)[RelationshipsKey := |relationships| - |old(relationships)|]
    {
      ReservedKeysNotConfigured(config);
      var merged;
      merged, stats := MergeDocumentValues(Contents(), names, incoming);
      collections, relationships := merged.collections, merged.relationships;
      assert Contents() == merged;
    }

    /** `get_stats`: each configured collection's size (0 when missing) and the relationship count. */
    method GetStats() returns (stats: map<string, nat>)
      requires Valid()
      ensures stats.Keys == (set n | n in names) + {RelationshipsKey}
      ensures forall n :: n in names ==> stats[n] == if n in collections then |collections[n]| else 0
      ensures stats[RelationshipsKey] == |relationships|
    {
      stats := map[];
      var i := 0;
      while i < |names|
        invariant 0 <= i <= |names|
        invariant stats.Keys == set n | n in names[..i]
        invariant forall n :: n in names[..i] ==> stats[n] == if n in collections then |collections[n]| else 0
      {
        var name := names[i];
        assert names[..i + 1] == names[..i] + [name];
        stats := stats[name := if name in collections then |collections[name]| else 0];
        i := i + 1;
      }
      assert names[..i] == names;
      assert RelationshipsKey !in names;
      stats := stats[RelationshipsKey := |relationships|];
    }

    /**
     * `validate`: collects the ids of every configured collection, then lists
     * one issue per relationship endpoint outside them, in relationship order
     * and `from` before `to`. It changes nothing.
     */
    method Validate() returns (issues: seq<Issue>)
      requires Valid()
      ensures issues == Issues(relationships, AllIds(collections, names))
      ensures issues == [] <==> forall i :: 0 <= i < |relationships| ==>
                relationships[i]["from"] in AllIds(collections, names) && relationships[i]["to"] in AllIds(collections, names)
    {
      var allIds := CollectIds(collections, names);
      issues := ListIssues(relationships, allIds);
      IssuesEmptyIff(relationships, allIds);
    }
  }
}

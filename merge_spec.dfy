/**
 * What `merge` in core/graph_manager.py computes, as functions on values:
 * per collection, incoming entities are looked up by id in the collection as
 * it was before the merge; relationships are appended when their triple is new.
 */
module MergeSpec {
  import opened Wrappers
  import opened Records
  import opened Provenance

  /** Every entity of the collection has list-valued provenance fields. */
  predicate AllTyped(coll: seq<Entity>) {
    forall i :: 0 <= i < |coll| ==> ProvenanceTyped(coll[i])
  }

  /** Every collection of the map has list-valued provenance fields. */
  predicate CollectionsTyped(cols: map<string, seq<Entity>>) {
    forall n :: n in cols ==> AllTyped(cols[n])
  }

  /**
   * The position the merge lookup finds for an id. The lookup mapping is built
   * from the collection in order, so a later entity with the same id replaces
   * an earlier one: the last entity carrying the id wins.
   */
  function LastIndexOfId(coll: seq<Entity>, id: Value): (r: Option<nat>)
    ensures r.None? <==> id !in Ids(coll)
    ensures r.Some? ==> r.value < |coll| && coll[r.value]["id"] == id
  {
    if coll == [] then None
    else if coll[|coll| - 1]["id"] == id then Some(|coll| - 1)
    else
      var init := coll[..|coll| - 1];
      assert coll == init + [coll[|coll| - 1]];
      LastIndexOfId(init, id)
  }

  /** No entity after the position the lookup finds carries the id. */
  lemma {:induction false} LastIndexIsLast(coll: seq<Entity>, id: Value, j: nat)
    requires LastIndexOfId(coll, id).Some? && LastIndexOfId(coll, id).value < j < |coll|
    ensures coll[j]["id"] != id
  {
    var init := coll[..|coll| - 1];
    if coll[|coll| - 1]["id"] != id && j < |init| {
      assert init[j] == coll[j];
      LastIndexIsLast(init, id, j);
    }
  }

  /** The lookup result is determined by the last position carrying the id. */
  lemma LastIndexIs(coll: seq<Entity>, id: Value, i: nat)
    requires i < |coll| && coll[i]["id"] == id
    requires forall j :: i < j < |coll| ==> coll[j]["id"] != id
    ensures LastIndexOfId(coll, id) == Some(i)
  {
    assert coll[i] in coll;
  }

  /**
   * One collection after merging the incoming entities into it, in incoming
   * order: an id found in the pre-merge collection is merged into the entity
   * the lookup finds, any other entity is appended verbatim. The lookup is not
   * extended by appended entities.
   */
  function MergeCollection(orig: seq<Entity>, inc: seq<Entity>): (r: seq<Entity>)
    requires AllTyped(orig) && AllTyped(inc)
    ensures |r| >= |orig| && AllTyped(r)
  {
    if inc == [] then orig
    else
      var prev := MergeCollection(orig, inc[..|inc| - 1]);
      var e := inc[|inc| - 1];
      match LastIndexOfId(orig, e["id"])
      case Some(i) => prev[i := MergedEntity(prev[i], e)]
      case None => prev + [e]
  }

  /** The merge never changes the id at a pre-existing position. */
  lemma {:induction false} MergeCollectionKeepsIds(orig: seq<Entity>, inc: seq<Entity>)
    requires AllTyped(orig) && AllTyped(inc)
    ensures forall i :: 0 <= i < |orig| ==> MergeCollection(orig, inc)[i]["id"] == orig[i]["id"]
  {
    if inc != [] {
      MergeCollectionKeepsIds(orig, inc[..|inc| - 1]);
    }
  }

  /** How many incoming entities the lookup finds (the `merged` counter). */
  function CountKnown(orig: seq<Entity>, inc: seq<Entity>): (r: nat)
    ensures r <= |inc|
  {
    if inc == [] then 0
    else CountKnown(orig, inc[..|inc| - 1]) + (if inc[|inc| - 1]["id"] in Ids(orig) then 1 else 0)
  }

  /** How many incoming entities the lookup misses (the `added` counter); with `CountKnown` they cover the incoming list. */
  function CountUnknown(orig: seq<Entity>, inc: seq<Entity>): (r: nat)
    ensures r + CountKnown(orig, inc) == |inc|
  {
    if inc == [] then 0
    else CountUnknown(orig, inc[..|inc| - 1]) + (if inc[|inc| - 1]["id"] in Ids(orig) then 0 else 1)
  }

  /** One more incoming entity whose id the lookup finds: merged into the entity found. */
  lemma MergeCollectionStepKnown(orig: seq<Entity>, inc: seq<Entity>, j: nat, p: nat)
    requires AllTyped(orig) && AllTyped(inc) && j < |inc|
    requires LastIndexOfId(orig, inc[j]["id"]) == Some(p)
    ensures var prev := MergeCollection(orig, inc[..j]);
            && p < |prev| && ProvenanceTyped(prev[p])
            && MergeCollection(orig, inc[..j + 1]) == prev[p := MergedEntity(prev[p], inc[j])]
            && CountKnown(orig, inc[..j + 1]) == CountKnown(orig, inc[..j]) + 1
  {
    var next := inc[..j + 1];
    assert next[..|next| - 1] == inc[..j];
    assert next[|next| - 1] == inc[j];
    var prev := MergeCollection(orig, inc[..j]);
    assert MergeCollection(orig, next) == prev[p := MergedEntity(prev[p], inc[j])];
  }

  /** One more incoming entity whose id the lookup does not find: appended. */
  lemma MergeCollectionStepNew(orig: seq<Entity>, inc: seq<Entity>, j: nat)
    requires AllTyped(orig) && AllTyped(inc) && j < |inc|
    requires inc[j]["id"] !in Ids(orig)
    ensures MergeCollection(orig, inc[..j + 1]) == MergeCollection(orig, inc[..j]) + [inc[j]]
    ensures CountKnown(orig, inc[..j + 1]) == CountKnown(orig, inc[..j])
  {
    var next := inc[..j + 1];
    assert next[..|next| - 1] == inc[..j];
    assert next[|next| - 1] == inc[j];
  }

  /** The collection grows by exactly the incoming entities the lookup does not find. */
  lemma {:induction false} MergeCollectionSize(orig: seq<Entity>, inc: seq<Entity>)
    requires AllTyped(orig) && AllTyped(inc)
    ensures |MergeCollection(orig, inc)| == |orig| + CountUnknown(orig, inc)
  {
    if inc != [] {
      MergeCollectionSize(orig, inc[..|inc| - 1]);
    }
  }

  /** The lookup finds, in `coll`, an entity that already absorbs `n`. */
  predicate AbsorbedAt(coll: seq<Entity>, n: Entity)
    requires AllTyped(coll) && ProvenanceTyped(n)
  {
    var k := LastIndexOfId(coll, n["id"]);
    k.Some? && Absorbs(coll[k.value], n)
  }

  /** Appended entities carry ids that the pre-merge collection lacked and that came in. */
  lemma {:induction false} MergeCollectionAppended(orig: seq<Entity>, inc: seq<Entity>)
    requires AllTyped(orig) && AllTyped(inc)
    ensures forall p :: |orig| <= p < |MergeCollection(orig, inc)| ==>
              MergeCollection(orig, inc)[p]["id"] !in Ids(orig) && MergeCollection(orig, inc)[p]["id"] in Ids(inc)
  {
    if inc != [] {
      var init := inc[..|inc| - 1];
      var e := inc[|inc| - 1];
      assert inc == init + [e];
      assert Ids(inc) == Ids(init) + {e["id"]};
      MergeCollectionAppended(orig, init);
      var prev := MergeCollection(orig, init);
      var r := MergeCollection(orig, inc);
      if LastIndexOfId(orig, e["id"]).Some? {
        assert forall p :: |orig| <= p < |r| ==> r[p] == prev[p];
      } else {
        assert r == prev + [e];
        assert e in inc && e["id"] !in Ids(orig);
      }
    }
  }

  /** Past the position the lookup finds in the original, no merged entity carries the id. */
  lemma NoLaterIdAfterMerge(orig: seq<Entity>, inc: seq<Entity>, id: Value)
    requires AllTyped(orig) && AllTyped(inc) && LastIndexOfId(orig, id).Some?
    ensures forall q :: LastIndexOfId(orig, id).value < q < |MergeCollection(orig, inc)| ==>
              MergeCollection(orig, inc)[q]["id"] != id
  {
    MergeCollectionAppended(orig, inc);
    MergeCollectionKeepsIds(orig, inc);
    var r := MergeCollection(orig, inc);
    forall q | LastIndexOfId(orig, id).value < q < |r|
      ensures r[q]["id"] != id
    {
      if q < |orig| {
        LastIndexIsLast(orig, id, q);
      }
    }
  }

  /** Merging `e` at the last position carrying its id keeps earlier absorptions and absorbs `e`. */
  lemma AbsorbedAfterMergeAt(prev: seq<Entity>, i: nat, e: Entity, earlier: seq<Entity>)
    requires AllTyped(prev) && ProvenanceTyped(e) && AllTyped(earlier)
    requires i < |prev| && prev[i]["id"] == e["id"]
    requires forall q :: i < q < |prev| ==> prev[q]["id"] != e["id"]
    requires forall j :: 0 <= j < |earlier| ==> AbsorbedAt(prev, earlier[j])
    ensures var r := prev[i := MergedEntity(prev[i], e)];
            AllTyped(r) && AbsorbedAt(r, e) && forall j :: 0 <= j < |earlier| ==> AbsorbedAt(r, earlier[j])
  {
    var r := prev[i := MergedEntity(prev[i], e)];
    LastIndexIs(r, e["id"], i);
    MergedAbsorbs(prev[i], e);
    forall j | 0 <= j < |earlier|
      ensures AbsorbedAt(r, earlier[j])
    {
      var id := earlier[j]["id"];
      var k := LastIndexOfId(prev, id).value;
      forall q | k < q < |r|
        ensures r[q]["id"] != id
      {
        LastIndexIsLast(prev, id, q);
      }
      LastIndexIs(r, id, k);
      if k == i {
        MergeKeepsAbsorbed(prev[i], e, earlier[j]);
      }
    }
  }

  /** Appending `e`, whose id no earlier entity shares, keeps earlier absorptions and absorbs `e`. */
  lemma AbsorbedAfterAppend(prev: seq<Entity>, e: Entity, earlier: seq<Entity>)
    requires AllTyped(prev) && ProvenanceTyped(e) && AllTyped(earlier)
    requires forall j :: 0 <= j < |earlier| ==> earlier[j]["id"] != e["id"] && AbsorbedAt(prev, earlier[j])
    ensures var r := prev + [e];
            AllTyped(r) && AbsorbedAt(r, e) && forall j :: 0 <= j < |earlier| ==> AbsorbedAt(r, earlier[j])
  {
    var r := prev + [e];
    LastIndexIs(r, e["id"], |prev|);
    SelfAbsorbs(e);
    forall j | 0 <= j < |earlier|
      ensures AbsorbedAt(r, earlier[j])
    {
      var id := earlier[j]["id"];
      var k := LastIndexOfId(prev, id).value;
      forall q | k < q < |r|
        ensures r[q]["id"] != id
      {
        if q < |prev| {
          LastIndexIsLast(prev, id, q);
        }
      }
      LastIndexIs(r, id, k);
    }
  }

  /** The merge of one more incoming entity whose id the lookup finds, with the appended entity written out. */
  lemma MergeCollectionSnocKnown(orig: seq<Entity>, init: seq<Entity>, e: Entity, i: nat)
    requires AllTyped(orig) && AllTyped(init) && ProvenanceTyped(e) && AllTyped(init + [e])
    requires LastIndexOfId(orig, e["id"]) == Some(i)
    ensures var prev := MergeCollection(orig, init);
            i < |prev| && MergeCollection(orig, init + [e]) == prev[i := MergedEntity(prev[i], e)]
  {
    assert (init + [e])[..|init|] == init;
  }

  /** The merge of one more incoming entity whose id the lookup does not find, with the appended entity written out. */
  lemma MergeCollectionSnocNew(orig: seq<Entity>, init: seq<Entity>, e: Entity)
    requires AllTyped(orig) && AllTyped(init) && ProvenanceTyped(e) && AllTyped(init + [e])
    requires LastIndexOfId(orig, e["id"]).None?
    ensures MergeCollection(orig, init + [e]) == MergeCollection(orig, init) + [e]
  {
    assert (init + [e])[..|init|] == init;
  }

  /** The absorption facts survive one more incoming entity whose id the lookup finds. */
  lemma AbsorbsStepKnown(orig: seq<Entity>, init: seq<Entity>, e: Entity, i: nat)
    requires AllTyped(orig) && AllTyped(init) && ProvenanceTyped(e) && AllTyped(init + [e])
    requires LastIndexOfId(orig, e["id"]) == Some(i)
    requires forall j :: 0 <= j < |init| ==> AbsorbedAt(MergeCollection(orig, init), init[j])
    ensures var r := MergeCollection(orig, init + [e]);
            AbsorbedAt(r, e) && forall j :: 0 <= j < |init| ==> AbsorbedAt(r, init[j])
  {
    var prev := MergeCollection(orig, init);
    MergeCollectionKeepsIds(orig, init);
    NoLaterIdAfterMerge(orig, init, e["id"]);
    MergeCollectionSnocKnown(orig, init, e, i);
    AbsorbedAfterMergeAt(prev, i, e, init);
  }

  /** The absorption facts survive one more incoming entity, with a new id, that is appended. */
  lemma AbsorbsStepNew(orig: seq<Entity>, init: seq<Entity>, e: Entity)
    requires AllTyped(orig) && AllTyped(init) && ProvenanceTyped(e) && AllTyped(init + [e])
    requires LastIndexOfId(orig, e["id"]).None?
    requires forall j :: 0 <= j < |init| ==> init[j]["id"] != e["id"]
    requires forall j :: 0 <= j < |init| ==> AbsorbedAt(MergeCollection(orig, init), init[j])
    ensures var r := MergeCollection(orig, init + [e]);
            AbsorbedAt(r, e) && forall j :: 0 <= j < |init| ==> AbsorbedAt(r, init[j])
  {
    MergeCollectionSnocNew(orig, init, e);
    AbsorbedAfterAppend(MergeCollection(orig, init), e, init);
  }

  /**
   * After a merge of incoming entities with distinct ids, the lookup on the
   * result finds, for every incoming entity, an entity that absorbs it.
   */
  lemma {:induction false} MergeCollectionAbsorbs(orig: seq<Entity>, inc: seq<Entity>)
    requires AllTyped(orig) && AllTyped(inc) && UniqueIds(inc)
    ensures forall j :: 0 <= j < |inc| ==> AbsorbedAt(MergeCollection(orig, inc), inc[j])
  {
    if inc != [] {
      var init := inc[..|inc| - 1];
      var e := inc[|inc| - 1];
      assert inc == init + [e];
      assert forall j :: 0 <= j < |init| ==> init[j] == inc[j];
      MergeCollectionAbsorbs(orig, init);
      if LastIndexOfId(orig, e["id"]).Some? {
        AbsorbsStepKnown(orig, init, e, LastIndexOfId(orig, e["id"]).value);
      } else {
        AbsorbsStepNew(orig, init, e);
      }
      forall j | 0 <= j < |inc|
        ensures AbsorbedAt(MergeCollection(orig, inc), inc[j])
      {
        if j < |init| {
          assert inc[j] == init[j];
        }
      }
    }
  }

  /** Merging entities that the lookup already finds absorbed changes nothing. */
  lemma {:induction false} MergeOfAbsorbedCollection(coll: seq<Entity>, inc: seq<Entity>)
    requires AllTyped(coll) && AllTyped(inc)
    requires forall j :: 0 <= j < |inc| ==> AbsorbedAt(coll, inc[j])
    ensures MergeCollection(coll, inc) == coll
  {
    if inc != [] {
      var init := inc[..|inc| - 1];
      var e := inc[|inc| - 1];
      assert forall j :: 0 <= j < |init| ==> init[j] == inc[j];
      MergeOfAbsorbedCollection(coll, init);
      var i := LastIndexOfId(coll, e["id"]).value;
      MergeOfAbsorbed(coll[i], e);
    }
  }

  /**
   * Merging the same incoming entities twice is merging them once, provided
   * their ids are distinct.
   */
  lemma MergeCollectionIdempotent(orig: seq<Entity>, inc: seq<Entity>)
    requires AllTyped(orig) && AllTyped(inc) && UniqueIds(inc)
    ensures MergeCollection(MergeCollection(orig, inc), inc) == MergeCollection(orig, inc)
  {
    MergeCollectionAbsorbs(orig, inc);
    MergeOfAbsorbedCollection(MergeCollection(orig, inc), inc);
  }

  /** Replacing an entity by one with the same id keeps the ids distinct. */
  lemma UniqueAfterReplace(prev: seq<Entity>, i: nat, m: Entity)
    requires i < |prev| && UniqueIds(prev) && m["id"] == prev[i]["id"]
    ensures UniqueIds(prev[i := m])
  {
    var r := prev[i := m];
    assert forall p :: 0 <= p < |r| ==> r[p]["id"] == prev[p]["id"];
  }

  /** Appending an entity whose id is new keeps the ids distinct. */
  lemma UniqueAfterAppend(prev: seq<Entity>, e: Entity)
    requires UniqueIds(prev)
    requires forall p :: 0 <= p < |prev| ==> prev[p]["id"] != e["id"]
    ensures UniqueIds(prev + [e])
  {
  }

  /** Id-uniqueness survives a merge whose incoming ids are themselves distinct. */
  lemma {:induction false} MergeCollectionKeepsIdsUnique(orig: seq<Entity>, inc: seq<Entity>)
    requires AllTyped(orig) && AllTyped(inc) && UniqueIds(orig) && UniqueIds(inc)
    ensures UniqueIds(MergeCollection(orig, inc))
  {
    if inc != [] {
      var init := inc[..|inc| - 1];
      var e := inc[|inc| - 1];
      assert forall j :: 0 <= j < |init| ==> init[j] == inc[j];
      MergeCollectionKeepsIdsUnique(orig, init);
      var prev := MergeCollection(orig, init);
      match LastIndexOfId(orig, e["id"])
      case Some(i) =>
        MergeCollectionKeepsIds(orig, init);
        UniqueAfterReplace(prev, i, MergedEntity(prev[i], e));
        assert MergeCollection(orig, inc) == prev[i := MergedEntity(prev[i], e)];
      case None =>
        IdsMember(init, e["id"]);
        IdsMember(orig, e["id"]);
        MergeCollectionAppended(orig, init);
        MergeCollectionKeepsIds(orig, init);
        forall p | 0 <= p < |prev|
          ensures prev[p]["id"] != e["id"]
        {
          if p < |orig| {
            assert prev[p]["id"] == orig[p]["id"];
          } else {
            assert prev[p]["id"] in Ids(init);
          }
        }
        UniqueAfterAppend(prev, e);
        assert MergeCollection(orig, inc) == prev + [e];
    }
  }

  /**
   * Two incoming entities sharing an id the pre-merge collection lacks are both
   * appended: the lookup is not extended by appended entities, so the merged
   * collection carries that id twice.
   */
  lemma DuplicateIncomingIdsBothAppended(orig: seq<Entity>, e1: Entity, e2: Entity)
    requires AllTyped(orig) && ProvenanceTyped(e1) && ProvenanceTyped(e2)
    requires e1["id"] == e2["id"] && e1["id"] !in Ids(orig)
    ensures MergeCollection(orig, [e1, e2]) == orig + [e1, e2]
    ensures !UniqueIds(MergeCollection(orig, [e1, e2]))
  {
    assert [] + [e1] == [e1];
    assert [e1] + [e2] == [e1, e2];
    MergeCollectionSnocNew(orig, [], e1);
    MergeCollectionSnocNew(orig, [e1], e2);
    var r := orig + [e1, e2];
    assert r[|orig|]["id"] == r[|orig| + 1]["id"];
  }

  // ---------------------------------------------------------------------------
  // All collections
  // ---------------------------------------------------------------------------

  /** Every incoming collection lists each id at most once. */
  predicate IncomingIdsDistinct(incoming: map<string, seq<Entity>>) {
    forall n :: n in incoming ==> UniqueIds(incoming[n])
  }

  /**
   * One iteration of the merge over configured collections: a name absent
   * from the incoming data (or from the store) leaves the collections alone.
   */
  function MergeStep(cols: map<string, seq<Entity>>, name: string, incoming: map<string, seq<Entity>>)
    : (r: map<string, seq<Entity>>)
    requires CollectionsTyped(cols) && CollectionsTyped(incoming)
    ensures CollectionsTyped(r) && r.Keys == cols.Keys
    ensures forall m :: m in cols && m != name ==> r[m] == cols[m]
  {
    if name in incoming && name in cols then cols[name := MergeCollection(cols[name], incoming[name])]
    else cols
  }

  /** The collections after merging the incoming data, configured name by configured name. */
  function MergeCollections(cols: map<string, seq<Entity>>, names: seq<string>, incoming: map<string, seq<Entity>>)
    : (r: map<string, seq<Entity>>)
    requires CollectionsTyped(cols) && CollectionsTyped(incoming)
    ensures CollectionsTyped(r) && r.Keys == cols.Keys
  {
    if names == [] then cols
    else MergeStep(MergeCollections(cols, names[..|names| - 1], incoming), names[|names| - 1], incoming)
  }

  /** A collection whose name is never visited, or that the incoming data lacks, is left unchanged. */
  lemma {:induction false} MergeCollectionsSkips(
    cols: map<string, seq<Entity>>, names: seq<string>, incoming: map<string, seq<Entity>>, m: string)
    requires CollectionsTyped(cols) && CollectionsTyped(incoming)
    requires m in cols && (m !in names || m !in incoming)
    ensures MergeCollections(cols, names, incoming)[m] == cols[m]
  {
    if names != [] {
      assert names == names[..|names| - 1] + [names[|names| - 1]];
      MergeCollectionsSkips(cols, names[..|names| - 1], incoming, m);
    }
  }

  /** Visiting one more configured name is one more merge step. */
  lemma MergeCollectionsStep(cols: map<string, seq<Entity>>, names: seq<string>, incoming: map<string, seq<Entity>>, i: nat)
    requires CollectionsTyped(cols) && CollectionsTyped(incoming) && i < |names|
    ensures MergeCollections(cols, names[..i + 1], incoming)
            == MergeStep(MergeCollections(cols, names[..i], incoming), names[i], incoming)
  {
    assert names[..i + 1][..i] == names[..i];
  }

  /** No collection name is configured twice. */
  predicate DistinctNames(names: seq<string>) {
    forall i, j :: 0 <= i < j < |names| ==> names[i] != names[j]
  }

  /**
   * The `merged` counter merge reports per visited collection: how many
   * incoming entities the lookup found in the collection as it stood when
   * its name came up (a name configured twice is counted at its last visit).
   */
  function MergedCounts(cols: map<string, seq<Entity>>, names: seq<string>, incoming: map<string, seq<Entity>>)
    : (r: map<string, nat>)
    requires CollectionsTyped(cols) && CollectionsTyped(incoming)
    ensures forall n :: n in r ==> n in names
  {
    if names == [] then map[]
    else
      var init := names[..|names| - 1];
      var n := names[|names| - 1];
      assert names == init + [n];
      var prev := MergedCounts(cols, init, incoming);
      if n in incoming && n in cols then prev[n := CountKnown(MergeCollections(cols, init, incoming)[n], incoming[n])]
      else prev
  }

  /** Visiting one more configured name records at most its own counter. */
  lemma MergedCountsStep(cols: map<string, seq<Entity>>, names: seq<string>, incoming: map<string, seq<Entity>>, i: nat)
    requires CollectionsTyped(cols) && CollectionsTyped(incoming) && i < |names|
    ensures var n := names[i];
            MergedCounts(cols, names[..i + 1], incoming)
            == if n in incoming && n in cols
               then MergedCounts(cols, names[..i], incoming)[n := CountKnown(MergeCollections(cols, names[..i], incoming)[n], incoming[n])]
               else MergedCounts(cols, names[..i], incoming)
  {
    assert names[..i + 1][..i] == names[..i];
  }

  /** With every name configured once, each counter is taken against the pre-merge collection. */
  lemma {:induction false} MergedCountsOfDistinct(cols: map<string, seq<Entity>>, names: seq<string>, incoming: map<string, seq<Entity>>)
    requires CollectionsTyped(cols) && CollectionsTyped(incoming) && DistinctNames(names)
    ensures forall n :: n in MergedCounts(cols, names, incoming) && n in cols && n in incoming ==>
              MergedCounts(cols, names, incoming)[n] == CountKnown(cols[n], incoming[n])
  {
    if names != [] {
      var init := names[..|names| - 1];
      var n := names[|names| - 1];
      assert forall i :: 0 <= i < |init| ==> init[i] == names[i];
      MergedCountsOfDistinct(cols, init, incoming);
      CountsCover(cols, init, incoming);
      if n in incoming && n in cols {
        assert n !in init;
        MergeCollectionsSkips(cols, init, incoming, n);
      }
    }
  }

  /**
   * The `added` counter merge reports per visited collection: the incoming
   * entities the lookup did not find, counted like `MergedCounts`.
   */
  function AddedCounts(cols: map<string, seq<Entity>>, names: seq<string>, incoming: map<string, seq<Entity>>)
    : (r: map<string, nat>)
    requires CollectionsTyped(cols) && CollectionsTyped(incoming)
    ensures forall n :: n in r ==> n in names
  {
    if names == [] then map[]
    else
      var init := names[..|names| - 1];
      var n := names[|names| - 1];
      var prev := AddedCounts(cols, init, incoming);
      if n in incoming && n in cols then prev[n := CountUnknown(MergeCollections(cols, init, incoming)[n], incoming[n])]
      else prev
  }

  /** Visiting one more configured name records at most its own `added` counter. */
  lemma AddedCountsStep(cols: map<string, seq<Entity>>, names: seq<string>, incoming: map<string, seq<Entity>>, i: nat)
    requires CollectionsTyped(cols) && CollectionsTyped(incoming) && i < |names|
    ensures var n := names[i];
            AddedCounts(cols, names[..i + 1], incoming)
            == if n in incoming && n in cols
               then AddedCounts(cols, names[..i], incoming)[n := CountUnknown(MergeCollections(cols, names[..i], incoming)[n], incoming[n])]
               else AddedCounts(cols, names[..i], incoming)
  {
    assert names[..i + 1][..i] == names[..i];
  }

  /**
   * Visiting a configured name the incoming data carries replaces its
   * collection by the merged one and records both counters for it.
   */
  lemma VisitedStep(cols: map<string, seq<Entity>>, names: seq<string>, incoming: map<string, seq<Entity>>, i: nat,
                    coll: seq<Entity>, added: nat, merged: nat)
    requires CollectionsTyped(cols) && CollectionsTyped(incoming) && i < |names|
    requires names[i] in incoming && names[i] in cols
    requires var prev := MergeCollections(cols, names[..i], incoming)[names[i]];
             && coll == MergeCollection(prev, incoming[names[i]])
             && merged == CountKnown(prev, incoming[names[i]]) && added + merged == |incoming[names[i]]|
    ensures MergeCollections(cols, names[..i + 1], incoming) == MergeCollections(cols, names[..i], incoming)[names[i] := coll]
    ensures MergedCounts(cols, names[..i + 1], incoming) == MergedCounts(cols, names[..i], incoming)[names[i] := merged]
    ensures AddedCounts(cols, names[..i + 1], incoming) == AddedCounts(cols, names[..i], incoming)[names[i] := added]
  {
    var prev := MergeCollections(cols, names[..i], incoming)[names[i]];
    assert added == CountUnknown(prev, incoming[names[i]]);
    MergeCollectionsStep(cols, names, incoming, i);
    MergedCountsStep(cols, names, incoming, i);
    AddedCountsStep(cols, names, incoming, i);
  }

  /** Visiting a configured name the incoming data lacks changes nothing. */
  lemma SkippedStep(cols: map<string, seq<Entity>>, names: seq<string>, incoming: map<string, seq<Entity>>, i: nat)
    requires CollectionsTyped(cols) && CollectionsTyped(incoming) && i < |names|
    requires names[i] !in incoming
    ensures MergeCollections(cols, names[..i + 1], incoming) == MergeCollections(cols, names[..i], incoming)
    ensures MergedCounts(cols, names[..i + 1], incoming) == MergedCounts(cols, names[..i], incoming)
    ensures AddedCounts(cols, names[..i + 1], incoming) == AddedCounts(cols, names[..i], incoming)
  {
    MergeCollectionsStep(cols, names, incoming, i);
    MergedCountsStep(cols, names, incoming, i);
    AddedCountsStep(cols, names, incoming, i);
  }

  /**
   * Exactly the visited names the incoming data and the store both carry get
   * counters, and per such name the two counters split the incoming entities.
   */
  lemma {:induction false} CountsCover(cols: map<string, seq<Entity>>, names: seq<string>, incoming: map<string, seq<Entity>>)
    requires CollectionsTyped(cols) && CollectionsTyped(incoming)
    ensures var merged := MergedCounts(cols, names, incoming);
            var added := AddedCounts(cols, names, incoming);
            && (forall n :: n in merged <==> n in names && n in incoming && n in cols)
            && added.Keys == merged.Keys
            && (forall n :: n in merged ==> merged[n] <= |incoming[n]| && added[n] + merged[n] == |incoming[n]|)
  {
    if names != [] {
      var init := names[..|names| - 1];
      assert names == init + [names[|names| - 1]];
      CountsCover(cols, init, incoming);
    }
  }

  /** With distinct incoming ids, one merge step is idempotent. */
  lemma MergeStepIdempotent(cols: map<string, seq<Entity>>, name: string, incoming: map<string, seq<Entity>>)
    requires CollectionsTyped(cols) && CollectionsTyped(incoming) && IncomingIdsDistinct(incoming)
    ensures MergeStep(MergeStep(cols, name, incoming), name, incoming) == MergeStep(cols, name, incoming)
  {
    if name in incoming && name in cols {
      MergeCollectionIdempotent(cols[name], incoming[name]);
    }
  }

  /** Steps on different collections commute. */
  lemma MergeStepsCommute(cols: map<string, seq<Entity>>, a: string, b: string, incoming: map<string, seq<Entity>>)
    requires CollectionsTyped(cols) && CollectionsTyped(incoming) && a != b
    ensures MergeStep(MergeStep(cols, a, incoming), b, incoming) == MergeStep(MergeStep(cols, b, incoming), a, incoming)
  {
  }

  /** The merged collections are a fixed point of every step the merge took. */
  lemma {:induction false} MergedIsFixedPoint(
    cols: map<string, seq<Entity>>, names: seq<string>, incoming: map<string, seq<Entity>>, name: string)
    requires CollectionsTyped(cols) && CollectionsTyped(incoming) && IncomingIdsDistinct(incoming)
    requires name in names
    ensures MergeStep(MergeCollections(cols, names, incoming), name, incoming) == MergeCollections(cols, names, incoming)
  {
    var init := names[..|names| - 1];
    var last := names[|names| - 1];
    var before := MergeCollections(cols, init, incoming);
    if name == last {
      MergeStepIdempotent(before, name, incoming);
    } else {
      assert names == init + [last];
      MergedIsFixedPoint(cols, init, incoming, name);
      MergeStepsCommute(before, last, name, incoming);
    }
  }

  /** Merging into collections that every step leaves alone changes nothing. */
  lemma {:induction false} MergeOfFixedPoint(cols: map<string, seq<Entity>>, names: seq<string>, incoming: map<string, seq<Entity>>)
    requires CollectionsTyped(cols) && CollectionsTyped(incoming)
    requires forall n :: n in names ==> MergeStep(cols, n, incoming) == cols
    ensures MergeCollections(cols, names, incoming) == cols
  {
    if names != [] {
      assert forall n :: n in names[..|names| - 1] ==> n in names;
      MergeOfFixedPoint(cols, names[..|names| - 1], incoming);
    }
  }

  /** Merging the same document twice equals merging it once, when its collections have distinct ids. */
  lemma MergeCollectionsIdempotent(cols: map<string, seq<Entity>>, names: seq<string>, incoming: map<string, seq<Entity>>)
    requires CollectionsTyped(cols) && CollectionsTyped(incoming) && IncomingIdsDistinct(incoming)
    ensures MergeCollections(MergeCollections(cols, names, incoming), names, incoming)
            == MergeCollections(cols, names, incoming)
  {
    var once := MergeCollections(cols, names, incoming);
    forall n | n in names
      ensures MergeStep(once, n, incoming) == once
    {
      MergedIsFixedPoint(cols, names, incoming, n);
    }
    MergeOfFixedPoint(once, names, incoming);
  }

  // ---------------------------------------------------------------------------
  // Relationships
  // ---------------------------------------------------------------------------

  /**
   * The relationship list after the merge: an incoming relationship is
   * appended when its triple is in neither the list nor an earlier appended one.
   */
  function MergeRelationships(rels: seq<Rel>, inc: seq<Rel>): (r: seq<Rel>)
    ensures |r| >= |rels| && r[..|rels|] == rels
    ensures Keys(r) == Keys(rels) + Keys(inc)
  {
    if inc == [] then rels
    else
      var prev := MergeRelationships(rels, inc[..|inc| - 1]);
      var x := inc[|inc| - 1];
      KeysAppend(inc[..|inc| - 1], x);
      KeysAppend(prev, x);
      assert inc == inc[..|inc| - 1] + [x];
      if KeyOf(x) in Keys(prev) then prev else prev + [x]
  }

  lemma KeysAppend(s: seq<Rel>, x: Rel)
    ensures Keys(s + [x]) == Keys(s) + {KeyOf(x)}
  {
    assert (s + [x])[..|s|] == s;
  }

  /** One more incoming relationship: appended exactly when its triple is new. */
  lemma MergeRelationshipsStep(rels: seq<Rel>, inc: seq<Rel>, j: nat)
    requires j < |inc|
    ensures Keys(inc[..j + 1]) == Keys(inc[..j]) + {KeyOf(inc[j])}
    ensures var prev := MergeRelationships(rels, inc[..j]);
            MergeRelationships(rels, inc[..j + 1])
            == if KeyOf(inc[j]) in Keys(rels) + Keys(inc[..j]) then prev else prev + [inc[j]]
  {
    assert inc[..j + 1] == inc[..j] + [inc[j]];
    KeysAppend(inc[..j], inc[j]);
  }

  /** A list without duplicate triples keeps none after the merge. */
  lemma {:induction false} MergeRelationshipsKeepsKeysUnique(rels: seq<Rel>, inc: seq<Rel>)
    requires UniqueKeys(rels)
    ensures UniqueKeys(MergeRelationships(rels, inc))
  {
    if inc != [] {
      var init := inc[..|inc| - 1];
      var x := inc[|inc| - 1];
      MergeRelationshipsKeepsKeysUnique(rels, init);
      var prev := MergeRelationships(rels, init);
      if KeyOf(x) !in Keys(prev) {
        KeysMember(prev, KeyOf(x));
      }
    }
  }

  /** The list gains exactly one relationship per incoming triple it did not hold. */
  lemma {:induction false} MergeRelationshipsCount(rels: seq<Rel>, inc: seq<Rel>)
    ensures |MergeRelationships(rels, inc)| == |rels| + |Keys(inc) - Keys(rels)|
  {
    if inc != [] {
      var init := inc[..|inc| - 1];
      var x := inc[|inc| - 1];
      assert inc == init + [x];
      KeysAppend(init, x);
      MergeRelationshipsCount(rels, init);
      var prev := MergeRelationships(rels, init);
      if KeyOf(x) !in Keys(prev) {
        assert Keys(inc) - Keys(rels) == (Keys(init) - Keys(rels)) + {KeyOf(x)};
      } else {
        assert Keys(inc) - Keys(rels) == Keys(init) - Keys(rels);
      }
    }
  }

  /** Incoming relationships whose triples are all known add nothing. */
  lemma {:induction false} MergeOfKnownRelationships(rels: seq<Rel>, inc: seq<Rel>)
    requires Keys(inc) <= Keys(rels)
    ensures MergeRelationships(rels, inc) == rels
  {
    if inc != [] {
      var init := inc[..|inc| - 1];
      assert inc == init + [inc[|inc| - 1]];
      MergeOfKnownRelationships(rels, init);
    }
  }

  /** Merging the same relationships twice equals merging them once. */
  lemma MergeRelationshipsIdempotent(rels: seq<Rel>, inc: seq<Rel>)
    ensures MergeRelationships(MergeRelationships(rels, inc), inc) == MergeRelationships(rels, inc)
  {
    MergeOfKnownRelationships(MergeRelationships(rels, inc), inc);
  }

  // ---------------------------------------------------------------------------
  // The whole document
  // ---------------------------------------------------------------------------

  /** The document after `merge`: collections and relationships merged, metadata kept. */
  function MergeDocument(doc: Document, names: seq<string>, incoming: Document): (r: Document)
    requires CollectionsTyped(doc.collections) && CollectionsTyped(incoming.collections)
    ensures r.metadata == doc.metadata && r.collections.Keys == doc.collections.Keys
  {
    Document(
      doc.metadata,
      MergeCollections(doc.collections, names, incoming.collections),
      MergeRelationships(doc.relationships, incoming.relationships))
  }

  /** Merging a document twice equals merging it once, when each incoming collection has distinct ids. */
  lemma MergeDocumentIdempotent(doc: Document, names: seq<string>, incoming: Document)
    requires CollectionsTyped(doc.collections) && CollectionsTyped(incoming.collections)
    requires IncomingIdsDistinct(incoming.collections)
    ensures MergeDocument(MergeDocument(doc, names, incoming), names, incoming) == MergeDocument(doc, names, incoming)
  {
    MergeCollectionsIdempotent(doc.collections, names, incoming.collections);
    MergeRelationshipsIdempotent(doc.relationships, incoming.relationships);
  }
}

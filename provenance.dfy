/**
 * Entity-level merge (`_merge_entity` in core/graph_manager.py): only the
 * provenance lists of an existing entity grow, by set-union with the incoming
 * entity's lists, keeping the order of first appearance.
 */
module Provenance {
  import opened Records

  /** The multi-valued fields that record where an entity is attested, in merge order. */
  const ProvenanceFields: seq<string> := ["source_papers", "mentioned_in", "key_papers"]

  /** Membership in `ProvenanceFields`, spelt out so the solver need not search the list. */
  predicate IsProvenanceField(f: string) {
    f == "source_papers" || f == "mentioned_in" || f == "key_papers"
  }

  /** The predicate and the list name the same fields. */
  lemma ProvenanceFieldsListed(f: string)
    ensures IsProvenanceField(f) <==> f in ProvenanceFields
  {
  }

  /** Every provenance field the entity carries is a list. */
  predicate ProvenanceTyped(e: Entity) {
    && ("source_papers" in e ==> e["source_papers"].Arr?)
    && ("mentioned_in" in e ==> e["mentioned_in"].Arr?)
    && ("key_papers" in e ==> e["key_papers"].Arr?)
  }

  predicate NoDuplicates(xs: seq<Value>) {
    forall i, j :: 0 <= i < j < |xs| ==> xs[i] != xs[j]
  }

  /**
   * `xs` followed by the items of `ys` it does not hold yet, each appended the
   * first time it is met (the list grows while it is scanned).
   */
  function UnionInto(xs: seq<Value>, ys: seq<Value>): (r: seq<Value>)
    ensures |r| >= |xs| && r[..|xs|] == xs
    ensures forall v :: v in r <==> v in xs || v in ys
  {
    if ys == [] then xs
    else
      var p := UnionInto(xs, ys[..|ys| - 1]);
      var y := ys[|ys| - 1];
      assert ys == ys[..|ys| - 1] + [y];
      if y in p then p else p + [y]
  }

  /** The position of the first occurrence of `v` in `s`. */
  function IndexIn(s: seq<Value>, v: Value): (r: nat)
    requires v in s
    ensures r < |s| && s[r] == v
    ensures forall j :: 0 <= j < r ==> s[j] != v
  {
    if s[0] == v then 0 else 1 + IndexIn(s[1..], v)
  }

  /** Extending a list does not move the first occurrence of an item it already holds. */
  lemma IndexInPrefix(s: seq<Value>, y: Value, v: Value)
    requires v in s
    ensures IndexIn(s + [y], v) == IndexIn(s, v)
  {
    var a, b := IndexIn(s + [y], v), IndexIn(s, v);
    assert (s + [y])[b] == v;
    assert a < |s| ==> s[a] == (s + [y])[a];
  }

  /**
   * What a union appends: items of `ys` that `xs` lacks, each once, in the
   * order of their first appearance in `ys`.
   */
  lemma {:induction false} UnionIntoTail(xs: seq<Value>, ys: seq<Value>)
    ensures forall k :: |xs| <= k < |UnionInto(xs, ys)| ==> UnionInto(xs, ys)[k] !in xs && UnionInto(xs, ys)[k] in ys
    ensures forall k, l :: |xs| <= k < l < |UnionInto(xs, ys)| ==>
              UnionInto(xs, ys)[k] != UnionInto(xs, ys)[l]
              && IndexIn(ys, UnionInto(xs, ys)[k]) < IndexIn(ys, UnionInto(xs, ys)[l])
  {
    if ys != [] {
      var init := ys[..|ys| - 1];
      var y := ys[|ys| - 1];
      assert ys == init + [y];
      UnionIntoTail(xs, init);
      var p := UnionInto(xs, init);
      forall k | |xs| <= k < |p|
        ensures p[k] in init && IndexIn(ys, p[k]) == IndexIn(init, p[k])
      {
        IndexInPrefix(init, y, p[k]);
      }
      if y !in p {
        assert y !in init;
        assert IndexIn(ys, y) == |init|;
      }
    }
  }

  /** A union never introduces a duplicate. */
  lemma {:induction false} UnionNoDuplicates(xs: seq<Value>, ys: seq<Value>)
    requires NoDuplicates(xs)
    ensures NoDuplicates(UnionInto(xs, ys))
  {
    if ys != [] {
      UnionNoDuplicates(xs, ys[..|ys| - 1]);
    }
  }

  /** Incoming items that are all present already change nothing. */
  lemma {:induction false} UnionOfPresent(xs: seq<Value>, ys: seq<Value>)
    requires forall v :: v in ys ==> v in xs
    ensures UnionInto(xs, ys) == xs
  {
    if ys != [] {
      assert ys == ys[..|ys| - 1] + [ys[|ys| - 1]];
      UnionOfPresent(xs, ys[..|ys| - 1]);
    }
  }

  /** Merging the same incoming list twice is merging it once. */
  lemma UnionIdempotent(xs: seq<Value>, ys: seq<Value>)
    ensures UnionInto(UnionInto(xs, ys), ys) == UnionInto(xs, ys)
  {
    UnionOfPresent(UnionInto(xs, ys), ys);
  }

  /** The list an entity holds under a provenance field, empty when it has none. */
  function ListOf(e: Entity, f: string): seq<Value>
    requires ProvenanceTyped(e) && IsProvenanceField(f)
  {
    if f in e then e[f].items else []
  }

  /** One provenance field of `x` after merging `n` into it. */
  function MergeField(x: Entity, n: Entity, f: string): (r: Entity)
    requires ProvenanceTyped(x) && ProvenanceTyped(n) && IsProvenanceField(f)
    ensures ProvenanceTyped(r)
  {
    if f in n then x[f := Arr(UnionInto(ListOf(x, f), n[f].items))] else x
  }

  /** `x` after merging `n` into it field by field, for the fields `fs`. */
  function MergeFields(x: Entity, n: Entity, fs: seq<string>): (r: Entity)
    requires ProvenanceTyped(x) && ProvenanceTyped(n)
    requires forall i :: 0 <= i < |fs| ==> IsProvenanceField(fs[i])
    ensures ProvenanceTyped(r)
  {
    if fs == [] then x
    else MergeField(MergeFields(x, n, fs[..|fs| - 1]), n, fs[|fs| - 1])
  }

  /** Field by field, each listed field is merged exactly once and no other field changes. */
  lemma {:induction false} MergeFieldsEffect(x: Entity, n: Entity, fs: seq<string>)
    requires ProvenanceTyped(x) && ProvenanceTyped(n)
    requires forall i :: 0 <= i < |fs| ==> IsProvenanceField(fs[i])
    requires forall i, j :: 0 <= i < j < |fs| ==> fs[i] != fs[j]
    ensures var r := MergeFields(x, n, fs);
            && (forall g :: g !in fs ==> (g in r <==> g in x) && (g in x ==> r[g] == x[g]))
            && (forall f :: f in fs && f !in n ==> (f in r <==> f in x) && (f in x ==> r[f] == x[f]))
            && (forall f :: f in fs && f in n ==> f in r && r[f] == Arr(UnionInto(ListOf(x, f), n[f].items)))
  {
    if fs != [] {
      var init := fs[..|fs| - 1];
      var last := fs[|fs| - 1];
      MergeFieldsEffect(x, n, init);
      assert fs == init + [last];
      assert last !in init;
    }
  }

  /**
   * The entity-level merge: every non-provenance field (the id among them)
   * keeps its value, a provenance field the incoming entity lacks is left
   * alone, and one it carries becomes the existing list (empty if absent)
   * united with the incoming list.
   */
  function MergedEntity(x: Entity, n: Entity): (r: Entity)
    requires ProvenanceTyped(x) && ProvenanceTyped(n)
    ensures ProvenanceTyped(r)
    ensures r["id"] == x["id"]
  {
    MergeFieldsEffect(x, n, ProvenanceFields);
    MergeFields(x, n, ProvenanceFields)
  }

  /**
   * The effect of the entity-level merge, field by field: every
   * non-provenance field keeps its value, a provenance field the incoming
   * entity lacks is left alone, and one it carries becomes the existing list
   * (created empty when absent) united with the incoming list.
   */
  lemma MergedEntityEffect(x: Entity, n: Entity)
    requires ProvenanceTyped(x) && ProvenanceTyped(n)
    ensures var r := MergedEntity(x, n);
            && (forall g :: !IsProvenanceField(g) ==> (g in r <==> g in x) && (g in x ==> r[g] == x[g]))
            && (forall f :: IsProvenanceField(f) && f !in n ==> (f in r <==> f in x) && (f in x ==> r[f] == x[f]))
            && (forall f :: IsProvenanceField(f) && f in n ==> f in r && r[f] == Arr(UnionInto(ListOf(x, f), n[f].items)))
  {
    MergeFieldsEffect(x, n, ProvenanceFields);
  }

  /** `x` already holds, under each provenance field `n` carries, every item of `n`'s list. */
  predicate Absorbs(x: Entity, n: Entity)
    requires ProvenanceTyped(x) && ProvenanceTyped(n)
  {
    forall f :: IsProvenanceField(f) && f in n ==> f in x && forall v :: v in n[f].items ==> v in x[f].items
  }

  /** After a merge the result holds everything the incoming entity brought. */
  lemma MergedAbsorbs(x: Entity, n: Entity)
    requires ProvenanceTyped(x) && ProvenanceTyped(n)
    ensures Absorbs(MergedEntity(x, n), n)
  {
    MergedEntityEffect(x, n);
  }

  /** Merging an entity that is already absorbed is a no-op. */
  lemma {:induction false} MergeOfAbsorbed(x: Entity, n: Entity)
    requires ProvenanceTyped(x) && ProvenanceTyped(n)
    requires Absorbs(x, n)
    ensures MergedEntity(x, n) == x
  {
    var r := MergedEntity(x, n);
    MergedEntityEffect(x, n);
    forall f | IsProvenanceField(f) && f in n
      ensures r[f] == x[f]
    {
      UnionOfPresent(ListOf(x, f), n[f].items);
    }
    assert r.Keys == x.Keys;
  }

  /** Merging more into an entity never loses what it had absorbed. */
  lemma MergeKeepsAbsorbed(x: Entity, n: Entity, m: Entity)
    requires ProvenanceTyped(x) && ProvenanceTyped(n) && ProvenanceTyped(m)
    requires Absorbs(x, m)
    ensures Absorbs(MergedEntity(x, n), m)
  {
    var r := MergedEntity(x, n);
    MergedEntityEffect(x, n);
    forall f, v | IsProvenanceField(f) && f in m && v in m[f].items
      ensures f in r && v in r[f].items
    {
      if f in n {
        assert v in ListOf(x, f);
      }
    }
  }

  /** An entity with list-valued provenance absorbs itself. */
  lemma SelfAbsorbs(n: Entity)
    requires ProvenanceTyped(n)
    ensures Absorbs(n, n)
  {
  }

  /** Re-applying the same incoming entity is a no-op. */
  lemma MergeEntityIdempotent(x: Entity, n: Entity)
    requires ProvenanceTyped(x) && ProvenanceTyped(n)
    ensures MergedEntity(MergedEntity(x, n), n) == MergedEntity(x, n)
  {
    MergedAbsorbs(x, n);
    MergeOfAbsorbed(MergedEntity(x, n), n);
  }

  /** A provenance list without duplicates stays without duplicates. */
  lemma MergeKeepsListsDistinct(x: Entity, n: Entity, f: string)
    requires ProvenanceTyped(x) && ProvenanceTyped(n) && IsProvenanceField(f)
    requires NoDuplicates(ListOf(x, f))
    ensures NoDuplicates(ListOf(MergedEntity(x, n), f))
  {
    MergedEntityEffect(x, n);
    if f in n {
      UnionNoDuplicates(ListOf(x, f), n[f].items);
    }
  }

  /** Every prefix of the provenance field list is a valid argument of MergeFields. */
  lemma FieldsPrefix(k: nat)
    requires k <= |ProvenanceFields|
    ensures forall i :: 0 <= i < k ==> IsProvenanceField(ProvenanceFields[..k][i])
  {
  }

  /** The inner loop of `_merge_entity`: appends each item of `ys` that `xs` does not hold yet. */
  method AppendMissing(xs: seq<Value>, ys: seq<Value>) returns (r: seq<Value>)
    ensures r == UnionInto(xs, ys)
  {
    r := xs;
    var j := 0;
    while j < |ys|
      invariant 0 <= j <= |ys|
      invariant r == UnionInto(xs, ys[..j])
    {
      assert ys[..j + 1][..j] == ys[..j];
      if ys[j] !in r {
        r := r + [ys[j]];
      }
      j := j + 1;
    }
    assert ys[..j] == ys;
  }

  /**
   * `_merge_entity`: for each provenance field the incoming entity carries,
   * creates the field empty on `existing` when it is absent, then grows it
   * with the incoming items it does not hold yet.
   */
  method MergeEntity(existing: Entity, incoming: Entity) returns (merged: Entity)
    requires ProvenanceTyped(existing) && ProvenanceTyped(incoming)
    ensures merged == MergedEntity(existing, incoming)
  {
    merged := existing;
    var k := 0;
    FieldsPrefix(0);
    while k < |ProvenanceFields|
      invariant 0 <= k <= |ProvenanceFields|
      invariant merged == MergeFields(existing, incoming, ProvenanceFields[..k])
    {
      var field := ProvenanceFields[k];
      FieldsPrefix(k + 1);
      ghost var next := MergeFields(existing, incoming, ProvenanceFields[..k + 1]);
      assert ProvenanceFields[..k + 1][..k] == ProvenanceFields[..k];
      assert next == MergeField(merged, incoming, field);
      if field in incoming {
        var current := if field in merged then merged[field].items else [];
        assert current == ListOf(merged, field);
        var grown := AppendMissing(current, incoming[field].items);
        merged := merged[field := Arr(grown)];
      }
      assert merged == next;
      k := k + 1;
    }
    assert ProvenanceFields[..k] == ProvenanceFields;
  }
}

/**
 * Referential integrity (`validate` in core/graph_manager.py): the ids known
 * across the configured collections, and the issues raised by relationships
 * whose endpoints are not among them.
 */
module Validation {
  import opened Records

  /**
   * One finding: a relationship endpoint that names no known entity. The
   * source renders it as "Relationship references unknown 'from' ID: <id>"
   * (or 'to').
   */
  datatype Issue = UnknownFrom(id: Value) | UnknownTo(id: Value)

  /** The ids of every entity in the collections the names select (a missing collection counts as empty). */
  function AllIds(cols: map<string, seq<Entity>>, names: seq<string>): (r: set<Value>)
    ensures forall n, id :: n in names && n in cols && id in Ids(cols[n]) ==> id in r
  {
    if names == [] then {}
    else
      var init := names[..|names| - 1];
      var last := names[|names| - 1];
      assert names == init + [last];
      AllIds(cols, init) + (if last in cols then Ids(cols[last]) else {})
  }

  /** Every known id comes from a selected collection. */
  lemma {:induction false} AllIdsSound(cols: map<string, seq<Entity>>, names: seq<string>, id: Value)
    requires id in AllIds(cols, names)
    ensures exists n :: n in names && n in cols && id in Ids(cols[n])
  {
    var init := names[..|names| - 1];
    var last := names[|names| - 1];
    if id in AllIds(cols, init) {
      AllIdsSound(cols, init, id);
      var n :| n in init && n in cols && id in Ids(cols[n]);
      assert n in names;
    } else {
      assert last in names;
    }
  }

  /** The issues one relationship raises: one per unknown endpoint, its `from` first, then its `to`. */
  function IssuesOf(rel: Rel, ids: set<Value>): (r: seq<Issue>)
    ensures UnknownFrom(rel["from"]) in r <==> rel["from"] !in ids
    ensures UnknownTo(rel["to"]) in r <==> rel["to"] !in ids
    ensures |r| == (if rel["from"] !in ids then 1 else 0) + (if rel["to"] !in ids then 1 else 0)
    ensures forall k :: 0 <= k < |r| ==> r[k] == UnknownFrom(rel["from"]) || r[k] == UnknownTo(rel["to"])
    ensures |r| == 2 ==> r[0].UnknownFrom? && r[1].UnknownTo?
  {
    (if rel["from"] !in ids then [UnknownFrom(rel["from"])] else [])
    + (if rel["to"] !in ids then [UnknownTo(rel["to"])] else [])
  }

  /** The issues of a relationship list, in relationship order. */
  function Issues(rels: seq<Rel>, ids: set<Value>): (r: seq<Issue>)
    ensures forall k :: 0 <= k < |r| ==> r[k].id !in ids
  {
    if rels == [] then []
    else Issues(rels[..|rels| - 1], ids) + IssuesOf(rels[|rels| - 1], ids)
  }

  /** No issue exactly when every endpoint of every relationship is a known id. */
  lemma {:induction false} IssuesEmptyIff(rels: seq<Rel>, ids: set<Value>)
    ensures Issues(rels, ids) == [] <==> forall i :: 0 <= i < |rels| ==> rels[i]["from"] in ids && rels[i]["to"] in ids
  {
    if rels != [] {
      var init := rels[..|rels| - 1];
      IssuesEmptyIff(init, ids);
      assert forall i :: 0 <= i < |init| ==> init[i] == rels[i];
    }
  }

  /** The issues of a concatenation are the issues of each part, in order. */
  lemma {:induction false} IssuesAppend(a: seq<Rel>, b: seq<Rel>, ids: set<Value>)
    ensures Issues(a + b, ids) == Issues(a, ids) + Issues(b, ids)
  {
    if b == [] {
      assert a + b == a;
    } else {
      var init := b[..|b| - 1];
      assert (a + b)[..|a + b| - 1] == a + init;
      assert (a + b)[|a + b| - 1] == b[|b| - 1];
      IssuesAppend(a, init, ids);
    }
  }

  /** Every dangling endpoint raises its issue. */
  lemma IssuesComplete(rels: seq<Rel>, ids: set<Value>, i: nat)
    requires i < |rels|
    ensures rels[i]["from"] !in ids ==> UnknownFrom(rels[i]["from"]) in Issues(rels, ids)
    ensures rels[i]["to"] !in ids ==> UnknownTo(rels[i]["to"]) in Issues(rels, ids)
  {
    assert rels == rels[..i] + [rels[i]] + rels[i + 1..];
    IssuesAppend(rels[..i] + [rels[i]], rels[i + 1..], ids);
    IssuesAppend(rels[..i], [rels[i]], ids);
    assert [rels[i]][..0] == [];
  }
}

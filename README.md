# Knowledge-graph store: a Dafny model

This project models the core of a small knowledge-graph toolkit. Two pieces are modelled:

- **The graph store** (`GraphManager`). It holds one graph document in memory:
  - a metadata block;
  - one list of entities per configured collection;
  - a flat list of relationships.

  Its operations insert, update and look up entities, insert relationships without duplicating a `(from, to, type)` triple, merge a foreign document into the store, count the collections and validate referential integrity.
- **The schema lookup layer** (`GraphConfig`). These are read-only accessors with defaults over an already-parsed configuration mapping: category → collection-name resolution, labels, relationship-type settings, paths and colours.

Files and modules:

- `records.dfy` (`Records`): JSON values, entities (an open field map with a mandatory `id`), relationships (with mandatory `from`, `to` and `type`), the id and triple sets of a list, and the document.
- `config.dfy` (`GraphConfig`): configuration validation and the accessors, including pathlib-style path joining.
- `provenance.dfy` (`Provenance`): `_merge_entity`. Its specification is `MergedEntity`; the imperative method `MergeEntity` is proved equal to it.
- `merge_spec.dfy` (`MergeSpec`):
  - what `merge` computes, as functions on values: per collection, per configured name list, for relationships and for the whole document, plus the reported counters;
  - the lemmas about those functions: sizes, absorption, id and triple uniqueness, idempotence.
- `validation.dfy` (`Validation`): the ids `validate` gathers and the issues it reports.
- `graph_manager.dfy` (`GraphManager`):
  - the `GraphStore` class, whose fields `metadata`, `collections` and `relationships` are updated in place by its methods;
  - the loop-level methods that `merge` and `validate` are made of, each proved against the specification functions.
- `wrappers.dfy` (`Wrappers`): `Option` and `Result`.

## Model

| member | source | states |
|---|---|---|
| GraphConfig.FirstMissing | core/config_loader.py:29-32 | the required fields are scanned in order; the result is None exactly when all are present, otherwise the first one absent, with every earlier one present |
| GraphConfig.MissingField | core/config_loader.py:27-32 | validation succeeds if and only if `domain`, `entity_types` and `paths` are all present; otherwise it reports `domain`, then `entity_types`, then `paths`, whichever is missing first |
| GraphConfig.Domain | core/config_loader.py:34-36 | the configured domain |
| GraphConfig.Version | core/config_loader.py:38-40 | the configured version, or "1.0" when absent |
| GraphConfig.EntityTypeConfig | core/config_loader.py:46-48 | the mapping declared for a category, or the empty mapping for an undeclared one |
| GraphConfig.EntityName | core/config_loader.py:50-52 | a category's configured `name`, or the category itself when the category or its `name` is missing |
| GraphConfig.EntityLabel | core/config_loader.py:54-59 | `label_plural`/`label_singular` when configured, otherwise exactly what the name resolution returns (so `name`, then the category) |
| GraphConfig.CollectionNames | core/graph_manager.py:46-48 | one collection name per declared category, in declaration order, each equal to that category's resolved name |
| GraphConfig.EntityNameResolves | core/config_loader.py:50-52 | in a valid schema, a declared category resolves to one of the collection names and an undeclared one resolves to itself |
| GraphConfig.RelationshipTypes | core/config_loader.py:61-63 | `relationships.types`, or an empty list when either level is missing |
| GraphConfig.FindRelationshipConfig | core/config_loader.py:65-71 | an error points at an entry of the list that is not a mapping with a `name` |
| GraphConfig.FindRelationshipConfigOutcomes | core/config_loader.py:66-71 | a non-empty result is the first entry named `relType`, with all earlier entries named otherwise; the result is the empty mapping if and only if every entry is named otherwise; an error is at the first unnamed entry |
| GraphConfig.CustomRelationshipTypes | core/config_loader.py:67 | the configured `custom_variables.relationship_types` list, or the empty list when `custom_variables` or `relationship_types` is missing |
| GraphConfig.RelationshipConfig | core/config_loader.py:65-71 | with no configured `relationship_types` the result is the empty mapping |
| GraphConfig.GetPath | core/config_loader.py:77-79 | the configured path, or "" for a key missing from `paths` |
| GraphConfig.SplitSlash | core/config_loader.py:83 | the pieces between slashes: none holds a slash, and joining them with single slashes gives the string back |
| GraphConfig.KeptParts | core/config_loader.py:83 | a piece is kept exactly when it is neither empty nor "." |
| GraphConfig.KeptPartsInOrder | core/config_loader.py:83 | the kept pieces are a subsequence of the pieces: their order is kept |
| GraphConfig.KeptPartsAppend | core/config_loader.py:83 | filtering a concatenation filters each part in place, so each piece is kept or dropped on its own |
| GraphConfig.ParsePath | core/config_loader.py:81-83 | a path string is absolute exactly when it starts with '/'; its components are the pieces between slashes that are neither empty nor ".", in their original order (the kept pieces of the split) |
| GraphConfig.Join | core/config_loader.py:83 | an absolute right operand replaces the left; otherwise the components are concatenated and absoluteness is kept |
| GraphConfig.Parent | core/config_loader.py:83 | the parent drops the last component, and a path without components is its own parent |
| GraphConfig.ResolvePath | core/config_loader.py:81-83 | an absolute path string is kept as is; a relative one is placed under the configuration file's directory |
| GraphConfig.EntitiesFilePath | core/config_loader.py:85-89 | the graph document's location is the configuration directory joined with `data_dir`, then with `entities_file` |
| GraphConfig.ColorForType | core/config_loader.py:99-102 | the configured colour of the type, or "#7f8c8d" when `visualization`, `colors` or the type is missing |
| Records.IdsAppend | core/graph_manager.py:81 | appending an entity adds exactly its id to the collection's id set |
| Records.IdsMember | core/graph_manager.py:81 | an id is in the id set exactly when some entity of the collection carries it |
| Records.KeysMember | core/graph_manager.py:172 | a triple is in the triple set exactly when some relationship of the list carries it |
| Validation.AllIds | core/graph_manager.py:213-218 | every id of every configured collection is gathered; a missing collection counts as empty |
| Validation.AllIdsSound | core/graph_manager.py:213-218 | every gathered id comes from a configured collection |
| Validation.IssuesOf | core/graph_manager.py:222-225 | one relationship raises an unknown-`from` issue exactly when its `from` is unknown and an unknown-`to` issue exactly when its `to` is unknown, each once, `from` before `to`, and nothing else |
| Validation.Issues | core/graph_manager.py:220-225 | every reported issue names an id outside the known ids |
| Validation.IssuesEmptyIff | core/graph_manager.py:209-227 | there are no issues if and only if every relationship's `from` and `to` are known ids |
| Validation.IssuesAppend | core/graph_manager.py:221-225 | issues are reported in relationship order: the issues of a concatenation are those of each part, in order |
| Validation.IssuesComplete | core/graph_manager.py:222-225 | every dangling `from` and every dangling `to` raises its issue |
| Provenance.UnionInto | core/graph_manager.py:193-195 | the existing list is kept as a prefix, and the result holds exactly the items of both lists |
| Provenance.IndexIn | core/graph_manager.py:193-195 | the position of the first occurrence of an item in a list |
| Provenance.IndexInPrefix | core/graph_manager.py:193-195 | extending a list does not move the first occurrence of an item it already holds |
| Provenance.UnionIntoTail | core/graph_manager.py:193-195 | the appended items are incoming items the existing list lacks, each once, in the order of their first appearance in the incoming list |
| Provenance.UnionNoDuplicates | core/graph_manager.py:193-195 | a list without duplicates stays without duplicates |
| Provenance.UnionOfPresent | core/graph_manager.py:193-195 | incoming items that are all present change nothing |
| Provenance.UnionIdempotent | core/graph_manager.py:193-195 | uniting the same incoming list twice is uniting it once |
| Provenance.ProvenanceFieldsListed | core/graph_manager.py:186 | a field is a provenance field exactly when it is one of `source_papers`, `mentioned_in`, `key_papers` |
| Provenance.MergeField | core/graph_manager.py:189-195 | merging one provenance field keeps all provenance fields list-valued |
| Provenance.MergeFields | core/graph_manager.py:188-195 | merging a run of provenance fields keeps all of them list-valued |
| Provenance.MergeFieldsEffect | core/graph_manager.py:188-195 | each listed field is merged exactly once; an unlisted field, or a listed one the incoming entity lacks, is unchanged |
| Provenance.MergedEntity | core/graph_manager.py:183-195 | the entity-level merge keeps the id and list-valued provenance |
| Provenance.MergedEntityEffect | core/graph_manager.py:183-195 | only `source_papers`, `mentioned_in` and `key_papers` can change; each one the incoming entity carries becomes the existing list (empty if absent) united with the incoming list in order of first appearance |
| Provenance.MergedAbsorbs | core/graph_manager.py:188-195 | after the merge the entity holds every provenance item the incoming entity brought |
| Provenance.MergeOfAbsorbed | core/graph_manager.py:188-195 | merging an entity whose items are all held already is a no-op |
| Provenance.MergeKeepsAbsorbed | core/graph_manager.py:188-195 | merging never loses an item that was held |
| Provenance.SelfAbsorbs | core/graph_manager.py:188-195 | an entity holds its own provenance items |
| Provenance.MergeEntityIdempotent | core/graph_manager.py:183-195 | re-applying the same incoming entity is a no-op |
| Provenance.MergeKeepsListsDistinct | core/graph_manager.py:193-195 | a provenance list without duplicates stays without duplicates |
| Provenance.AppendMissing | core/graph_manager.py:193-195 | the item-by-item loop computes the order-preserving union |
| Provenance.MergeEntity | core/graph_manager.py:183-195 | the field loop of `_merge_entity` computes the entity-level merge |
| MergeSpec.LastIndexOfId | core/graph_manager.py:156 | the lookup finds nothing exactly when the id is absent; otherwise a position carrying the id |
| MergeSpec.LastIndexIsLast | core/graph_manager.py:156 | no later entity carries the id: with duplicate ids the lookup keeps the last one |
| MergeSpec.LastIndexIs | core/graph_manager.py:156 | the last position carrying an id is what the lookup finds |
| MergeSpec.MergeCollection | core/graph_manager.py:156-168 | merging into a collection never shrinks it and keeps list-valued provenance |
| MergeSpec.MergeCollectionKeepsIds | core/graph_manager.py:158-168 | no pre-existing position changes its id |
| MergeSpec.CountKnown | core/graph_manager.py:161-164 | the `merged` counter never exceeds the incoming count |
| MergeSpec.CountUnknown | core/graph_manager.py:165-168 | the `added` and `merged` counters together equal the number of incoming entities |
| MergeSpec.MergeCollectionStepKnown | core/graph_manager.py:161-164 | an incoming entity the lookup finds is merged into the entity at the found position, and `merged` grows by one |
| MergeSpec.MergeCollectionStepNew | core/graph_manager.py:165-168 | an incoming entity the lookup misses is appended, and `merged` is unchanged |
| MergeSpec.MergeCollectionSize | core/graph_manager.py:158-168 | the collection grows by exactly the number of incoming entities the lookup misses |
| MergeSpec.MergeCollectionAppended | core/graph_manager.py:165-168 | every appended entity carries an incoming id that the pre-merge collection lacked |
| MergeSpec.NoLaterIdAfterMerge | core/graph_manager.py:156-168 | past the looked-up position, no entity of the merged collection carries that id |
| MergeSpec.AbsorbedAfterMergeAt | core/graph_manager.py:161-163 | merging at the looked-up position absorbs the new entity and keeps earlier absorptions |
| MergeSpec.AbsorbedAfterAppend | core/graph_manager.py:165-167 | appending an entity with a new id absorbs it and keeps earlier absorptions |
| MergeSpec.MergeCollectionSnocKnown | core/graph_manager.py:161-163 | one more incoming entity that the lookup finds replaces the found entity by its merge |
| MergeSpec.MergeCollectionSnocNew | core/graph_manager.py:165-167 | one more incoming entity that the lookup misses is appended |
| MergeSpec.AbsorbsStepKnown | core/graph_manager.py:161-163 | absorption of all incoming entities survives one more entity that is merged |
| MergeSpec.AbsorbsStepNew | core/graph_manager.py:165-167 | absorption of all incoming entities survives one more entity that is appended |
| MergeSpec.MergeCollectionAbsorbs | core/graph_manager.py:156-168 | with distinct incoming ids, the merged collection absorbs every incoming entity |
| MergeSpec.MergeOfAbsorbedCollection | core/graph_manager.py:156-168 | merging entities that are all absorbed already changes nothing |
| MergeSpec.MergeCollectionIdempotent | core/graph_manager.py:156-168 | with distinct incoming ids, merging one collection twice is merging it once |
| MergeSpec.UniqueAfterReplace | core/graph_manager.py:163 | replacing an entity by one with the same id keeps ids distinct |
| MergeSpec.UniqueAfterAppend | core/graph_manager.py:167 | appending an entity with a new id keeps ids distinct |
| MergeSpec.MergeCollectionKeepsIdsUnique | core/graph_manager.py:156-168 | id-uniqueness is preserved when the incoming ids are themselves distinct |
| MergeSpec.DuplicateIncomingIdsBothAppended | core/graph_manager.py:156-167 | because the lookup is never extended, two incoming entities sharing an id the pre-merge collection lacks are both appended, in order, after the pre-merge collection, which then carries that id twice |
| MergeSpec.MergeStep | core/graph_manager.py:147-168 | one configured collection is merged, and every other collection is unchanged |
| MergeSpec.MergeCollections | core/graph_manager.py:146-168 | merging the configured collections keeps the set of collections |
| MergeSpec.MergeCollectionsSkips | core/graph_manager.py:149-150 | a collection the incoming data lacks, or one that is not configured, is left unchanged |
| MergeSpec.MergeCollectionsStep | core/graph_manager.py:146-168 | visiting one more configured name is one more merge step |
| MergeSpec.MergedCounts | core/graph_manager.py:152-164 | the `merged` counters are kept only for configured names the merge visited |
| MergeSpec.AddedCounts | core/graph_manager.py:152-168 | the `added` counters are kept only for configured names the merge visited |
| MergeSpec.MergedCountsStep | core/graph_manager.py:152-164 | visiting one more configured name sets only that name's `merged` counter |
| MergeSpec.MergedCountsOfDistinct | core/graph_manager.py:152-164 | with each name configured once, each `merged` counter counts the incoming ids found in the pre-merge collection |
| MergeSpec.AddedCountsStep | core/graph_manager.py:152-168 | visiting one more configured name sets only that name's `added` counter |
| MergeSpec.VisitedStep | core/graph_manager.py:149-168 | visiting a name the incoming data carries replaces that collection and records both of its counters |
| MergeSpec.SkippedStep | core/graph_manager.py:149-150 | visiting a name the incoming data lacks changes neither the collections nor the counters |
| MergeSpec.CountsCover | core/graph_manager.py:149-168 | counters exist exactly for the configured names carried by the incoming data and the store; per name, `added + merged` equals the incoming count |
| MergeSpec.MergeStepIdempotent | core/graph_manager.py:147-168 | with distinct incoming ids, one merge step is idempotent |
| MergeSpec.MergeStepsCommute | core/graph_manager.py:146-168 | merge steps on different collections commute |
| MergeSpec.MergedIsFixedPoint | core/graph_manager.py:146-168 | the merged collections are a fixed point of every step that was taken |
| MergeSpec.MergeOfFixedPoint | core/graph_manager.py:146-168 | merging into collections that every step leaves alone changes nothing |
| MergeSpec.MergeCollectionsIdempotent | core/graph_manager.py:146-168 | merging the same collections twice is merging them once, given distinct incoming ids |
| MergeSpec.MergeRelationships | core/graph_manager.py:170-179 | the existing list is a prefix of the result, and its triples are the union of both lists' triples |
| MergeSpec.KeysAppend | core/graph_manager.py:178 | appending a relationship adds exactly its triple |
| MergeSpec.MergeRelationshipsStep | core/graph_manager.py:174-179 | an incoming relationship is appended exactly when its triple is in neither the pre-existing list nor an earlier incoming relationship |
| MergeSpec.MergeRelationshipsKeepsKeysUnique | core/graph_manager.py:170-179 | a list without duplicate triples keeps none |
| MergeSpec.MergeRelationshipsCount | core/graph_manager.py:170-179 | the list gains exactly one relationship per incoming triple it did not hold |
| MergeSpec.MergeOfKnownRelationships | core/graph_manager.py:174-179 | incoming relationships whose triples are all known add nothing |
| MergeSpec.MergeRelationshipsIdempotent | core/graph_manager.py:170-179 | merging the same relationships twice is merging them once |
| MergeSpec.MergeDocument | core/graph_manager.py:138-181 | the merge keeps the metadata and the set of collections |
| MergeSpec.MergeDocumentIdempotent | core/graph_manager.py:138-181 | merging the same document twice is merging it once, given distinct ids in each incoming collection |
| GraphManager.ReservedKeysNotConfigured | core/graph_manager.py:35-48 | in a store schema no collection is named "metadata" or "relationships" |
| GraphManager.FirstIndexOfId | core/graph_manager.py:92-93 | the search finds nothing exactly when the id is absent; otherwise the first position carrying it |
| GraphManager.Updated | core/graph_manager.py:94 | every key of the updates overwrites the field; every other field keeps its value |
| GraphManager.UpdatedAt | core/graph_manager.py:92-95 | only the entity at the given position changes, and it is updated |
| GraphManager.NewRelationship | core/graph_manager.py:119-125 | the record built has exactly the five fields `from`, `to`, `type`, `description` and `strength`, carrying the given triple, description and strength |
| GraphManager.AppendUnseenKeepsIdsUnique | core/graph_manager.py:80-85 | appending an entity whose id is unseen keeps the collection's ids distinct |
| GraphManager.AddRelationshipIsSingletonMerge | core/graph_manager.py:113-127 | inserting one relationship is the relationship merge of that single record |
| GraphManager.AddEntityGuardAsWritten | core/graph_manager.py:77 | the guard as written accepts any document key: the collections, "metadata" and "relationships" |
| GraphManager.RecordIds | core/graph_manager.py:81 | the collected ids are exactly the ids the raw records carry: every carried id is collected, and every collected id is carried by some record |
| GraphManager.AddEntityAsWritten | core/graph_manager.py:75-86 | add_entity as written raises exactly when the guard fails, for "metadata", or for "relationships" with a record lacking an `id`; for a collection it appends an unseen entity and leaves the relationships alone; for "relationships" it appends an unseen entity to the relationship list and leaves the collections alone |
| GraphManager.AddEntityGuardLetsRelationshipsThrough | core/graph_manager.py:75-85 | with no category "relationships" declared and an empty relationship list, that category resolves to the relationship list's key, add_entity as written returns true, and the relationship list then holds the entity, a record without `from` |
| GraphManager.BuildLookup | core/graph_manager.py:156 | the lookup holds exactly the collection's ids, each mapped to the last position carrying it |
| GraphManager.MergeEntities | core/graph_manager.py:156-168 | the per-collection loop computes the collection merge; `merged` counts the found ids and `added + merged` is the incoming count |
| GraphManager.AppendNewRelationships | core/graph_manager.py:171-179 | the relationship loop computes the relationship merge; its counter is the number appended |
| GraphManager.MergeConfiguredCollections | core/graph_manager.py:143-168 | the collection loop computes the merged collections and the `added` and `merged` counters |
| GraphManager.MergeDocumentValues | core/graph_manager.py:138-181 | merge on values computes the document merge; `added.relationships` is the number of relationships appended |
| GraphManager.AddIds | core/graph_manager.py:217-218 | the loop over one collection adds exactly that collection's ids |
| GraphManager.CollectIds | core/graph_manager.py:213-218 | the id-gathering loops compute the ids of all configured collections |
| GraphManager.ListIssues | core/graph_manager.py:220-225 | the checking loop computes the issue list |
| GraphManager.GraphStore.Init | core/graph_manager.py:33-50 | a new store has one empty collection per configured name and no relationships; its metadata is the configured domain and version plus the date, as both created and last updated |
| GraphManager.GraphStore.FromDocument | core/graph_manager.py:28-31 | a loaded document is held verbatim |
| GraphManager.GraphStore.Save | core/graph_manager.py:57-58 | `last_updated` becomes the given date, and nothing else changes |
| GraphManager.GraphStore.AddEntity | core/graph_manager.py:64-86 | fails exactly when the resolved name is not a collection; returns false, with nothing changed, when the id is present; otherwise appends exactly that entity and returns true; metadata and relationships never change; id-uniqueness is kept; whenever it succeeds it agrees with add_entity as written |
| GraphManager.GraphStore.UpdateEntity | core/graph_manager.py:88-97 | fails exactly when the resolved collection is missing; shallow-updates the first entity carrying the id and returns true; returns false, with nothing changed, when none does |
| GraphManager.GraphStore.GetEntity | core/graph_manager.py:99-107 | fails exactly when the resolved collection is missing; returns the first entity carrying the id, or none exactly when the id is absent; changes nothing |
| GraphManager.GraphStore.AddRelationship | core/graph_manager.py:109-128 | returns true exactly when the triple is new, and then appends one record with the given description and strength (defaults "" and "moderate"); otherwise nothing changes; triple-uniqueness is kept |
| GraphManager.GraphStore.Merge | core/graph_manager.py:138-181 | the new document is the document merge of the old one; the counters are those of the collection loop, plus the number of relationships appended |
| GraphManager.GraphStore.GetStats | core/graph_manager.py:197-207 | each configured collection maps to its length (0 when missing) and "relationships" to the relationship count; there are no other keys |
| GraphManager.GraphStore.Validate | core/graph_manager.py:209-227 | the result is the issue list for the ids of all configured collections; it is empty if and only if every endpoint is a known id; nothing changes |

## Left out

- Reading and writing files is not modelled. This covers the JSON read in `_load_graph`, the directory creation and file write in `save`, the YAML read in `_load_config`, and the existence check in `_load_or_init`. The loaded document and configuration are values. A loaded document is taken as `GraphStore.FromDocument`, and `_init_graph` as `GraphStore.Init`.
- `merge_from_file` is not modelled. It is a file read followed by `merge`; `merge` itself is modelled.
- The current date is a parameter (`today`) instead of a clock read. `_init_graph` reads the clock twice (core/graph_manager.py:39-40), so `created` and `last_updated` can differ across midnight. `GraphStore.Init` stamps both with the same `today`.
- Aliasing is not modelled. The model works on values. In the source:
  - an appended incoming entity is the same dict object as in the incoming data;
  - `update_entity` and `_merge_entity` mutate dicts in place;
  - `get_entity` returns the stored dict itself.

  Later mutation through such shared references is outside the model.
- JSON values leave out floating point, and equality on them is structural. Python's `1 == True` and `1 == 1.0` are not modelled.
- Unhashable ids are not modelled as errors. The source puts entity ids and relationship triples into sets and dict keys (core/graph_manager.py:81-82, 156, 161, 172, 176, 218, 222, 224), which raises `TypeError` when an id or endpoint is a list or a mapping. The model accepts `Arr` and `Obj` ids and compares them structurally.
- A document's keys are split into metadata, relationships and named collections. A configured collection named "metadata" or "relationships" would collide with those keys; the store schema excludes it (`GraphManager.StoreSchema`).
- A missing key in the source raises `KeyError` or `TypeError`. The model instead requires well-shaped inputs:
  - every entity carries an `id`;
  - every relationship carries `from`, `to` and `type`;
  - provenance fields hold lists (`MergeSpec.CollectionsTyped`);
  - the configuration mappings have the shapes the accessors index (`TypesShaped`, `Schema`, `RelationshipsShaped`, `PathsShaped`, `CustomShaped`, `ColorsShaped`, `EntitiesPathShaped`).
- GraphManager.GraphStore.UpdateEntity: a category that resolves to "metadata" or "relationships" gives `MissingCollection`, because the store keeps those keys out of its collections. The source instead iterates that value of the document (core/graph_manager.py:92-97). For "relationships" it raises `KeyError` at a record without `id`, updates a relationship record whose `id` matches and returns true, or returns false. For "metadata" it raises `TypeError` on the first key, and returns false for an empty block.
- GraphManager.GraphStore.GetEntity: a category that resolves to "metadata" or "relationships" gives `MissingCollection`, for the same reason. The source (core/graph_manager.py:103-107) raises `KeyError` at a relationship record without `id`, returns a relationship record whose `id` matches, or returns None (also for an empty metadata block); it raises `TypeError` for a non-empty metadata block.
- GraphManager.GraphStore.Merge: requires every configured name present in the incoming data to be a collection of the store. The source raises `KeyError` part-way through the merge in that case, after earlier collections were already merged; that partial state is not modelled.
- GraphManager.GraphStore.Merge: states the relationship counter as the length difference of the relationship list. Its equality with the number of new triples is the separate lemma `MergeSpec.MergeRelationshipsCount`.
- The incoming document's missing `relationships` key, which the source reads as an empty list, is modelled as a `Document` whose relationship list is empty.
- GraphConfig.FindRelationshipConfig: its own contract only locates errors. The found-entry, empty-result and error cases are stated by `GraphConfig.FindRelationshipConfigOutcomes`. An entry without `name` is an error value (the source raises).
- MergeSpec.MergedCounts: its own contract only confines the counters to visited names; the exact key set, the per-name bound and the `added + merged` split are stated by `MergeSpec.CountsCover` and the counts against the pre-merge collection by `MergeSpec.MergedCountsOfDistinct`, kept out of the function's contract so the merge loop's proof stays small.
- MergeSpec.AddedCounts: as for `MergeSpec.MergedCounts`; its values are stated by `MergeSpec.CountsCover`.
- GraphConfig.RelationshipConfig: states only the no-configuration case; the search itself is stated by `GraphConfig.FindRelationshipConfigOutcomes`.
- The issues of `validate` are the datatype `Validation.Issue` rather than formatted strings.
- Path handling covers pathlib's joining, parent and "."/empty-component dropping. It does not cover `resolve()` (symlinks and the working directory), ".." components or the special meaning of a leading "//".
- `get_entity_types`, `get_paths`, `get_gemini_config` and `get_visual_config` are not modelled as separate members. Each returns one raw mapping; the accessors that read inside them are modelled.
- The update and add methods of `GraphStore` do not model Python's dynamic typing of the category argument. A configured `name` is a string in a valid schema, and a non-string resolved name is reported as an error.

## Findings

| source | as written | input that shows it | evidently intended | confidence | as-written member | corrected member |
|---|---|---|---|---|---|---|
| core/graph_manager.py:75-85 | the guard accepts any key of the document, including "metadata" and "relationships" | `add_entity("relationships", {"id": "a"})` with no category "relationships" declared and an empty relationship list (a non-empty list whose records lack `id` raises `KeyError` at line 81 instead): the name falls back to "relationships", passes the guard, and the entity is appended to the relationship list, which then holds a record without `from`, `to` or `type` | only configured entity collections accept entities | not executed | GraphManager.AddEntityGuardLetsRelationshipsThrough | GraphManager.GraphStore.AddEntity |

/**
 * The schema lookup layer: read-only accessors over an already parsed
 * configuration mapping (`GraphConfig` in core/config_loader.py). Every
 * accessor is a nested lookup with a default; YAML parsing is not modelled.
 */
module GraphConfig {
  import opened Wrappers
  import opened Records

  /** A filesystem path after pathlib normalisation: absolute or not, and its components. */
  datatype Path = Path(absolute: bool, parts: seq<string>)

  /**
   * A loaded configuration: the parsed mapping, the order in which the keys of
   * its `entity_types` mapping were written (a Python dict keeps insertion
   * order, a Dafny map does not), and the resolved location of the file.
   */
  datatype Config = Config(settings: map<string, Value>, categoryOrder: seq<string>, location: Path)

  /** Why a `custom_variables.relationship_types` search stopped before finding a match. */
  datatype LookupError = MalformedEntry(index: nat)

  const RequiredFields: seq<string> := ["domain", "entity_types", "paths"]
  const DefaultVersion: Value := Str("1.0")
  const DefaultColor: Value := Str("#7f8c8d")

  // ---------------------------------------------------------------------------
  // Validation
  // ---------------------------------------------------------------------------

  /** The first of `fields` that `settings` lacks, scanning in order. */
  function FirstMissing(settings: map<string, Value>, fields: seq<string>): (r: Option<string>)
    ensures r == None <==> forall i :: 0 <= i < |fields| ==> fields[i] in settings
    ensures r.Some? ==> exists i :: 0 <= i < |fields| && fields[i] == r.value && r.value !in settings
                          && forall j :: 0 <= j < i ==> fields[j] in settings
  {
    if fields == [] then None
    else if fields[0] !in settings then Some(fields[0])
    else
      var rest := FirstMissing(settings, fields[1..]);
      assert forall i :: 1 <= i < |fields| ==> fields[i] == fields[1..][i - 1];
      rest
  }

  /**
   * Validation of a loaded configuration: None when it is accepted, otherwise
   * the required field reported as missing, checked in the order domain,
   * entity_types, paths.
   */
  function MissingField(settings: map<string, Value>): (r: Option<string>)
    ensures r == None <==> "domain" in settings && "entity_types" in settings && "paths" in settings
    ensures "domain" !in settings ==> r == Some("domain")
    ensures "domain" in settings && "entity_types" !in settings ==> r == Some("entity_types")
    ensures "domain" in settings && "entity_types" in settings && "paths" !in settings ==> r == Some("paths")
  {
    var r := FirstMissing(settings, RequiredFields);
    assert RequiredFields[0] == "domain" && RequiredFields[1] == "entity_types" && RequiredFields[2] == "paths";
    r
  }

  // ---------------------------------------------------------------------------
  // Top-level values
  // ---------------------------------------------------------------------------

  function Domain(cfg: Config): (r: Value)
    requires "domain" in cfg.settings
    ensures r == cfg.settings["domain"]
  {
    cfg.settings["domain"]
  }

  /** The configured version, or "1.0" when the configuration has none. */
  function Version(cfg: Config): (r: Value)
    ensures "version" in cfg.settings ==> r == cfg.settings["version"]
    ensures "version" !in cfg.settings ==> r == Str("1.0")
  {
    if "version" in cfg.settings then cfg.settings["version"] else DefaultVersion
  }

  // ---------------------------------------------------------------------------
  // Entity categories
  // ---------------------------------------------------------------------------

  /** `entity_types` is a mapping whose every entry is itself a mapping. */
  predicate TypesShaped(cfg: Config) {
    && "entity_types" in cfg.settings
    && cfg.settings["entity_types"].Obj?
    && forall c :: c in cfg.settings["entity_types"].fields ==> cfg.settings["entity_types"].fields[c].Obj?
  }

  /**
   * A schema the store can be built on: the entity types are shaped, every
   * declared category carries a string `name`, and `categoryOrder` lists each
   * declared category exactly once.
   */
  predicate Schema(cfg: Config) {
    && TypesShaped(cfg)
    && (forall c :: c in cfg.settings["entity_types"].fields ==>
          "name" in cfg.settings["entity_types"].fields[c].fields
          && cfg.settings["entity_types"].fields[c].fields["name"].Str?)
    && (forall i, j :: 0 <= i < j < |cfg.categoryOrder| ==> cfg.categoryOrder[i] != cfg.categoryOrder[j])
    && (forall c :: c in cfg.categoryOrder ==> c in cfg.settings["entity_types"].fields)
    && (forall c :: c in cfg.settings["entity_types"].fields ==> c in cfg.categoryOrder)
  }

  /** The configuration of one category, or the empty mapping for an undeclared one. */
  function EntityTypeConfig(cfg: Config, category: string): (r: map<string, Value>)
    requires TypesShaped(cfg)
    ensures category in cfg.settings["entity_types"].fields ==>
              Obj(r) == cfg.settings["entity_types"].fields[category]
    ensures category !in cfg.settings["entity_types"].fields ==> r == map[]
  {
    var types := cfg.settings["entity_types"].fields;
    if category in types then types[category].fields else map[]
  }

  /** The collection name of a category: its configured `name`, else the category itself. */
  function EntityName(cfg: Config, category: string): (r: Value)
    requires TypesShaped(cfg)
    ensures "name" in EntityTypeConfig(cfg, category) ==> r == EntityTypeConfig(cfg, category)["name"]
    ensures "name" !in EntityTypeConfig(cfg, category) ==> r == Str(category)
  {
    var tc := EntityTypeConfig(cfg, category);
    if "name" in tc then tc["name"] else Str(category)
  }

  /**
   * The display label of a category: `label_plural` (or `label_singular`),
   * falling back to `name` and then to the category itself.
   */
  function EntityLabel(cfg: Config, category: string, plural: bool): (r: Value)
    requires TypesShaped(cfg)
    ensures var tc := EntityTypeConfig(cfg, category);
            var key := if plural then "label_plural" else "label_singular";
            (key in tc ==> r == tc[key]) && (key !in tc ==> r == EntityName(cfg, category))
  {
    var tc := EntityTypeConfig(cfg, category);
    var key := if plural then "label_plural" else "label_singular";
    if key in tc then tc[key] else if "name" in tc then tc["name"] else Str(category)
  }

  /** The collection names of the declared categories, in declaration order. */
  function CollectionNames(cfg: Config): (r: seq<string>)
    requires Schema(cfg)
    ensures |r| == |cfg.categoryOrder|
    ensures forall i :: 0 <= i < |r| ==> EntityName(cfg, cfg.categoryOrder[i]) == Str(r[i])
  {
    var types := cfg.settings["entity_types"].fields;
    seq(|cfg.categoryOrder|, i requires 0 <= i < |cfg.categoryOrder| =>
      types[cfg.categoryOrder[i]].fields["name"].s)
  }

  /**
   * Category resolution in a schema: a declared category resolves to one of
   * the declared collection names, and an undeclared one resolves to itself.
   */
  lemma {:induction false} EntityNameResolves(cfg: Config, category: string)
    requires Schema(cfg)
    ensures category in cfg.categoryOrder ==>
              exists n :: n in CollectionNames(cfg) && EntityName(cfg, category) == Str(n)
    ensures category !in cfg.categoryOrder ==> EntityName(cfg, category) == Str(category)
  {
    if category in cfg.categoryOrder {
      var i :| 0 <= i < |cfg.categoryOrder| && cfg.categoryOrder[i] == category;
      assert CollectionNames(cfg)[i] in CollectionNames(cfg);
    }
  }

  // ---------------------------------------------------------------------------
  // Relationship types
  // ---------------------------------------------------------------------------

  /** `relationships`, when present, is a mapping. */
  predicate RelationshipsShaped(cfg: Config) {
    "relationships" in cfg.settings ==> cfg.settings["relationships"].Obj?
  }

  /** `relationships.types`, or the empty list when either level is missing. */
  function RelationshipTypes(cfg: Config): (r: Value)
    requires RelationshipsShaped(cfg)
    ensures ("relationships" in cfg.settings && "types" in cfg.settings["relationships"].fields) ==>
              r == cfg.settings["relationships"].fields["types"]
    ensures !("relationships" in cfg.settings && "types" in cfg.settings["relationships"].fields) ==>
              r == Arr([])
  {
    var rels := if "relationships" in cfg.settings then cfg.settings["relationships"].fields else map[];
    if "types" in rels then rels["types"] else Arr([])
  }

  /** An entry of `relationship_types` that can be asked for its name. */
  predicate NamedEntry(v: Value) {
    v.Obj? && "name" in v.fields
  }

  /**
   * The first entry of `items` whose `name` is `relType`; the empty mapping when
   * none matches; an error at the first entry, met before any match, that is
   * not a mapping with a `name` (the source raises there).
   */
  function FindRelationshipConfig(items: seq<Value>, relType: string): (r: Result<map<string, Value>, LookupError>)
    ensures r.Err? ==> r.error.index < |items| && !NamedEntry(items[r.error.index])
  {
    if items == [] then Ok(map[])
    else if !NamedEntry(items[0]) then Err(MalformedEntry(0))
    else if items[0].fields["name"] == Str(relType) then Ok(items[0].fields)
    else
      match FindRelationshipConfig(items[1..], relType)
      case Ok(m) => Ok(m)
      case Err(MalformedEntry(k)) => Err(MalformedEntry(k + 1))
  }

  /** Every entry before index `i` has a name, and it is not `relType`. */
  predicate SkippedBefore(items: seq<Value>, relType: string, i: nat)
    requires i <= |items|
  {
    forall j :: 0 <= j < i ==> NamedEntry(items[j]) && items[j].fields["name"] != Str(relType)
  }

  /**
   * The search's three outcomes: a found mapping is the first entry named
   * `relType`; the empty mapping means every entry is named otherwise; an
   * error points at the first entry without a name, all earlier ones being
   * named otherwise.
   */
  lemma {:induction false} FindRelationshipConfigOutcomes(items: seq<Value>, relType: string)
    ensures var r := FindRelationshipConfig(items, relType);
            && (r.Ok? && r.value != map[] ==>
                  exists i :: 0 <= i < |items| && items[i] == Obj(r.value) && "name" in r.value && r.value["name"] == Str(relType)
                    && SkippedBefore(items, relType, i))
            && (r == Ok(map[]) <==> SkippedBefore(items, relType, |items|))
            && (r.Err? ==> SkippedBefore(items, relType, r.error.index))
  {
    if items != [] && NamedEntry(items[0]) && items[0].fields["name"] != Str(relType) {
      var tail := items[1..];
      FindRelationshipConfigOutcomes(tail, relType);
      forall k | 0 <= k <= |tail| && SkippedBefore(tail, relType, k)
        ensures SkippedBefore(items, relType, k + 1)
      {
        forall j | 0 <= j < k + 1
          ensures NamedEntry(items[j]) && items[j].fields["name"] != Str(relType)
        {
          if j > 0 {
            assert items[j] == tail[j - 1];
          }
        }
      }
      if SkippedBefore(items, relType, |items|) {
        assert forall j :: 0 <= j < |tail| ==> tail[j] == items[j + 1];
        assert SkippedBefore(tail, relType, |tail|);
      }
      match FindRelationshipConfig(tail, relType)
      case Ok(m) =>
        if m != map[] {
          var i :| 0 <= i < |tail| && tail[i] == Obj(m) && "name" in m && m["name"] == Str(relType) && SkippedBefore(tail, relType, i);
          assert items[i + 1] == Obj(m);
        }
      case Err(_) =>
    }
  }

  /** `custom_variables` and its `relationship_types`, when present, have the shapes the search iterates. */
  predicate CustomShaped(cfg: Config) {
    "custom_variables" in cfg.settings ==>
      cfg.settings["custom_variables"].Obj?
      && ("relationship_types" in cfg.settings["custom_variables"].fields ==>
            cfg.settings["custom_variables"].fields["relationship_types"].Arr?)
  }

  /** The configured entries of `custom_variables.relationship_types`, empty when either level is missing. */
  function CustomRelationshipTypes(cfg: Config): (r: seq<Value>)
    requires CustomShaped(cfg)
    ensures "custom_variables" !in cfg.settings ==> r == []
    ensures "custom_variables" in cfg.settings ==>
              if "relationship_types" in cfg.settings["custom_variables"].fields
              then r == cfg.settings["custom_variables"].fields["relationship_types"].items
              else r == []
  {
    var custom := if "custom_variables" in cfg.settings then cfg.settings["custom_variables"].fields else map[];
    if "relationship_types" in custom then custom["relationship_types"].items else []
  }

  function RelationshipConfig(cfg: Config, relType: string): (r: Result<map<string, Value>, LookupError>)
    requires CustomShaped(cfg)
    ensures CustomRelationshipTypes(cfg) == [] ==> r == Ok(map[])
  {
    FindRelationshipConfig(CustomRelationshipTypes(cfg), relType)
  }

  // ---------------------------------------------------------------------------
  // Paths
  // ---------------------------------------------------------------------------

  /** `paths` is a mapping. */
  predicate PathsShaped(cfg: Config) {
    "paths" in cfg.settings && cfg.settings["paths"].Obj?
  }

  /** One configured path, or the empty string when the key is missing. */
  function GetPath(cfg: Config, key: string): (r: Value)
    requires PathsShaped(cfg)
    ensures key in cfg.settings["paths"].fields ==> r == cfg.settings["paths"].fields[key]
    ensures key !in cfg.settings["paths"].fields ==> r == Str("")
  {
    var paths := cfg.settings["paths"].fields;
    if key in paths then paths[key] else Str("")
  }

  /** The pieces joined back together, one slash between neighbours. */
  function JoinSlash(pieces: seq<string>): string
    requires |pieces| >= 1
  {
    if |pieces| == 1 then pieces[0] else pieces[0] + "/" + JoinSlash(pieces[1..])
  }

  /** The pieces of `s` between slashes, in order: joining them with slashes gives `s` back. */
  function SplitSlash(s: string): (r: seq<string>)
    ensures |r| >= 1
    ensures forall i :: 0 <= i < |r| ==> '/' !in r[i]
    ensures JoinSlash(r) == s
  {
    if s == [] then [""]
    else
      var rest := SplitSlash(s[1..]);
      if s[0] == '/' then
        assert ([""] + rest)[1..] == rest;
        assert s == "/" + s[1..];
        [""] + rest
      else
        var r := [[s[0]] + rest[0]] + rest[1..];
        assert r[1..] == rest[1..];
        assert s == [s[0]] + s[1..];
        r
  }

  /** `r` is `s` with some elements dropped, the rest kept in order. */
  predicate SubsequenceOf(r: seq<string>, s: seq<string>)
    decreases |s|
  {
    if r == [] then true
    else if s == [] then false
    else (r[0] == s[0] && SubsequenceOf(r[1..], s[1..])) || SubsequenceOf(r, s[1..])
  }

  /**
   * The components pathlib keeps: every piece that is neither empty nor ".",
   * each kept in place.
   */
  function KeptParts(pieces: seq<string>): (r: seq<string>)
    ensures forall p :: p in r <==> p in pieces && p != "" && p != "."
  {
    if pieces == [] then []
    else
      var rest := KeptParts(pieces[1..]);
      assert pieces == [pieces[0]] + pieces[1..];
      if pieces[0] == "" || pieces[0] == "." then rest else [pieces[0]] + rest
  }

  /** The kept components appear in the order of the pieces. */
  lemma {:induction false} KeptPartsInOrder(pieces: seq<string>)
    ensures SubsequenceOf(KeptParts(pieces), pieces)
  {
    if pieces != [] {
      KeptPartsInOrder(pieces[1..]);
      var rest := KeptParts(pieces[1..]);
      if !(pieces[0] == "" || pieces[0] == ".") {
        assert ([pieces[0]] + rest)[1..] == rest;
      }
    }
  }

  /** Dropping pieces from a concatenation drops them from each part, in place. */
  lemma {:induction false} KeptPartsAppend(a: seq<string>, b: seq<string>)
    ensures KeptParts(a + b) == KeptParts(a) + KeptParts(b)
  {
    if a == [] {
      assert a + b == b;
    } else {
      assert (a + b)[0] == a[0] && (a + b)[1..] == a[1..] + b;
      KeptPartsAppend(a[1..], b);
    }
  }

  /**
   * A path string as pathlib reads it: absolute exactly when it starts with a
   * slash, and its components are the pieces between slashes that are neither
   * empty nor ".", in order.
   */
  function ParsePath(s: string): (r: Path)
    ensures r.absolute <==> |s| > 0 && s[0] == '/'
    ensures forall p :: p in r.parts <==> p in SplitSlash(s) && p != "" && p != "."
    ensures SubsequenceOf(r.parts, SplitSlash(s))
    ensures r.parts == KeptParts(SplitSlash(s))
    ensures forall i :: 0 <= i < |r.parts| ==> '/' !in r.parts[i]
  {
    var pieces := SplitSlash(s);
    KeptPartsInOrder(pieces);
    assert forall p :: p in pieces ==> '/' !in p;
    Path(|s| > 0 && s[0] == '/', KeptParts(SplitSlash(s)))
  }

  /** `a / b`: an absolute right operand replaces the left one. */
  function Join(a: Path, b: Path): (r: Path)
    ensures b.absolute ==> r == b
    ensures !b.absolute ==> r.absolute == a.absolute && r.parts == a.parts + b.parts
  {
    if b.absolute then b else Path(a.absolute, a.parts + b.parts)
  }

  /** The directory part of a path; the parent of a root or of "." is itself. */
  function Parent(p: Path): (r: Path)
    ensures r.absolute == p.absolute
    ensures |p.parts| > 0 ==> r.parts + [p.parts[|p.parts| - 1]] == p.parts
    ensures |p.parts| == 0 ==> r == p
  {
    if |p.parts| == 0 then p else Path(p.absolute, p.parts[..|p.parts| - 1])
  }

  /** A path relative to the directory that holds the configuration file. */
  function ResolvePath(cfg: Config, pathStr: string): (r: Path)
    ensures (|pathStr| > 0 && pathStr[0] == '/') ==> r == ParsePath(pathStr)
    ensures !(|pathStr| > 0 && pathStr[0] == '/') ==>
              r.absolute == cfg.location.absolute && r.parts == Parent(cfg.location).parts + ParsePath(pathStr).parts
  {
    Join(Parent(cfg.location), ParsePath(pathStr))
  }

  /** `paths.data_dir` and `paths.entities_file` are strings when present. */
  predicate EntitiesPathShaped(cfg: Config) {
    PathsShaped(cfg) && GetPath(cfg, "data_dir").Str? && GetPath(cfg, "entities_file").Str?
  }

  /** The graph document's location: the configuration directory, then `data_dir`, then `entities_file`. */
  function EntitiesFilePath(cfg: Config): (r: Path)
    requires EntitiesPathShaped(cfg)
    ensures var dataDir := GetPath(cfg, "data_dir").s;
            var file := GetPath(cfg, "entities_file").s;
            r == Join(Join(Parent(cfg.location), ParsePath(dataDir)), ParsePath(file))
  {
    var dataDir := GetPath(cfg, "data_dir").s;
    var file := GetPath(cfg, "entities_file").s;
    Join(ResolvePath(cfg, dataDir), ParsePath(file))
  }

  /** `visualization` and its `colors`, when present, are mappings. */
  predicate ColorsShaped(cfg: Config) {
    "visualization" in cfg.settings ==>
      cfg.settings["visualization"].Obj?
      && ("colors" in cfg.settings["visualization"].fields ==>
            cfg.settings["visualization"].fields["colors"].Obj?)
  }

  /** The configured colour of an entity type, or the default grey. */
  function ColorForType(cfg: Config, entityType: string): (r: Value)
    requires ColorsShaped(cfg)
    ensures var vis := if "visualization" in cfg.settings then cfg.settings["visualization"].fields else map[];
            var colors := if "colors" in vis then vis["colors"].fields else map[];
            (entityType in colors ==> r == colors[entityType]) && (entityType !in colors ==> r == Str("#7f8c8d"))
  {
    var vis := if "visualization" in cfg.settings then cfg.settings["visualization"].fields else map[];
    var colors := if "colors" in vis then vis["colors"].fields else map[];
    if entityType in colors then colors[entityType] else DefaultColor
  }
}

/**
 * Collection-to-model mappings and configured nested relations
 * (`SeedConfig`, `ModelMapping`, `NestedRelationConfig`).
 */
module Config {
  import opened Wrappers
  import opened Errors
  import opened Text

  /** The two relation types a nested relation may have. */
  datatype RelationType = OneToOneRelation | ForeignKeyRelation

  function RelationTypeName(t: RelationType): string {
    match t
    case OneToOneRelation => "one_to_one"
    case ForeignKeyRelation => "foreign_key"
  }

  /** Reading a relation type back from its name. */
  function ParseRelationType(s: string): (r: Option<RelationType>)
    ensures r.Some? <==> s == "one_to_one" || s == "foreign_key"
    ensures r.Some? ==> RelationTypeName(r.value) == s
  {
    if s == "one_to_one" then Some(OneToOneRelation)
    else if s == "foreign_key" then Some(ForeignKeyRelation)
    else None
  }

  lemma ParseRelationTypeName(t: RelationType)
    ensures ParseRelationType(RelationTypeName(t)) == Some(t)
  {
  }

  datatype NestedRelationConfig = NestedRelationConfig(
    nestedKey: string,
    targetModel: string,
    relationType: RelationType,
    reverseFieldName: string)

  /** Constructing a `NestedRelationConfig`, with the check of `__post_init__`. */
  function NewNestedRelationConfig(nestedKey: string, targetModel: string, relationType: string, reverseFieldName: string)
    : (r: Result<NestedRelationConfig, SeedError>)
    ensures r.Ok? <==> relationType == "one_to_one" || relationType == "foreign_key"
    ensures r.Ok? ==> r.value.nestedKey == nestedKey && r.value.targetModel == targetModel &&
                      RelationTypeName(r.value.relationType) == relationType &&
                      r.value.reverseFieldName == reverseFieldName
    ensures r.Err? ==> r.error == InvalidRelationType(relationType)
  {
    match ParseRelationType(relationType)
    case Some(t) => Ok(NestedRelationConfig(nestedKey, targetModel, t, reverseFieldName))
    case None => Err(InvalidRelationType(relationType))
  }

  datatype ModelMapping = ModelMapping(
    appLabel: string,
    collectionName: string,
    modelPath: string,
    nestedRelations: seq<NestedRelationConfig>)

  const DefaultReferenceKey: string := "$ref"

  /** The key a mapping is stored under. */
  function MappingKey(m: ModelMapping): (string, string) {
    (m.appLabel, m.collectionName)
  }

  /** The key a mapping's nested relations are stored under: the app and the class name of its model path. */
  function NestedKey(m: ModelMapping): (string, string) {
    (m.appLabel, LastSegment(m.modelPath, '.'))
  }

  /** The mapping table after adding `ms` in order, one `add_mapping` at a time. */
  function MappingTable(ms: seq<ModelMapping>): map<(string, string), ModelMapping>
    decreases |ms|
  {
    if ms == [] then map[]
    else MappingTable(ms[..|ms| - 1])[MappingKey(ms[|ms| - 1]) := ms[|ms| - 1]]
  }

  /** The nested-relation table after adding `ms` in order. */
  function NestedTable(ms: seq<ModelMapping>): map<(string, string), seq<NestedRelationConfig>>
    decreases |ms|
  {
    if ms == [] then map[]
    else
      var t := NestedTable(ms[..|ms| - 1]);
      var m := ms[|ms| - 1];
      if m.nestedRelations == [] then t
      else t[NestedKey(m) := (if NestedKey(m) in t then t[NestedKey(m)] else []) + m.nestedRelations]
  }

  /** Reference definition: all nested relations of mappings under `key`, in order. */
  function Collected(ms: seq<ModelMapping>, key: (string, string)): seq<NestedRelationConfig>
    decreases |ms|
  {
    if ms == [] then []
    else Collected(ms[..|ms| - 1], key) + (if NestedKey(ms[|ms| - 1]) == key then ms[|ms| - 1].nestedRelations else [])
  }

  /** Nested relations accumulate under their key: the table holds exactly what was collected. */
  lemma {:induction false} NestedTableCollects(ms: seq<ModelMapping>, key: (string, string))
    ensures (if key in NestedTable(ms) then NestedTable(ms)[key] else []) == Collected(ms, key)
    ensures key in NestedTable(ms) ==> NestedTable(ms)[key] != []
    decreases |ms|
  {
    if ms != [] {
      NestedTableCollects(ms[..|ms| - 1], key);
    }
  }

  /** The first relation of `cs` whose nested key is `key`, as `get_nested_config` scans them. */
  function FirstWithKey(cs: seq<NestedRelationConfig>, key: string): (r: Option<NestedRelationConfig>)
    ensures r.None? <==> forall i :: 0 <= i < |cs| ==> cs[i].nestedKey != key
    ensures r.Some? ==> exists i :: 0 <= i < |cs| && cs[i] == r.value && cs[i].nestedKey == key &&
                          forall j :: 0 <= j < i ==> cs[j].nestedKey != key
    decreases |cs|
  {
    if cs == [] then None
    else if cs[0].nestedKey == key then Some(cs[0])
    else
      assert forall i :: 1 <= i < |cs| ==> cs[i] == cs[1..][i - 1];
      FirstWithKey(cs[1..], key)
  }

  /** The last mapping added under a key is the one kept. */
  lemma {:induction false} LastMappingWins(ms: seq<ModelMapping>, key: (string, string))
    ensures key in MappingTable(ms) <==> exists i :: 0 <= i < |ms| && MappingKey(ms[i]) == key
    ensures key in MappingTable(ms) ==>
              exists i :: 0 <= i < |ms| && MappingTable(ms)[key] == ms[i] && MappingKey(ms[i]) == key &&
                forall j :: i < j < |ms| ==> MappingKey(ms[j]) != key
    decreases |ms|
  {
    if ms != [] {
      var n := |ms| - 1;
      LastMappingWins(ms[..n], key);
      if MappingKey(ms[n]) != key {
        if exists i :: 0 <= i < |ms| && MappingKey(ms[i]) == key {
          var i :| 0 <= i < |ms| && MappingKey(ms[i]) == key;
          assert ms[..n][i] == ms[i];
        }
        if key in MappingTable(ms) {
          var i :| 0 <= i < n && MappingTable(ms[..n])[key] == ms[..n][i] && MappingKey(ms[..n][i]) == key &&
                   forall j :: i < j < n ==> MappingKey(ms[..n][j]) != key;
          assert forall j :: i < j < n ==> ms[..n][j] == ms[j];
        }
      }
    }
  }

  class SeedConfig {
    var mappings: map<(string, string), ModelMapping>
    var nestedConfigs: map<(string, string), seq<NestedRelationConfig>>
    var referenceKey: string

    /** `SeedConfig(mappings, reference_key)`: the mappings are added in list order. */
    constructor (ms: seq<ModelMapping>, referenceKey: string)
      ensures mappings == MappingTable(ms)
      ensures nestedConfigs == NestedTable(ms)
      ensures this.referenceKey == referenceKey
    {
      mappings := map[];
      nestedConfigs := map[];
      this.referenceKey := referenceKey;
      new;
      if |ms| > 0 {
        var i := 0;
        while i < |ms|
          invariant i <= |ms|
          invariant mappings == MappingTable(ms[..i])
          invariant nestedConfigs == NestedTable(ms[..i])
          invariant this.referenceKey == referenceKey
        {
          assert ms[..i + 1][..i] == ms[..i];
          AddMapping(ms[i]);
          i := i + 1;
        }
        assert ms[..i] == ms;
      }
    }

    /** `SeedConfig(mappings)` with the default reference key. */
    constructor WithDefaultKey(ms: seq<ModelMapping>)
      ensures mappings == MappingTable(ms)
      ensures nestedConfigs == NestedTable(ms)
      ensures referenceKey == "$ref"
    {
      mappings := MappingTable(ms);
      nestedConfigs := NestedTable(ms);
      referenceKey := DefaultReferenceKey;
    }

    /** `add_mapping`: replace by (app, collection); extend the nested relations of the model's class name. */
    method AddMapping(m: ModelMapping)
      modifies this
      ensures mappings == old(mappings)[MappingKey(m) := m]
      ensures m.nestedRelations == [] ==> nestedConfigs == old(nestedConfigs)
      ensures m.nestedRelations != [] ==>
                nestedConfigs == old(nestedConfigs)[NestedKey(m) :=
                  (if NestedKey(m) in old(nestedConfigs) then old(nestedConfigs)[NestedKey(m)] else []) + m.nestedRelations]
      ensures referenceKey == old(referenceKey)
    {
      var key := (m.appLabel, m.collectionName);
      mappings := mappings[key := m];
      if m.nestedRelations != [] {
        var nestedKey := (m.appLabel, LastSegment(m.modelPath, '.'));
        if nestedKey !in nestedConfigs {
          nestedConfigs := nestedConfigs[nestedKey := []];
        }
        nestedConfigs := nestedConfigs[nestedKey := nestedConfigs[nestedKey] + m.nestedRelations];
      }
    }

    /** `get_model_path`: the path of the mapping for (app, collection), if any. */
    function GetModelPath(app: string, collection: string): (r: Option<string>)
      reads this
      ensures r.Some? <==> (app, collection) in mappings
      ensures r.Some? ==> r.value == mappings[(app, collection)].modelPath
    {
      if (app, collection) in mappings then Some(mappings[(app, collection)].modelPath) else None
    }

    /** `get_all_nested_configs`: `[]` for a model without configured relations. */
    function GetAllNestedConfigs(app: string, modelName: string): (r: seq<NestedRelationConfig>)
      reads this
      ensures (app, modelName) !in nestedConfigs ==> r == []
      ensures (app, modelName) in nestedConfigs ==> r == nestedConfigs[(app, modelName)]
    {
      if (app, modelName) in nestedConfigs then nestedConfigs[(app, modelName)] else []
    }

    /** `get_nested_config`: the first configured relation of the model with the given key. */
    method GetNestedConfig(app: string, modelName: string, nestedKey: string) returns (r: Option<NestedRelationConfig>)
      ensures var cs := GetAllNestedConfigs(app, modelName);
        (r.None? <==> forall i :: 0 <= i < |cs| ==> cs[i].nestedKey != nestedKey) &&
        (r.Some? ==> exists i :: 0 <= i < |cs| && cs[i] == r.value && cs[i].nestedKey == nestedKey &&
                       forall j :: 0 <= j < i ==> cs[j].nestedKey != nestedKey)
      ensures r == FirstWithKey(GetAllNestedConfigs(app, modelName), nestedKey)
    {
      var configs := GetAllNestedConfigs(app, modelName);
      var i := 0;
      while i < |configs|
        invariant i <= |configs|
        invariant forall j :: 0 <= j < i ==> configs[j].nestedKey != nestedKey
        invariant FirstWithKey(configs, nestedKey) == FirstWithKey(configs[i..], nestedKey)
      {
        assert configs[i..][1..] == configs[i + 1..];
        if configs[i].nestedKey == nestedKey {
          return Some(configs[i]);
        }
        i := i + 1;
      }
      return None;
    }
  }

  /** A configuration built from mappings answers with the last mapping's path. */
  lemma ConfiguredPathIsLastMapping(c: SeedConfig, ms: seq<ModelMapping>, app: string, collection: string)
    requires c.mappings == MappingTable(ms)
    ensures c.GetModelPath(app, collection).Some? <==> exists i :: 0 <= i < |ms| && MappingKey(ms[i]) == (app, collection)
    ensures c.GetModelPath(app, collection).Some? ==>
              exists i :: 0 <= i < |ms| && MappingKey(ms[i]) == (app, collection) &&
                c.GetModelPath(app, collection).value == ms[i].modelPath &&
                forall j :: i < j < |ms| ==> MappingKey(ms[j]) != (app, collection)
  {
    LastMappingWins(ms, (app, collection));
  }

  /** A configuration built from mappings lists every nested relation under its key, in order. */
  lemma ConfiguredRelationsAccumulate(c: SeedConfig, ms: seq<ModelMapping>, app: string, modelName: string)
    requires c.nestedConfigs == NestedTable(ms)
    ensures c.GetAllNestedConfigs(app, modelName) == Collected(ms, (app, modelName))
  {
    NestedTableCollects(ms, (app, modelName));
  }
}

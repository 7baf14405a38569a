/**
 * Model resolution, relation classification and the reference-token
 * grammar (`ModelResolver`).
 */
module Resolver {
  import opened Wrappers
  import opened Values
  import opened Errors
  import opened Text
  import opened Schema
  import opened Config

  // ---------------------------------------------------------------------
  // REFERENCE_PATTERN
  // ---------------------------------------------------------------------

  predicate IsLowerStart(c: char) { 'a' <= c <= 'z' || c == '_' }
  predicate IsLowerBody(c: char) { 'a' <= c <= 'z' || '0' <= c <= '9' || c == '_' }
  predicate IsWordChar(c: char) { 'a' <= c <= 'z' || 'A' <= c <= 'Z' || '0' <= c <= '9' || c == '_' }

  /** `[a-z_][a-z0-9_]*` */
  predicate LowerName(s: string) {
    |s| >= 1 && IsLowerStart(s[0]) && forall i :: 1 <= i < |s| ==> IsLowerBody(s[i])
  }

  /** `[A-Z][A-Za-z0-9_]*` */
  predicate ClassName(s: string) {
    |s| >= 1 && 'A' <= s[0] <= 'Z' && forall i :: 1 <= i < |s| ==> IsWordChar(s[i])
  }

  /** The first alternative, `\$[a-z_][a-z0-9_]*`: an alias token. */
  predicate AliasToken(s: string) {
    |s| >= 1 && s[0] == '$' && LowerName(s[1..])
  }

  /** The second alternative, `app_label.ModelName.object_key`, checked on the dot-separated parts. */
  predicate LegacyToken(s: string) {
    var parts := Split(s, '.');
    |parts| == 3 && LowerName(parts[0]) && ClassName(parts[1]) && LowerName(parts[2])
  }

  /** The second alternative as the regular expression reads: three names at two dots. */
  ghost predicate LegacyTokenAt(s: string) {
    exists i, j :: 0 < i < j < |s| && s[i] == '.' && s[j] == '.' &&
      LowerName(s[..i]) && ClassName(s[i + 1..j]) && LowerName(s[j + 1..])
  }

  /** Either alternative, anchored at both ends. */
  predicate TokenBody(s: string) {
    AliasToken(s) || LegacyToken(s)
  }

  /**
   * `REFERENCE_PATTERN.match(s)`. Without MULTILINE, Python's `$` also
   * matches just before a newline that ends the string.
   */
  predicate MatchesReferencePattern(s: string) {
    TokenBody(s) || (|s| >= 1 && s[|s| - 1] == '\n' && TokenBody(s[..|s| - 1]))
  }

  /** `is_reference_pattern`: false for every value that is not a string. */
  predicate IsReferencePattern(v: Value) {
    v.Str? && MatchesReferencePattern(v.s)
  }

  lemma NameHasNoDot(s: string)
    requires LowerName(s) || ClassName(s)
    ensures '.' !in s
  {
    if '.' in s {
      var i :| 0 <= i < |s| && s[i] == '.';
    }
  }

  /** A legacy token is three names at two dots. */
  lemma LegacyTokenToRegex(s: string)
    requires LegacyToken(s)
    ensures LegacyTokenAt(s)
  {
    var parts := Split(s, '.');
    JoinSplit(s, '.');
    JoinThree(parts);
    var i := |parts[0]|;
    var j := |parts[0]| + 1 + |parts[1]|;
    assert s == parts[0] + "." + parts[1] + "." + parts[2];
    assert s[..i] == parts[0] && s[i + 1..j] == parts[1] && s[j + 1..] == parts[2];
    assert s[i] == '.' && s[j] == '.';
  }

  /** Three names at two dots make a legacy token. */
  lemma RegexToLegacyToken(s: string)
    requires LegacyTokenAt(s)
    ensures LegacyToken(s)
  {
    var i, j :| 0 < i < j < |s| && s[i] == '.' && s[j] == '.' &&
      LowerName(s[..i]) && ClassName(s[i + 1..j]) && LowerName(s[j + 1..]);
    var a, b, c := s[..i], s[i + 1..j], s[j + 1..];
    NameHasNoDot(a);
    NameHasNoDot(b);
    NameHasNoDot(c);
    DottedAt(s, i, j);
    SplitDotted(a, b, c);
  }

  /** Splitting on dots recognises exactly what the regular expression does. */
  lemma LegacyTokenIsRegex(s: string)
    ensures LegacyToken(s) <==> LegacyTokenAt(s)
  {
    if LegacyToken(s) {
      LegacyTokenToRegex(s);
    }
    if LegacyTokenAt(s) {
      RegexToLegacyToken(s);
    }
  }

  /** An alias token is never a legacy token: it starts with `$`, which no name admits. */
  lemma AliasIsNotLegacy(s: string)
    requires AliasToken(s)
    ensures !LegacyToken(s)
  {
  }

  /** Accepted alias examples, and the trailing newline `$` admits. */
  lemma ReferencePatternAcceptsAlias()
    ensures MatchesReferencePattern("$alice")
    ensures MatchesReferencePattern("$alice\n")
  {
    assert AliasToken("$alice") by { assert "$alice"[1..] == "alice"; }
    assert "$alice\n"[..6] == "$alice";
  }

  /** Every dotted identity of well-formed names is a reference token. */
  lemma ReferencePatternAcceptsIdentity(app: string, model: string, key: string)
    requires LowerName(app) && ClassName(model) && LowerName(key)
    ensures MatchesReferencePattern(Dotted(app, model, key))
  {
    NameHasNoDot(app);
    NameHasNoDot(model);
    NameHasNoDot(key);
    SplitDotted(app, model, key);
  }

  /** A string without a dot is a reference token only as an alias, `$name`. */
  lemma UndottedReferenceIsAlias(s: string)
    requires '.' !in s && (s == [] || s[0] != '$')
    ensures !MatchesReferencePattern(s)
  {
    SplitNoSep(s, '.');
    if |s| >= 1 && s[|s| - 1] == '\n' {
      var t := s[..|s| - 1];
      assert forall i :: 0 <= i < |t| ==> t[i] == s[i];
      SplitNoSep(t, '.');
    }
  }

  /** An alias must start with a lower-case letter or underscore. */
  lemma ReferencePatternRejectsUpperAlias()
    ensures !MatchesReferencePattern("$Alice")
  {
    SplitNoSep("$Alice", '.');
    assert "$Alice"[1..][0] == 'A';
  }

  /**
   * The model part of a dotted identity must be a class name
   * (`auth.user.alice` is not a reference), with or without a final newline.
   */
  lemma ReferencePatternRejectsLowerModel(app: string, model: string, key: string)
    requires '.' !in app && '.' !in model && '.' !in key
    requires !ClassName(model)
    ensures !MatchesReferencePattern(Dotted(app, model, key))
  {
    var s := Dotted(app, model, key);
    SplitDotted(app, model, key);
    assert s[|app|] == '.';
    if |s| >= 1 && s[|s| - 1] == '\n' {
      assert key != [];
      var key' := key[..|key| - 1];
      assert '.' !in key';
      assert s[..|s| - 1] == Dotted(app, model, key');
      SplitDotted(app, model, key');
      assert s[..|s| - 1][|app|] == '.';
    }
  }

  /**
   * The token predicates the loader calls whose definitions are not part of
   * this model (`is_any_reference`, `is_db_lookup_pattern`, `parse_db_lookup`).
   */
  datatype TokenOracle = TokenOracle(
    isAnyReference: string -> bool,
    isDbLookup: string -> bool,
    parseDbLookup: string -> seq<(string, Value)>)

  // ---------------------------------------------------------------------
  // Model resolution
  // ---------------------------------------------------------------------

  /** `_resolve_from_config`: `Ok(None)` when no (non-empty) path is configured. */
  function ResolveFromConfig(config: SeedConfig, schema: Schema, app: string, collection: string)
    : (r: Result<Option<ModelRef>, SeedError>)
    reads config
    ensures (config.GetModelPath(app, collection).None? || config.GetModelPath(app, collection).value == "") ==> r == Ok(None)
    ensures r.Ok? && r.value.Some? ==>
              var parts := Split(config.GetModelPath(app, collection).value, '.');
              |parts| == 2 && GetModel(schema, parts[0], parts[1]) == r.value
    ensures r.Err? ==> IsModelResolution(r.error)
    ensures r.Err? && r.error.InvalidModelPath? ==> |Split(r.error.path, '.')| != 2
  {
    match config.GetModelPath(app, collection)
    case None => Ok(None)
    case Some(path) =>
      if path == "" then Ok(None)
      else
        var parts := Split(path, '.');
        if |parts| != 2 then Err(InvalidModelPath(path))
        else match GetModel(schema, parts[0], parts[1])
          case Some(m) => Ok(Some(m))
          case None => Err(ConfiguredModelMissing(path))
  }

  /** `resolve_model`: the configured model first, the model named directly only without one. */
  function ResolveModel(config: SeedConfig, schema: Schema, app: string, name: string): (r: Result<ModelRef, SeedError>)
    reads config
    ensures ResolveFromConfig(config, schema, app, name) == Ok(None) ==>
              (r.Ok? <==> GetModel(schema, app, name).Some?) &&
              (r.Ok? ==> r.value == GetModel(schema, app, name).value) &&
              (r.Err? ==> r.error == ModelNotFound(app, name))
    ensures ResolveFromConfig(config, schema, app, name).Ok? && ResolveFromConfig(config, schema, app, name).value.Some? ==>
              r == Ok(ResolveFromConfig(config, schema, app, name).value.value)
    ensures ResolveFromConfig(config, schema, app, name).Err? ==> r == Err(ResolveFromConfig(config, schema, app, name).error)
    ensures r.Err? ==> IsModelResolution(r.error)
  {
    match ResolveFromConfig(config, schema, app, name)
    case Err(e) => Err(e)
    case Ok(Some(m)) => Ok(m)
    case Ok(None) =>
      match GetModel(schema, app, name)
      case Some(m) => Ok(m)
      case None => Err(ModelNotFound(app, name))
  }

  // ---------------------------------------------------------------------
  // Relation classification
  // ---------------------------------------------------------------------

  /**
   * `detect_relationship_type`: `None` for a missing field, else the first of
   * the ForeignKey, OneToOne and ManyToMany class tests that succeeds.
   */
  function DetectRelationshipType(schema: Schema, model: ModelRef, fieldName: string): (r: Option<string>)
    ensures GetField(schema, model, fieldName).None? ==> r.None?
    ensures r == Some("foreign_key") <==> GetField(schema, model, fieldName).Some? && IsForeignKeyInstance(GetField(schema, model, fieldName).value)
    ensures r == Some("many_to_many") <==> GetField(schema, model, fieldName).Some? && IsManyToManyInstance(GetField(schema, model, fieldName).value)
    ensures r.Some? ==> r.value == "foreign_key" || r.value == "many_to_many"
  {
    match GetField(schema, model, fieldName)
    case None => None
    case Some(f) =>
      if IsForeignKeyInstance(f) then Some("foreign_key")
      else if IsOneToOneInstance(f) then Some("one_to_one")
      else if IsManyToManyInstance(f) then Some("many_to_many")
      else None
  }

  /** Because a one-to-one field is also a ForeignKey instance, it is reported as "foreign_key". */
  lemma OneToOneReportedAsForeignKey(schema: Schema, model: ModelRef, fieldName: string)
    requires GetField(schema, model, fieldName).Some? && IsOneToOneInstance(GetField(schema, model, fieldName).value)
    ensures DetectRelationshipType(schema, model, fieldName) == Some("foreign_key")
  {
  }

  /** A reverse relation `detect_nested_relationship` considers: auto-created one-to-many or one-to-one. */
  predicate IsNestable(m: Member) {
    m.Reverse? && (m.oneToMany || m.oneToOne) && m.autoCreated
  }

  /** The configuration `detect_nested_relationship` builds from a matching reverse relation. */
  function ConfigFromRelation(m: Member, nestedKey: string): NestedRelationConfig
    requires m.Reverse? && m.relatedModel.Some?
  {
    NestedRelationConfig(
      nestedKey,
      m.relatedModel.value.app + "." + m.relatedModel.value.name,
      if m.oneToOne then OneToOneRelation else ForeignKeyRelation,
      m.fieldName)
  }

  /** Every reverse relation points at a model. */
  predicate WellFormedMembers(ms: seq<Member>) {
    forall i :: 0 <= i < |ms| ==> ms[i].Reverse? ==> ms[i].relatedModel.Some?
  }

  /** The configuration of the first nestable relation of `ms` whose accessor is `nestedKey`. */
  function NestedRelation(ms: seq<Member>, nestedKey: string): (r: Option<NestedRelationConfig>)
    requires WellFormedMembers(ms)
    ensures r.Some? ==> r.value.nestedKey == nestedKey
    decreases |ms|
  {
    if ms == [] then None
    else if IsNestable(ms[0]) && ms[0].accessor == nestedKey then Some(ConfigFromRelation(ms[0], nestedKey))
    else NestedRelation(ms[1..], nestedKey)
  }

  /**
   * `detect_nested_relationship`: the first auto-created reverse relation
   * whose accessor is the key.
   */
  method DetectNestedRelationship(schema: Schema, model: ModelRef, nestedKey: string) returns (r: Option<NestedRelationConfig>)
    requires WellFormedMembers(GetFields(schema, model))
    ensures var ms := GetFields(schema, model);
      (r.None? <==> forall i :: 0 <= i < |ms| ==> !(IsNestable(ms[i]) && ms[i].accessor == nestedKey)) &&
      (r.Some? ==> exists i :: 0 <= i < |ms| && IsNestable(ms[i]) && ms[i].accessor == nestedKey &&
                     (forall j :: 0 <= j < i ==> !(IsNestable(ms[j]) && ms[j].accessor == nestedKey)) &&
                     r.value == ConfigFromRelation(ms[i], nestedKey))
    ensures r.Some? ==> r.value.nestedKey == nestedKey
    ensures r == NestedRelation(GetFields(schema, model), nestedKey)
  {
    var fields := GetFields(schema, model);
    var i := 0;
    while i < |fields|
      invariant i <= |fields|
      invariant forall j :: 0 <= j < i ==> !(IsNestable(fields[j]) && fields[j].accessor == nestedKey)
      invariant NestedRelation(fields, nestedKey) == NestedRelation(fields[i..], nestedKey)
    {
      assert fields[i..][1..] == fields[i + 1..];
      var related := fields[i];
      if IsNestable(related) && related.accessor == nestedKey {
        var relationType := if related.oneToOne then OneToOneRelation else ForeignKeyRelation;
        var target := related.relatedModel.value.app + "." + related.relatedModel.value.name;
        return Some(NestedRelationConfig(nestedKey, target, relationType, related.fieldName));
      }
      i := i + 1;
    }
    return None;
  }

  /** `ModelResolver.get_nested_config`: the configured relation looked up by the model's app and class name. */
  method GetNestedConfig(config: SeedConfig, model: ModelRef, nestedKey: string) returns (r: Option<NestedRelationConfig>)
    ensures var cs := config.GetAllNestedConfigs(model.app, model.name);
      (r.None? <==> forall i :: 0 <= i < |cs| ==> cs[i].nestedKey != nestedKey) &&
      (r.Some? ==> exists i :: 0 <= i < |cs| && cs[i] == r.value && cs[i].nestedKey == nestedKey &&
                     forall j :: 0 <= j < i ==> cs[j].nestedKey != nestedKey)
    ensures r == FirstWithKey(config.GetAllNestedConfigs(model.app, model.name), nestedKey)
  {
    r := config.GetNestedConfig(model.app, model.name, nestedKey);
  }
}

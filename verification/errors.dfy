/**
 * The errors the seed loader raises, one constructor per raise site that
 * the model keeps. The exception class each belongs to is given by the
 * predicates at the end.
 */
module Errors {
  import opened Values

  datatype SeedError =
    // parser.py: structural validation
    | RootNotMapping(root: Value)
    | AppLabelNotString(appLabel: Value)
    | CollectionsNotMapping(app: string)
    | CollectionNameNotString(app: string, name: Value)
    | ObjectsNotList(app: string, collection: string)
    | ItemNotMapping(app: string, collection: string, index: nat)
    // resolver.py / config/base.py
    | InvalidRelationType(relationType: string)
    | InvalidModelPath(path: string)
    | ConfiguredModelMissing(path: string)
    | ModelNotFound(app: string, collection: string)
    // registry.py
    | DuplicateIdentity(identity: string)
    | DuplicateAlias(alias: string, existing: string)
    | UnhashableAlias
    | ReferenceNotFound(token: string)
    | LookupNotFound(params: seq<(string, Value)>)
    | LookupMultiple(params: seq<(string, Value)>)
    // topological.py
    | CircularDependency(cycle: seq<string>)
    // builder.py: `app, model = target_model.split(".")` with other than two parts
    | MalformedTargetModel(path: string)
    // builder.py: `.items()` called on an object that is not a mapping
    | NotAMapping(value: Value)
    // loader.py
    | MissingThroughSlot(slot: string)
    | ThroughSourceNotString(source: Value)
    | MissingThroughTarget(identity: string)
    | UnresolvableThroughLookup(field: Value)
    // a related-model attribute read on a field that has none
    | NoRelatedModel(fieldName: string)
    // a Python TypeError: a mapping key that is not a string used as a keyword argument
    | FieldNameNotString(key: Value)
    // a Python TypeError: a call with more positional arguments than the callee accepts
    | TooManyArguments(callee: string, given: nat, accepted: nat)

  /** Raised as `YAMLValidationError`. */
  predicate IsYamlValidation(e: SeedError) {
    e.RootNotMapping? || e.AppLabelNotString? || e.CollectionsNotMapping? ||
    e.CollectionNameNotString? || e.ObjectsNotList? || e.ItemNotMapping?
  }

  /** Raised as `ModelResolutionError`. */
  predicate IsModelResolution(e: SeedError) {
    e.InvalidModelPath? || e.ConfiguredModelMissing? || e.ModelNotFound?
  }

  /** Raised as the package's `ReferenceError`. */
  predicate IsReferenceError(e: SeedError) {
    e.ReferenceNotFound? || e.LookupNotFound? || e.LookupMultiple?
  }

  /** Raised as `CircularDependencyError`. */
  predicate IsCircularDependency(e: SeedError) {
    e.CircularDependency?
  }
}

# django-nested-seed, modelled in Dafny

django-nested-seed loads seed data into a Django project from YAML files
written as `app_label → ModelName → [objects]`. The model covers each stage
of a load:

- The parser merges the decoded documents, later files winning, and checks
  the shape of the result.
- The descriptor builder turns each object into an *object descriptor*:
  - an identity `app.Model.key`;
  - the plain fields;
  - the nested children: reverse one-to-one and one-to-many children,
    forward foreign-key objects, and inline many-to-many and custom
    "through" children.
- The descriptors are sorted depth-first so that the objects a descriptor
  refers to come first. A cycle is reported.
- Pass 1 creates each object tree:
  - forward children are created before their parent, reverse children
    after it;
  - every instance is registered under its identity and its `$ref` alias.
- Pass 2 creates the instances of custom through models and sets the
  many-to-many memberships.

The model is split into one Dafny module per source file:

- `values.dfy` holds decoded YAML as values. A mapping is an ordered
  association list, because identities depend on insertion order.
- `parser.dfy` models `YAMLParser`.
- `config.dfy` models `SeedConfig`, a class whose tables the methods update.
- `resolver.dfy` models `ModelResolver` and the reference-token grammar.
- `registry.dfy` holds `ObjectDescriptor` and `ObjectRegistry`, a class.
- `topological.dfy` holds the dependency sort and the flattening of
  descriptor trees.
- `builder.dfy` models `DescriptorBuilder`, a class.
- `loader.dfy` models `SeedLoader`, a class.

The Django side is reduced to two pieces:

- `schema.dfy` holds the model and field metadata the code asks Django for.
- `store.dfy` is a database of saved rows and many-to-many memberships.

The loops of the source are methods with loop invariants. Each is proved
against a specification on values, a function or a predicate, and lemmas
relate those specifications.

## Model

| member | source | states |
|---|---|---|
| Registry.ObjectRegistry.constructor | django_nested_seed/core/registry.py:63-68 | a new registry has no instances, aliases, creation order or cached lookups |
| Registry.ObjectRegistry.Register | django_nested_seed/core/registry.py:70-96 | a duplicate identity is rejected and nothing changes; otherwise the instance is stored and its identity appended to the creation order; a truthy alias is rejected if unhashable or already taken, else indexed; the registry stays valid (creation order distinct and equal to the stored identities, every alias naming one) |
| Registry.ObjectRegistry.Get | django_nested_seed/core/registry.py:98-124 | succeeds exactly when the token is a registered identity or `$` + a registered alias; a registered identity gives its own instance, otherwise `$alias` gives the instance of the identity the alias was recorded for; otherwise a reference error naming the token |
| Registry.RegisteredIsFound | django_nested_seed/core/registry.py:98-124 | after registration an instance is found by its identity, whether or not it has an alias; when an alias was recorded for it, also by `$alias` unless that string is itself an identity |
| Registry.ObjectRegistry.Has | django_nested_seed/core/registry.py:126-136 | true exactly for the identities in `all_identities` |
| Registry.ObjectRegistry.AllIdentities | django_nested_seed/core/registry.py:138-145 | the creation order: no repeats, and exactly the registered identities |
| Registry.ObjectRegistry.Count | django_nested_seed/core/registry.py:147-154 | the number of identities in `all_identities` |
| Registry.ObjectRegistry.Clear | django_nested_seed/core/registry.py:156-161 | all four tables are emptied and the registry is valid |
| Registry.ObjectRegistry.GetFromDb | django_nested_seed/core/registry.py:163-203 | a cached lookup is answered from the cache; otherwise a single match is cached and returned, no match or several matches give the two lookup errors; identities and aliases never change |
| Registry.PutGroup | django_nested_seed/core/builder.py:473-476 | assigning `m2m_inline_children[name]` replaces the group of an existing key in place, or appends a new group |
| Store.Store.Lookup | django_nested_seed/core/registry.py:188-203 | `Model.objects.get(**params)`: a match is the unique matching row; no match exactly when no row of the model matches; several exactly when two rows match |
| Store.Matching | django_nested_seed/core/registry.py:188-203 | exactly the matching rows of the model, in increasing order |
| Store.Store.Persist | django_nested_seed/core/loader.py:208-209 | `save()` appends one row and returns its handle; memberships unchanged |
| Store.Store.SetMembers | django_nested_seed/relations/many_to_many.py:57-59 | `manager.set(...)` records the new members; rows unchanged |
| Store.SetReplacesMembers | django_nested_seed/relations/many_to_many.py:57-59 | after a set, the field's members are exactly the new ones, and every other field keeps its members |
| Store.Store.RollBack | django_nested_seed/core/loader.py:67-73 | the rows and memberships are restored to those saved when the transaction began |
| Parser.DeepMerge | django_nested_seed/core/parser.py:136-157 | the loop computes `Merge(base, override)` |
| Parser.MergeValue | django_nested_seed/core/parser.py:149-155 | the value stored for an override key: the deep merge when both the current and the new value are mappings, else the new value |
| Parser.MergeKeys | django_nested_seed/core/parser.py:147-155 | the merged keys are the union of both key sets |
| Parser.MergeKeepsBaseOrder | django_nested_seed/core/parser.py:147-155 | the base keys keep their positions; new keys come after them |
| Parser.MergeUniqueKeys | django_nested_seed/core/parser.py:147-155 | merging into a dict never duplicates a key |
| Parser.MergeKeepsBaseOnly | django_nested_seed/core/parser.py:147-155 | a key absent from the override keeps its base value |
| Parser.MergeTakesOverride | django_nested_seed/core/parser.py:149-155 | an override key gets the recursive merge when both values are mappings, else the override value |
| Parser.MergeIntoEmpty | django_nested_seed/core/parser.py:129-132 | merging a document into `{}` gives the document back |
| Parser.MergeYamlData | django_nested_seed/core/parser.py:114-134 | the loop folds `_deep_merge` over the documents from `{}` |
| Parser.MergeAllKeys | django_nested_seed/core/parser.py:114-134 | a top-level key is in the merge exactly when some document has it |
| Parser.MergeAllSingle | django_nested_seed/core/parser.py:126-134 | one document merges to itself |
| Parser.LastDocumentWins | django_nested_seed/core/parser.py:114-134 | a non-mapping value in the last document is the merged value |
| Parser.ValidateStructure | django_nested_seed/core/parser.py:159-211 | no error exactly when every app label is a string holding a mapping of string collection names to lists of mappings; otherwise the first offender in walk order is reported as a YAML validation error |
| Parser.MergeWellShaped | django_nested_seed/core/parser.py:136-157 | merging two well-shaped documents gives a well-shaped one |
| Parser.MergeAllWellShaped | django_nested_seed/core/parser.py:114-134 | merging well-shaped documents gives a well-shaped one |
| Parser.OnlyMergedDocumentIsValidated | django_nested_seed/core/parser.py:35-40 | a file whose own shape is invalid is accepted when a later file overrides the bad part |
| Parser.LoadDocument | django_nested_seed/core/parser.py:103-112 | an empty document loads as `{}`, a mapping as itself; any other root is rejected |
| Parser.ParseString | django_nested_seed/core/parser.py:44-72 | succeeds exactly when the root is empty or a mapping and well shaped, returning its contents; the error cases are as in `_load_yaml` and `_validate_structure` |
| Parser.ParseFiles | django_nested_seed/core/parser.py:20-42 | the first document with a bad root is reported; otherwise it succeeds exactly when the merge of all documents is well shaped and returns that merge |
| Parser.WellShapedFilesMerge | django_nested_seed/core/parser.py:20-42 | files that are each well shaped always parse |
| Config.ParseRelationType | django_nested_seed/config/base.py:26-30 | exactly "one_to_one" and "foreign_key" are relation types, and each reads back to its own name |
| Config.ParseRelationTypeName | django_nested_seed/config/base.py:26-30 | every relation type's name parses back to it |
| Config.NewNestedRelationConfig | django_nested_seed/config/base.py:10-30 | construction succeeds exactly for the two relation types and keeps every field; otherwise the relation-type error |
| Config.SeedConfig.constructor | django_nested_seed/config/base.py:59-77 | the tables are those of adding the mappings in order, with the given reference key |
| Config.SeedConfig.WithDefaultKey | django_nested_seed/config/base.py:59-77 | as the constructor, with reference key `$ref` |
| Config.SeedConfig.AddMapping | django_nested_seed/config/base.py:79-94 | the mapping replaces any under its (app, collection); a non-empty nested list is appended to the list under (app, last segment of the model path) |
| Config.SeedConfig.GetModelPath | django_nested_seed/config/base.py:96-111 | the model path of the mapping stored under (app, collection), or none |
| Config.SeedConfig.GetAllNestedConfigs | django_nested_seed/config/base.py:136-151 | the list stored under (app, class name), else the empty list |
| Config.SeedConfig.GetNestedConfig | django_nested_seed/config/base.py:113-134 | the first stored relation with the nested key; none exactly when no relation has it |
| Config.FirstWithKey | django_nested_seed/config/base.py:113-134 | the first relation of the list with the nested key; none exactly when no relation has it |
| Config.NestedTableCollects | django_nested_seed/config/base.py:89-94 | the stored list is the concatenation, in order, of the nested lists of every mapping with that key |
| Config.LastMappingWins | django_nested_seed/config/base.py:86-87 | a key is mapped exactly when some mapping has it, and to the last such mapping |
| Config.ConfiguredPathIsLastMapping | django_nested_seed/config/base.py:96-111 | the configured model path is that of the last mapping for (app, collection) |
| Config.ConfiguredRelationsAccumulate | django_nested_seed/config/base.py:136-151 | the configured relations of a model are all nested lists of its mappings, concatenated |
| Resolver.LegacyTokenIsRegex | django_nested_seed/core/resolver.py:32 | the second alternative of `REFERENCE_PATTERN` holds exactly when the string has three names split at two dots |
| Resolver.AliasIsNotLegacy | django_nested_seed/core/resolver.py:32 | the two alternatives never overlap |
| Resolver.ReferencePatternAcceptsAlias | django_nested_seed/core/resolver.py:32 | `$alice` matches, and so does `$alice` followed by a final newline, which the `$` anchor admits |
| Resolver.ReferencePatternAcceptsIdentity | django_nested_seed/core/resolver.py:32 | every `app.Model.key` of well-formed names matches |
| Resolver.UndottedReferenceIsAlias | django_nested_seed/core/resolver.py:32 | a string without a dot matches only when it starts with `$` |
| Resolver.ReferencePatternRejectsUpperAlias | django_nested_seed/core/resolver.py:32 | an alias must start with a lower-case letter or underscore |
| Resolver.ReferencePatternRejectsLowerModel | django_nested_seed/core/resolver.py:32 | the middle part of a dotted token must be a class name |
| Resolver.ResolveFromConfig | django_nested_seed/core/resolver.py:75-106 | no model when no non-empty path is configured; a path that does not split into two parts, or names no model, is a model resolution error |
| Resolver.ResolveModel | django_nested_seed/core/resolver.py:43-73 | the configured model wins and its errors propagate; without one the model named directly is used; otherwise a model-not-found error |
| Resolver.DetectRelationshipType | django_nested_seed/core/resolver.py:142-167 | none for a missing field; "foreign_key" exactly for ForeignKey instances, "many_to_many" exactly for many-to-many fields |
| Resolver.OneToOneReportedAsForeignKey | django_nested_seed/core/resolver.py:160-163 | a one-to-one field subclasses ForeignKey, so it is reported as "foreign_key" and the "one_to_one" branch is never taken |
| Resolver.DetectNestedRelationship | django_nested_seed/core/resolver.py:221-270 | none exactly when no auto-created reverse one-to-many or one-to-one relation has the key as accessor; otherwise the configuration of the first such relation |
| Resolver.GetNestedConfig | django_nested_seed/core/resolver.py:169-185 | the first configured relation with the key under the model's app and class name; none exactly when no relation there has the key |
| Topological.DepsOf | django_nested_seed/utils/topological.py:31-37 | the dependencies of a descriptor are exactly its string field values that match the reference pattern |
| Topological.DescriptorMap | django_nested_seed/utils/topological.py:27 | keyed by exactly the identities of the descriptors, each entry a descriptor with that identity |
| Topological.DescriptorMapKeepsLast | django_nested_seed/utils/topological.py:27 | for a repeated identity the last descriptor wins |
| Topological.BuildDependencies | django_nested_seed/utils/topological.py:29-37 | the loop gives every mapped identity its dependency list |
| Topological.Visit | django_nested_seed/utils/topological.py:44-75 | without a cycle, the identity is finished and appended after its dependencies; the result stays ordered (every edge points backwards) and grows by extension; on a cycle it returns a walk of dependency edges from a node back to itself |
| Topological.TopologicalSort | django_nested_seed/utils/topological.py:8-82 | the result orders every dependency before its dependent and holds each identity exactly once; a circular-dependency error carries a genuine cycle; the depth-first order itself is not stated (see "## Left out") |
| Topological.OrderedGraphHasNoCycle | django_nested_seed/utils/topological.py:8-82 | a graph with such an order has no cycle, so the sort fails exactly on cyclic graphs |
| Topological.WalkGoesBackwards | django_nested_seed/utils/topological.py:64-75 | along a walk of dependencies, positions in the sorted list strictly decrease |
| Topological.AddDescriptor | django_nested_seed/utils/topological.py:99-103 | appends the descriptor and then, recursively, its children (pre-order) |
| Topological.FlattenDescriptors | django_nested_seed/utils/topological.py:85-108 | the pre-order flattening of all trees |
| Topological.FlatContainsTree | django_nested_seed/utils/topological.py:85-108 | every top-level descriptor and every child of a flattened descriptor is in the flattening |
| Topological.FlatOnlyTree | django_nested_seed/utils/topological.py:85-108 | the flattening holds nothing else |
| Builder.DescriptorBuilder.BuildDescriptors | django_nested_seed/core/builder.py:38-55 | app after app and collection after collection, in document order, the descriptors `_process_model` makes of each collection: its model resolved and its items described in order; one per listed object, each a root descriptor (identity `app.Model.key`, no parent field) holding its object's entries: only the mapping's keys become its fields and reference lists, and, with distinct keys, every plain entry is stored with its value |
| Builder.DescriptorBuilder.BuildApp | django_nested_seed/core/builder.py:51-53 | the descriptors of one app: each collection's `_process_model` descriptors, one collection after the other, each holding its object's entries as in `ProcessListItem` |
| Builder.DescriptorBuilder.ProcessModel | django_nested_seed/core/builder.py:57-103 | model resolution errors propagate; otherwise item j is described with the resolved model; its key is the `$ref` value, or `model_lower_N` where N counts the earlier items without `$ref`; each descriptor holds its item's entries other than `$ref`, as in `ProcessListItem` |
| Builder.DescriptorBuilder.ProcessObjectList | django_nested_seed/core/builder.py:76-101 | the loop describes item j with the counter equal to the number of earlier items without a reference key; descriptor j holds item j's entries other than the reference key |
| Builder.AutoKeysDistinct | django_nested_seed/core/builder.py:84-87 | two items of one list without a reference key never get the same key |
| Builder.DescriptorBuilder.ProcessListItem | django_nested_seed/core/builder.py:77-101 | the reference key is taken out of the fields and becomes the object key with `has_explicit_ref`; the identity is `app.Model.key`; of the remaining entries only the mapping's keys become its fields and reference lists, and, with distinct keys, every plain entry is stored with its value |
| Builder.ChooseKey | django_nested_seed/core/builder.py:79-87 | the key is the `$ref` value, removed from the fields, exactly when the fields have it; else the auto key and the fields unchanged |
| Builder.DescriptorBuilder.ProcessObjectFields | django_nested_seed/core/builder.py:105-172 | only the entries of the object's own keys change; every plain value (no list, no mapping) is stored unchanged |
| Builder.DescriptorBuilder.ProcessField | django_nested_seed/core/builder.py:115-172 | a value that is neither a list nor a mapping, or a non-string key, is stored unchanged; a mapping or a list changes only its own key and the children |
| Builder.DescriptorBuilder.ProcessMappingField | django_nested_seed/core/builder.py:117-148 | a reverse relation detected on the model gives the `_process_nested_field` outcome for it; failing that, a configured relation gives the same outcome for the configuration; failing that, a forward foreign-key or one-to-one field gives the `_process_nested_forward_fk` outcome; otherwise the mapping is stored as a plain value; only that key and the children change |
| Builder.DescriptorBuilder.ProcessListField | django_nested_seed/core/builder.py:150-172 | a detected reverse foreign-key relation gives the nested-list outcome; otherwise a list holding a reference string or a mapping gives the `_process_m2m_field` outcome; any other list is stored as a plain value; only that key and the children change |
| Builder.DescriptorBuilder.ProcessNestedField | django_nested_seed/core/builder.py:174-202 | children are only appended; a one-to-one config adds one child holding the mapping, a foreign-key config one child per entry holding that entry's mapping; in each child only the mapping's keys become its fields and reference lists, and, with distinct keys, every plain entry is stored with its value |
| Builder.DescriptorBuilder.CreateNestedOneToOne | django_nested_seed/core/builder.py:204-243 | a target model path without exactly two parts is an error; the child's identity is `parent.key`, with the parent's reverse field name; of the mapping only the mapping's keys become its fields and reference lists, and, with distinct keys, every plain entry is stored with its value |
| Builder.DescriptorBuilder.CreateNestedForeignKeyCollection | django_nested_seed/core/builder.py:245-291 | one child per entry, keyed by the entry key, with the reverse field name; of the entry's mapping only the mapping's keys become its fields and reference lists, and, with distinct keys, every plain entry is stored with its value |
| Builder.DescriptorBuilder.ProcessNestedListField | django_nested_seed/core/builder.py:293-347 | the appended children describe the items in order, keyed by `$ref` or `parentkey_nestedkey_N`; each holds its item's entries other than `$ref`: only the mapping's keys become its fields and reference lists, and, with distinct keys, every plain entry is stored with its value |
| Builder.DescriptorBuilder.ProcessNestedForwardFK | django_nested_seed/core/builder.py:349-406 | with no related model the mapping is kept as a plain value; otherwise one child of the related model is inserted first, the field points at its identity, and the key is `$ref` or `parentkey_field`; of the mapping without `$ref` only the mapping's keys become its fields and reference lists, and, with distinct keys, every plain entry is stored with its value |
| Builder.DescriptorBuilder.ProcessM2MField | django_nested_seed/core/builder.py:408-446 | a field that is not many-to-many keeps the list as a plain value; an auto-created through gives the standard outcome, a custom through the through outcome |
| Builder.DescriptorBuilder.ProcessStandardM2M | django_nested_seed/core/builder.py:448-476 | the field's reference list, stored when not empty, is `StandardRefs`: item by item, a reference string as it is, the n-th mapping as the identity of the n-th inline object, any other item nothing; the n-th inline object is child n of the group under the field, an object of the target model keyed `ownerkey_field_n` holding the mapping's plain fields; nothing else changes |
| Builder.DescriptorBuilder.StandardM2MItems | django_nested_seed/core/builder.py:449-470 | the loop collects exactly `StandardRefs` and the inline objects, one per mapping, in order |
| Builder.DescriptorBuilder.StandardRefsEntry | django_nested_seed/core/builder.py:449-470 | entry p of the reference list, p counting the earlier references and mappings, is the reference itself or the identity `target.ownerkey_field_n` of the inline object numbered by the earlier mappings |
| Builder.M2MKeysDistinct | django_nested_seed/core/builder.py:456 | different numbers give different keys, so the inline objects or through instances of one field never share an identity |
| Builder.LastPointing | django_nested_seed/core/builder.py:506-511 | the name of the last through-model field pointing at the model, or none |
| Builder.FindThroughSlots | django_nested_seed/core/builder.py:503-511 | the source slot is the last field pointing at the owner; the target slot the last pointing at the related model, and none when it is the owner itself (the `elif`) |
| Builder.DescriptorBuilder.ProcessM2MThroughField | django_nested_seed/core/builder.py:478-597 | the mapping at position i, other items skipped, gives the next through instance: keyed `ownerkey_field_i`, with the owner's identity and the source and target field names unless the item gives them, and the item's entries after the inline rewrite; the group is filed under the field's own name, the corrected behaviour of the Findings row; only that group changes |
| Builder.DescriptorBuilder.ThroughChildren | django_nested_seed/core/builder.py:513-593 | the loop gives, for the mapping at position i, the next through instance keyed `ownerkey_field_i`, as `ProcessThroughItem` states |
| Builder.ReboundName | django_nested_seed/core/builder.py:543 | as written, `field_name` ends as the last key of the last non-empty mapping item, or the field name when no item has an entry |
| Builder.SecondThroughGroupReplacesFirst | django_nested_seed/core/builder.py:543-597 | as written, two through fields of one owner whose last items both end with a `role` entry are filed under `role`, and the second group replaces the first |
| Builder.DistinctThroughGroupsKept | django_nested_seed/core/builder.py:596-597 | filed under their own distinct field names, the groups of two through fields are both kept |
| Builder.DescriptorBuilder.ProcessThroughItem | django_nested_seed/core/builder.py:518-593 | the through instance is keyed by the given key and carries the three marker fields unless the item supplies them; every scalar entry of the item after the inline rewrite is one of its fields, and the objects the rewrite made are among its children |
| Builder.DescriptorBuilder.ThroughEntryStored | django_nested_seed/core/builder.py:533-591 | with distinct keys, as in a Python dict, every scalar entry of a through item is a field of its through instance, with its own value |
| Builder.DescriptorBuilder.InlineThroughRelations | django_nested_seed/core/builder.py:541-589 | the item's keys and their order are kept; each entry is unchanged, or, for a mapping given for a relation of the through model, holds the identity of the object made of it, keyed by its `$ref` (removed from its fields) or `throughkey_field`; that object is among the returned children and holds the mapping's entries other than `$ref`, and every returned child was made of an entry |
| Builder.DescriptorBuilder.ProcessInlineObject | django_nested_seed/core/builder.py:549-585 | the inline object's key is `$ref` (removed from its fields) or the auto key; its identity is `app.Model.key`; of the mapping without `$ref` only the mapping's keys become its fields and reference lists, and, with distinct keys, every plain entry is stored with its value |
| Builder.DescriptorBuilder.ProcessM2MInlineObject | django_nested_seed/core/builder.py:453-468 | an inline many-to-many object of the target model gets the key it is given and identity `app.Model.key`; of its mapping only the mapping's keys become its fields and reference lists, and, with distinct keys, every plain entry is stored with its value |
| Loader.SeedLoader.ResolveFieldValue | django_nested_seed/core/loader.py:392-440 | non-strings pass unchanged; a lookup string on a foreign-key or one-to-one field goes through `get_from_db`; a reference string on such a field fails exactly when the registry cannot resolve it |
| Loader.SeedLoader.CreateObject | django_nested_seed/core/loader.py:188-211 | exactly one row of the model is saved, its fields each resolved; a non-string field name is an error and saves nothing |
| Loader.SeedLoader.CreateObjectTree | django_nested_seed/core/loader.py:146-186 | the identities are registered in the order: forward children, the object, reverse children, non-through inline children |
| Loader.ChildrenAroundParent | django_nested_seed/core/loader.py:154-179 | a forward child comes before its parent in that order, and a reverse child after |
| Loader.SeedLoader.CreateNestedChild | django_nested_seed/core/loader.py:213-262 | the same order, and the child's parent field holds the parent instance |
| Loader.SeedLoader.CreateInlineM2MChild | django_nested_seed/core/loader.py:264-307 | a through descriptor is delegated to `_create_through_instance`; otherwise the tree order with every inline child created |
| Loader.SeedLoader.CreateTrees | django_nested_seed/core/loader.py:136-144 | pass 1 registers the trees one after another, in list order |
| Loader.DependencyCreatedFirst | django_nested_seed/core/loader.py:113-117 | for a sorted list, every referenced identity is registered before the object that refers to it |
| Loader.SeedLoader.SelectTarget | django_nested_seed/core/loader.py:331-357 | the target is the value under the target slot when it is reference-like, else the first reference-like value; none exactly when no value is reference-like |
| Loader.ThroughRest | django_nested_seed/core/loader.py:323-325 | popping the three marker fields leaves every other field as it was |
| Loader.SeedLoader.LinkThrough | django_nested_seed/core/loader.py:323-379 | missing markers and a missing target are errors; on success the source and target slots hold the resolved instances and every other field is kept |
| Loader.SeedLoader.CreateThroughInstance | django_nested_seed/core/loader.py:309-390 | forward children first, then one saved row whose source and target slots hold the resolved instances |
| Loader.ResolveAll | django_nested_seed/relations/many_to_many.py:51-55 | succeeds exactly when every reference resolves, giving their instances in order; otherwise the first failing reference |
| Loader.SeedLoader.ResolveReferences | django_nested_seed/relations/many_to_many.py:51-55 | the loop computes `ResolveAll` |
| Loader.SeedLoader.ResolveAndSet | django_nested_seed/relations/many_to_many.py:35-59 | on success the field's members are exactly the resolved instances and no other field changes; a failing reference sets nothing |
| Loader.FieldSets | django_nested_seed/core/loader.py:466-469 | one membership per many-to-many field, or an error |
| Loader.FieldSetsMeaning | django_nested_seed/core/loader.py:466-469 | the sets succeed exactly when every field name is a string and every reference list resolves; then field i becomes the owner's membership under that name holding the resolved instances in order; otherwise a reference was not found or a field name was not a string |
| Loader.DescriptorSets | django_nested_seed/core/loader.py:459-469 | one membership per many-to-many field; none without fields; an owner that is not registered is an error |
| Loader.SeedLoader.SetM2MFields | django_nested_seed/core/loader.py:459-469 | nothing without reference lists; an unregistered owner is an error; otherwise the appended memberships are those of `FieldSets`, which is `DescriptorSets` against the registry as it is |
| Loader.SeedLoader.SetM2MFieldsAsWritten | django_nested_seed/core/loader.py:459-469 | the call as written fails for every descriptor with reference lists whose owner is registered |
| Loader.SeedLoader.ResolveDescriptorM2M | django_nested_seed/core/loader.py:449-469 | the descriptor's through instances are created in group order, each saved row holding the source and target its references resolved to; then the appended memberships are exactly `DescriptorSets` of the descriptor against the registry as it then is; the `set` calls are the corrected handler call of the Findings row |
| Loader.SeedLoader.CreateThroughGroups | django_nested_seed/core/loader.py:453-458 | the through instances of every group are created in order, and each saved row holds the source and target its references resolved to |
| Loader.SeedLoader.ThroughLinkedKept | django_nested_seed/core/loader.py:453-458 | a through instance linked in pass 2 stays linked as pass 2 goes on: rows are never rewritten and the registry only grows |
| Loader.SeedLoader.PassTwo | django_nested_seed/core/loader.py:442-472 | pass 2 only extends the registry and the database; the through instances of all descriptors are created in order, and each is linked to the source and target its references resolved to; the appended memberships are, descriptor after descriptor, `DescriptorSets` against the registry that descriptor met; the `set` calls are the corrected handler call of the Findings row |
| Loader.SeedLoader.PassTwoIfNeeded | django_nested_seed/core/loader.py:119-128 | the guard around pass 2: whether pass 2 runs or is skipped, the outcome is that of `PassTwo` |
| Loader.FoundCountAll | django_nested_seed/core/loader.py:119 | the memberships pass 2 sets number the many-to-many fields of all descriptors (`m2m_count`) |
| Loader.NoFieldsFound | django_nested_seed/core/loader.py:119-125 | when no descriptor has a many-to-many field, every descriptor sets nothing |
| Loader.SeedLoader.NoLinksWithoutChildren | django_nested_seed/core/loader.py:120-125 | when no descriptor has an inline child, no through instance is left unlinked |
| Loader.PassTwoGuardHarmless | django_nested_seed/core/loader.py:121-128 | when no descriptor has a reference list or an inline child, pass 2 would create nothing and set nothing, so skipping it loses nothing; this holds of the corrected handler call of the Findings row |
| Loader.SeedLoader.ExecuteLoad | django_nested_seed/core/loader.py:92-134 | the top-level descriptors are those `build_descriptors` makes of the data, in document order, each holding its object's entries; they are sorted with dependencies first and created tree by tree; then pass 2 runs over the flattened trees with the outcome of `PassTwo`: through instances linked, memberships the concatenation of each descriptor's `DescriptorSets`, through the corrected handler call of the Findings row; the database only grows |
| Loader.SeedLoader.Load | django_nested_seed/core/loader.py:58-74 | on any error the rows and memberships are rolled back; on success the merged documents were loaded as in `ExecuteLoad`, with the same descriptors, creation order, through links and memberships, through the corrected handler call of the Findings row |

## Left out

- YAML decoding and file access are outside the model: `Parser.ParseFiles` and `Parser.ParseString` take decoded documents. The missing-file, not-a-file, read and syntax errors of `_load_yaml` and `parse_string` are therefore not modelled.
- Floating-point, date and other YAML scalars are not modelled: the value datatype has null, booleans, integers, strings, lists and mappings.
- Python dictionary key equality across types (`1 == True`) is not modelled: keys of different constructors are different.
- The Django ORM is the `Store` class: rows, memberships and a lookup predicate supplied by the caller. Field validation by model constructors and database constraints are not modelled.
- The model metadata Django supplies (`get_field`, `get_fields`, `related_model`, through models) is the `Schema` value. `_meta.get_field` raising for a missing field is `None`.
- `is_any_reference`, `is_db_lookup_pattern` and `parse_db_lookup` are called by the builder and the loader but are not defined in `resolver.py`. They are not part of this model: they are functions the caller supplies (`TokenOracle`).
- Loader.SeedLoader.Load: the registry is not rolled back with the database when a load fails. The source does not reset it either, so its contents after a failure are left unconstrained.
- `ModelResolver.get_model_fields`, `is_field_on_model` and `get_all_nested_configs` are thin wrappers over Django metadata. Only `get_nested_config`, which the builder calls, is modelled.
- `SeedConfig.from_django_settings`, the management command, `load_from_string`'s logging and all `_log` output are left out: they are I/O.
- `ModelResolver.detect_relationship_type` returning "one_to_one" is unreachable and is stated as such (`Resolver.OneToOneReportedAsForeignKey`).
- Recursion in the builder terminates on the size of the document. There is no depth limit, matching the source.
- `Lower` lowers ASCII letters only. `model_name.lower()` in builder.py also maps non-ASCII letters, so the automatic keys of a collection whose name has non-ASCII capitals differ from the source's.
- `Display` renders a list used as an object key as `[...]` and a mapping as `{...}`. Python writes their full repr, so two distinct list or mapping keys that the source keeps apart give one identity in the model.
- The `Schema` value cannot express an auto-created concrete one-to-one field, such as the `parent_ptr` of multi-table inheritance. On such a field `detect_nested_relationship` (resolver.py:240-248) calls `get_accessor_name` and raises; the model has no such field to raise on.
- A mapping is an association list, which may repeat a key where a Python dict cannot. The field contents of inline and through objects are stated for mappings with distinct keys, the only kind a decoded YAML document gives.
- Topological.TopologicalSort: the result is stated only up to topological order, with every dependency before its dependant and each identity once. The depth-first post-order of topological.py:65-80, with roots taken in input order, is not stated, so that unrelated descriptors keep their input order is not promised.
- Loader.SeedLoader.SetM2MFields: the corrected handler call resolves registry references (identities and `$alias`) only. Database lookups in a many-to-many list (`@slug:python`, which loader.py:468 would resolve through `self.resolver` and `get_from_db`) are not modelled: such an item is looked up in the registry like any other string.
- The `field_name` rebinding at builder.py:543 is described under "## Findings". `ProcessM2MThroughField` models the corrected behaviour; `ReboundName` models the code as written.

## Findings

| source | as written | input that shows it | evidently intended | confidence | as-written member | corrected member |
|---|---|---|---|---|---|---|
| django_nested_seed/core/loader.py:467-469 | `resolve_and_set` gets six positional arguments counting `self` (`instance, field_name, references, registry, resolver`), but `ManyToManyHandler.resolve_and_set` (relations/many_to_many.py:35-41) takes five, so every call raises `TypeError` | a `testapp.Book` object with `categories: ["testapp.Category.python", "testapp.Category.django"]`, a many-to-many field with an auto-created through model, both categories created in pass 1 | the references are resolved and set as the field's members (tests/test_mixed_m2m.py:130-181); the corrected member resolves registry references only, while `@` lookups (tests/test_db_lookups.py:120-169) are not modelled, see "## Left out" | high (not executed) | Loader.SeedLoader.SetM2MFieldsAsWritten | Loader.SeedLoader.SetM2MFields |
| django_nested_seed/core/builder.py:543 | the inner loop over each item's entries reuses the name `field_name` as its loop variable, so every later through key (line 519) and the key the group is filed under (line 597) use the last entry key of the last non-empty item | one owner with a `members` through list whose items end in `role: admin` and a `projects` through list whose items end in `role: lead`: both groups are filed under `role`, and the second replaces the first, so the members' through instances are never created | the through instances are keyed `ownerkey_field_idx` and filed under the many-to-many field's own name, so the groups of distinct fields are all kept (`Builder.DistinctThroughGroupsKept`) | high (not executed) | Builder.SecondThroughGroupReplacesFirst | Builder.DescriptorBuilder.ProcessM2MThroughField |

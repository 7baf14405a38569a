/**
 * Object descriptors (`ObjectDescriptor`) and the registry of created
 * instances (`ObjectRegistry`).
 */
module Registry {
  import opened Wrappers
  import opened Values
  import opened Errors
  import opened Schema
  import opened Store

  /** The field names that mark a descriptor as an instance of a custom through model. */
  const SourceIdentityField: string := "__source_identity__"
  const SourceFieldField: string := "__source_field__"
  const TargetFieldField: string := "__target_field__"

  /**
   * One object to create. `fields` holds plain values and unresolved
   * reference strings; `m2mFields` the reference lists of many-to-many
   * fields; `m2mInline` the inline children per many-to-many field;
   * `parentFieldName` is set for a reverse nested child, whose parent is
   * assigned to that field when it is created.
   */
  datatype Descriptor = Descriptor(
    identity: string,
    appLabel: string,
    collectionName: string,
    objectKey: Value,
    model: ModelRef,
    fields: Entries,
    m2mFields: Assoc<seq<string>>,
    m2mInline: seq<InlineGroup>,
    nestedChildren: seq<Descriptor>,
    parentFieldName: Option<string>,
    hasExplicitRef: bool)

  /** One entry of `m2m_inline_children`: a key and the descriptors stored under it. */
  datatype InlineGroup = InlineGroup(field: Value, children: seq<Descriptor>)

  /** A descriptor with no fields and no children yet, as the dataclass defaults give. */
  function NewDescriptor(identity: string, appLabel: string, collectionName: string, objectKey: Value,
                         model: ModelRef, parentFieldName: Option<string>, hasExplicitRef: bool): Descriptor
  {
    Descriptor(identity, appLabel, collectionName, objectKey, model, [], [], [], [], parentFieldName, hasExplicitRef)
  }

  /** A descriptor created by the loader only in the second pass. */
  predicate IsThroughDescriptor(d: Descriptor) {
    Str(SourceIdentityField) in Keys(d.fields)
  }

  /** The position of the group stored under `field`, if any. */
  function GroupIndex(gs: seq<InlineGroup>, field: Value, from: nat): (r: Option<nat>)
    requires from <= |gs|
    ensures r.Some? ==> from <= r.value < |gs| && gs[r.value].field == field
    ensures r.None? ==> forall i :: from <= i < |gs| ==> gs[i].field != field
    decreases |gs| - from
  {
    if from == |gs| then None
    else if gs[from].field == field then Some(from)
    else GroupIndex(gs, field, from + 1)
  }

  /** `m2m_inline_children[field] = children`: replaced in place, or appended. */
  function PutGroup(gs: seq<InlineGroup>, field: Value, children: seq<Descriptor>): (r: seq<InlineGroup>)
    ensures (exists i :: 0 <= i < |gs| && gs[i].field == field) ==>
              exists i :: 0 <= i < |gs| && gs[i].field == field && r == gs[i := InlineGroup(field, children)]
    ensures (forall i :: 0 <= i < |gs| ==> gs[i].field != field) ==> r == gs + [InlineGroup(field, children)]
  {
    match GroupIndex(gs, field, 0)
    case Some(i) => gs[i := InlineGroup(field, children)]
    case None => gs + [InlineGroup(field, children)]
  }

  /** A sequence without repetitions. */
  predicate Distinct(s: seq<string>) {
    forall i, j :: 0 <= i < j < |s| ==> s[i] != s[j]
  }

  /** The elements of a sequence without repetitions are as many as its length. */
  lemma {:induction false} DistinctCardinality(s: seq<string>)
    requires Distinct(s)
    ensures |set x | x in s| == |s|
  {
    if s != [] {
      var init, last := s[..|s| - 1], s[|s| - 1];
      DistinctCardinality(init);
      assert s == init + [last];
      assert (set x | x in s) == (set x | x in init) + {last};
      assert last !in init;
    }
  }

  /** The values that can be dictionary keys: everything but lists and mappings. */
  predicate Hashable(v: Value) {
    !v.List? && !v.Dict?
  }

  class ObjectRegistry {
    var instances: map<string, Handle>
    var aliasIndex: map<Value, string>
    var creationOrder: seq<string>
    var lookupCache: map<(ModelRef, seq<(string, Value)>), Handle>

    /** Creation order lists each registered identity once; every alias names a registered identity. */
    ghost predicate Valid()
      reads this
    {
      Distinct(creationOrder) &&
      (set x | x in creationOrder) == instances.Keys &&
      (forall a :: a in aliasIndex ==> aliasIndex[a] in instances)
    }

    constructor ()
      ensures Valid()
      ensures instances == map[] && aliasIndex == map[] && creationOrder == [] && lookupCache == map[]
    {
      instances := map[];
      aliasIndex := map[];
      creationOrder := [];
      lookupCache := map[];
    }

    /**
     * `register(identity, instance, ref_key)`. A repeated identity changes
     * nothing. Otherwise the instance is recorded before the alias is
     * examined, so it stays recorded when the alias is refused.
     */
    method Register(identity: string, h: Handle, alias: Value) returns (err: Option<SeedError>)
      requires Valid()
      modifies this
      ensures Valid()
      ensures lookupCache == old(lookupCache)
      ensures identity in old(instances) ==>
                err == Some(DuplicateIdentity(identity)) && instances == old(instances) &&
                creationOrder == old(creationOrder) && aliasIndex == old(aliasIndex)
      ensures identity !in old(instances) ==>
                instances == old(instances)[identity := h] && creationOrder == old(creationOrder) + [identity]
      ensures identity !in old(instances) && !Truthy(alias) ==> err.None? && aliasIndex == old(aliasIndex)
      ensures identity !in old(instances) && Truthy(alias) && !Hashable(alias) ==>
                err == Some(UnhashableAlias) && aliasIndex == old(aliasIndex)
      ensures identity !in old(instances) && Truthy(alias) && Hashable(alias) && alias in old(aliasIndex) ==>
                err == Some(DuplicateAlias(Display(alias), old(aliasIndex)[alias])) && aliasIndex == old(aliasIndex)
      ensures identity !in old(instances) && Truthy(alias) && Hashable(alias) && alias !in old(aliasIndex) ==>
                err.None? && aliasIndex == old(aliasIndex)[alias := identity]
    {
      if identity in instances {
        return Some(DuplicateIdentity(identity));
      }
      assert identity !in creationOrder;
      instances := instances[identity := h];
      creationOrder := creationOrder + [identity];
      err := None;
      if Truthy(alias) {
        if !Hashable(alias) {
          err := Some(UnhashableAlias);
        } else if alias in aliasIndex {
          err := Some(DuplicateAlias(Display(alias), aliasIndex[alias]));
        } else {
          aliasIndex := aliasIndex[alias := identity];
        }
      }
    }

    /** `get(identity_or_ref)`: by identity first, then by `$alias`. */
    function Get(token: string): (r: Result<Handle, SeedError>)
      requires Valid()
      reads this
      ensures r.Ok? <==> token in instances || (|token| >= 1 && token[0] == '$' && Str(token[1..]) in aliasIndex)
      ensures r.Ok? ==> r.value in instances.Values
      ensures token in instances ==> r == Ok(instances[token])
      ensures token !in instances && |token| >= 1 && token[0] == '$' && Str(token[1..]) in aliasIndex ==>
                r == Ok(instances[aliasIndex[Str(token[1..])]])
      ensures r.Err? ==> r.error == ReferenceNotFound(token)
    {
      Resolve(instances, aliasIndex, token)
    }

    /** `has(identity)`: the identity is among those created. */
    function Has(identity: string): (r: bool)
      requires Valid()
      reads this
      ensures r <==> identity in AllIdentities()
    {
      identity in instances
    }

    /** `all_identities()`: the identities in creation order, each once. */
    function AllIdentities(): (r: seq<string>)
      requires Valid()
      reads this
      ensures Distinct(r) && (set x | x in r) == instances.Keys
    {
      creationOrder
    }

    /** `count()`: as many instances as identities created. */
    function Count(): (r: nat)
      requires Valid()
      reads this
      ensures r == |AllIdentities()|
    {
      DistinctCardinality(creationOrder);
      |instances|
    }

    /** `clear()` */
    method Clear()
      modifies this
      ensures Valid()
      ensures instances == map[] && aliasIndex == map[] && creationOrder == [] && lookupCache == map[]
    {
      instances := map[];
      aliasIndex := map[];
      creationOrder := [];
      lookupCache := map[];
    }

    /**
     * `get_from_db(model, params)`: a cached answer if there is one, else
     * the query, whose single answer is cached.
     */
    method GetFromDb(model: ModelRef, params: seq<(string, Value)>, db: Store) returns (r: Result<Handle, SeedError>)
      modifies this
      ensures instances == old(instances) && aliasIndex == old(aliasIndex) && creationOrder == old(creationOrder)
      ensures (model, params) in old(lookupCache) ==> r == Ok(old(lookupCache)[(model, params)]) && lookupCache == old(lookupCache)
      ensures (model, params) !in old(lookupCache) ==>
                match db.Lookup(model, params)
                case Match(h) => r == Ok(h) && lookupCache == old(lookupCache)[(model, params) := h]
                case NoMatch => r == Err(LookupNotFound(params)) && lookupCache == old(lookupCache)
                case Multiple => r == Err(LookupMultiple(params)) && lookupCache == old(lookupCache)
    {
      if (model, params) in lookupCache {
        return Ok(lookupCache[(model, params)]);
      }
      match db.Lookup(model, params)
      case Match(h) =>
        lookupCache := lookupCache[(model, params) := h];
        r := Ok(h);
      case NoMatch =>
        r := Err(LookupNotFound(params));
      case Multiple =>
        r := Err(LookupMultiple(params));
    }
  }

  /**
   * The answer of `get` for a registry holding `instances` and `aliasIndex`
   * (in a valid registry every alias names a registered identity).
   */
  function Resolve(instances: map<string, Handle>, aliasIndex: map<Value, string>, token: string): Result<Handle, SeedError>
  {
    if token in instances then Ok(instances[token])
    else if |token| >= 1 && token[0] == '$' && Str(token[1..]) in aliasIndex && aliasIndex[Str(token[1..])] in instances then
      Ok(instances[aliasIndex[Str(token[1..])]])
    else Err(ReferenceNotFound(token))
  }

  /**
   * After a successful registration the identity finds the instance; when a
   * string alias was recorded for it, that alias prefixed by `$` finds it too.
   */
  lemma RegisteredIsFound(reg: ObjectRegistry, identity: string, h: Handle, alias: string)
    requires reg.Valid()
    requires identity in reg.instances && reg.instances[identity] == h
    ensures reg.Get(identity) == Ok(h)
    ensures Str(alias) in reg.aliasIndex && reg.aliasIndex[Str(alias)] == identity && "$" + alias !in reg.instances ==>
              reg.Get("$" + alias) == Ok(h)
  {
    assert ("$" + alias)[1..] == alias;
  }
}

/**
 * The two-pass creation engine (`SeedLoader`). Pass 1 creates the objects
 * of every descriptor tree: forward children before their parent, reverse
 * children after it, every object registered as soon as it is saved.
 * Pass 2 creates the instances of custom through models and sets the
 * many-to-many memberships.
 */
module Loader {
  import opened Wrappers
  import opened Values
  import opened Errors
  import opened Text
  import opened Schema
  import opened Config
  import opened Resolver
  import opened Store
  import opened Registry
  import opened Topological
  import opened Parser
  import opened Builder

  // ---------------------------------------------------------------------
  // The order in which the creators register identities
  // ---------------------------------------------------------------------

  /**
   * `_create_object_tree`, and `_create_nested_child`, which creates in the
   * same order: forward children, the object, reverse children, then the
   * inline many-to-many children that are not through instances.
   */
  function TreeOrder(d: Descriptor): seq<string>
    decreases d, 1
  {
    ForwardOrder(d.nestedChildren) + [d.identity] + ReverseOrder(d.nestedChildren) + GroupsOrder(d.m2mInline, true)
  }

  /** The trees of the children without a parent field name, in order. */
  function ForwardOrder(cs: seq<Descriptor>): seq<string>
    decreases cs, 1
  {
    if cs == [] then []
    else
      var n := |cs| - 1;
      ForwardOrder(cs[..n]) + ForwardChildOrder(cs[n])
  }

  function ForwardChildOrder(c: Descriptor): seq<string>
    decreases c, 2
  {
    if c.parentFieldName.None? then TreeOrder(c) else []
  }

  /** The trees of the children with a parent field name, in order. */
  function ReverseOrder(cs: seq<Descriptor>): seq<string>
    decreases cs, 1
  {
    if cs == [] then []
    else
      var n := |cs| - 1;
      ReverseOrder(cs[..n]) + ReverseChildOrder(cs[n])
  }

  function ReverseChildOrder(c: Descriptor): seq<string>
    decreases c, 2
  {
    if c.parentFieldName.Some? then TreeOrder(c) else []
  }

  /** Every tree of `cs`, in order (`_pass_one_create_objects`, and the children of a through instance). */
  function TreesOrder(cs: seq<Descriptor>): seq<string>
    decreases cs, 1
  {
    if cs == [] then []
    else
      var n := |cs| - 1;
      TreesOrder(cs[..n]) + TreeOrder(cs[n])
  }

  /** The inline children of every group; through instances are left out when `skipThrough`. */
  function GroupsOrder(gs: seq<InlineGroup>, skipThrough: bool): seq<string>
    decreases gs, 1
  {
    if gs == [] then []
    else
      var n := |gs| - 1;
      GroupsOrder(gs[..n], skipThrough) + InlineChildrenOrder(gs[n].children, skipThrough)
  }

  function InlineChildrenOrder(cs: seq<Descriptor>, skipThrough: bool): seq<string>
    decreases cs, 1
  {
    if cs == [] then []
    else
      var n := |cs| - 1;
      InlineChildrenOrder(cs[..n], skipThrough) + InlineChildOrder(cs[n], skipThrough)
  }

  function InlineChildOrder(c: Descriptor, skipThrough: bool): seq<string>
    decreases c, 2
  {
    if skipThrough && IsThroughDescriptor(c) then [] else InlineOrder(c)
  }

  /**
   * `_create_inline_m2m_child`: a through instance is created as such;
   * otherwise like a tree, except that all its inline children follow,
   * through instances included.
   */
  function InlineOrder(c: Descriptor): seq<string>
    decreases c, 1
  {
    if IsThroughDescriptor(c) then ThroughOrder(c)
    else ForwardOrder(c.nestedChildren) + [c.identity] + ReverseOrder(c.nestedChildren) + GroupsOrder(c.m2mInline, false)
  }

  /** `_create_through_instance`: the trees of its nested children, then the instance. */
  function ThroughOrder(c: Descriptor): seq<string>
    decreases c, 0
  {
    TreesOrder(c.nestedChildren) + [c.identity]
  }

  /** Pass 2: the through instances among the inline children of each descriptor, in order. */
  function PassTwoOrder(ds: seq<Descriptor>): seq<string>
    decreases |ds|
  {
    if ds == [] then []
    else
      var n := |ds| - 1;
      PassTwoOrder(ds[..n]) + ThroughGroupsOrder(ds[n].m2mInline)
  }

  function ThroughGroupsOrder(gs: seq<InlineGroup>): seq<string>
    decreases |gs|
  {
    if gs == [] then []
    else
      var n := |gs| - 1;
      ThroughGroupsOrder(gs[..n]) + ThroughChildrenOrder(gs[n].children)
  }

  function ThroughChildrenOrder(cs: seq<Descriptor>): seq<string>
    decreases |cs|
  {
    if cs == [] then []
    else
      var n := |cs| - 1;
      ThroughChildrenOrder(cs[..n]) + (if IsThroughDescriptor(cs[n]) then ThroughOrder(cs[n]) else [])
  }

  // The last step of each order, for the loops that build it.

  lemma ForwardStep(cs: seq<Descriptor>, i: nat)
    requires i < |cs|
    ensures ForwardOrder(cs[..i + 1]) == ForwardOrder(cs[..i]) + ForwardChildOrder(cs[i])
  {
    assert cs[..i + 1][..i] == cs[..i];
  }

  lemma ReverseStep(cs: seq<Descriptor>, i: nat)
    requires i < |cs|
    ensures ReverseOrder(cs[..i + 1]) == ReverseOrder(cs[..i]) + ReverseChildOrder(cs[i])
  {
    assert cs[..i + 1][..i] == cs[..i];
  }

  lemma TreesStep(cs: seq<Descriptor>, i: nat)
    requires i < |cs|
    ensures TreesOrder(cs[..i + 1]) == TreesOrder(cs[..i]) + TreeOrder(cs[i])
  {
    assert cs[..i + 1][..i] == cs[..i];
  }

  lemma GroupsStep(gs: seq<InlineGroup>, skipThrough: bool, i: nat)
    requires i < |gs|
    ensures GroupsOrder(gs[..i + 1], skipThrough) == GroupsOrder(gs[..i], skipThrough) + InlineChildrenOrder(gs[i].children, skipThrough)
  {
    assert gs[..i + 1][..i] == gs[..i];
  }

  lemma InlineChildrenStep(cs: seq<Descriptor>, skipThrough: bool, i: nat)
    requires i < |cs|
    ensures InlineChildrenOrder(cs[..i + 1], skipThrough) == InlineChildrenOrder(cs[..i], skipThrough) + InlineChildOrder(cs[i], skipThrough)
  {
    assert cs[..i + 1][..i] == cs[..i];
  }

  // ---------------------------------------------------------------------
  // Values handed to a model constructor
  // ---------------------------------------------------------------------

  /** The fields of a descriptor as constructor arguments, before any is resolved. */
  function Lift(es: Entries): (r: Assoc<Slot>)
    ensures |r| == |es| && forall i :: 0 <= i < |es| ==> r[i] == (es[i].0, Raw(es[i].1))
  {
    seq(|es|, i requires 0 <= i < |es| => (es[i].0, Raw(es[i].1)))
  }

  /** Every entry of `a` is in `b` unchanged. */
  ghost predicate SubMap<K, V>(a: map<K, V>, b: map<K, V>) {
    forall k :: k in a ==> k in b && b[k] == a[k]
  }

  /** The first key that is not a string, which `Model(**fields)` refuses. */
  function FirstNonStringKey<V>(es: Assoc<V>): (r: Option<Value>)
    ensures r.None? <==> forall i :: 0 <= i < |es| ==> es[i].0.Str?
    ensures r.Some? ==> !r.value.Str? && r.value in Keys(es)
    decreases |es|
  {
    if es == [] then None
    else if !es[0].0.Str? then Some(es[0].0)
    else
      var r := FirstNonStringKey(es[1..]);
      assert forall i :: 1 <= i < |es| ==> es[i] == es[1..][i - 1];
      r
  }

  /** The sum of `len(desc.m2m_fields)`. */
  function M2MCount(ds: seq<Descriptor>): nat
    decreases |ds|
  {
    if ds == [] then 0 else M2MCount(ds[..|ds| - 1]) + |ds[|ds| - 1].m2mFields|
  }

  /** The sum of the sizes of every inline group. */
  function InlineCount(ds: seq<Descriptor>): nat
    decreases |ds|
  {
    if ds == [] then 0 else InlineCount(ds[..|ds| - 1]) + GroupSizes(ds[|ds| - 1].m2mInline)
  }

  function GroupSizes(gs: seq<InlineGroup>): nat
    decreases |gs|
  {
    if gs == [] then 0 else GroupSizes(gs[..|gs| - 1]) + |gs[|gs| - 1].children|
  }
  // ---------------------------------------------------------------------
  // What the creators only ever extend
  // ---------------------------------------------------------------------

  /** The registry's maps and the database's rows and memberships at one moment. */
  datatype Snapshot = Snapshot(
    instances: map<string, Handle>,
    aliasIndex: map<Value, string>,
    lookupCache: map<(ModelRef, seq<(string, Value)>), Handle>,
    rows: seq<Row>,
    memberships: seq<Membership>)

  /**
   * `b` extends `a`: no identity, alias or cached lookup is lost or
   * changed, no saved row changes and no membership is set.
   */
  ghost predicate Grows(a: Snapshot, b: Snapshot) {
    SubMap(a.instances, b.instances) && SubMap(a.aliasIndex, b.aliasIndex) &&
    SubMap(a.lookupCache, b.lookupCache) &&
    |a.rows| <= |b.rows| && b.rows[..|a.rows|] == a.rows && b.memberships == a.memberships
  }

  lemma GrowsTrans(a: Snapshot, b: Snapshot, c: Snapshot)
    requires Grows(a, b) && Grows(b, c)
    ensures Grows(a, c)
  {
    assert c.rows[..|a.rows|] == c.rows[..|b.rows|][..|a.rows|];
  }

  /** A saved row stays as it was. */
  lemma RowKept(a: Snapshot, b: Snapshot, h: Handle)
    requires Grows(a, b) && h < |a.rows|
    ensures h < |b.rows| && b.rows[h] == a.rows[h]
  {
    assert b.rows[..|a.rows|][h] == b.rows[h];
  }

  /**
   * `d` was saved as row `h` and registered under its identity, and under
   * its key as an alias when the key was given explicitly.
   */
  ghost predicate CreatedIn(d: Descriptor, h: Handle, s: Snapshot) {
    d.identity in s.instances && s.instances[d.identity] == h &&
    h < |s.rows| && s.rows[h].model == d.model &&
    (d.hasExplicitRef && Truthy(d.objectKey) ==>
       d.objectKey in s.aliasIndex && s.aliasIndex[d.objectKey] == d.identity)
  }

  /** Whatever the creators do later, an object created before stays created. */
  lemma CreatedKept(d: Descriptor, h: Handle, a: Snapshot, b: Snapshot)
    requires CreatedIn(d, h, a) && Grows(a, b)
    ensures CreatedIn(d, h, b)
  {
    RowKept(a, b, h);
  }

  /**
   * A token the registry found finds the same instance once the registry
   * has grown, unless the token has since been registered as an identity.
   */
  lemma ResolveKept(a: Snapshot, b: Snapshot, token: string)
    requires Grows(a, b) && Resolve(a.instances, a.aliasIndex, token).Ok?
    requires token in a.instances || token !in b.instances
    ensures Resolve(b.instances, b.aliasIndex, token) == Resolve(a.instances, a.aliasIndex, token)
  {
  }

  /** Every constructor argument that already is a model instance reaches the saved row unchanged. */
  ghost predicate Pinned(fields: Assoc<Slot>, out: Assoc<Slot>) {
    forall k :: Get(fields, k).Some? && Get(fields, k).value.Obj? ==> Get(out, k) == Get(fields, k)
  }

  /** The fields of a through descriptor once its three bookkeeping slots are popped. */
  function ThroughRest(c: Descriptor): (r: Entries)
    ensures Keys(r) == Keys(c.fields) - {Str(SourceIdentityField), Str(SourceFieldField), Str(TargetFieldField)}
    ensures forall k :: k in Keys(r) ==> Get(r, k) == Get(c.fields, k)
  {
    var (x, y, z) := (Str(SourceIdentityField), Str(SourceFieldField), Str(TargetFieldField));
    RemoveThreeKeys(c.fields, x, y, z);
    RemoveThreeGet(c.fields, x, y, z);
    Remove(Remove(Remove(c.fields, x), y), z)
  }

  lemma RemoveThreeKeys<V>(es: Assoc<V>, x: Value, y: Value, z: Value)
    ensures Keys(Remove(Remove(Remove(es, x), y), z)) == Keys(es) - {x, y, z}
  {
    var a := Remove(es, x);
    var b := Remove(a, y);
    assert Keys(b) == Keys(es) - {x, y};
  }

  lemma RemoveThreeGet<V>(es: Assoc<V>, x: Value, y: Value, z: Value)
    ensures forall k :: k !in {x, y, z} ==> Get(Remove(Remove(Remove(es, x), y), z), k) == Get(es, k)
  {
  }

  lemma {:induction false} FindLift(es: Entries, k: Value, from: nat)
    requires from <= |es|
    ensures FindFrom(Lift(es), k, from) == FindFrom(es, k, from)
    decreases |es| - from
  {
    if from < |es| {
      FindLift(es, k, from + 1);
    }
  }

  /** Lifting keeps keys and values in place. */
  lemma GetLift(es: Entries, k: Value)
    ensures Keys(Lift(es)) == Keys(es)
    ensures Get(Lift(es), k) == (if Get(es, k).Some? then Some(Raw(Get(es, k).value)) else None)
  {
    FindLift(es, k, 0);
    assert Keys(Lift(es)) == Keys(es) by {
      forall x | x in Keys(es) ensures x in Keys(Lift(es)) {
        var i :| 0 <= i < |es| && es[i].0 == x;
        assert Lift(es)[i].0 == x;
      }
    }
  }

  class SeedLoader {
    const config: SeedConfig
    const schema: Schema
    const tokens: TokenOracle
    const builder: DescriptorBuilder
    const registry: ObjectRegistry
    const store: Store

    constructor (config: SeedConfig, schema: Schema, tokens: TokenOracle, store: Store)
      ensures this.config == config && this.schema == schema && this.tokens == tokens && this.store == store
      ensures Wired() && fresh(registry) && registry.Valid() && registry.creationOrder == []
    {
      this.config := config;
      this.schema := schema;
      this.tokens := tokens;
      this.store := store;
      this.builder := new DescriptorBuilder(config, schema, tokens);
      this.registry := new ObjectRegistry();
    }

    /** The builder works on the loader's configuration, schema and token predicates. */
    ghost predicate Wired() {
      builder.config == config && builder.schema == schema && builder.tokens == tokens
    }

    /** `_meta.get_field(name)`, where a name that is not a string finds nothing. */
    function FieldOf(model: ModelRef, name: Value): Option<Member> {
      if name.Str? then GetField(schema, model, name.s) else None
    }

    /** A database lookup token on a foreign-key or one-to-one field. */
    predicate LookupField(model: ModelRef, name: Value, s: string) {
      tokens.isDbLookup(s) && FieldOf(model, name).Some? &&
      (IsForeignKeyInstance(FieldOf(model, name).value) || IsOneToOneInstance(FieldOf(model, name).value))
    }

    /** A reference token on a foreign-key or one-to-one field that is not read as a lookup. */
    predicate ReferenceField(model: ModelRef, name: Value, s: string) {
      !LookupField(model, name, s) && MatchesReferencePattern(s) && FieldOf(model, name).Some? &&
      (IsForeignKeyInstance(FieldOf(model, name).value) || IsOneToOneInstance(FieldOf(model, name).value))
    }

    /**
     * `out` is what `_resolve_field_value` makes of the entry `e` of a model
     * instance, for a registry holding `instances` and `aliases` and a
     * lookup cache `cache`: a lookup token becomes the cached answer, a
     * reference token the registered instance, anything else stays.
     */
    predicate Resolved(model: ModelRef, e: (Value, Slot), out: (Value, Slot), instances: map<string, Handle>,
                       aliases: map<Value, string>, cache: map<(ModelRef, seq<(string, Value)>), Handle>)
    {
      out.0 == e.0 &&
      if e.1.Raw? && e.1.value.Str? && LookupField(model, e.0, e.1.value.s) then
        var related := FieldOf(model, e.0).value.relatedModel;
        related.Some? && (related.value, tokens.parseDbLookup(e.1.value.s)) in cache &&
        out.1 == Obj(cache[(related.value, tokens.parseDbLookup(e.1.value.s))])
      else if e.1.Raw? && e.1.value.Str? && ReferenceField(model, e.0, e.1.value.s) then
        Resolve(instances, aliases, e.1.value.s).Ok? && out.1 == Obj(Resolve(instances, aliases, e.1.value.s).value)
      else out.1 == e.1
    }

    /** The registry's identities and aliases are as before; only the lookup cache may have grown. */
    twostate predicate OnlyCacheGrew()
      reads registry
    {
      registry.Valid() &&
      registry.instances == old(registry.instances) && registry.aliasIndex == old(registry.aliasIndex) &&
      registry.creationOrder == old(registry.creationOrder) &&
      SubMap(old(registry.lookupCache), registry.lookupCache)
    }

    /** `_resolve_field_value` */
    method ResolveFieldValue(name: Value, v: Slot, model: ModelRef) returns (r: Result<Slot, SeedError>)
      requires registry.Valid()
      modifies registry
      ensures OnlyCacheGrew()
      ensures r.Ok? ==> Resolved(model, (name, v), (name, r.value), registry.instances, registry.aliasIndex, registry.lookupCache)
      ensures !(v.Raw? && v.value.Str?) ==> r == Ok(v)
      ensures r.Err? ==> v.Raw? && v.value.Str? && (IsReferenceError(r.error) || r.error.NoRelatedModel?)
      ensures v.Raw? && v.value.Str? && ReferenceField(model, name, v.value.s) ==>
                (r.Err? <==> old(registry.Get(v.value.s)).Err?)
      ensures v.Raw? && v.value.Str? && LookupField(model, name, v.value.s) &&
              FieldOf(model, name).value.relatedModel.Some? ==>
                var key := (FieldOf(model, name).value.relatedModel.value, tokens.parseDbLookup(v.value.s));
                (key in old(registry.lookupCache) ==> r == Ok(Obj(old(registry.lookupCache)[key]))) &&
                (key !in old(registry.lookupCache) ==> (r.Ok? <==> store.Lookup(key.0, key.1).Match?))
    {
      if !(v.Raw? && v.value.Str?) {
        return Ok(v);
      }
      var s := v.value.s;
      var field := FieldOf(model, name);
      if tokens.isDbLookup(s) {
        if field.None? {
          return Ok(v);
        }
        if IsForeignKeyInstance(field.value) || IsOneToOneInstance(field.value) {
          if field.value.relatedModel.None? {
            return Err(NoRelatedModel(Display(name)));
          }
          var h :- registry.GetFromDb(field.value.relatedModel.value, tokens.parseDbLookup(s), store);
          return Ok(Obj(h));
        }
      }
      if MatchesReferencePattern(s) {
        if field.None? {
          return Ok(v);
        }
        // The foreign-key and one-to-one handlers both resolve a string with `registry.get`.
        if IsForeignKeyInstance(field.value) || IsOneToOneInstance(field.value) {
          var h :- registry.Get(s);
          return Ok(Obj(h));
        }
      }
      return Ok(v);
    }

    /** Every entry of `out` is the resolved entry of `fields` at the same position. */
    ghost predicate Prepared(model: ModelRef, fields: Assoc<Slot>, out: Assoc<Slot>)
      reads registry
    {
      |out| == |fields| &&
      forall i :: 0 <= i < |fields| ==>
        Resolved(model, fields[i], out[i], registry.instances, registry.aliasIndex, registry.lookupCache)
    }

    /**
     * `_create_object`: every field value resolved in order, then
     * `Model(**fields).save()`; a key that is not a string is refused there.
     */
    method CreateObject(model: ModelRef, fields: Assoc<Slot>) returns (r: Result<Handle, SeedError>)
      requires registry.Valid()
      modifies registry, store
      ensures OnlyCacheGrew()
      ensures store.memberships == old(store.memberships)
      ensures r.Err? ==> store.rows == old(store.rows)
      ensures r.Ok? ==> r.value == |old(store.rows)| && |store.rows| == r.value + 1 &&
                        store.rows[..r.value] == old(store.rows) && store.rows[r.value].model == model &&
                        Prepared(model, fields, store.rows[r.value].fields)
      ensures FirstNonStringKey(fields).Some? ==> r.Err?
    {
      var out: Assoc<Slot> := [];
      for i := 0 to |fields|
        invariant OnlyCacheGrew()
        invariant store.rows == old(store.rows) && store.memberships == old(store.memberships)
        invariant |out| == i && forall j :: 0 <= j < i ==> out[j].0 == fields[j].0
        invariant forall j :: 0 <= j < i ==>
                    Resolved(model, fields[j], out[j], registry.instances, registry.aliasIndex, registry.lookupCache)
      {
        var v :- ResolveFieldValue(fields[i].0, fields[i].1, model);
        out := out + [(fields[i].0, v)];
      }
      var bad := FirstNonStringKey(out);
      if bad.Some? {
        return Err(FieldNameNotString(bad.value));
      }
      assert forall j :: 0 <= j < |fields| ==> fields[j].0 == out[j].0;
      var h := store.Persist(model, out);
      return Ok(h);
    }
    // -------------------------------------------------------------------
    // Pass 1
    // -------------------------------------------------------------------

    /** The registry's maps and the database's rows and memberships now. */
    ghost function Snap(): Snapshot
      reads registry, store
    {
      Snapshot(registry.instances, registry.aliasIndex, registry.lookupCache, store.rows, store.memberships)
    }

    /** What every creator keeps: the registry stays valid and the state only grows. */
    twostate predicate Kept()
      reads registry, store
    {
      registry.Valid() && Grows(old(Snap()), Snap())
    }

    ghost predicate Created(d: Descriptor, h: Handle)
      reads registry, store
    {
      CreatedIn(d, h, Snap())
    }

    /** A resolved model instance reaches the saved row as it was handed over. */
    lemma PreparedPins(model: ModelRef, fields: Assoc<Slot>, out: Assoc<Slot>)
      requires Prepared(model, fields, out)
      ensures Pinned(fields, out)
    {
      assert forall j :: 0 <= j < |fields| ==> fields[j].0 == out[j].0 by {
        forall j | 0 <= j < |fields| ensures fields[j].0 == out[j].0 {
          assert Resolved(model, fields[j], out[j], registry.instances, registry.aliasIndex, registry.lookupCache);
        }
      }
      forall k | Get(fields, k).Some? && Get(fields, k).value.Obj? ensures Get(out, k) == Get(fields, k) {
        FindSameKeys(fields, out, k, 0);
        var i := Find(fields, k).value;
        assert Resolved(model, fields[i], out[i], registry.instances, registry.aliasIndex, registry.lookupCache);
      }
    }

    /** `registry.register(identity, instance, ref_key=object_key if has_explicit_ref else None)` */
    method RegisterObject(d: Descriptor, h: Handle) returns (err: Option<SeedError>)
      requires registry.Valid() && h < |store.rows| && store.rows[h].model == d.model
      modifies registry
      ensures Kept()
      ensures err.None? ==> registry.creationOrder == old(registry.creationOrder) + [d.identity] && Created(d, h)
      ensures d.identity in old(registry.instances) ==> err == Some(DuplicateIdentity(d.identity))
    {
      err := registry.Register(d.identity, h, if d.hasExplicitRef then d.objectKey else Null);
    }

    /** `_create_object` followed by the registration of the new instance. */
    method CreateAndRegister(d: Descriptor, fields: Assoc<Slot>) returns (r: Result<Handle, SeedError>)
      requires registry.Valid()
      modifies registry, store
      ensures Kept()
      ensures r.Ok? ==> registry.creationOrder == old(registry.creationOrder) + [d.identity]
      ensures r.Ok? ==> Created(d, r.value) && Pinned(fields, store.rows[r.value].fields)
    {
      var made := CreateObject(d.model, fields);
      if made.Err? {
        return Err(made.error);
      }
      var h := made.value;
      PreparedPins(d.model, fields, store.rows[h].fields);
      var err := RegisterObject(d, h);
      if err.Some? {
        return Err(err.value);
      }
      return Ok(h);
    }

    /**
     * The course shared by `_create_object_tree`, `_create_nested_child`
     * and `_create_inline_m2m_child`: the forward children, the object
     * itself from `fields`, registered, the reverse children, then the
     * inline children (through instances left out when `skipThrough`).
     */
    method CreateWithChildren(d: Descriptor, fields: Assoc<Slot>, skipThrough: bool) returns (r: Result<Handle, SeedError>)
      requires registry.Valid()
      modifies registry, store
      ensures Kept()
      ensures r.Ok? ==> registry.creationOrder == old(registry.creationOrder) + ForwardOrder(d.nestedChildren) + [d.identity] +
                          ReverseOrder(d.nestedChildren) + GroupsOrder(d.m2mInline, skipThrough)
      ensures r.Ok? ==> Created(d, r.value) && Pinned(fields, store.rows[r.value].fields)
      decreases d, 0
    {
      ghost var s0 := Snap();
      var err := CreateForwardChildren(d.nestedChildren);
      if err.Some? {
        return Err(err.value);
      }
      ghost var s1 := Snap();
      r := CreateAndRegister(d, fields);
      GrowsTrans(s0, s1, Snap());
      if r.Err? {
        return;
      }
      var h := r.value;
      ghost var s2 := Snap();
      err := CreateReverseChildren(d.nestedChildren, h);
      GrowsTrans(s0, s2, Snap());
      if err.Some? {
        return Err(err.value);
      }
      ghost var s3 := Snap();
      err := CreateInlineGroups(d.m2mInline, skipThrough);
      GrowsTrans(s0, s3, Snap());
      if err.Some? {
        return Err(err.value);
      }
      GrowsTrans(s2, s3, Snap());
      CreatedKept(d, h, s2, Snap());
      RowKept(s2, Snap(), h);
    }

    /** `_create_object_tree` */
    method CreateObjectTree(d: Descriptor) returns (r: Result<Handle, SeedError>)
      requires registry.Valid()
      modifies registry, store
      ensures Kept()
      ensures r.Ok? ==> registry.creationOrder == old(registry.creationOrder) + TreeOrder(d) && Created(d, r.value)
      decreases d, 1
    {
      r := CreateWithChildren(d, Lift(d.fields), true);
    }

    /**
     * `_create_nested_child`: like a tree, except that the parent instance
     * is put in the child's parent field before the child is saved.
     */
    method CreateNestedChild(c: Descriptor, parent: Handle) returns (r: Result<Handle, SeedError>)
      requires registry.Valid()
      modifies registry, store
      ensures Kept()
      ensures r.Ok? ==> registry.creationOrder == old(registry.creationOrder) + TreeOrder(c) && Created(c, r.value)
      ensures r.Ok? && c.parentFieldName.Some? && c.parentFieldName.value != "" ==>
                Get(store.rows[r.value].fields, Str(c.parentFieldName.value)) == Some(Obj(parent))
      decreases c, 1
    {
      var fields := Lift(c.fields);
      if c.parentFieldName.Some? && c.parentFieldName.value != "" {
        fields := Put(fields, Str(c.parentFieldName.value), Obj(parent));
      }
      r := CreateWithChildren(c, fields, true);
    }

    /**
     * `_create_inline_m2m_child`: a through instance is created as one;
     * any other object like a tree, followed by all its inline children.
     */
    method CreateInlineM2MChild(c: Descriptor) returns (r: Result<Handle, SeedError>)
      requires registry.Valid()
      modifies registry, store
      ensures Kept()
      ensures r.Ok? ==> registry.creationOrder == old(registry.creationOrder) + InlineOrder(c) && Created(c, r.value)
      decreases c, 1
    {
      if IsThroughDescriptor(c) {
        ghost var at;
        r, at := CreateThroughInstance(c);
        return;
      }
      r := CreateWithChildren(c, Lift(c.fields), false);
    }

    /** The loop of the creators over the children without a parent field name. */
    method CreateForwardChildren(cs: seq<Descriptor>) returns (err: Option<SeedError>)
      requires registry.Valid()
      modifies registry, store
      ensures Kept()
      ensures err.None? ==> registry.creationOrder == old(registry.creationOrder) + ForwardOrder(cs)
      decreases cs, 1
    {
      ghost var s0 := Snap();
      for i := 0 to |cs|
        invariant registry.Valid() && Grows(s0, Snap())
        invariant registry.creationOrder == old(registry.creationOrder) + ForwardOrder(cs[..i])
      {
        ForwardStep(cs, i);
        ghost var si := Snap();
        err := CreateForwardChild(cs[i]);
        GrowsTrans(s0, si, Snap());
        if err.Some? {
          return;
        }
      }
      assert cs[..|cs|] == cs;
      return None;
    }

    /** The loop of the creators over the children with a parent field name, which receive `parent`. */
    method CreateReverseChildren(cs: seq<Descriptor>, parent: Handle) returns (err: Option<SeedError>)
      requires registry.Valid()
      modifies registry, store
      ensures Kept()
      ensures err.None? ==> registry.creationOrder == old(registry.creationOrder) + ReverseOrder(cs)
      decreases cs, 1
    {
      ghost var s0 := Snap();
      for i := 0 to |cs|
        invariant registry.Valid() && Grows(s0, Snap())
        invariant registry.creationOrder == old(registry.creationOrder) + ReverseOrder(cs[..i])
      {
        ReverseStep(cs, i);
        ghost var si := Snap();
        err := CreateReverseChild(cs[i], parent);
        GrowsTrans(s0, si, Snap());
        if err.Some? {
          return;
        }
      }
      assert cs[..|cs|] == cs;
      return None;
    }

    /** One step of the loop over forward children. */
    method CreateForwardChild(c: Descriptor) returns (err: Option<SeedError>)
      requires registry.Valid()
      modifies registry, store
      ensures Kept()
      ensures err.None? ==> registry.creationOrder == old(registry.creationOrder) + ForwardChildOrder(c)
      decreases c, 2
    {
      if c.parentFieldName.Some? {
        return None;
      }
      var r := CreateObjectTree(c);
      if r.Err? {
        return Some(r.error);
      }
      return None;
    }

    /** One step of the loop over reverse children. */
    method CreateReverseChild(c: Descriptor, parent: Handle) returns (err: Option<SeedError>)
      requires registry.Valid()
      modifies registry, store
      ensures Kept()
      ensures err.None? ==> registry.creationOrder == old(registry.creationOrder) + ReverseChildOrder(c)
      decreases c, 2
    {
      if c.parentFieldName.None? {
        return None;
      }
      var r := CreateNestedChild(c, parent);
      if r.Err? {
        return Some(r.error);
      }
      return None;
    }

    /** Every tree of `cs`, in order. */
    method CreateTrees(cs: seq<Descriptor>) returns (err: Option<SeedError>)
      requires registry.Valid()
      modifies registry, store
      ensures Kept()
      ensures err.None? ==> registry.creationOrder == old(registry.creationOrder) + TreesOrder(cs)
      decreases cs, 1
    {
      ghost var s0 := Snap();
      for i := 0 to |cs|
        invariant registry.Valid() && Grows(s0, Snap())
        invariant registry.creationOrder == old(registry.creationOrder) + TreesOrder(cs[..i])
      {
        TreesStep(cs, i);
        ghost var si := Snap();
        var r := CreateObjectTree(cs[i]);
        GrowsTrans(s0, si, Snap());
        if r.Err? {
          return Some(r.error);
        }
      }
      assert cs[..|cs|] == cs;
      return None;
    }

    /** The loop of the creators over `m2m_inline_children`; through instances are skipped when `skipThrough`. */
    method CreateInlineGroups(gs: seq<InlineGroup>, skipThrough: bool) returns (err: Option<SeedError>)
      requires registry.Valid()
      modifies registry, store
      ensures Kept()
      ensures err.None? ==> registry.creationOrder == old(registry.creationOrder) + GroupsOrder(gs, skipThrough)
      decreases gs, 1
    {
      ghost var s0 := Snap();
      for i := 0 to |gs|
        invariant registry.Valid() && Grows(s0, Snap())
        invariant registry.creationOrder == old(registry.creationOrder) + GroupsOrder(gs[..i], skipThrough)
      {
        GroupsStep(gs, skipThrough, i);
        ghost var si := Snap();
        err := CreateInlineChildren(gs[i].children, skipThrough);
        GrowsTrans(s0, si, Snap());
        if err.Some? {
          return;
        }
      }
      assert gs[..|gs|] == gs;
      return None;
    }

    method CreateInlineChildren(cs: seq<Descriptor>, skipThrough: bool) returns (err: Option<SeedError>)
      requires registry.Valid()
      modifies registry, store
      ensures Kept()
      ensures err.None? ==> registry.creationOrder == old(registry.creationOrder) + InlineChildrenOrder(cs, skipThrough)
      decreases cs, 1
    {
      ghost var s0 := Snap();
      for i := 0 to |cs|
        invariant registry.Valid() && Grows(s0, Snap())
        invariant registry.creationOrder == old(registry.creationOrder) + InlineChildrenOrder(cs[..i], skipThrough)
      {
        InlineChildrenStep(cs, skipThrough, i);
        ghost var si := Snap();
        err := CreateInlineChild(cs[i], skipThrough);
        GrowsTrans(s0, si, Snap());
        if err.Some? {
          return;
        }
      }
      assert cs[..|cs|] == cs;
      return None;
    }

    /** One step of that loop. */
    method CreateInlineChild(c: Descriptor, skipThrough: bool) returns (err: Option<SeedError>)
      requires registry.Valid()
      modifies registry, store
      ensures Kept()
      ensures err.None? ==> registry.creationOrder == old(registry.creationOrder) + InlineChildOrder(c, skipThrough)
      decreases c, 2
    {
      if skipThrough && IsThroughDescriptor(c) {
        return None;
      }
      var r := CreateInlineM2MChild(c);
      if r.Err? {
        return Some(r.error);
      }
      return None;
    }

    // -------------------------------------------------------------------
    // Through instances
    // -------------------------------------------------------------------

    /** `is_reference_pattern(value) or is_db_lookup_pattern(value)` */
    predicate ReferenceLike(v: Value) {
      v.Str? && (MatchesReferencePattern(v.s) || tokens.isDbLookup(v.s))
    }

    /** The first reference-like entry at or after `from`, under the key `name` when one is given. */
    function FirstReferenceLike(es: Entries, name: Option<Value>, from: nat): (r: Option<nat>)
      requires from <= |es|
      ensures r.Some? ==> from <= r.value < |es| && ReferenceLike(es[r.value].1) &&
                          (name.Some? ==> es[r.value].0 == name.value)
      ensures forall j :: from <= j < |es| && (r.None? || j < r.value) ==>
                !(ReferenceLike(es[j].1) && (name.None? || es[j].0 == name.value))
      decreases |es| - from
    {
      if from == |es| then None
      else if ReferenceLike(es[from].1) && (name.None? || es[from].0 == name.value) then Some(from)
      else FirstReferenceLike(es, name, from + 1)
    }

    /**
     * The target reference of a through instance, the fields left once it
     * is popped, and the field object a lookup token is resolved through:
     * first a reference-like value under the target field name, failing
     * that the first reference-like value of any field.
     */
    function TargetChoice(es: Entries, targetName: Value, model: ModelRef): (r: (Option<string>, Entries, Option<Member>))
      ensures r.0.None? <==> forall j :: 0 <= j < |es| ==> !ReferenceLike(es[j].1)
      ensures r.0.Some? ==> ReferenceLike(Str(r.0.value))
      ensures Keys(r.1) <= Keys(es) && forall k :: k in Keys(r.1) ==> Get(r.1, k) == Get(es, k)
    {
      var named := FirstReferenceLike(es, Some(targetName), 0);
      var first := if named.Some? then (Some(es[named.value].1.s), Remove(es, targetName), FieldOf(model, targetName))
                   else (None, es, None);
      if first.0.Some? && first.0.value != "" then first
      else
        var any := FirstReferenceLike(first.1, None, 0);
        if any.None? then first
        else
          var k := first.1[any.value].0;
          (Some(first.1[any.value].1.s), Remove(first.1, k), if FieldOf(model, k).Some? then FieldOf(model, k) else first.2)
    }

    /** One search loop of `_create_through_instance`: the first reference-like value, under `name` when given. */
    method ScanReferenceLike(es: Entries, name: Option<Value>) returns (r: Option<nat>)
      ensures r == FirstReferenceLike(es, name, 0)
    {
      var i := 0;
      while i < |es| && !(ReferenceLike(es[i].1) && (name.None? || es[i].0 == name.value))
        invariant i <= |es|
        invariant FirstReferenceLike(es, name, i) == FirstReferenceLike(es, name, 0)
      {
        i := i + 1;
      }
      return if i < |es| then Some(i) else None;
    }

    /** The two search loops of `_create_through_instance` and the pops they make. */
    method SelectTarget(es: Entries, targetName: Value, model: ModelRef)
      returns (ref: Option<string>, rest: Entries, fieldObj: Option<Member>)
      ensures (ref, rest, fieldObj) == TargetChoice(es, targetName, model)
    {
      ref, rest, fieldObj := None, es, None;
      var named := ScanReferenceLike(es, Some(targetName));
      if named.Some? {
        ref, rest, fieldObj := Some(es[named.value].1.s), Remove(es, targetName), FieldOf(model, targetName);
      }
      if ref.None? || ref.value == "" {
        var any := ScanReferenceLike(rest, None);
        if any.Some? {
          var k := rest[any.value].0;
          var found := FieldOf(model, k);
          ref := Some(rest[any.value].1.s);
          rest := Remove(rest, k);
          if found.Some? {
            fieldObj := found;
          }
        }
      }
    }

    /** The three bookkeeping slots the builder puts in a through descriptor are all there. */
    predicate HasThroughSlots(c: Descriptor) {
      Str(SourceIdentityField) in Keys(c.fields) && Str(SourceFieldField) in Keys(c.fields) &&
      Str(TargetFieldField) in Keys(c.fields)
    }

    /**
     * `args` are the constructor arguments of the through instance `c`,
     * for a registry holding `instances`, `aliases` and `cache`: its fields
     * without the bookkeeping slots and the target reference, the source
     * field holding the instance the source identity finds, and the target
     * field the instance the target reference finds.
     */
    predicate Linked(c: Descriptor, args: Assoc<Slot>, instances: map<string, Handle>, aliases: map<Value, string>,
                     cache: map<(ModelRef, seq<(string, Value)>), Handle>)
    {
      HasThroughSlots(c) &&
      var si := Get(c.fields, Str(SourceIdentityField)).value;
      var sf := Get(c.fields, Str(SourceFieldField)).value;
      var tf := Get(c.fields, Str(TargetFieldField)).value;
      si.Str? && Resolve(instances, aliases, si.s).Ok? &&
      var choice := TargetChoice(ThroughRest(c), tf, c.model);
      choice.0.Some? && choice.0.value != "" &&
      var base := Put(Lift(choice.1), sf, Obj(Resolve(instances, aliases, si.s).value));
      if tokens.isDbLookup(choice.0.value) then
        choice.2.Some? && choice.2.value.relatedModel.Some? &&
        (choice.2.value.relatedModel.value, tokens.parseDbLookup(choice.0.value)) in cache &&
        args == Put(base, tf, Obj(cache[(choice.2.value.relatedModel.value, tokens.parseDbLookup(choice.0.value))]))
      else
        Resolve(instances, aliases, choice.0.value).Ok? &&
        args == Put(base, tf, Obj(Resolve(instances, aliases, choice.0.value).value))
    }

    /**
     * What a through instance is built from: the target field holds an
     * instance, the source field the source instance (unless the two
     * fields are one), and every other argument is the descriptor's own
     * value, never one of the bookkeeping slots.
     */
    lemma LinkedArguments(c: Descriptor, args: Assoc<Slot>, instances: map<string, Handle>, aliases: map<Value, string>,
                          cache: map<(ModelRef, seq<(string, Value)>), Handle>)
      requires Linked(c, args, instances, aliases, cache)
      ensures var sf := Get(c.fields, Str(SourceFieldField)).value;
              var tf := Get(c.fields, Str(TargetFieldField)).value;
              Get(args, tf).Some? && Get(args, tf).value.Obj? &&
              (sf != tf ==> Get(args, sf) == Some(Obj(Resolve(instances, aliases, Get(c.fields, Str(SourceIdentityField)).value.s).value)))
      ensures var sf := Get(c.fields, Str(SourceFieldField)).value;
              var tf := Get(c.fields, Str(TargetFieldField)).value;
              forall k :: k in Keys(args) && k != sf && k != tf ==>
                k != Str(SourceIdentityField) && k != Str(SourceFieldField) && k != Str(TargetFieldField) &&
                Get(c.fields, k).Some? && Get(args, k) == Some(Raw(Get(c.fields, k).value))
    {
      var sf := Get(c.fields, Str(SourceFieldField)).value;
      var tf := Get(c.fields, Str(TargetFieldField)).value;
      var choice := TargetChoice(ThroughRest(c), tf, c.model);
      forall k | k in Keys(args) && k != sf && k != tf
        ensures k != Str(SourceIdentityField) && k != Str(SourceFieldField) && k != Str(TargetFieldField) &&
                Get(c.fields, k).Some? && Get(args, k) == Some(Raw(Get(c.fields, k).value))
      {
        GetLift(choice.1, k);
      }
    }

    /**
     * The source field of a through instance holds the instance its source
     * identity finds for a registry holding `instances` and `aliases`
     * (unless source and target field are one), and its target field holds
     * an instance.
     */
    predicate SourceAndTarget(c: Descriptor, fields: Assoc<Slot>, instances: map<string, Handle>, aliases: map<Value, string>) {
      HasThroughSlots(c) &&
      var si := Get(c.fields, Str(SourceIdentityField)).value;
      var sf := Get(c.fields, Str(SourceFieldField)).value;
      var tf := Get(c.fields, Str(TargetFieldField)).value;
      si.Str? && Resolve(instances, aliases, si.s).Ok? &&
      (sf != tf ==> Get(fields, sf) == Some(Obj(Resolve(instances, aliases, si.s).value))) &&
      Get(fields, tf).Some? && Get(fields, tf).value.Obj?
    }

    /** The source and target slots of linked arguments survive in a row they are pinned to. */
    lemma PinnedSourceAndTarget(c: Descriptor, args: Assoc<Slot>, out: Assoc<Slot>, instances: map<string, Handle>,
                                aliases: map<Value, string>)
      requires SourceAndTarget(c, args, instances, aliases) && Pinned(args, out)
      ensures SourceAndTarget(c, out, instances, aliases)
    {
      var sf := Get(c.fields, Str(SourceFieldField)).value;
      var tf := Get(c.fields, Str(TargetFieldField)).value;
      assert Get(out, tf) == Get(args, tf);
      if sf != tf {
        assert Get(out, sf) == Get(args, sf);
      }
    }

    /**
     * The pops and resolutions of `_create_through_instance` that come
     * before the instance is saved.
     */
    method LinkThrough(c: Descriptor) returns (r: Result<Assoc<Slot>, SeedError>)
      requires registry.Valid()
      modifies registry
      ensures OnlyCacheGrew()
      ensures r.Ok? ==> Linked(c, r.value, registry.instances, registry.aliasIndex, registry.lookupCache)
      ensures !HasThroughSlots(c) ==> r.Err? && r.error.MissingThroughSlot?
      ensures HasThroughSlots(c) && !Get(c.fields, Str(SourceIdentityField)).value.Str? ==>
                r == Err(ThroughSourceNotString(Get(c.fields, Str(SourceIdentityField)).value))
      ensures HasThroughSlots(c) && Get(c.fields, Str(SourceIdentityField)).value.Str? &&
              old(registry.Get(Get(c.fields, Str(SourceIdentityField)).value.s)).Ok? &&
              (forall j :: 0 <= j < |ThroughRest(c)| ==> !ReferenceLike(ThroughRest(c)[j].1)) ==>
                r == Err(MissingThroughTarget(c.identity))
    {
      var si := Get(c.fields, Str(SourceIdentityField));
      if si.None? {
        return Err(MissingThroughSlot(SourceIdentityField));
      }
      var sf := Get(c.fields, Str(SourceFieldField));
      if sf.None? {
        return Err(MissingThroughSlot(SourceFieldField));
      }
      var tf := Get(c.fields, Str(TargetFieldField));
      if tf.None? {
        return Err(MissingThroughSlot(TargetFieldField));
      }
      if !si.value.Str? {
        return Err(ThroughSourceNotString(si.value));
      }
      var source := registry.Get(si.value.s);
      if source.Err? {
        return Err(source.error);
      }
      var ref, rest, fieldObj := SelectTarget(ThroughRest(c), tf.value, c.model);
      if ref.None? || ref.value == "" {
        return Err(MissingThroughTarget(c.identity));
      }
      var target :- ResolveThroughTarget(ref.value, fieldObj, tf.value);
      return Ok(Put(Put(Lift(rest), sf.value, Obj(source.value)), tf.value, Obj(target)));
    }

    /** `LinkThrough`, with only the source and target slots of its result in view. */
    method LinkSourceAndTarget(c: Descriptor) returns (r: Result<Assoc<Slot>, SeedError>)
      requires registry.Valid()
      modifies registry
      ensures OnlyCacheGrew()
      ensures r.Ok? ==> SourceAndTarget(c, r.value, registry.instances, registry.aliasIndex)
      ensures !HasThroughSlots(c) ==> r.Err?
    {
      r := LinkThrough(c);
      if r.Ok? {
        LinkedArguments(c, r.value, registry.instances, registry.aliasIndex, registry.lookupCache);
      }
    }

    /**
     * The target instance of a through instance: a lookup token is looked
     * up through the related model of the field object, any other token
     * with `registry.get`.
     */
    method ResolveThroughTarget(ref: string, fieldObj: Option<Member>, targetName: Value) returns (r: Result<Handle, SeedError>)
      requires registry.Valid()
      modifies registry
      ensures OnlyCacheGrew()
      ensures r.Ok? && tokens.isDbLookup(ref) ==>
                fieldObj.Some? && fieldObj.value.relatedModel.Some? &&
                (fieldObj.value.relatedModel.value, tokens.parseDbLookup(ref)) in registry.lookupCache &&
                r.value == registry.lookupCache[(fieldObj.value.relatedModel.value, tokens.parseDbLookup(ref))]
      ensures !tokens.isDbLookup(ref) ==> r == Resolve(old(registry.instances), old(registry.aliasIndex), ref)
      ensures tokens.isDbLookup(ref) && fieldObj.None? ==> r == Err(UnresolvableThroughLookup(targetName))
    {
      if tokens.isDbLookup(ref) {
        if fieldObj.None? {
          return Err(UnresolvableThroughLookup(targetName));
        }
        if fieldObj.value.relatedModel.None? {
          return Err(NoRelatedModel(Display(targetName)));
        }
        r := registry.GetFromDb(fieldObj.value.relatedModel.value, tokens.parseDbLookup(ref), store);
      } else {
        r := registry.Get(ref);
      }
    }

    /**
     * `_create_through_instance`: the trees of its nested children, then
     * the instance itself, linked to its source and target in the state
     * `at` and registered like any other object.
     */
    method CreateThroughInstance(c: Descriptor) returns (r: Result<Handle, SeedError>, ghost at: Snapshot)
      requires registry.Valid()
      modifies registry, store
      ensures Kept()
      ensures r.Ok? ==> registry.creationOrder == old(registry.creationOrder) + ThroughOrder(c) && Created(c, r.value)
      ensures r.Ok? ==> Grows(at, Snap()) && SourceAndTarget(c, store.rows[r.value].fields, at.instances, at.aliasIndex)
      ensures !HasThroughSlots(c) ==> r.Err?
      decreases c, 0
    {
      at := Snap();
      ghost var s0 := Snap();
      var err := CreateTrees(c.nestedChildren);
      if err.Some? {
        r := Err(err.value);
        return;
      }
      ghost var s1 := Snap();
      r, at := CreateLinked(c);
      GrowsTrans(s0, s1, Snap());
    }

    /** The through instance itself, once its nested children exist. */
    method CreateLinked(c: Descriptor) returns (r: Result<Handle, SeedError>, ghost at: Snapshot)
      requires registry.Valid()
      modifies registry, store
      ensures Kept()
      ensures r.Ok? ==> registry.creationOrder == old(registry.creationOrder) + [c.identity] && Created(c, r.value)
      ensures r.Ok? ==> Grows(at, Snap()) && SourceAndTarget(c, store.rows[r.value].fields, at.instances, at.aliasIndex)
      ensures !HasThroughSlots(c) ==> r.Err?
    {
      at := Snap();
      ghost var s0 := Snap();
      var linked := LinkSourceAndTarget(c);
      if linked.Err? {
        r := Err(linked.error);
        return;
      }
      at := Snap();
      r := CreateAndRegister(c, linked.value);
      GrowsTrans(s0, at, Snap());
      if r.Ok? {
        PinnedSourceAndTarget(c, linked.value, store.rows[r.value].fields, at.instances, at.aliasIndex);
      }
    }

    // -------------------------------------------------------------------
    // Pass 2
    // -------------------------------------------------------------------

    /** The loop of `resolve_and_set`: `registry.get(reference)` for each reference, in order. */
    method ResolveReferences(refs: seq<string>) returns (r: Result<seq<Handle>, SeedError>)
      requires registry.Valid()
      ensures r == ResolveAll(registry.instances, registry.aliasIndex, refs)
    {
      var resolved: seq<Handle> := [];
      PrependNothing(ResolveAll(registry.instances, registry.aliasIndex, refs));
      assert refs[0..] == refs;
      for i := 0 to |refs|
        invariant ResolveAll(registry.instances, registry.aliasIndex, refs) ==
                  Prepend(resolved, ResolveAll(registry.instances, registry.aliasIndex, refs[i..]))
      {
        ResolveAllStep(registry.instances, registry.aliasIndex, refs, i, resolved);
        var h := registry.Get(refs[i]);
        if h.Err? {
          return Err(h.error);
        }
        resolved := resolved + [h.value];
      }
      assert refs[|refs|..] == [];
      assert resolved + [] == resolved;
      return Ok(resolved);
    }

    /**
     * `ManyToManyHandler.resolve_and_set(instance, field_name, references,
     * registry)`: every reference is resolved first; then the relation is
     * looked up on the owner by its name and its members replaced.
     */
    method ResolveAndSet(owner: Handle, field: Value, refs: seq<string>) returns (err: Option<SeedError>)
      requires registry.Valid()
      modifies store
      ensures store.rows == old(store.rows)
      ensures var resolved := ResolveAll(registry.instances, registry.aliasIndex, refs);
              && (resolved.Err? ==> err == Some(resolved.error) && store.memberships == old(store.memberships))
              && (resolved.Ok? && !field.Str? ==>
                    err == Some(FieldNameNotString(field)) && store.memberships == old(store.memberships))
              && (resolved.Ok? && field.Str? ==>
                    err.None? && store.memberships == old(store.memberships) + [Membership(owner, field.s, resolved.value)] &&
                    store.MembersOf(owner, field.s) == resolved.value)
      ensures forall o: Handle, f: string :: !(field.Str? && o == owner && f == field.s) ==>
                store.MembersOf(o, f) == old(store.MembersOf(o, f))
    {
      var resolved := ResolveReferences(refs);
      if resolved.Err? {
        return Some(resolved.error);
      }
      if !field.Str? {
        return Some(FieldNameNotString(field));
      }
      ghost var log := store.memberships;
      store.SetMembers(owner, field.s, resolved.value);
      forall o: Handle, f: string ensures (o, f) != (owner, field.s) ==> store.MembersOf(o, f) == LatestMembers(log, o, f) {
        SetReplacesMembers(log, owner, field.s, resolved.value, o, f);
      }
      return None;
    }

    /**
     * The part of `_pass_two_resolve_m2m` that sets one descriptor's
     * `m2m_fields`, with the handler called with the four arguments it
     * takes: nothing happens when there are none; otherwise the owner is
     * looked up in the registry and each field is set in order.
     */
    method SetM2MFields(d: Descriptor) returns (err: Option<SeedError>)
      requires registry.Valid()
      modifies store
      ensures store.rows == old(store.rows)
      ensures |old(store.memberships)| <= |store.memberships| && store.memberships[..|old(store.memberships)|] == old(store.memberships)
      ensures d.m2mFields == [] ==> err.None? && store.memberships == old(store.memberships)
      ensures d.m2mFields != [] && registry.Get(d.identity).Err? ==>
                err == Some(registry.Get(d.identity).error) && store.memberships == old(store.memberships)
      ensures d.m2mFields != [] && registry.Get(d.identity).Ok? ==>
                var sets := FieldSets(registry.Get(d.identity).value, d.m2mFields, registry.instances, registry.aliasIndex);
                && (err.None? <==> sets.Ok?)
                && (sets.Ok? ==> store.memberships == old(store.memberships) + sets.value)
                && (sets.Err? ==> err == Some(sets.error))
      ensures var sets := DescriptorSets(d, registry.instances, registry.aliasIndex);
              (err.None? <==> sets.Ok?) && (sets.Ok? ==> store.memberships == old(store.memberships) + sets.value)
    {
      if d.m2mFields == [] {
        return None;
      }
      var owner := registry.Get(d.identity);
      if owner.Err? {
        return Some(owner.error);
      }
      err := SetFields(owner.value, d.m2mFields);
    }

    /** The loop over `m2m_fields.items()`: one `resolve_and_set` per field, in order. */
    method SetFields(owner: Handle, fields: Assoc<seq<string>>) returns (err: Option<SeedError>)
      requires registry.Valid()
      modifies store
      ensures store.rows == old(store.rows)
      ensures |old(store.memberships)| <= |store.memberships| && store.memberships[..|old(store.memberships)|] == old(store.memberships)
      ensures var sets := FieldSets(owner, fields, registry.instances, registry.aliasIndex);
              && (err.None? <==> sets.Ok?)
              && (sets.Ok? ==> store.memberships == old(store.memberships) + sets.value)
              && (sets.Err? ==> err == Some(sets.error))
    {
      ghost var sets := FieldSets(owner, fields, registry.instances, registry.aliasIndex);
      ghost var done: seq<Membership> := [];
      PrependNothing(sets);
      assert fields[0..] == fields;
      for i := 0 to |fields|
        invariant store.rows == old(store.rows)
        invariant store.memberships == old(store.memberships) + done
        invariant sets == Prepend(done, FieldSets(owner, fields[i..], registry.instances, registry.aliasIndex))
      {
        FieldSetsStep(owner, fields, i, registry.instances, registry.aliasIndex, done);
        var field := fields[i].0;
        var e := ResolveAndSet(owner, field, fields[i].1);
        if e.Some? {
          assert store.memberships[..|old(store.memberships)|] == old(store.memberships);
          return e;
        }
        done := done + [Membership(owner, field.s, ResolveAll(registry.instances, registry.aliasIndex, fields[i].1).value)];
      }
      assert fields[|fields|..] == [];
      assert store.memberships[..|old(store.memberships)|] == old(store.memberships);
      return None;
    }

    /**
     * The same part as written: the resolver is passed to
     * `resolve_and_set` as a fifth argument, which it does not accept
     * (six positional arguments with `self`, five accepted), so the call
     * fails before any reference is resolved and no field is ever set.
     */
    method SetM2MFieldsAsWritten(d: Descriptor) returns (err: Option<SeedError>)
      requires registry.Valid()
      ensures d.m2mFields == [] <==> err.None?
      ensures d.m2mFields != [] && registry.Get(d.identity).Ok? ==> err == Some(TooManyArguments("resolve_and_set", 6, 5))
    {
      if d.m2mFields == [] {
        return None;
      }
      var owner := registry.Get(d.identity);
      if owner.Err? {
        return Some(owner.error);
      }
      return Some(TooManyArguments("resolve_and_set", 6, 5));
    }

    /**
     * The through instance `c` was saved and registered in `s`, its source
     * and target fields holding what its references found in a registry
     * `at` that `s` extends.
     */
    ghost predicate ThroughLinked(c: Descriptor, s: Snapshot) {
      exists h: Handle, at: Snapshot :: LinkedBy(c, h, at, s)
    }

    /** `ThroughLinked` with its row `h` and the registry `at` that resolved the references. */
    ghost predicate LinkedBy(c: Descriptor, h: Handle, at: Snapshot, s: Snapshot) {
      CreatedIn(c, h, s) && Extends(at, s) && SourceAndTarget(c, s.rows[h].fields, at.instances, at.aliasIndex)
    }

    /** Every through instance among `cs` is linked in `s`. */
    ghost predicate ChildrenLinked(cs: seq<Descriptor>, s: Snapshot) {
      forall j :: 0 <= j < |cs| ==> LinkedAt(cs, j, s)
    }

    ghost predicate LinkedAt(cs: seq<Descriptor>, j: nat, s: Snapshot)
      requires j < |cs|
    {
      IsThroughDescriptor(cs[j]) ==> ThroughLinked(cs[j], s)
    }

    /** Every through instance among the groups `gs` is linked in `s`. */
    ghost predicate GroupsLinked(gs: seq<InlineGroup>, s: Snapshot) {
      forall j :: 0 <= j < |gs| ==> GroupLinkedAt(gs, j, s)
    }

    ghost predicate GroupLinkedAt(gs: seq<InlineGroup>, j: nat, s: Snapshot)
      requires j < |gs|
    {
      ChildrenLinked(gs[j].children, s)
    }

    /** A linked through instance stays linked whatever pass 2 does later. */
    lemma ThroughLinkedKept(c: Descriptor, a: Snapshot, b: Snapshot)
      requires ThroughLinked(c, a) && Extends(a, b)
      ensures ThroughLinked(c, b)
    {
      var h: Handle, at: Snapshot :| LinkedBy(c, h, at, a);
      assert b.rows[..|a.rows|][h] == b.rows[h];
      ExtendsTrans(at, a, b);
      assert LinkedBy(c, h, at, b);
    }

    lemma ChildrenLinkedKept(cs: seq<Descriptor>, a: Snapshot, b: Snapshot)
      requires ChildrenLinked(cs, a) && Extends(a, b)
      ensures ChildrenLinked(cs, b)
    {
      forall j | 0 <= j < |cs| ensures LinkedAt(cs, j, b) {
        assert LinkedAt(cs, j, a);
        if IsThroughDescriptor(cs[j]) {
          ThroughLinkedKept(cs[j], a, b);
        }
      }
    }

    lemma GroupsLinkedKept(gs: seq<InlineGroup>, a: Snapshot, b: Snapshot)
      requires GroupsLinked(gs, a) && Extends(a, b)
      ensures GroupsLinked(gs, b)
    {
      forall j | 0 <= j < |gs| ensures GroupLinkedAt(gs, j, b) {
        assert GroupLinkedAt(gs, j, a);
        ChildrenLinkedKept(gs[j].children, a, b);
      }
    }

    /** Without inline children there is no through instance to link. */
    lemma {:induction false} NoLinksWithoutChildren(ds: seq<Descriptor>, views: seq<Snapshot>, s: Snapshot)
      requires |views| == |ds| && InlineCount(ds) == 0
      requires forall j :: 0 <= j < |views| ==> views[j] == s
      ensures PassTwoLinked(ds, views, s)
      decreases |ds|
    {
      if ds != [] {
        var n := |ds| - 1;
        NoLinksWithoutChildren(ds[..n], views[..n], s);
        EmptyGroupsLinked(ds[n].m2mInline, s);
        ExtendsRefl(s);
        forall j | 0 <= j < |views| ensures GroupsLinked(ds[j].m2mInline, s) && Extends(views[j], s) {
          if j < n {
            assert ds[..n][j] == ds[j];
          }
        }
      }
    }

    /** Groups of total size zero hold no child, so nothing in them is left unlinked. */
    lemma {:induction false} EmptyGroupsLinked(gs: seq<InlineGroup>, s: Snapshot)
      requires GroupSizes(gs) == 0
      ensures GroupsLinked(gs, s)
      decreases |gs|
    {
      if gs != [] {
        var n := |gs| - 1;
        EmptyGroupsLinked(gs[..n], s);
        forall j | 0 <= j < |gs| ensures GroupLinkedAt(gs, j, s) {
          if j < n {
            assert GroupLinkedAt(gs[..n], j, s);
            assert gs[..n][j] == gs[j];
          }
        }
      }
    }

    lemma ChildrenLinkedStep(cs: seq<Descriptor>, i: nat, a: Snapshot, b: Snapshot)
      requires i < |cs| && ChildrenLinked(cs[..i], a) && Extends(a, b)
      requires ChildrenLinked([cs[i]], b)
      ensures ChildrenLinked(cs[..i + 1], b)
    {
      ChildrenLinkedKept(cs[..i], a, b);
      var prefix := cs[..i + 1];
      forall j | 0 <= j < |prefix| ensures LinkedAt(prefix, j, b) {
        if j < i {
          assert LinkedAt(cs[..i], j, b);
        } else {
          assert LinkedAt([cs[i]], 0, b);
        }
      }
    }

    lemma GroupsLinkedStep(gs: seq<InlineGroup>, i: nat, a: Snapshot, b: Snapshot)
      requires i < |gs| && GroupsLinked(gs[..i], a) && Extends(a, b) && ChildrenLinked(gs[i].children, b)
      ensures GroupsLinked(gs[..i + 1], b)
    {
      GroupsLinkedKept(gs[..i], a, b);
      var prefix := gs[..i + 1];
      forall j | 0 <= j < |prefix| ensures GroupLinkedAt(prefix, j, b) {
        if j < i {
          assert GroupLinkedAt(gs[..i], j, b);
        }
      }
    }

    /** Through instances of the first `|views|` descriptors are linked in `s`, which extends every view. */
    ghost predicate PassTwoLinked(ds: seq<Descriptor>, views: seq<Snapshot>, s: Snapshot)
      requires |views| <= |ds|
    {
      forall j :: 0 <= j < |views| ==> GroupsLinked(ds[j].m2mInline, s) && Extends(views[j], s)
    }

    lemma PassTwoLinkedStep(ds: seq<Descriptor>, views: seq<Snapshot>, a: Snapshot, b: Snapshot)
      requires |views| < |ds| && PassTwoLinked(ds, views, a) && Extends(a, b)
      requires GroupsLinked(ds[|views|].m2mInline, b)
      ensures PassTwoLinked(ds, views + [b], b)
    {
      forall j | 0 <= j < |views|
        ensures GroupsLinked(ds[j].m2mInline, b) && Extends(views[j], b)
      {
        GroupsLinkedKept(ds[j].m2mInline, a, b);
        ExtendsTrans(views[j], a, b);
      }
      ExtendsRefl(b);
    }

    /** Pass 2's first loop for one descriptor: the through instances among its inline children. */
    method CreateThroughGroups(gs: seq<InlineGroup>) returns (err: Option<SeedError>)
      requires registry.Valid()
      modifies registry, store
      ensures Kept()
      ensures err.None? ==> registry.creationOrder == old(registry.creationOrder) + ThroughGroupsOrder(gs)
      ensures err.None? ==> GroupsLinked(gs, Snap())
    {
      ghost var s0 := Snap();
      for i := 0 to |gs|
        invariant registry.Valid() && Grows(s0, Snap())
        invariant registry.creationOrder == old(registry.creationOrder) + ThroughGroupsOrder(gs[..i])
        invariant GroupsLinked(gs[..i], Snap())
      {
        ThroughGroupsStep(gs, i);
        ghost var si := Snap();
        err := CreateThroughChildren(gs[i].children);
        GrowsTrans(s0, si, Snap());
        if err.Some? {
          return;
        }
        GrowsExtends(si, Snap());
        GroupsLinkedStep(gs, i, si, Snap());
      }
      assert gs[..|gs|] == gs;
      return None;
    }

    method CreateThroughChildren(cs: seq<Descriptor>) returns (err: Option<SeedError>)
      requires registry.Valid()
      modifies registry, store
      ensures Kept()
      ensures err.None? ==> registry.creationOrder == old(registry.creationOrder) + ThroughChildrenOrder(cs)
      ensures err.None? ==> ChildrenLinked(cs, Snap())
    {
      ghost var s0 := Snap();
      for i := 0 to |cs|
        invariant registry.Valid() && Grows(s0, Snap())
        invariant registry.creationOrder == old(registry.creationOrder) + ThroughChildrenOrder(cs[..i])
        invariant ChildrenLinked(cs[..i], Snap())
      {
        ThroughChildrenStep(cs, i);
        ghost var si := Snap();
        err := CreateThroughChild(cs[i]);
        GrowsTrans(s0, si, Snap());
        if err.Some? {
          return;
        }
        GrowsExtends(si, Snap());
        ChildrenLinkedStep(cs, i, si, Snap());
      }
      assert cs[..|cs|] == cs;
      return None;
    }

    /** One step of that loop: a child with a source identity is a through instance and is created now. */
    method CreateThroughChild(c: Descriptor) returns (err: Option<SeedError>)
      requires registry.Valid()
      modifies registry, store
      ensures Kept()
      ensures err.None? ==>
                registry.creationOrder == old(registry.creationOrder) + (if IsThroughDescriptor(c) then ThroughOrder(c) else [])
      ensures err.None? ==> ChildrenLinked([c], Snap())
    {
      if IsThroughDescriptor(c) {
        ghost var at;
        var r;
        r, at := CreateThroughInstance(c);
        if r.Err? {
          return Some(r.error);
        }
        GrowsExtends(at, Snap());
        assert LinkedBy(c, r.value, at, Snap());
      }
      assert LinkedAt([c], 0, Snap());
      return None;
    }

    /**
     * The body of `_pass_two_resolve_m2m` for one descriptor: its through
     * instances are created and linked, then its fields are set against the
     * registry as it then is.
     */
    method ResolveDescriptorM2M(d: Descriptor) returns (err: Option<SeedError>)
      requires registry.Valid()
      modifies registry, store
      ensures registry.Valid() && Extends(old(Snap()), Snap())
      ensures err.None? ==> registry.creationOrder == old(registry.creationOrder) + ThroughGroupsOrder(d.m2mInline)
      ensures err.None? ==> GroupsLinked(d.m2mInline, Snap())
      ensures err.None? ==> SetsAt(d, old(store.memberships), Snap())
      ensures err.None? ==> |store.memberships| == |old(store.memberships)| + |d.m2mFields|
    {
      ghost var s0 := Snap();
      err := CreateThroughGroups(d.m2mInline);
      ghost var s1 := Snap();
      GrowsExtends(s0, s1);
      if err.Some? {
        return;
      }
      err := SetM2MFields(d);
      ExtendsTrans(s0, s1, Snap());
      if err.None? {
        GroupsLinkedKept(d.m2mInline, s1, Snap());
      }
    }

    /**
     * `_pass_two_resolve_m2m` over every descriptor, nested ones included:
     * for each, first the through instances among its inline children,
     * then one `set` per many-to-many field.
     */
    method PassTwo(ds: seq<Descriptor>) returns (err: Option<SeedError>, ghost views: seq<Snapshot>,
                                                 ghost sets: seq<seq<Membership>>)
      requires registry.Valid()
      modifies registry, store
      ensures registry.Valid() && Extends(old(Snap()), Snap())
      ensures err.None? ==> registry.creationOrder == old(registry.creationOrder) + PassTwoOrder(ds)
      ensures err.None? ==> |store.memberships| == |old(store.memberships)| + M2MCount(ds)
      ensures err.None? ==> |sets| == |ds| && AllFound(ds, views, sets) &&
                            store.memberships == old(store.memberships) + Concat(sets)
      ensures err.None? ==> |views| == |ds| && PassTwoLinked(ds, views, Snap())
    {
      ghost var s0 := Snap();
      ExtendsRefl(s0);
      views, sets := [], [];
      for i := 0 to |ds|
        invariant registry.Valid() && Extends(s0, Snap())
        invariant registry.creationOrder == old(registry.creationOrder) + PassTwoOrder(ds[..i])
        invariant |sets| == i && PassTwoProgress(ds, views, sets, old(store.memberships), Snap())
      {
        ghost var si := Snap();
        PassTwoStep(ds, i);
        err, views, sets := ResolveNext(ds, i, views, sets, old(store.memberships));
        ExtendsTrans(s0, si, Snap());
        if err.Some? {
          return;
        }
      }
      assert ds[..|ds|] == ds;
      FoundCountAll(ds, views, sets);
      return None, views, sets;
    }

    /**
     * Pass 2 has gone through the first `|sets|` descriptors of `ds` and is
     * now at `s`: their `set` calls are those of `sets`, appended to
     * `before`, and their through instances are linked.
     */
    ghost predicate PassTwoProgress(ds: seq<Descriptor>, views: seq<Snapshot>, sets: seq<seq<Membership>>,
                                    before: seq<Membership>, s: Snapshot)
    {
      AllFound(ds, views, sets) && s.memberships == before + Concat(sets) && PassTwoLinked(ds, views, s)
    }

    /**
     * One round of that loop, for the descriptor `ds[i]`, with the
     * bookkeeping the loop carries: the memberships set since `before`.
     */
    method ResolveNext(ds: seq<Descriptor>, i: nat, ghost views: seq<Snapshot>, ghost sets: seq<seq<Membership>>,
                       ghost before: seq<Membership>)
      returns (err: Option<SeedError>, ghost views': seq<Snapshot>, ghost sets': seq<seq<Membership>>)
      requires i == |sets| < |ds| && registry.Valid()
      requires PassTwoProgress(ds, views, sets, before, Snap())
      modifies registry, store
      ensures registry.Valid() && Extends(old(Snap()), Snap())
      ensures err.None? ==> registry.creationOrder == old(registry.creationOrder) + ThroughGroupsOrder(ds[i].m2mInline)
      ensures err.None? ==> |sets'| == i + 1
      ensures err.None? ==> PassTwoProgress(ds, views', sets', before, Snap())
    {
      ghost var si := Snap();
      err := ResolveDescriptorM2M(ds[i]);
      ghost var s1 := Snap();
      ghost var x := s1.memberships[|si.memberships|..];
      views', sets' := views + [s1], sets + [x];
      if err.None? {
        PassTwoLinkedStep(ds, views, si, s1);
        SetsAtFound(ds[i], si.memberships, s1);
        AllFoundStep(ds, views, sets, s1, x);
        ConcatStep(sets, x);
      }
    }

    /**
     * The guard of `_execute_load` around pass 2: it runs only when some
     * descriptor has a many-to-many reference or an inline child, and when
     * it is skipped nothing it would have done is missing.
     */
    method PassTwoIfNeeded(ds: seq<Descriptor>) returns (err: Option<SeedError>, ghost views: seq<Snapshot>,
                                                         ghost sets: seq<seq<Membership>>)
      requires registry.Valid()
      modifies registry, store
      ensures registry.Valid() && Extends(old(Snap()), Snap())
      ensures err.None? ==> registry.creationOrder == old(registry.creationOrder) + PassTwoOrder(ds)
      ensures err.None? ==> |store.memberships| == |old(store.memberships)| + M2MCount(ds)
      ensures err.None? ==> |sets| == |ds| && AllFound(ds, views, sets) &&
                            store.memberships == old(store.memberships) + Concat(sets)
      ensures err.None? ==> |views| == |ds| && PassTwoLinked(ds, views, Snap())
    {
      if M2MCount(ds) > 0 || InlineCount(ds) > 0 {
        err, views, sets := PassTwo(ds);
      } else {
        PassTwoGuardHarmless(ds);
        ghost var s := Snap();
        ExtendsRefl(s);
        views, sets := seq(|ds|, _ => s), seq(|ds|, _ => []);
        NoFieldsFound(ds, views, sets);
        NoLinksWithoutChildren(ds, views, s);
        err := None;
      }
    }

    // -------------------------------------------------------------------
    // The whole load
    // -------------------------------------------------------------------

    /**
     * `_execute_load`: build the descriptors, sort the top-level ones by
     * their dependencies, create their trees in that order (pass 1), then,
     * when some descriptor has many-to-many references or inline children,
     * run pass 2 over every descriptor, nested ones included.
     */
    method ExecuteLoad(data: Entries) returns (err: Option<SeedError>, ghost top: seq<Descriptor>, ghost sorted: seq<Descriptor>,
                                              ghost views: seq<Snapshot>, ghost sets: seq<seq<Membership>>)
      requires Wired() && WellFormedSchema(schema) && WellShaped(data) && registry.Valid()
      modifies registry, store
      ensures registry.Valid()
      ensures err.None? ==> Extends(old(Snap()), Snap())
      ensures err.None? ==> builder.BuiltUpTo(top, data, |data|)
      ensures err.None? ==> |top| == ObjectCount(data) && forall c :: c in top ==> IsRootDescriptor(c, config.referenceKey)
      ensures err.None? ==> Ordered(DescriptorMap(top), sorted) && PathSet(Ids(sorted)) == DescriptorMap(top).Keys
      ensures err.None? ==> registry.creationOrder == old(registry.creationOrder) + TreesOrder(sorted) + PassTwoOrder(Flat(top))
      ensures err.None? ==> |store.memberships| == |old(store.memberships)| + M2MCount(Flat(top))
      ensures err.None? ==> |sets| == |Flat(top)| && AllFound(Flat(top), views, sets) &&
                            store.memberships == old(store.memberships) + Concat(sets)
      ensures err.None? ==> |views| == |Flat(top)| && PassTwoLinked(Flat(top), views, Snap())
    {
      ghost var s0 := Snap();
      top, sorted, views, sets := [], [], [], [];
      var built := builder.BuildDescriptors(data);
      if built.Err? {
        err := Some(built.error);
        return;
      }
      top := built.value;
      var all := FlattenDescriptors(built.value);
      var order := TopologicalSort(built.value);
      if order.Err? {
        err := Some(order.error);
        return;
      }
      sorted := order.value;
      err := CreateTrees(order.value);
      ghost var s1 := Snap();
      GrowsExtends(s0, s1);
      if err.Some? {
        return;
      }
      err, views, sets := PassTwoIfNeeded(all);
      ExtendsTrans(s0, s1, Snap());
    }

    /**
     * `load`: parse the documents, then `_execute_load`, all inside one
     * transaction, so that a load that fails leaves no row and no
     * membership behind. The registry is not part of the transaction.
     */
    method Load(docs: seq<Value>) returns (err: Option<SeedError>, ghost data: Entries, ghost top: seq<Descriptor>,
                                           ghost sorted: seq<Descriptor>, ghost views: seq<Snapshot>,
                                           ghost sets: seq<seq<Membership>>)
      requires Wired() && WellFormedSchema(schema) && registry.Valid()
      modifies registry, store
      ensures registry.Valid()
      ensures err.Some? ==> store.rows == old(store.rows) && store.memberships == old(store.memberships)
      ensures (forall i :: 0 <= i < |docs| ==> Loadable(docs[i])) && !WellShaped(MergeAll(AllContents(docs))) ==> err.Some?
      ensures err.None? && (forall i :: 0 <= i < |docs| ==> Loadable(docs[i])) ==> data == MergeAll(AllContents(docs))
      ensures err.None? ==> Extends(old(Snap()), Snap()) && WellShaped(data) && |top| == ObjectCount(data)
      ensures err.None? ==> builder.BuiltUpTo(top, data, |data|)
      ensures err.None? ==> Ordered(DescriptorMap(top), sorted) && PathSet(Ids(sorted)) == DescriptorMap(top).Keys
      ensures err.None? ==> registry.creationOrder == old(registry.creationOrder) + TreesOrder(sorted) + PassTwoOrder(Flat(top))
      ensures err.None? ==> |store.memberships| == |old(store.memberships)| + M2MCount(Flat(top))
      ensures err.None? ==> |sets| == |Flat(top)| && AllFound(Flat(top), views, sets) &&
                            store.memberships == old(store.memberships) + Concat(sets)
      ensures err.None? ==> |views| == |Flat(top)| && PassTwoLinked(Flat(top), views, Snap())
    {
      var savedRows, savedMemberships := store.rows, store.memberships;
      data, top, sorted, views, sets := [], [], [], [], [];
      var parsed := ParseFiles(docs);
      if parsed.Err? {
        err := Some(parsed.error);
        return;
      }
      data := parsed.value;
      err, top, sorted, views, sets := ExecuteLoad(parsed.value);
      if err.Some? {
        store.RollBack(savedRows, savedMemberships);
      }
    }
  }

  // ---------------------------------------------------------------------
  // Pass 2: many-to-many memberships
  // ---------------------------------------------------------------------

  /** The references in order, each resolved by the registry; the first that finds nothing is reported. */
  function ResolveAll(instances: map<string, Handle>, aliasIndex: map<Value, string>, refs: seq<string>)
    : (r: Result<seq<Handle>, SeedError>)
    ensures r.Ok? <==> forall i :: 0 <= i < |refs| ==> Resolve(instances, aliasIndex, refs[i]).Ok?
    ensures r.Ok? ==> |r.value| == |refs| &&
                      forall i :: 0 <= i < |refs| ==> Resolve(instances, aliasIndex, refs[i]) == Ok(r.value[i])
    ensures r.Err? ==> r.error.ReferenceNotFound? && r.error.token in refs &&
                       Resolve(instances, aliasIndex, r.error.token).Err?
    decreases |refs|
  {
    if refs == [] then Ok([])
    else
      assert forall i :: 1 <= i < |refs| ==> refs[i] == refs[1..][i - 1];
      var h :- Resolve(instances, aliasIndex, refs[0]);
      var rest :- ResolveAll(instances, aliasIndex, refs[1..]);
      Ok([h] + rest)
  }

  /** A prefix already produced, followed by the outcome of the rest. */
  function Prepend<T>(done: seq<T>, r: Result<seq<T>, SeedError>): Result<seq<T>, SeedError> {
    if r.Ok? then Ok(done + r.value) else r
  }

  /**
   * The `set` calls for the many-to-many fields of `owner`, in order: the
   * references of a field are all resolved before the field is looked up
   * on the owner by name, which needs a string.
   */
  function FieldSets(owner: Handle, fields: Assoc<seq<string>>, instances: map<string, Handle>,
                     aliasIndex: map<Value, string>): (r: Result<seq<Membership>, SeedError>)
    ensures r.Ok? ==> |r.value| == |fields|
    decreases |fields|
  {
    if fields == [] then Ok([])
    else
      var members :- ResolveAll(instances, aliasIndex, fields[0].1);
      if !fields[0].0.Str? then Err(FieldNameNotString(fields[0].0))
      else
        var rest :- FieldSets(owner, fields[1..], instances, aliasIndex);
        Ok([Membership(owner, fields[0].0.s, members)] + rest)
  }

  /**
   * What `FieldSets` sets: it succeeds exactly when every field name is a
   * string and every reference list resolves, and then field `i` becomes
   * the membership of the owner under that name holding the resolved
   * instances in order; otherwise a reference was not found or a field
   * name was not a string.
   */
  lemma {:induction false} FieldSetsMeaning(owner: Handle, fields: Assoc<seq<string>>, instances: map<string, Handle>,
                                            aliasIndex: map<Value, string>)
    ensures var r := FieldSets(owner, fields, instances, aliasIndex);
            (r.Ok? <==> forall i :: 0 <= i < |fields| ==>
                          fields[i].0.Str? && ResolveAll(instances, aliasIndex, fields[i].1).Ok?) &&
            (r.Ok? ==> forall i :: 0 <= i < |fields| ==>
                         r.value[i] == Membership(owner, fields[i].0.s, ResolveAll(instances, aliasIndex, fields[i].1).value)) &&
            (r.Err? ==> r.error.ReferenceNotFound? || (r.error.FieldNameNotString? && !r.error.key.Str?))
    decreases |fields|
  {
    if fields != [] {
      FieldSetsMeaning(owner, fields[1..], instances, aliasIndex);
      assert forall i :: 1 <= i < |fields| ==> fields[i] == fields[1..][i - 1];
    }
  }

  /**
   * The `set` calls of one descriptor in pass 2, for a registry holding
   * `instances` and `aliasIndex`: none without many-to-many fields;
   * otherwise the owner is found by its identity and its fields are set in
   * order.
   */
  function DescriptorSets(d: Descriptor, instances: map<string, Handle>, aliasIndex: map<Value, string>)
    : (r: Result<seq<Membership>, SeedError>)
    ensures r.Ok? ==> |r.value| == |d.m2mFields|
  {
    if d.m2mFields == [] then Ok([])
    else
      var owner :- Resolve(instances, aliasIndex, d.identity);
      FieldSets(owner, d.m2mFields, instances, aliasIndex)
  }

  /** The memberships of `sets`, one descriptor's after the other's. */
  function Concat(sets: seq<seq<Membership>>): seq<Membership>
    decreases |sets|
  {
    if sets == [] then [] else Concat(sets[..|sets| - 1]) + sets[|sets| - 1]
  }

  lemma ConcatStep(sets: seq<seq<Membership>>, x: seq<Membership>)
    ensures Concat(sets + [x]) == Concat(sets) + x
  {
    assert (sets + [x])[..|sets|] == sets;
  }

  /** The memberships in `v` are `before` and then the `set` calls of `d` against the registry of `v`. */
  ghost predicate SetsAt(d: Descriptor, before: seq<Membership>, v: Snapshot) {
    DescriptorSets(d, v.instances, v.aliasIndex).Ok? && v.memberships == before + DescriptorSets(d, v.instances, v.aliasIndex).value
  }

  /** What `SetsAt` appended is the outcome of `DescriptorSets`. */
  lemma SetsAtFound(d: Descriptor, before: seq<Membership>, v: Snapshot)
    requires SetsAt(d, before, v)
    ensures |before| <= |v.memberships| && v.memberships[..|before|] == before
    ensures DescriptorSets(d, v.instances, v.aliasIndex) == Ok(v.memberships[|before|..])
  {
  }

  /** Descriptor `ds[j]` set exactly `sets[j]` against the registry `views[j]` it met. */
  ghost predicate SetFound(ds: seq<Descriptor>, views: seq<Snapshot>, sets: seq<seq<Membership>>, j: nat)
    requires j < |ds| && j < |views| && j < |sets|
  {
    DescriptorSets(ds[j], views[j].instances, views[j].aliasIndex) == Ok(sets[j])
  }

  /** `SetFound` for each of the first `|sets|` descriptors. */
  ghost predicate AllFound(ds: seq<Descriptor>, views: seq<Snapshot>, sets: seq<seq<Membership>>) {
    |views| == |sets| <= |ds| && forall j :: 0 <= j < |sets| ==> SetFound(ds, views, sets, j)
  }

  lemma AllFoundStep(ds: seq<Descriptor>, views: seq<Snapshot>, sets: seq<seq<Membership>>, v: Snapshot, x: seq<Membership>)
    requires AllFound(ds, views, sets) && |sets| < |ds|
    requires DescriptorSets(ds[|sets|], v.instances, v.aliasIndex) == Ok(x)
    ensures AllFound(ds, views + [v], sets + [x])
  {
    forall j | 0 <= j < |sets| + 1 ensures SetFound(ds, views + [v], sets + [x], j) {
      if j < |sets| {
        assert SetFound(ds, views, sets, j);
      }
    }
  }

  /** Pass 2 sets one membership per many-to-many field of the descriptors it went through. */
  lemma {:induction false} FoundCount(ds: seq<Descriptor>, views: seq<Snapshot>, sets: seq<seq<Membership>>, n: nat)
    requires AllFound(ds, views, sets) && n <= |sets|
    ensures |Concat(sets[..n])| == M2MCount(ds[..n])
  {
    if n > 0 {
      FoundCount(ds, views, sets, n - 1);
      assert SetFound(ds, views, sets, n - 1);
      assert sets[..n][..n - 1] == sets[..n - 1];
      assert ds[..n][..n - 1] == ds[..n - 1];
    }
  }

  lemma FoundCountAll(ds: seq<Descriptor>, views: seq<Snapshot>, sets: seq<seq<Membership>>)
    requires AllFound(ds, views, sets) && |sets| == |ds|
    ensures |Concat(sets)| == M2MCount(ds)
  {
    FoundCount(ds, views, sets, |ds|);
    assert ds[..|ds|] == ds && sets[..|ds|] == sets;
  }

  /** Without many-to-many fields pass 2 sets nothing, whatever the registry. */
  lemma {:induction false} NoFieldsFound(ds: seq<Descriptor>, views: seq<Snapshot>, sets: seq<seq<Membership>>)
    requires |views| == |sets| == |ds| && M2MCount(ds) == 0
    requires forall j :: 0 <= j < |sets| ==> sets[j] == []
    ensures AllFound(ds, views, sets) && Concat(sets) == []
    decreases |ds|
  {
    if ds != [] {
      var n := |ds| - 1;
      NoFieldsFound(ds[..n], views[..n], sets[..n]);
      forall j | 0 <= j < |sets| ensures SetFound(ds, views, sets, j) {
        if j < n {
          assert SetFound(ds[..n], views[..n], sets[..n], j);
        }
      }
    }
  }

  lemma PrependNothing<T>(r: Result<seq<T>, SeedError>)
    ensures Prepend([], r) == r
  {
    if r.Ok? {
      assert [] + r.value == r.value;
    }
  }

  /** One reference more of `ResolveAll`. */
  lemma ResolveAllStep(instances: map<string, Handle>, aliasIndex: map<Value, string>, refs: seq<string>, i: nat,
                       done: seq<Handle>)
    requires i < |refs|
    ensures var h := Resolve(instances, aliasIndex, refs[i]);
            && (h.Err? ==> ResolveAll(instances, aliasIndex, refs[i..]) == Err(h.error))
            && (h.Ok? ==> Prepend(done, ResolveAll(instances, aliasIndex, refs[i..])) ==
                          Prepend(done + [h.value], ResolveAll(instances, aliasIndex, refs[i + 1..])))
  {
    assert refs[i..][0] == refs[i];
    assert refs[i..][1..] == refs[i + 1..];
    var tail := ResolveAll(instances, aliasIndex, refs[i + 1..]);
    var h := Resolve(instances, aliasIndex, refs[i]);
    if h.Ok? && tail.Ok? {
      assert done + ([h.value] + tail.value) == done + [h.value] + tail.value;
    }
  }

  /** One field more of `FieldSets`. */
  lemma FieldSetsStep(owner: Handle, fields: Assoc<seq<string>>, i: nat, instances: map<string, Handle>,
                      aliasIndex: map<Value, string>, done: seq<Membership>)
    requires i < |fields|
    ensures var members := ResolveAll(instances, aliasIndex, fields[i].1);
            var rest := FieldSets(owner, fields[i..], instances, aliasIndex);
            && (members.Err? ==> rest == Err(members.error))
            && (members.Ok? && !fields[i].0.Str? ==> rest == Err(FieldNameNotString(fields[i].0)))
            && (members.Ok? && fields[i].0.Str? ==>
                  Prepend(done, rest) ==
                  Prepend(done + [Membership(owner, fields[i].0.s, members.value)],
                          FieldSets(owner, fields[i + 1..], instances, aliasIndex)))
  {
    assert fields[i..][0] == fields[i];
    assert fields[i..][1..] == fields[i + 1..];
    var tail := FieldSets(owner, fields[i + 1..], instances, aliasIndex);
    var members := ResolveAll(instances, aliasIndex, fields[i].1);
    if members.Ok? && fields[i].0.Str? && tail.Ok? {
      var m := Membership(owner, fields[i].0.s, members.value);
      assert done + ([m] + tail.value) == done + [m] + tail.value;
    }
  }

  /** `b` extends `a` as in `Grows`, except that memberships may have been set since. */
  ghost predicate Extends(a: Snapshot, b: Snapshot) {
    SubMap(a.instances, b.instances) && SubMap(a.aliasIndex, b.aliasIndex) &&
    SubMap(a.lookupCache, b.lookupCache) &&
    |a.rows| <= |b.rows| && b.rows[..|a.rows|] == a.rows &&
    |a.memberships| <= |b.memberships| && b.memberships[..|a.memberships|] == a.memberships
  }

  lemma ExtendsRefl(a: Snapshot)
    ensures Extends(a, a)
  {
    assert a.rows[..|a.rows|] == a.rows;
    assert a.memberships[..|a.memberships|] == a.memberships;
  }

  lemma GrowsExtends(a: Snapshot, b: Snapshot)
    requires Grows(a, b)
    ensures Extends(a, b)
  {
    assert b.memberships[..|a.memberships|] == a.memberships;
  }

  lemma ExtendsTrans(a: Snapshot, b: Snapshot, c: Snapshot)
    requires Extends(a, b) && Extends(b, c)
    ensures Extends(a, c)
  {
    assert c.rows[..|a.rows|] == c.rows[..|b.rows|][..|a.rows|];
    assert c.memberships[..|a.memberships|] == c.memberships[..|b.memberships|][..|a.memberships|];
  }

  lemma PassTwoStep(ds: seq<Descriptor>, i: nat)
    requires i < |ds|
    ensures PassTwoOrder(ds[..i + 1]) == PassTwoOrder(ds[..i]) + ThroughGroupsOrder(ds[i].m2mInline)
    ensures M2MCount(ds[..i + 1]) == M2MCount(ds[..i]) + |ds[i].m2mFields|
  {
    assert ds[..i + 1][..i] == ds[..i];
  }

  lemma ThroughGroupsStep(gs: seq<InlineGroup>, i: nat)
    requires i < |gs|
    ensures ThroughGroupsOrder(gs[..i + 1]) == ThroughGroupsOrder(gs[..i]) + ThroughChildrenOrder(gs[i].children)
  {
    assert gs[..i + 1][..i] == gs[..i];
  }

  lemma ThroughChildrenStep(cs: seq<Descriptor>, i: nat)
    requires i < |cs|
    ensures ThroughChildrenOrder(cs[..i + 1]) ==
            ThroughChildrenOrder(cs[..i]) + (if IsThroughDescriptor(cs[i]) then ThroughOrder(cs[i]) else [])
  {
    assert cs[..i + 1][..i] == cs[..i];
  }

  /**
   * `_execute_load` skips pass 2 when no descriptor has a many-to-many
   * reference or an inline child; pass 2 would then have created nothing.
   */
  lemma {:induction false} PassTwoGuardHarmless(ds: seq<Descriptor>)
    requires M2MCount(ds) == 0 && InlineCount(ds) == 0
    ensures PassTwoOrder(ds) == []
    decreases |ds|
  {
    if ds != [] {
      var n := |ds| - 1;
      PassTwoGuardHarmless(ds[..n]);
      NoGroupedChildren(ds[n].m2mInline);
    }
  }

  lemma {:induction false} NoGroupedChildren(gs: seq<InlineGroup>)
    requires GroupSizes(gs) == 0
    ensures ThroughGroupsOrder(gs) == []
    decreases |gs|
  {
    if gs != [] {
      NoGroupedChildren(gs[..|gs| - 1]);
    }
  }

  // ---------------------------------------------------------------------
  // Where pass 1 puts each identity
  // ---------------------------------------------------------------------

  lemma {:induction false} TreesContain(cs: seq<Descriptor>, j: nat)
    requires j < |cs|
    ensures cs[j].identity in TreesOrder(cs)
    decreases |cs|
  {
    var n := |cs| - 1;
    if j == n {
      assert TreeOrder(cs[n])[|ForwardOrder(cs[n].nestedChildren)|] == cs[n].identity;
    } else {
      TreesContain(cs[..n], j);
    }
  }

  lemma {:induction false} TreesPrefix(cs: seq<Descriptor>, m: nat)
    requires m <= |cs|
    ensures TreesOrder(cs[..m]) <= TreesOrder(cs)
    decreases |cs|
  {
    if m < |cs| {
      var n := |cs| - 1;
      assert cs[..n][..m] == cs[..m];
      TreesPrefix(cs[..n], m);
    } else {
      assert cs[..m] == cs;
    }
  }

  /**
   * Pass 1 creates the top-level descriptors in topological order, so
   * every identity a descriptor depends on is registered before that
   * descriptor's own identity.
   */
  lemma DependencyCreatedFirst(dm: map<string, Descriptor>, rs: seq<Descriptor>, k: nat, v: string)
    requires Ordered(dm, rs) && k < |rs| && Edge(dm, rs[k].identity, v)
    ensures v in TreesOrder(rs[..k])
    ensures exists i, j :: 0 <= i < j < |TreesOrder(rs)| && TreesOrder(rs)[i] == v && TreesOrder(rs)[j] == rs[k].identity
  {
    var ids := Ids(rs);
    assert ids[k] == rs[k].identity;
    assert v in ids[..k];
    var j :| 0 <= j < k && ids[j] == v;
    assert rs[..k][j] == rs[j];
    TreesContain(rs[..k], j);
    var before := TreesOrder(rs[..k]);
    var i :| 0 <= i < |before| && before[i] == v;
    var p := IdentityAfterPrefix(rs, k);
    TreesPrefix(rs, k);
    assert TreesOrder(rs)[i] == v;
  }

  /** The identity of `cs[k]` sits in the creation order after everything created for `cs[..k]`. */
  lemma IdentityAfterPrefix(cs: seq<Descriptor>, k: nat) returns (p: nat)
    requires k < |cs|
    ensures |TreesOrder(cs[..k])| <= p < |TreesOrder(cs)| && TreesOrder(cs)[p] == cs[k].identity
  {
    TreesStep(cs, k);
    TreesPrefix(cs, k + 1);
    p := |TreesOrder(cs[..k])| + |ForwardOrder(cs[k].nestedChildren)|;
    assert TreesOrder(cs[..k + 1])[p] == cs[k].identity;
  }

  lemma {:induction false} ForwardContains(cs: seq<Descriptor>, j: nat)
    requires j < |cs| && cs[j].parentFieldName.None?
    ensures cs[j].identity in ForwardOrder(cs)
    decreases |cs|
  {
    var n := |cs| - 1;
    if j == n {
      assert TreeOrder(cs[n])[|ForwardOrder(cs[n].nestedChildren)|] == cs[n].identity;
    } else {
      ForwardContains(cs[..n], j);
    }
  }

  lemma {:induction false} ReverseContains(cs: seq<Descriptor>, j: nat)
    requires j < |cs| && cs[j].parentFieldName.Some?
    ensures cs[j].identity in ReverseOrder(cs)
    decreases |cs|
  {
    var n := |cs| - 1;
    if j == n {
      assert TreeOrder(cs[n])[|ForwardOrder(cs[n].nestedChildren)|] == cs[n].identity;
    } else {
      ReverseContains(cs[..n], j);
    }
  }

  /**
   * `_create_object_tree` creates a nested child without a parent field
   * name (a forward relation) before its parent, and one with a parent
   * field name (a reverse relation) after it.
   */
  lemma ChildrenAroundParent(d: Descriptor, j: nat)
    requires j < |d.nestedChildren|
    ensures var p := |ForwardOrder(d.nestedChildren)|;
            && p < |TreeOrder(d)| && TreeOrder(d)[p] == d.identity
            && (d.nestedChildren[j].parentFieldName.None? ==> d.nestedChildren[j].identity in TreeOrder(d)[..p])
            && (d.nestedChildren[j].parentFieldName.Some? ==> d.nestedChildren[j].identity in TreeOrder(d)[p + 1..])
  {
    var cs := d.nestedChildren;
    var p := |ForwardOrder(cs)|;
    var t := TreeOrder(d);
    assert t[..p] == ForwardOrder(cs);
    assert t[p + 1..] == ReverseOrder(cs) + GroupsOrder(d.m2mInline, true);
    if cs[j].parentFieldName.None? {
      ForwardContains(cs, j);
    } else {
      ReverseContains(cs, j);
    }
  }
}

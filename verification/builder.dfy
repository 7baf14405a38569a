/**
 * `DescriptorBuilder`: turns validated seed data (app label -> collection
 * -> list of objects) into trees of descriptors. Every object gets an
 * identity `app.Model.key`; nested objects become children, inline
 * many-to-many objects become inline groups, and mapping values that name
 * a forward relation become separate objects referenced by identity.
 *
 * Descriptors are values here: where the source appends to a descriptor's
 * lists in place, the methods return the extended descriptor.
 */
module Builder {
  import opened Wrappers
  import opened Values
  import opened Errors
  import opened Text
  import opened Schema
  import opened Config
  import opened Resolver
  import opened Registry
  import opened Parser

  /** Every reverse relation of every model points at a model. */
  predicate WellFormedSchema(schema: Schema) {
    forall m :: m in schema.members ==> WellFormedMembers(schema.members[m])
  }

  /** The attributes fixed when a descriptor is created. */
  predicate SameHeader(d: Descriptor, r: Descriptor) {
    r.identity == d.identity && r.appLabel == d.appLabel && r.collectionName == d.collectionName &&
    r.objectKey == d.objectKey && r.model == d.model && r.parentFieldName == d.parentFieldName &&
    r.hasExplicitRef == d.hasExplicitRef
  }

  /**
   * `r` is `d` after processing the field names `ks`: no field is lost, only
   * those names are added or changed in `fields` and `m2mFields`, and every
   * child of `d` is still a child.
   */
  ghost predicate ChangedOnlyAt(d: Descriptor, r: Descriptor, ks: set<Value>) {
    SameHeader(d, r) &&
    Keys(d.fields) <= Keys(r.fields) <= Keys(d.fields) + ks &&
    (forall k :: k !in ks ==> Get(r.fields, k) == Get(d.fields, k)) &&
    (forall k :: k !in ks ==> Get(r.m2mFields, k) == Get(d.m2mFields, k)) &&
    multiset(d.nestedChildren) <= multiset(r.nestedChildren)
  }

  /** Changes at `ks` followed by a change at `k` are changes at `ks + {k}`. */
  lemma ChangedOnlyAtTrans(a: Descriptor, b: Descriptor, c: Descriptor, ks: set<Value>, k: Value)
    requires ChangedOnlyAt(a, b, ks) && ChangedOnlyAt(b, c, {k})
    ensures ChangedOnlyAt(a, c, ks + {k})
  {
  }

  /** With distinct keys, a later field never overwrites the value an earlier plain entry stored. */
  lemma PlainEntriesKept(data: Entries, i: nat, cur: Descriptor, next: Descriptor)
    requires i < |data|
    requires ChangedOnlyAt(cur, next, {data[i].0})
    requires IsPlainEntry(data[i]) ==> next == cur.(fields := Put(cur.fields, data[i].0, data[i].1))
    ensures UniqueKeys(data) && (forall j :: 0 <= j < i && IsPlainEntry(data[j]) ==> Get(cur.fields, data[j].0) == Some(data[j].1)) ==>
              forall j :: 0 <= j < i + 1 && IsPlainEntry(data[j]) ==> Get(next.fields, data[j].0) == Some(data[j].1)
  {
  }

  /** The same keys at the same positions. */
  predicate SameKeys(a: Entries, b: Entries) {
    |a| == |b| && forall i :: 0 <= i < |a| ==> a[i].0 == b[i].0
  }

  lemma SameKeysSameSet(a: Entries, b: Entries)
    requires SameKeys(a, b)
    ensures Keys(a) == Keys(b)
  {
    assert forall k :: k in Keys(a) ==> k in Keys(b);
  }

  /** Appending children changes nothing else. */
  lemma AppendedChildren(d: Descriptor, r: Descriptor, ks: set<Value>)
    requires r == d.(nestedChildren := r.nestedChildren)
    requires |r.nestedChildren| >= |d.nestedChildren| && r.nestedChildren[..|d.nestedChildren|] == d.nestedChildren
    ensures ChangedOnlyAt(d, r, ks)
  {
    assert r.nestedChildren == d.nestedChildren + r.nestedChildren[|d.nestedChildren|..];
  }

  /** One more listed object: its descriptor is appended. */
  lemma ListItemsAppend(cs: seq<Descriptor>, c: Descriptor, app: string, collection: string, model: ModelRef,
                        objects: seq<Value>, i: nat, refKey: string, prefix: string, parentFieldName: Option<string>)
    requires i < |objects|
    requires ListItemsUpTo(cs, app, collection, model, objects, i, refKey, prefix, parentFieldName)
    requires IsListItem(c, app, collection, model, objects[i], refKey, prefix + NatToString(AutoCount(objects[..i], refKey)),
                        parentFieldName)
    ensures ListItemsUpTo(cs + [c], app, collection, model, objects, i + 1, refKey, prefix, parentFieldName)
  {
    var cs' := cs + [c];
    forall j | 0 <= j < i + 1
      ensures IsListItem(cs'[j], app, collection, model, objects[j], refKey, prefix + NatToString(AutoCount(objects[..j], refKey)),
                         parentFieldName)
    {
      if j < i {
        assert cs'[j] == cs[j];
      }
    }
  }

  /** The counter moves past an object exactly when that object takes an automatic key. */
  lemma AutoCountStep(objects: seq<Value>, i: nat, refKey: string)
    requires i < |objects|
    ensures AutoCount(objects[..i + 1], refKey) == AutoCount(objects[..i], refKey) + (if TakesAutoKey(objects[i], refKey) then 1 else 0)
  {
    assert objects[..i + 1][..i] == objects[..i];
  }

  /** The auto-key counter never goes back. */
  lemma {:induction false} AutoCountMonotone(items: seq<Value>, refKey: string, i: nat, j: nat)
    requires i <= j <= |items|
    ensures AutoCount(items[..i], refKey) <= AutoCount(items[..j], refKey)
    ensures i < j && TakesAutoKey(items[i], refKey) ==> AutoCount(items[..i], refKey) < AutoCount(items[..j], refKey)
    decreases j
  {
    if i < j {
      AutoCountMonotone(items, refKey, i, j - 1);
      assert items[..j][..j - 1] == items[..j - 1];
      if i == j - 1 {
        assert items[..j][j - 1] == items[i];
      }
    }
  }

  /**
   * Two objects of one list that both take an auto-generated key get
   * different keys, so their identities differ.
   */
  lemma {:induction false} AutoKeysDistinct(cs: seq<Descriptor>, app: string, collection: string, model: ModelRef,
                                            objects: seq<Value>, refKey: string, prefix: string,
                                            parentFieldName: Option<string>, j: nat, k: nat)
    requires ListItems(cs, app, collection, model, objects, refKey, prefix, parentFieldName)
    requires j < k < |objects|
    requires !cs[j].hasExplicitRef && !cs[k].hasExplicitRef
    ensures cs[j].objectKey != cs[k].objectKey
  {
    AutoCountMonotone(objects, refKey, j, k);
    var a, b := AutoCount(objects[..j], refKey), AutoCount(objects[..k], refKey);
    if cs[j].objectKey == cs[k].objectKey {
      assert (prefix + NatToString(a))[|prefix|..] == NatToString(a);
      assert (prefix + NatToString(b))[|prefix|..] == NatToString(b);
      NatToStringInjective(a, b);
    }
  }

  /** Every plain entry of `data` is a field of `c`, with its own value. */
  predicate StoredPlain(c: Descriptor, data: Entries) {
    forall j :: 0 <= j < |data| && IsPlainEntry(data[j]) ==> Get(c.fields, data[j].0) == Some(data[j].1)
  }

  /**
   * `c` holds the entries `data` as `_process_object_fields` stores them in
   * a new descriptor: its fields and many-to-many fields are keyed by keys
   * of `data` only, and, with distinct keys as in a Python dict, every
   * plain entry is a field with its own value.
   */
  predicate HoldsEntries(c: Descriptor, data: Entries) {
    Keys(c.fields) <= Keys(data) && Keys(c.m2mFields) <= Keys(data) &&
    (UniqueKeys(data) ==> StoredPlain(c, data))
  }

  /** Processing `data` over a descriptor with no fields yet gives one that holds `data`. */
  lemma NewHoldsEntries(d: Descriptor, c: Descriptor, data: Entries)
    requires d.fields == [] && d.m2mFields == []
    requires ChangedOnlyAt(d, c, Keys(data))
    requires UniqueKeys(data) ==> StoredPlain(c, data)
    ensures HoldsEntries(c, data)
  {
  }

  /** An entry stored as it is: its key is not a string, or its value is a scalar. */
  predicate IsPlainEntry(e: (Value, Value)) {
    !e.0.Str? || !(e.1.Dict? || e.1.List?)
  }

  /** An object that takes an auto-generated key: it is a mapping without the reference key. */
  predicate TakesAutoKey(v: Value, refKey: string) {
    !(v.Dict? && Str(refKey) in Keys(v.entries))
  }

  /** The value of the auto-key counter after the objects `items`. */
  function AutoCount(items: seq<Value>, refKey: string): nat
    decreases |items|
  {
    if items == [] then 0
    else AutoCount(items[..|items| - 1], refKey) + (if TakesAutoKey(items[|items| - 1], refKey) then 1 else 0)
  }

  function DictCount(items: seq<Value>): nat
    decreases |items|
  {
    if items == [] then 0
    else DictCount(items[..|items| - 1]) + (if items[|items| - 1].Dict? then 1 else 0)
  }

  /**
   * The key of a listed or inline object and the fields left to process: the
   * value of the reference key, which is dropped from the fields, or `auto`.
   */
  function ChooseKey(entries: Entries, refKey: string, auto: Value): (r: (Value, Entries, bool))
    ensures r.2 <==> Str(refKey) in Keys(entries)
    ensures r.2 ==> Get(entries, Str(refKey)) == Some(r.0) && r.1 == Remove(entries, Str(refKey))
    ensures !r.2 ==> r.0 == auto && r.1 == entries
    ensures Str(refKey) !in Keys(r.1)
    ensures Size(Dict(r.1)) <= Size(Dict(entries))
  {
    match Get(entries, Str(refKey))
    case Some(k) =>
      RemoveNoLarger(entries, Str(refKey));
      (k, Remove(entries, Str(refKey)), true)
    case None => (auto, entries, false)
  }

  /** The descriptor made for the listed object `item` when its auto-generated key would be `auto`. */
  predicate IsListItem(c: Descriptor, app: string, collection: string, model: ModelRef, item: Value, refKey: string,
                       auto: string, parentFieldName: Option<string>)
  {
    item.Dict? &&
    c.appLabel == app && c.collectionName == collection && c.model == model && c.parentFieldName == parentFieldName &&
    c.identity == Dotted(app, collection, Display(c.objectKey)) &&
    (c.hasExplicitRef <==> Str(refKey) in Keys(item.entries)) &&
    (c.hasExplicitRef ==> Get(item.entries, Str(refKey)) == Some(c.objectKey)) &&
    (!c.hasExplicitRef ==> c.objectKey == Str(auto)) &&
    Str(refKey) !in Keys(c.fields) &&
    HoldsEntries(c, if c.hasExplicitRef then Remove(item.entries, Str(refKey)) else item.entries)
  }

  /**
   * `cs` are the descriptors made, in order, for the listed objects
   * `objects`: auto-generated keys are `prefix` followed by the count of
   * auto-keyed objects before.
   */
  predicate ListItems(cs: seq<Descriptor>, app: string, collection: string, model: ModelRef, objects: seq<Value>,
                      refKey: string, prefix: string, parentFieldName: Option<string>)
  {
    ListItemsUpTo(cs, app, collection, model, objects, |objects|, refKey, prefix, parentFieldName)
  }

  /** `cs` are the descriptors of the first `n` objects. */
  predicate ListItemsUpTo(cs: seq<Descriptor>, app: string, collection: string, model: ModelRef, objects: seq<Value>,
                          n: nat, refKey: string, prefix: string, parentFieldName: Option<string>)
  {
    |cs| == n <= |objects| &&
    forall j :: 0 <= j < n ==>
      IsListItem(cs[j], app, collection, model, objects[j], refKey, prefix + NatToString(AutoCount(objects[..j], refKey)),
                 parentFieldName)
  }

  /** A slice within `a` is the same slice of `a + b`. */
  lemma SliceOfAppend(a: seq<Descriptor>, b: seq<Descriptor>, lo: nat, hi: nat)
    requires lo <= hi <= |a|
    ensures (a + b)[lo..hi] == a[lo..hi]
  {
  }

  /** What every top-level descriptor satisfies. */
  predicate IsRootDescriptor(c: Descriptor, refKey: string) {
    c.parentFieldName.None? &&
    c.identity == Dotted(c.appLabel, c.collectionName, Display(c.objectKey)) &&
    Str(refKey) !in Keys(c.fields)
  }

  /** The number of objects listed in validated seed data. */
  function CollectionsCount(cs: Entries): nat
    decreases |cs|
  {
    if cs == [] then 0
    else
      var last := cs[|cs| - 1];
      CollectionsCount(cs[..|cs| - 1]) + (if last.1.List? then |last.1.items| else 0)
  }

  function ObjectCount(data: Entries): nat
    decreases |data|
  {
    if data == [] then 0
    else
      var last := data[|data| - 1];
      ObjectCount(data[..|data| - 1]) + (if last.1.Dict? then CollectionsCount(last.1.entries) else 0)
  }

  /**
   * The value `field_name` holds, as written, once the through-model loop
   * has passed over `items`: the inner loop over each mapping item rebinds
   * it to each of the item's keys in turn, so it ends as the last key of the
   * last non-empty mapping item, or the field name when there is none.
   */
  function ReboundName(fieldName: Value, items: seq<Value>): (r: Value)
    ensures (forall i :: 0 <= i < |items| ==> !(items[i].Dict? && items[i].entries != [])) ==> r == fieldName
    ensures r != fieldName ==>
              exists i :: 0 <= i < |items| && items[i].Dict? && items[i].entries != [] &&
                          r == items[i].entries[|items[i].entries| - 1].0 &&
                          forall j :: i < j < |items| ==> !(items[j].Dict? && items[j].entries != [])
    decreases |items|
  {
    if items == [] then fieldName
    else
      var init, last := items[..|items| - 1], items[|items| - 1];
      assert forall i :: 0 <= i < |init| ==> init[i] == items[i];
      if last.Dict? && last.entries != [] then last.entries[|last.entries| - 1].0
      else ReboundName(fieldName, init)
  }

  /**
   * Two through fields of one owner whose last items both end with a `role`
   * entry: as written, both groups are stored under `role`, and the second
   * replaces the first.
   */
  lemma SecondThroughGroupReplacesFirst(cs1: seq<Descriptor>, cs2: seq<Descriptor>)
    ensures var members := [Dict([(Str("user"), Str("$alice")), (Str("role"), Str("admin"))])];
            var projects := [Dict([(Str("project"), Str("$apollo")), (Str("role"), Str("lead"))])];
            ReboundName(Str("members"), members) == Str("role") &&
            ReboundName(Str("projects"), projects) == Str("role") &&
            PutGroup(PutGroup([], ReboundName(Str("members"), members), cs1), ReboundName(Str("projects"), projects), cs2)
              == [InlineGroup(Str("role"), cs2)]
  {
  }

  /**
   * Stored under their own field names, the groups of two distinct through
   * fields are both kept, whatever groups were there before.
   */
  lemma DistinctThroughGroupsKept(gs: seq<InlineGroup>, n1: string, n2: string, cs1: seq<Descriptor>, cs2: seq<Descriptor>)
    requires n1 != n2
    ensures var r := PutGroup(PutGroup(gs, Str(n1), cs1), Str(n2), cs2);
            InlineGroup(Str(n1), cs1) in r && InlineGroup(Str(n2), cs2) in r
  {
    var r1 := PutGroup(gs, Str(n1), cs1);
    var i1: nat;
    if exists i :: 0 <= i < |gs| && gs[i].field == Str(n1) {
      i1 :| 0 <= i1 < |gs| && gs[i1].field == Str(n1) && r1 == gs[i1 := InlineGroup(Str(n1), cs1)];
    } else {
      i1 := |gs|;
    }
    assert r1[i1] == InlineGroup(Str(n1), cs1);
    var r := PutGroup(r1, Str(n2), cs2);
    if exists i :: 0 <= i < |r1| && r1[i].field == Str(n2) {
      var i2 :| 0 <= i2 < |r1| && r1[i2].field == Str(n2) && r == r1[i2 := InlineGroup(Str(n2), cs2)];
      assert r[i1] == r1[i1];
      assert r[i2] == InlineGroup(Str(n2), cs2);
    } else {
      assert r[i1] == r1[i1];
      assert r[|r1|] == InlineGroup(Str(n2), cs2);
    }
  }

  /** The name of the last member of `ms` that points at `m`, or `Null`. */
  function LastPointing(ms: seq<Member>, m: ModelRef): (r: Value)
    ensures r == Null <==> forall i :: 0 <= i < |ms| ==> ms[i].relatedModel != Some(m)
    ensures r != Null ==> exists i :: 0 <= i < |ms| && ms[i].relatedModel == Some(m) && r == Str(ms[i].name) &&
                                      forall j :: i < j < |ms| ==> ms[j].relatedModel != Some(m)
    decreases |ms|
  {
    if ms == [] then Null
    else
      var init, last := ms[..|ms| - 1], ms[|ms| - 1];
      if last.relatedModel == Some(m) then Str(last.name)
      else
        var r := LastPointing(init, m);
        LastPointingSkip(ms, m, r);
        r
  }

  /** A last member that does not point at `m` leaves the answer of the others. */
  lemma LastPointingSkip(ms: seq<Member>, m: ModelRef, r: Value)
    requires ms != [] && ms[|ms| - 1].relatedModel != Some(m)
    requires var init := ms[..|ms| - 1];
             (r == Null <==> forall i :: 0 <= i < |init| ==> init[i].relatedModel != Some(m)) &&
             (r != Null ==> exists i :: 0 <= i < |init| && init[i].relatedModel == Some(m) && r == Str(init[i].name) &&
                                        forall j :: i < j < |init| ==> init[j].relatedModel != Some(m))
    ensures r == Null <==> forall i :: 0 <= i < |ms| ==> ms[i].relatedModel != Some(m)
    ensures r != Null ==> exists i :: 0 <= i < |ms| && ms[i].relatedModel == Some(m) && r == Str(ms[i].name) &&
                                      forall j :: i < j < |ms| ==> ms[j].relatedModel != Some(m)
  {
    var init := ms[..|ms| - 1];
    assert forall i :: 0 <= i < |init| ==> init[i] == ms[i];
    if r != Null {
      var i :| 0 <= i < |init| && init[i].relatedModel == Some(m) && r == Str(init[i].name) &&
               forall j :: i < j < |init| ==> init[j].relatedModel != Some(m);
      assert ms[i].relatedModel == Some(m) && r == Str(ms[i].name);
    }
  }

  /**
   * The names of the through model's fields pointing at the owner (source)
   * and at the related model (target). A field pointing at the owner is never
   * taken as the target, so a self-referential relation has no target.
   */
  method FindThroughSlots(ms: seq<Member>, owner: ModelRef, related: ModelRef) returns (source: Value, target: Value)
    ensures source == LastPointing(ms, owner)
    ensures target == if related == owner then Null else LastPointing(ms, related)
  {
    source, target := Null, Null;
    for i := 0 to |ms|
      invariant source == LastPointing(ms[..i], owner)
      invariant target == if related == owner then Null else LastPointing(ms[..i], related)
    {
      assert ms[..i + 1][..i] == ms[..i];
      if ms[i].relatedModel == Some(owner) {
        source := Str(ms[i].name);
      } else if ms[i].relatedModel == Some(related) {
        target := Str(ms[i].name);
      }
    }
    assert ms[..|ms|] == ms;
  }

  /** The keys of the three marker fields of a through instance. */
  function MarkerKeys(): set<Value> {
    {Str(SourceIdentityField), Str(SourceFieldField), Str(TargetFieldField)}
  }

  /** The marker fields a through instance starts with: the owner's identity and the source and target field names. */
  function MarkerSlots(owner: string, source: Value, target: Value): (r: Entries)
    ensures Keys(r) == MarkerKeys()
    ensures Get(r, Str(SourceIdentityField)) == Some(Str(owner))
    ensures Get(r, Str(SourceFieldField)) == Some(source)
    ensures Get(r, Str(TargetFieldField)) == Some(target)
  {
    assert |SourceIdentityField| != |SourceFieldField| && |SourceIdentityField| != |TargetFieldField|;
    assert SourceFieldField[2] != TargetFieldField[2];
    Put(Put(Put([], Str(SourceIdentityField), Str(owner)), Str(SourceFieldField), source), Str(TargetFieldField), target)
  }

  /**
   * `<owner key>_<field>_<n>`: the key of an object a many-to-many list of
   * the owner keyed `ownerKey` makes. The standard path numbers its inline
   * objects; the through path numbers the positions of its items.
   */
  function M2MKey(ownerKey: Value, fieldName: string, n: nat): string {
    Display(ownerKey) + "_" + fieldName + "_" + NatToString(n)
  }

  /** Different numbers give different keys. */
  lemma M2MKeysDistinct(ownerKey: Value, fieldName: string, i: nat, j: nat)
    requires i != j
    ensures M2MKey(ownerKey, fieldName, i) != M2MKey(ownerKey, fieldName, j)
  {
    var p := Display(ownerKey) + "_" + fieldName + "_";
    if M2MKey(ownerKey, fieldName, i) == M2MKey(ownerKey, fieldName, j) {
      assert (p + NatToString(i))[|p|..] == NatToString(i);
      assert (p + NatToString(j))[|p|..] == NatToString(j);
      NatToStringInjective(i, j);
    }
  }

  /** `c` is the object a standard many-to-many list makes of the mapping `data`, keyed `key`. */
  predicate IsM2MInlineObject(c: Descriptor, data: Entries, model: ModelRef, key: string) {
    c.model == model && c.appLabel == model.app && c.collectionName == model.name &&
    c.identity == Dotted(model.app, model.name, key) && c.objectKey == Str(key) &&
    c.parentFieldName.None? && !c.hasExplicitRef && HoldsEntries(c, data)
  }

  /**
   * `cs` are the inline objects of the mappings among the first `upTo`
   * items, in order: the `n`-th mapping gives `cs[n]`, keyed by `n`.
   */
  predicate InlineObjectsUpTo(cs: seq<Descriptor>, ownerKey: Value, fieldName: string, items: seq<Value>,
                              target: ModelRef, upTo: nat)
    requires upTo <= |items|
  {
    |cs| == DictCount(items[..upTo]) &&
    forall i :: 0 <= i < upTo && items[i].Dict? ==>
      DictCount(items[..i]) < |cs| &&
      IsM2MInlineObject(cs[DictCount(items[..i])], items[i].entries, target, M2MKey(ownerKey, fieldName, DictCount(items[..i])))
  }

  /**
   * `c` is the object made of the mapping `data` given for a relation to
   * `model`: keyed by its reference key, which leaves its fields, or by `auto`.
   */
  predicate IsInlineObject(c: Descriptor, data: Entries, model: ModelRef, auto: string, refKey: string) {
    c.model == model && c.appLabel == model.app && c.collectionName == model.name &&
    c.identity == Dotted(model.app, model.name, Display(c.objectKey)) &&
    c.parentFieldName.None? &&
    (c.hasExplicitRef <==> Str(refKey) in Keys(data)) &&
    (c.hasExplicitRef ==> Get(data, Str(refKey)) == Some(c.objectKey)) &&
    (!c.hasExplicitRef ==> c.objectKey == Str(auto)) &&
    Str(refKey) !in Keys(c.fields) &&
    HoldsEntries(c, if c.hasExplicitRef then Remove(data, Str(refKey)) else data)
  }

  /** A member through which a many-to-many field's objects are reached. */
  predicate IsManyToManyMember(m: Option<Member>) {
    m.Some? && m.value.Concrete? && m.value.kind.ManyToMany? && m.value.relatedModel.Some?
  }

  class DescriptorBuilder {
    const config: SeedConfig
    const schema: Schema
    const tokens: TokenOracle

    constructor (config: SeedConfig, schema: Schema, tokens: TokenOracle)
      ensures this.config == config && this.schema == schema && this.tokens == tokens
    {
      this.config := config;
      this.schema := schema;
      this.tokens := tokens;
    }

    /** A string item of a many-to-many list that the resolver accepts as a reference. */
    predicate IsRefItem(v: Value) {
      v.Str? && tokens.isAnyReference(v.s)
    }

    /**
     * What `_process_m2m_field` makes of a list for a field whose through
     * table Django creates: the reference list `StandardRefs` is stored
     * under the field when it is not empty, and the inline objects, one per
     * mapping in order, are grouped under the field; nothing else changes.
     */
    ghost predicate StandardM2MOutcome(d: Descriptor, fieldName: string, items: seq<Value>, target: ModelRef, v: Descriptor) {
      var refs := StandardRefs(d.objectKey, fieldName, items, target);
      v == d.(m2mFields := v.m2mFields, m2mInline := v.m2mInline) &&
      v.m2mFields == (if refs == [] then d.m2mFields else Put(d.m2mFields, Str(fieldName), refs)) &&
      (DictCount(items) == 0 ==> v.m2mInline == d.m2mInline) &&
      (DictCount(items) > 0 ==>
         exists cs: seq<Descriptor> ::
           v.m2mInline == PutGroup(d.m2mInline, Str(fieldName), cs) &&
           InlineObjectsUpTo(cs, d.objectKey, fieldName, items, target, |items|))
    }

    lemma StandardChangesOnlyField(d: Descriptor, fieldName: string, items: seq<Value>, target: ModelRef, v: Descriptor)
      requires StandardM2MOutcome(d, fieldName, items, target, v)
      ensures ChangedOnlyAt(d, v, {Str(fieldName)})
    {
    }

    function RefCount(items: seq<Value>): nat
      decreases |items|
    {
      if items == [] then 0
      else RefCount(items[..|items| - 1]) + (if IsRefItem(items[|items| - 1]) then 1 else 0)
    }

    /**
     * The reference list the standard many-to-many path collects from
     * `items`, item by item: a reference string as it is, the `n`-th mapping
     * as the identity of the `n`-th inline object of `target`, and nothing
     * for any other item.
     */
    function StandardRefs(ownerKey: Value, fieldName: string, items: seq<Value>, target: ModelRef): (r: seq<string>)
      ensures |r| == RefCount(items) + DictCount(items)
      decreases |items|
    {
      if items == [] then []
      else
        var init := items[..|items| - 1];
        StandardRefs(ownerKey, fieldName, init, target) + StandardEntry(ownerKey, fieldName, init, items[|items| - 1], target)
    }

    /** What `item`, coming after the items `before`, adds to the reference list. */
    function StandardEntry(ownerKey: Value, fieldName: string, before: seq<Value>, item: Value, target: ModelRef): seq<string> {
      if IsRefItem(item) then [item.s]
      else if item.Dict? then [Dotted(target.app, target.name, M2MKey(ownerKey, fieldName, DictCount(before)))]
      else []
    }

    /** The list collected from a prefix of the items is a prefix of the whole list. */
    lemma {:induction false} StandardRefsPrefix(ownerKey: Value, fieldName: string, items: seq<Value>, target: ModelRef, i: nat)
      requires i <= |items|
      ensures StandardRefs(ownerKey, fieldName, items[..i], target) <= StandardRefs(ownerKey, fieldName, items, target)
      decreases |items|
    {
      if i < |items| {
        var init := items[..|items| - 1];
        assert init[..i] == items[..i];
        StandardRefsPrefix(ownerKey, fieldName, init, target, i);
      } else {
        assert items[..i] == items;
      }
    }

    /**
     * Entry by entry: the reference or mapping `items[i]` gives the entry
     * after those of the earlier references and mappings, the string itself
     * or the identity of the inline object numbered by the earlier mappings.
     */
    lemma StandardRefsEntry(ownerKey: Value, fieldName: string, items: seq<Value>, target: ModelRef, i: nat)
      requires i < |items| && (IsRefItem(items[i]) || items[i].Dict?)
      ensures var refs := StandardRefs(ownerKey, fieldName, items, target);
              var p := RefCount(items[..i]) + DictCount(items[..i]);
              p < |refs| &&
              refs[p] == if IsRefItem(items[i]) then items[i].s
                         else Dotted(target.app, target.name, M2MKey(ownerKey, fieldName, DictCount(items[..i])))
    {
      assert items[..i + 1][..i] == items[..i];
      StandardRefsPrefix(ownerKey, fieldName, items, target, i + 1);
    }

    /**
     * What `_process_m2m_through_field` makes of a list for a field with a
     * custom through model: the through instances, one per mapping item in
     * order, are grouped under the field; nothing else changes.
     */
    ghost predicate ThroughM2MOutcome(d: Descriptor, fieldName: string, items: seq<Value>, through: ModelRef,
                                      source: Value, target: Value, v: Descriptor)
      reads config
    {
      v == d.(m2mInline := v.m2mInline) &&
      (DictCount(items) == 0 ==> v.m2mInline == d.m2mInline) &&
      (DictCount(items) > 0 ==>
         exists cs: seq<Descriptor> ::
           v.m2mInline == PutGroup(d.m2mInline, Str(fieldName), cs) &&
           ThroughChildrenUpTo(cs, d, fieldName, items, through, source, target, |items|))
    }

    lemma ThroughChangesOnlyInline(d: Descriptor, fieldName: string, items: seq<Value>, through: ModelRef,
                                   source: Value, target: Value, v: Descriptor)
      requires ThroughM2MOutcome(d, fieldName, items, through, source, target, v)
      ensures ChangedOnlyAt(d, v, {Str(fieldName)})
    {
    }

    /**
     * `cs` are the through instances of the mappings among the first `upTo`
     * items: the `n`-th mapping, at position `i`, gives `cs[n]`, keyed by `i`.
     */
    ghost predicate ThroughChildrenUpTo(cs: seq<Descriptor>, d: Descriptor, fieldName: string, items: seq<Value>,
                                        through: ModelRef, source: Value, target: Value, upTo: nat)
      requires upTo <= |items|
      reads config
    {
      |cs| == DictCount(items[..upTo]) &&
      forall i :: 0 <= i < upTo && items[i].Dict? ==>
        DictCount(items[..i]) < |cs| &&
        IsThroughChild(cs[DictCount(items[..i])], d, items[i].entries, M2MKey(d.objectKey, fieldName, i),
                       through, source, target)
    }

    /**
     * `c` is the through instance made for owner `d` from the mapping item
     * `entries`, keyed `throughKey`: its fields hold the owner's identity and
     * the names of the source and target fields unless the item gives them,
     * and the item's entries after the inline rewrite; the objects that
     * rewrite made are among its children.
     */
    ghost predicate IsThroughChild(c: Descriptor, d: Descriptor, entries: Entries, throughKey: string, through: ModelRef,
                                   source: Value, target: Value)
      reads config
    {
      c.model == through && c.appLabel == through.app && c.collectionName == through.name &&
      c.identity == Dotted(through.app, through.name, throughKey) && c.objectKey == Str(throughKey) &&
      c.parentFieldName.None? && !c.hasExplicitRef && IsThroughDescriptor(c) &&
      ThroughSlots(c, d, entries, source, target) &&
      Keys(c.fields) <= Keys(entries) + MarkerKeys() && Keys(c.m2mFields) <= Keys(entries) &&
      HoldsRewrite(c, entries, throughKey, through)
    }

    /** The owner's identity and the source and target field names, where the item does not give them. */
    predicate ThroughSlots(c: Descriptor, d: Descriptor, entries: Entries, source: Value, target: Value) {
      (Str(SourceIdentityField) !in Keys(entries) ==> Get(c.fields, Str(SourceIdentityField)) == Some(Str(d.identity))) &&
      (Str(SourceFieldField) !in Keys(entries) ==> Get(c.fields, Str(SourceFieldField)) == Some(source)) &&
      (Str(TargetFieldField) !in Keys(entries) ==> Get(c.fields, Str(TargetFieldField)) == Some(target))
    }

    /**
     * `c` holds the item `entries` after the inline rewrite: every scalar
     * entry (a rewritten one included) is a field of `c`, and the objects the
     * rewrite made are among its children.
     */
    ghost predicate HoldsRewrite(c: Descriptor, entries: Entries, throughKey: string, through: ModelRef)
      reads config
    {
      exists fields: Entries, inline: seq<Descriptor> ::
        ThroughRewrite(throughKey, entries, through, fields, inline, |entries|) &&
        multiset(inline) <= multiset(c.nestedChildren) &&
        (UniqueKeys(entries) ==> StoredPlain(c, fields))
    }

    /**
     * With distinct keys, as in a Python dict, every scalar entry of the
     * through item is a field of its through instance, with its own value.
     */
    lemma ThroughEntryStored(c: Descriptor, d: Descriptor, entries: Entries, throughKey: string, through: ModelRef,
                             source: Value, target: Value, j: nat)
      requires IsThroughChild(c, d, entries, throughKey, through, source, target)
      requires UniqueKeys(entries) && j < |entries| && IsPlainEntry(entries[j])
      ensures Get(c.fields, entries[j].0) == Some(entries[j].1)
    {
      var fields: Entries, inline: seq<Descriptor> :| ThroughRewrite(throughKey, entries, through, fields, inline, |entries|) &&
                            multiset(inline) <= multiset(c.nestedChildren) &&
                            (UniqueKeys(entries) ==> StoredPlain(c, fields));
      assert fields[j] == entries[j];
    }

    /** The related model of the through model's field `e.0`, when `e` gives a mapping for it. */
    function ThroughRelation(through: ModelRef, e: (Value, Value)): Option<ModelRef> {
      if e.1.Dict? && e.0.Str? then
        var m := GetField(schema, through, e.0.s);
        if m.Some? && m.value.relatedModel.Some? then m.value.relatedModel else None
      else None
    }

    /** `c` is the object the inline rewrite makes of the entry `e` of the through item keyed `throughKey`. */
    predicate IsRewriteOf(c: Descriptor, throughKey: string, e: (Value, Value), through: ModelRef)
      reads config
    {
      ThroughRelation(through, e).Some? &&
      IsInlineObject(c, e.1.entries, ThroughRelation(through, e).value, throughKey + "_" + e.0.s, config.referenceKey)
    }

    /**
     * `fields` are the through item `entries` after the inline rewrite of
     * their first `upTo` entries: the same keys in the same order; each
     * entry is unchanged, or holds the identity of the object among `inline`
     * made of it (possible only for a mapping given for a relation of the
     * through model); every object in `inline` was made of an entry.
     */
    ghost predicate ThroughRewrite(throughKey: string, entries: Entries, through: ModelRef, fields: Entries,
                                   inline: seq<Descriptor>, upTo: nat)
      reads config
    {
      upTo <= |entries| && SameKeys(fields, entries) &&
      (forall j :: upTo <= j < |entries| ==> fields[j] == entries[j]) &&
      (forall j :: 0 <= j < upTo ==> fields[j] == entries[j] || RewrittenAt(throughKey, entries, through, fields, inline, j)) &&
      (forall c :: c in inline ==> MadeOfEntry(c, throughKey, entries, through, fields, upTo))
    }

    /** `c` was made of one of the first `upTo` entries, which now holds its identity. */
    ghost predicate MadeOfEntry(c: Descriptor, throughKey: string, entries: Entries, through: ModelRef, fields: Entries, upTo: nat)
      reads config
    {
      exists j :: 0 <= j < upTo && j < |entries| && j < |fields| &&
                  fields[j].1 == Str(c.identity) && IsRewriteOf(c, throughKey, entries[j], through)
    }

    /** `cs` are the descriptors `_process_model` makes of one collection. */
    predicate CollectionBuilt(cs: seq<Descriptor>, app: string, collection: string, objects: seq<Value>)
      reads config
    {
      ResolveModel(config, schema, app, collection).Ok? &&
      ListItems(cs, app, collection, ResolveModel(config, schema, app, collection).value, objects,
                config.referenceKey, Lower(collection) + "_", None)
    }

    /**
     * `cs` are the descriptors of the first `upTo` collections of `app`,
     * collection after collection.
     */
    predicate AppBuiltUpTo(cs: seq<Descriptor>, app: string, collections: Entries, upTo: nat)
      requires upTo <= |collections|
      reads config
    {
      |cs| == CollectionsCount(collections[..upTo]) &&
      forall j :: 0 <= j < upTo ==> CollectionAt(cs, app, collections, j)
    }

    /** The descriptors of collection `j` start in `cs` where the objects of the collections before it end. */
    predicate CollectionAt(cs: seq<Descriptor>, app: string, collections: Entries, j: nat)
      requires j < |collections|
      reads config
    {
      var lo := CollectionsCount(collections[..j]);
      collections[j].0.Str? && collections[j].1.List? && lo + |collections[j].1.items| <= |cs| &&
      CollectionBuilt(cs[lo..lo + |collections[j].1.items|], app, collections[j].0.s, collections[j].1.items)
    }

    /** `cs` are the descriptors of the first `upTo` apps of `data`, app after app. */
    predicate BuiltUpTo(cs: seq<Descriptor>, data: Entries, upTo: nat)
      requires upTo <= |data|
      reads config
    {
      |cs| == ObjectCount(data[..upTo]) &&
      forall i :: 0 <= i < upTo ==> AppAt(cs, data, i)
    }

    /** The descriptors of app `i` start in `cs` where the objects of the apps before it end. */
    predicate AppAt(cs: seq<Descriptor>, data: Entries, i: nat)
      requires i < |data|
      reads config
    {
      var lo := ObjectCount(data[..i]);
      data[i].0.Str? && data[i].1.Dict? && lo + CollectionsCount(data[i].1.entries) <= |cs| &&
      AppBuiltUpTo(cs[lo..lo + CollectionsCount(data[i].1.entries)], data[i].0.s, data[i].1.entries, |data[i].1.entries|)
    }

    /** The descriptors of one more collection come next. */
    lemma AppBuiltAppend(cs: seq<Descriptor>, ds: seq<Descriptor>, app: string, collections: Entries, j: nat)
      requires j < |collections| && CollectionOk(collections[j])
      requires AppBuiltUpTo(cs, app, collections, j)
      requires CollectionBuilt(ds, app, collections[j].0.s, collections[j].1.items)
      ensures AppBuiltUpTo(cs + ds, app, collections, j + 1)
    {
      assert collections[..j + 1][..j] == collections[..j];
      forall j' | 0 <= j' < j
        ensures CollectionAt(cs + ds, app, collections, j')
      {
        assert CollectionAt(cs, app, collections, j');
        var lo := CollectionsCount(collections[..j']);
        SliceOfAppend(cs, ds, lo, lo + |collections[j'].1.items|);
      }
      assert (cs + ds)[|cs|..|cs| + |ds|] == ds;
    }

    /** The descriptors of one more app come next. */
    lemma BuiltAppend(cs: seq<Descriptor>, ds: seq<Descriptor>, data: Entries, i: nat)
      requires i < |data| && AppOk(data[i])
      requires BuiltUpTo(cs, data, i)
      requires AppBuiltUpTo(ds, data[i].0.s, data[i].1.entries, |data[i].1.entries|)
      ensures BuiltUpTo(cs + ds, data, i + 1)
    {
      assert data[..i + 1][..i] == data[..i];
      assert data[i].1.entries[..|data[i].1.entries|] == data[i].1.entries;
      forall i' | 0 <= i' < i
        ensures AppAt(cs + ds, data, i')
      {
        assert AppAt(cs, data, i');
        var lo := ObjectCount(data[..i']);
        SliceOfAppend(cs, ds, lo, lo + CollectionsCount(data[i'].1.entries));
      }
      assert (cs + ds)[|cs|..|cs| + |ds|] == ds;
    }

    /**
     * `build_descriptors`: the top-level descriptors of every collection of
     * every app, in document order.
     */
    method BuildDescriptors(data: Entries) returns (r: Result<seq<Descriptor>, SeedError>)
      requires WellFormedSchema(schema)
      requires WellShaped(data)
      ensures r.Ok? ==> BuiltUpTo(r.value, data, |data|) && |r.value| == ObjectCount(data)
      ensures r.Ok? ==> forall c :: c in r.value ==> IsRootDescriptor(c, config.referenceKey)
    {
      var all: seq<Descriptor> := [];
      for i := 0 to |data|
        invariant BuiltUpTo(all, data, i)
        invariant forall c :: c in all ==> IsRootDescriptor(c, config.referenceKey)
      {
        assert AppOk(data[i]);
        var ds :- BuildApp(data[i].0.s, data[i].1.entries);
        BuiltAppend(all, ds, data, i);
        all := all + ds;
      }
      assert data[..|data|] == data;
      return Ok(all);
    }

    /** The inner loop of `build_descriptors`: every collection of one app, in order. */
    method BuildApp(app: string, collections: Entries) returns (r: Result<seq<Descriptor>, SeedError>)
      requires WellFormedSchema(schema)
      requires forall j :: 0 <= j < |collections| ==> CollectionOk(collections[j])
      ensures r.Ok? ==> AppBuiltUpTo(r.value, app, collections, |collections|)
      ensures r.Ok? ==> forall c :: c in r.value ==> IsRootDescriptor(c, config.referenceKey)
    {
      var all: seq<Descriptor> := [];
      for j := 0 to |collections|
        invariant AppBuiltUpTo(all, app, collections, j)
        invariant forall c :: c in all ==> IsRootDescriptor(c, config.referenceKey)
      {
        assert CollectionOk(collections[j]);
        var ds :- BuildCollection(app, collections[j].0.s, collections[j].1.items);
        AppBuiltAppend(all, ds, app, collections, j);
        all := all + ds;
      }
      return Ok(all);
    }

    /** One step of that loop: `_process_model`, whose descriptors are all top-level. */
    method BuildCollection(app: string, collection: string, objects: seq<Value>) returns (r: Result<seq<Descriptor>, SeedError>)
      requires WellFormedSchema(schema)
      ensures r.Ok? ==> CollectionBuilt(r.value, app, collection, objects)
      ensures r.Ok? ==> forall c :: c in r.value ==> IsRootDescriptor(c, config.referenceKey)
    {
      var ds :- ProcessModel(app, collection, objects);
      assert forall k :: 0 <= k < |ds| ==> IsRootDescriptor(ds[k], config.referenceKey);
      return Ok(ds);
    }

    /**
     * `_process_model`: the model is resolved first; each object takes its
     * reference key as its key, or `<model in lower case>_<n>` where n counts
     * the objects without one.
     */
    method ProcessModel(app: string, collection: string, objects: seq<Value>) returns (r: Result<seq<Descriptor>, SeedError>)
      requires WellFormedSchema(schema)
      ensures ResolveModel(config, schema, app, collection).Err? ==> r == Err(ResolveModel(config, schema, app, collection).error)
      ensures r.Ok? ==> ResolveModel(config, schema, app, collection).Ok? &&
                        ListItems(r.value, app, collection, ResolveModel(config, schema, app, collection).value, objects,
                                  config.referenceKey, Lower(collection) + "_", None)
    {
      var model :- ResolveModel(config, schema, app, collection);
      r := ProcessObjectList(app, collection, model, objects, Lower(collection) + "_", None);
    }

    /**
     * The loop shared by `_process_model` and `_process_nested_list_field`:
     * every item must be a mapping, and the counter behind the automatic keys
     * moves only past items without an explicit key.
     */
    method ProcessObjectList(app: string, collection: string, model: ModelRef, objects: seq<Value>, prefix: string,
                             parentFieldName: Option<string>) returns (r: Result<seq<Descriptor>, SeedError>)
      requires WellFormedSchema(schema)
      ensures r.Ok? ==> ListItems(r.value, app, collection, model, objects, config.referenceKey, prefix, parentFieldName)
      decreases Size(List(objects)), 0
    {
      var refKey := config.referenceKey;
      var descriptors: seq<Descriptor> := [];
      var counter := 0;
      for i := 0 to |objects|
        invariant counter == AutoCount(objects[..i], refKey)
        invariant ListItemsUpTo(descriptors, app, collection, model, objects, i, refKey, prefix, parentFieldName)
      {
        var item := objects[i];
        if !item.Dict? {
          return Err(NotAMapping(item));
        }
        ItemSizeBelow(objects, i);
        var c :- ProcessListItem(app, collection, model, item, refKey, prefix + NatToString(counter), parentFieldName);
        ListItemsAppend(descriptors, c, app, collection, model, objects, i, refKey, prefix, parentFieldName);
        AutoCountStep(objects, i, refKey);
        if !c.hasExplicitRef {
          counter := counter + 1;
        }
        descriptors := descriptors + [c];
      }
      return Ok(descriptors);
    }

    /**
     * One object of a list (`_process_model`, `_process_nested_list_field`):
     * its key is the reference key's value or `auto`, and its remaining
     * fields are processed.
     */
    method ProcessListItem(app: string, collection: string, model: ModelRef, item: Value, refKey: string, auto: string,
                           parentFieldName: Option<string>) returns (r: Result<Descriptor, SeedError>)
      requires WellFormedSchema(schema)
      requires item.Dict?
      ensures r.Ok? ==> IsListItem(r.value, app, collection, model, item, refKey, auto, parentFieldName)
      decreases Size(item), 1
    {
      var (objectKey, fieldsData, explicit) := ChooseKey(item.entries, refKey, Str(auto));
      var d := NewDescriptor(Dotted(app, collection, Display(objectKey)), app, collection, objectKey, model,
                             parentFieldName, explicit);
      r := ProcessObjectFields(d, fieldsData);
      if r.Ok? {
        NewHoldsEntries(d, r.value, fieldsData);
      }
    }

    /**
     * `_process_object_fields`: each entry in order; the entries that are
     * not relations are stored in `fields` as they are.
     */
    method ProcessObjectFields(d: Descriptor, data: Entries) returns (r: Result<Descriptor, SeedError>)
      requires WellFormedSchema(schema)
      ensures r.Ok? ==> ChangedOnlyAt(d, r.value, Keys(data))
      ensures r.Ok? && UniqueKeys(data) ==>
                forall i :: 0 <= i < |data| && IsPlainEntry(data[i]) ==> Get(r.value.fields, data[i].0) == Some(data[i].1)
      decreases Size(Dict(data)), 0
    {
      var cur := d;
      ghost var seen: set<Value> := {};
      for i := 0 to |data|
        invariant ChangedOnlyAt(d, cur, seen)
        invariant seen <= Keys(data)
        invariant UniqueKeys(data) ==>
                    forall j :: 0 <= j < i && IsPlainEntry(data[j]) ==> Get(cur.fields, data[j].0) == Some(data[j].1)
      {
        var (k, v) := data[i];
        EntrySizeBelow(data, i);
        var next :- ProcessField(cur, k, v);
        ChangedOnlyAtTrans(d, cur, next, seen, k);
        PlainEntriesKept(data, i, cur, next);
        cur, seen := next, seen + {k};
      }
      return Ok(cur);
    }

    /** One entry of `_process_object_fields`, chosen by its value's shape. */
    method ProcessField(d: Descriptor, k: Value, v: Value) returns (r: Result<Descriptor, SeedError>)
      requires WellFormedSchema(schema)
      ensures r.Ok? ==> ChangedOnlyAt(d, r.value, {k})
      ensures IsPlainEntry((k, v)) ==> r == Ok(d.(fields := Put(d.fields, k, v)))
      decreases Size(v), 6
    {
      if !k.Str? || !(v.Dict? || v.List?) {
        return Ok(d.(fields := Put(d.fields, k, v)));
      }
      if v.Dict? {
        r := ProcessMappingField(d, k.s, v.entries);
      } else {
        r := ProcessListField(d, k.s, v.items);
      }
    }

    /** `detect_nested_relationship(model, name)` */
    function DetectedRelation(model: ModelRef, name: string): (r: Option<NestedRelationConfig>)
      requires WellFormedSchema(schema)
      ensures r.Some? ==> r.value.nestedKey == name
    {
      NestedRelation(GetFields(schema, model), name)
    }

    /** `get_nested_config(model, name)` */
    function ConfiguredRelation(model: ModelRef, name: string): (r: Option<NestedRelationConfig>)
      reads config
    {
      FirstWithKey(config.GetAllNestedConfigs(model.app, model.name), name)
    }

    /** `detect_relationship_type` answers "foreign_key" or "one_to_one". */
    predicate IsForwardRelation(model: ModelRef, name: string) {
      var t := DetectRelationshipType(schema, model, name);
      t == Some("foreign_key") || t == Some("one_to_one")
    }

    /** A list holding a reference string or a mapping, which `_process_object_fields` treats as many-to-many. */
    predicate HasM2MItems(items: seq<Value>) {
      exists i :: 0 <= i < |items| && (IsRefItem(items[i]) || items[i].Dict?)
    }

    /**
     * A mapping value: a nested relation found on the model, else one
     * configured, else a forward relation, else a plain value.
     */
    method ProcessMappingField(d: Descriptor, name: string, data: Entries) returns (r: Result<Descriptor, SeedError>)
      requires WellFormedSchema(schema)
      ensures r.Ok? ==> ChangedOnlyAt(d, r.value, {Str(name)})
      ensures var nested := DetectedRelation(d.model, name);
              r.Ok? && nested.Some? ==> NestedFieldOutcome(d, name, data, nested.value, r.value)
      ensures var configured := ConfiguredRelation(d.model, name);
              r.Ok? && DetectedRelation(d.model, name).None? && configured.Some? ==>
                NestedFieldOutcome(d, name, data, configured.value, r.value)
      ensures (DetectedRelation(d.model, name).None? && ConfiguredRelation(d.model, name).None? &&
               IsForwardRelation(d.model, name)) ==> ForwardFKOutcome(d, name, data, r)
      ensures (DetectedRelation(d.model, name).None? && ConfiguredRelation(d.model, name).None? &&
               !IsForwardRelation(d.model, name)) ==> r == Ok(d.(fields := Put(d.fields, Str(name), Dict(data))))
      decreases Size(Dict(data)), 4
    {
      var nested := DetectNestedRelationship(schema, d.model, name);
      if nested.Some? {
        r := ProcessNestedField(d, name, data, nested.value);
        if r.Ok? {
          AppendedChildren(d, r.value, {Str(name)});
        }
        return;
      }
      var configured := Resolver.GetNestedConfig(config, d.model, name);
      if configured.Some? {
        r := ProcessNestedField(d, name, data, configured.value);
        if r.Ok? {
          AppendedChildren(d, r.value, {Str(name)});
        }
        return;
      }
      var relation := DetectRelationshipType(schema, d.model, name);
      assert IsForwardRelation(d.model, name) <==> relation == Some("foreign_key") || relation == Some("one_to_one");
      if relation == Some("foreign_key") || relation == Some("one_to_one") {
        r := ProcessNestedForwardFK(d, name, data);
        return;
      }
      return Ok(d.(fields := Put(d.fields, Str(name), Dict(data))));
    }

    /**
     * A list value: a nested collection found on the model, else a
     * many-to-many list if it holds a reference or a mapping, else a plain value.
     */
    method ProcessListField(d: Descriptor, name: string, items: seq<Value>) returns (r: Result<Descriptor, SeedError>)
      requires WellFormedSchema(schema)
      ensures r.Ok? ==> ChangedOnlyAt(d, r.value, {Str(name)})
      ensures var nested := DetectedRelation(d.model, name);
              r.Ok? && nested.Some? && nested.value.relationType == ForeignKeyRelation ==>
                NestedListOutcome(d, name, items, nested.value, r.value)
      ensures var nested := DetectedRelation(d.model, name);
              !(nested.Some? && nested.value.relationType == ForeignKeyRelation) && HasM2MItems(items) ==>
                M2MFieldOutcome(d, name, items, r)
      ensures var nested := DetectedRelation(d.model, name);
              !(nested.Some? && nested.value.relationType == ForeignKeyRelation) && !HasM2MItems(items) ==>
                r == Ok(d.(fields := Put(d.fields, Str(name), List(items))))
      decreases Size(List(items)), 5
    {
      var nested := DetectNestedRelationship(schema, d.model, name);
      if nested.Some? && nested.value.relationType == ForeignKeyRelation {
        r := ProcessNestedListField(d, name, items, nested.value);
        if r.Ok? {
          AppendedChildren(d, r.value, {Str(name)});
        }
        return;
      }
      var hasReferences := exists i :: 0 <= i < |items| && IsRefItem(items[i]);
      var hasDicts := exists i :: 0 <= i < |items| && items[i].Dict?;
      assert HasM2MItems(items) <==> hasReferences || hasDicts;
      if hasReferences || hasDicts {
        r := ProcessM2MField(d, name, items);
        return;
      }
      return Ok(d.(fields := Put(d.fields, Str(name), List(items))));
    }

    /**
     * What `_process_nested_field` makes of `data` for the relation `cfg`:
     * the children are appended and nothing else changes; a one-to-one
     * relation adds one child, a foreign-key relation one per entry.
     */
    ghost predicate NestedFieldOutcome(parent: Descriptor, key: string, data: Entries, cfg: NestedRelationConfig, v: Descriptor)
      reads config
    {
      v == parent.(nestedChildren := v.nestedChildren) &&
      |v.nestedChildren| >= |parent.nestedChildren| && v.nestedChildren[..|parent.nestedChildren|] == parent.nestedChildren &&
      (cfg.relationType == OneToOneRelation ==>
         |v.nestedChildren| == |parent.nestedChildren| + 1 &&
         IsOneToOneChild(v.nestedChildren[|parent.nestedChildren|], parent, key, data, cfg)) &&
      (cfg.relationType == ForeignKeyRelation ==>
         |v.nestedChildren| == |parent.nestedChildren| + |data| &&
         forall j :: 0 <= j < |data| ==> IsCollectionChild(v.nestedChildren[|parent.nestedChildren| + j], data[j], cfg))
    }

    /** `_process_nested_field`: a nested one-to-one object, or a mapping of nested objects keyed by their keys. */
    method ProcessNestedField(parent: Descriptor, key: string, data: Entries, cfg: NestedRelationConfig)
      returns (r: Result<Descriptor, SeedError>)
      requires WellFormedSchema(schema)
      ensures r.Ok? ==> NestedFieldOutcome(parent, key, data, cfg, r.value)
      decreases Size(Dict(data)), 3
    {
      match cfg.relationType
      case OneToOneRelation =>
        var child :- CreateNestedOneToOne(parent, key, data, cfg);
        r := Ok(parent.(nestedChildren := parent.nestedChildren + [child]));
      case ForeignKeyRelation =>
        var children :- CreateNestedForeignKeyCollection(parent, key, data, cfg);
        r := Ok(parent.(nestedChildren := parent.nestedChildren + children));
    }

    /** The target model of a nested relation, from its `app.Model` path. */
    predicate TargetsModel(c: Descriptor, cfg: NestedRelationConfig)
      reads config
    {
      var parts := Split(cfg.targetModel, '.');
      |parts| == 2 && c.appLabel == parts[0] && c.collectionName == parts[1] &&
      ResolveModel(config, schema, parts[0], parts[1]) == Ok(c.model)
    }

    /**
     * The nested one-to-one object made of `data`: named after its parent
     * and key, linked back through the reverse field, and holding `data`.
     */
    predicate IsOneToOneChild(c: Descriptor, parent: Descriptor, key: string, data: Entries, cfg: NestedRelationConfig)
      reads config
    {
      TargetsModel(c, cfg) &&
      c.identity == parent.identity + "." + key && c.objectKey == Str(key) &&
      c.parentFieldName == Some(cfg.reverseFieldName) && !c.hasExplicitRef &&
      HoldsEntries(c, data)
    }

    /**
     * The object a nested collection written as a mapping makes of its entry
     * `e`: keyed by the entry's key and holding the entry's mapping.
     */
    predicate IsCollectionChild(c: Descriptor, e: (Value, Value), cfg: NestedRelationConfig)
      reads config
    {
      e.1.Dict? && TargetsModel(c, cfg) &&
      c.identity == Dotted(c.appLabel, c.collectionName, Display(e.0)) && c.objectKey == e.0 &&
      c.parentFieldName == Some(cfg.reverseFieldName) && !c.hasExplicitRef &&
      HoldsEntries(c, e.1.entries)
    }

    /** `_create_nested_one_to_one` */
    method CreateNestedOneToOne(parent: Descriptor, key: string, data: Entries, cfg: NestedRelationConfig)
      returns (r: Result<Descriptor, SeedError>)
      requires WellFormedSchema(schema)
      ensures |Split(cfg.targetModel, '.')| != 2 ==> r == Err(MalformedTargetModel(cfg.targetModel))
      ensures r.Ok? ==> IsOneToOneChild(r.value, parent, key, data, cfg)
      decreases Size(Dict(data)), 2
    {
      var parts := Split(cfg.targetModel, '.');
      if |parts| != 2 {
        return Err(MalformedTargetModel(cfg.targetModel));
      }
      var model :- ResolveModel(config, schema, parts[0], parts[1]);
      var child := NewDescriptor(parent.identity + "." + key, parts[0], parts[1], Str(key), model,
                                 Some(cfg.reverseFieldName), false);
      r := ProcessObjectFields(child, data);
      if r.Ok? {
        NewHoldsEntries(child, r.value, data);
      }
    }

    /** `_create_nested_foreign_key_collection`: one child per entry, keyed by the entry's key. */
    method CreateNestedForeignKeyCollection(parent: Descriptor, key: string, data: Entries, cfg: NestedRelationConfig)
      returns (r: Result<seq<Descriptor>, SeedError>)
      requires WellFormedSchema(schema)
      ensures |Split(cfg.targetModel, '.')| != 2 ==> r == Err(MalformedTargetModel(cfg.targetModel))
      ensures r.Ok? ==> |r.value| == |data| &&
                        forall j :: 0 <= j < |data| ==> IsCollectionChild(r.value[j], data[j], cfg)
      decreases Size(Dict(data)), 2
    {
      var parts := Split(cfg.targetModel, '.');
      if |parts| != 2 {
        return Err(MalformedTargetModel(cfg.targetModel));
      }
      var model :- ResolveModel(config, schema, parts[0], parts[1]);
      var children: seq<Descriptor> := [];
      for i := 0 to |data|
        invariant |children| == i
        invariant forall j :: 0 <= j < i ==> IsCollectionChild(children[j], data[j], cfg)
      {
        var (objectKey, fieldsData) := data[i];
        if !fieldsData.Dict? {
          return Err(NotAMapping(fieldsData));
        }
        EntrySizeBelow(data, i);
        var child := NewDescriptor(Dotted(parts[0], parts[1], Display(objectKey)), parts[0], parts[1], objectKey, model,
                                   Some(cfg.reverseFieldName), false);
        var c :- ProcessObjectFields(child, fieldsData.entries);
        NewHoldsEntries(child, c, fieldsData.entries);
        children := children + [c];
      }
      return Ok(children);
    }

    /**
     * What `_process_nested_list_field` makes of `items`: the descriptors
     * of the items, keyed by `$ref` or `<parent key>_<field>_<n>`, are
     * appended to the children and nothing else changes.
     */
    ghost predicate NestedListOutcome(parent: Descriptor, key: string, items: seq<Value>, cfg: NestedRelationConfig, v: Descriptor)
      reads config
    {
      v == parent.(nestedChildren := v.nestedChildren) &&
      |v.nestedChildren| >= |parent.nestedChildren| &&
      v.nestedChildren[..|parent.nestedChildren|] == parent.nestedChildren &&
      var parts := Split(cfg.targetModel, '.');
      |parts| == 2 && ResolveModel(config, schema, parts[0], parts[1]).Ok? &&
      ListItems(v.nestedChildren[|parent.nestedChildren|..], parts[0], parts[1],
                ResolveModel(config, schema, parts[0], parts[1]).value, items, config.referenceKey,
                Display(parent.objectKey) + "_" + key + "_", Some(cfg.reverseFieldName))
    }

    /**
     * `_process_nested_list_field`: a nested collection written as a list;
     * keys are explicit, or `<parent key>_<field>_<n>`.
     */
    method ProcessNestedListField(parent: Descriptor, key: string, items: seq<Value>, cfg: NestedRelationConfig)
      returns (r: Result<Descriptor, SeedError>)
      requires WellFormedSchema(schema)
      ensures |Split(cfg.targetModel, '.')| != 2 ==> r == Err(MalformedTargetModel(cfg.targetModel))
      ensures r.Ok? ==> NestedListOutcome(parent, key, items, cfg, r.value)
      decreases Size(List(items)), 1
    {
      var parts := Split(cfg.targetModel, '.');
      if |parts| != 2 {
        return Err(MalformedTargetModel(cfg.targetModel));
      }
      var model :- ResolveModel(config, schema, parts[0], parts[1]);
      var children :- ProcessObjectList(parts[0], parts[1], model, items, Display(parent.objectKey) + "_" + key + "_",
                                        Some(cfg.reverseFieldName));
      assert (parent.nestedChildren + children)[|parent.nestedChildren|..] == children;
      return Ok(parent.(nestedChildren := parent.nestedChildren + children));
    }

    /**
     * What `_process_nested_forward_fk` makes of `data`: without a related
     * model the mapping is stored as it is; otherwise an object of the
     * related model is put first among the children and the field holds
     * its identity.
     */
    ghost predicate ForwardFKOutcome(parent: Descriptor, fieldName: string, data: Entries, r: Result<Descriptor, SeedError>)
      reads config
    {
      var m := GetField(schema, parent.model, fieldName);
      (m.None? || m.value.relatedModel.None? ==> r == Ok(parent.(fields := Put(parent.fields, Str(fieldName), Dict(data))))) &&
      (r.Ok? && m.Some? && m.value.relatedModel.Some? ==>
         r.value.m2mFields == parent.m2mFields && r.value.m2mInline == parent.m2mInline &&
         |r.value.nestedChildren| == |parent.nestedChildren| + 1 &&
         r.value.nestedChildren[1..] == parent.nestedChildren &&
         var c := r.value.nestedChildren[0];
         c.model == m.value.relatedModel.value && c.parentFieldName.None? &&
         c.appLabel == c.model.app && c.collectionName == c.model.name &&
         Get(r.value.fields, Str(fieldName)) == Some(Str(c.identity)) &&
         c.identity == Dotted(c.model.app, c.model.name, Display(c.objectKey)) &&
         (c.hasExplicitRef <==> Str(config.referenceKey) in Keys(data)) &&
         (c.hasExplicitRef ==> Get(data, Str(config.referenceKey)) == Some(c.objectKey)) &&
         (!c.hasExplicitRef ==> c.objectKey == Str(Display(parent.objectKey) + "_" + fieldName)) &&
         HoldsEntries(c, if c.hasExplicitRef then Remove(data, Str(config.referenceKey)) else data))
    }

    /**
     * `_process_nested_forward_fk`: the mapping becomes an object of the
     * related model, created first (it is put at the front of the children),
     * and the field holds its identity.
     */
    method ProcessNestedForwardFK(parent: Descriptor, fieldName: string, data: Entries) returns (r: Result<Descriptor, SeedError>)
      requires WellFormedSchema(schema)
      ensures r.Ok? ==> ChangedOnlyAt(parent, r.value, {Str(fieldName)})
      ensures ForwardFKOutcome(parent, fieldName, data, r)
      decreases Size(Dict(data)), 1
    {
      var m := GetField(schema, parent.model, fieldName);
      if m.None? || m.value.relatedModel.None? {
        return Ok(parent.(fields := Put(parent.fields, Str(fieldName), Dict(data))));
      }
      var target := m.value.relatedModel.value;
      var refKey := config.referenceKey;
      var (objectKey, fieldsData, explicit) := ChooseKey(data, refKey, Str(Display(parent.objectKey) + "_" + fieldName));
      var identity := Dotted(target.app, target.name, Display(objectKey));
      var nd := NewDescriptor(identity, target.app, target.name, objectKey, target, None, explicit);
      var child :- ProcessObjectFields(nd, fieldsData);
      NewHoldsEntries(nd, child, fieldsData);
      r := Ok(parent.(fields := Put(parent.fields, Str(fieldName), Str(identity)),
                      nestedChildren := [child] + parent.nestedChildren));
    }

    /**
     * What `_process_m2m_field` makes of a list: a field that is not
     * many-to-many keeps it as a plain value; otherwise the standard or the
     * through outcome, as the through model was created by Django or not.
     */
    ghost predicate M2MFieldOutcome(d: Descriptor, fieldName: string, items: seq<Value>, r: Result<Descriptor, SeedError>)
      reads config
    {
      var m := GetField(schema, d.model, fieldName);
      (!IsManyToManyMember(m) ==> r == Ok(d.(fields := Put(d.fields, Str(fieldName), List(items))))) &&
      (r.Ok? && IsManyToManyMember(m) && m.value.kind.throughAutoCreated ==>
         StandardM2MOutcome(d, fieldName, items, m.value.relatedModel.value, r.value)) &&
      (r.Ok? && IsManyToManyMember(m) && !m.value.kind.throughAutoCreated ==>
         ThroughM2MOutcome(d, fieldName, items, m.value.kind.through,
                           LastPointing(GetFields(schema, m.value.kind.through), d.model),
                           if m.value.relatedModel.value == d.model then Null
                           else LastPointing(GetFields(schema, m.value.kind.through), m.value.relatedModel.value),
                           r.value))
    }

    /**
     * `_process_m2m_field`: a list for a many-to-many field. Reference
     * strings are kept; mappings become inline objects whose identities are
     * added to the references; other items are dropped. A field with a
     * custom through model goes to `ProcessM2MThroughField`.
     */
    method ProcessM2MField(d: Descriptor, fieldName: string, items: seq<Value>) returns (r: Result<Descriptor, SeedError>)
      requires WellFormedSchema(schema)
      ensures r.Ok? ==> ChangedOnlyAt(d, r.value, {Str(fieldName)})
      ensures M2MFieldOutcome(d, fieldName, items, r)
      decreases Size(List(items)), 4
    {
      var m := GetField(schema, d.model, fieldName);
      if !IsManyToManyMember(m) {
        return Ok(d.(fields := Put(d.fields, Str(fieldName), List(items))));
      }
      var target := m.value.relatedModel.value;
      if !m.value.kind.throughAutoCreated {
        r := ProcessM2MThroughField(d, fieldName, items, m.value.kind.through, target);
        if r.Ok? {
          ThroughChangesOnlyInline(d, fieldName, items, m.value.kind.through,
                                   LastPointing(GetFields(schema, m.value.kind.through), d.model),
                                   if target == d.model then Null else LastPointing(GetFields(schema, m.value.kind.through), target),
                                   r.value);
        }
        return;
      }
      r := ProcessStandardM2M(d, fieldName, items, target);
      if r.Ok? {
        StandardChangesOnlyField(d, fieldName, items, target, r.value);
      }
    }

    /**
     * The standard many-to-many path of `_process_m2m_field`: reference
     * strings are kept, other strings are dropped, each mapping becomes an
     * object of the related model whose identity joins the references.
     */
    method ProcessStandardM2M(d: Descriptor, fieldName: string, items: seq<Value>, target: ModelRef)
      returns (r: Result<Descriptor, SeedError>)
      requires WellFormedSchema(schema)
      ensures r.Ok? ==> StandardM2MOutcome(d, fieldName, items, target, r.value)
      decreases Size(List(items)), 2
    {
      var collected :- StandardM2MItems(d, fieldName, items, target);
      var (refs, inline) := collected;
      assert items[..|items|] == items;
      var res := d;
      if refs != [] {
        res := res.(m2mFields := Put(res.m2mFields, Str(fieldName), refs));
      }
      if inline != [] {
        res := res.(m2mInline := PutGroup(res.m2mInline, Str(fieldName), inline));
      }
      return Ok(res);
    }

    /** The loop of that path: the identities kept, in order, and the inline objects made. */
    method StandardM2MItems(d: Descriptor, fieldName: string, items: seq<Value>, target: ModelRef)
      returns (r: Result<(seq<string>, seq<Descriptor>), SeedError>)
      requires WellFormedSchema(schema)
      ensures r.Ok? ==> r.value.0 == StandardRefs(d.objectKey, fieldName, items, target)
      ensures r.Ok? ==> InlineObjectsUpTo(r.value.1, d.objectKey, fieldName, items, target, |items|)
      decreases Size(List(items)), 1
    {
      var refs: seq<string> := [];
      var inline: seq<Descriptor> := [];
      for i := 0 to |items|
        invariant refs == StandardRefs(d.objectKey, fieldName, items[..i], target)
        invariant InlineObjectsUpTo(inline, d.objectKey, fieldName, items, target, i)
      {
        assert items[..i + 1][..i] == items[..i];
        var item := items[i];
        if IsRefItem(item) {
          refs := refs + [item.s];
        } else if item.Dict? {
          ItemSizeBelow(items, i);
          var c :- ProcessM2MInlineObject(item.entries, target, M2MKey(d.objectKey, fieldName, |inline|));
          assert forall j :: 0 <= j < |inline| ==> (inline + [c])[j] == inline[j];
          inline := inline + [c];
          refs := refs + [c.identity];
        }
      }
      assert items[..|items|] == items;
      return Ok((refs, inline));
    }

    /**
     * A mapping item of a standard many-to-many list: an object of the
     * related model keyed by `key`, whose fields are processed as usual; no
     * reference key is taken out of it.
     */
    method ProcessM2MInlineObject(data: Entries, model: ModelRef, key: string) returns (r: Result<Descriptor, SeedError>)
      requires WellFormedSchema(schema)
      ensures r.Ok? ==> IsM2MInlineObject(r.value, data, model, key)
      decreases Size(Dict(data)), 1
    {
      var child := NewDescriptor(Dotted(model.app, model.name, key), model.app, model.name, Str(key), model, None, false);
      r := ProcessObjectFields(child, data);
      if r.Ok? {
        NewHoldsEntries(child, r.value, data);
      }
    }

    /**
     * `_process_m2m_through_field`: each mapping item becomes a through
     * instance holding the owner's identity and the names of the through
     * model's source and target fields; mapping values of the item that name
     * a relation of the through model become objects created before it (an
     * error in one of them leaves the value as it is). The instances are
     * keyed and grouped by the many-to-many field's own name; the code as
     * written uses the name its inner loop leaves bound (`ReboundName`).
     */
    method ProcessM2MThroughField(d: Descriptor, fieldName: string, items: seq<Value>, through: ModelRef, related: ModelRef)
      returns (r: Result<Descriptor, SeedError>)
      requires WellFormedSchema(schema)
      ensures r.Ok? ==> ThroughM2MOutcome(d, fieldName, items, through, LastPointing(GetFields(schema, through), d.model),
                                          if related == d.model then Null else LastPointing(GetFields(schema, through), related),
                                          r.value)
      decreases Size(List(items)), 3
    {
      var source, target := FindThroughSlots(GetFields(schema, through), d.model, related);
      var children :- ThroughChildren(d, fieldName, items, through, source, target);
      assert items[..|items|] == items;
      if children != [] {
        return Ok(d.(m2mInline := PutGroup(d.m2mInline, Str(fieldName), children)));
      }
      return Ok(d);
    }

    /** The loop of `_process_m2m_through_field`: the through instances of the mapping items, in order. */
    method ThroughChildren(d: Descriptor, fieldName: string, items: seq<Value>, through: ModelRef,
                           source: Value, target: Value)
      returns (r: Result<seq<Descriptor>, SeedError>)
      requires WellFormedSchema(schema)
      ensures r.Ok? ==> ThroughChildrenUpTo(r.value, d, fieldName, items, through, source, target, |items|)
      decreases Size(List(items)), 2
    {
      var children: seq<Descriptor> := [];
      for idx := 0 to |items|
        invariant ThroughChildrenUpTo(children, d, fieldName, items, through, source, target, idx)
      {
        if items[idx].Dict? {
          ItemSizeBelow(items, idx);
          var c :- ProcessThroughItem(d, items[idx].entries, M2MKey(d.objectKey, fieldName, idx), through, source, target);
          ThroughChildrenAppend(children, c, d, fieldName, items, through, source, target, idx);
          children := children + [c];
        } else {
          ThroughChildrenSkip(children, d, fieldName, items, through, source, target, idx);
        }
      }
      return Ok(children);
    }

    /** The through instance of the mapping `items[idx]` comes next. */
    lemma ThroughChildrenAppend(cs: seq<Descriptor>, c: Descriptor, d: Descriptor, fieldName: string, items: seq<Value>,
                                through: ModelRef, source: Value, target: Value, idx: nat)
      requires idx < |items| && items[idx].Dict?
      requires ThroughChildrenUpTo(cs, d, fieldName, items, through, source, target, idx)
      requires IsThroughChild(c, d, items[idx].entries, M2MKey(d.objectKey, fieldName, idx), through, source, target)
      ensures ThroughChildrenUpTo(cs + [c], d, fieldName, items, through, source, target, idx + 1)
    {
      assert items[..idx + 1][..idx] == items[..idx];
      assert forall j :: 0 <= j < |cs| ==> (cs + [c])[j] == cs[j];
    }

    /** An item that is not a mapping adds no through instance. */
    lemma ThroughChildrenSkip(cs: seq<Descriptor>, d: Descriptor, fieldName: string, items: seq<Value>,
                              through: ModelRef, source: Value, target: Value, idx: nat)
      requires idx < |items| && !items[idx].Dict?
      requires ThroughChildrenUpTo(cs, d, fieldName, items, through, source, target, idx)
      ensures ThroughChildrenUpTo(cs, d, fieldName, items, through, source, target, idx + 1)
    {
      assert items[..idx + 1][..idx] == items[..idx];
    }

    /**
     * One mapping item of a through list: a through instance keyed
     * `throughKey` whose fields start with the owner's identity and the
     * names of the source and target fields, followed by the item's entries
     * after the inline rewrite.
     */
    method ProcessThroughItem(d: Descriptor, entries: Entries, throughKey: string, through: ModelRef,
                              source: Value, target: Value) returns (r: Result<Descriptor, SeedError>)
      requires WellFormedSchema(schema)
      ensures r.Ok? ==> IsThroughChild(r.value, d, entries, throughKey, through, source, target)
      decreases Size(Dict(entries)), 2
    {
      var td := NewDescriptor(Dotted(through.app, through.name, throughKey), through.app, through.name,
                              Str(throughKey), through, None, false);
      var slots := MarkerSlots(d.identity, source, target);
      var throughFields, inline := InlineThroughRelations(throughKey, entries, through);
      SameKeysSameSet(throughFields, entries);
      var td' := td.(fields := slots, nestedChildren := inline);
      r := ProcessObjectFields(td', throughFields);
      if r.Ok? {
        ThroughChildMade(r.value, td', d, entries, throughKey, through, source, target, throughFields, inline);
      }
    }

    /** Processing entries with the keys of `entries` over the marker fields adds no other key. */
    lemma ThroughKeysOnly(td: Descriptor, c: Descriptor, fields: Entries, entries: Entries)
      requires td.m2mFields == [] && Keys(td.fields) == MarkerKeys() && Keys(fields) == Keys(entries)
      requires ChangedOnlyAt(td, c, Keys(fields))
      ensures Keys(c.fields) <= Keys(entries) + MarkerKeys() && Keys(c.m2mFields) <= Keys(entries)
    {
    }

    /** What processing the rewritten entries over the slotted through instance `td` gives. */
    lemma ThroughChildMade(c: Descriptor, td: Descriptor, d: Descriptor, entries: Entries, throughKey: string,
                           through: ModelRef, source: Value, target: Value, fields: Entries, inline: seq<Descriptor>)
      requires td == NewDescriptor(Dotted(through.app, through.name, throughKey), through.app, through.name,
                                   Str(throughKey), through, None, false).(fields := td.fields, nestedChildren := inline)
      requires Get(td.fields, Str(SourceIdentityField)) == Some(Str(d.identity))
      requires Get(td.fields, Str(SourceFieldField)) == Some(source)
      requires Get(td.fields, Str(TargetFieldField)) == Some(target)
      requires Keys(td.fields) == MarkerKeys()
      requires ThroughRewrite(throughKey, entries, through, fields, inline, |entries|) && Keys(fields) == Keys(entries)
      requires ChangedOnlyAt(td, c, Keys(fields))
      requires UniqueKeys(fields) ==> StoredPlain(c, fields)
      ensures IsThroughChild(c, d, entries, throughKey, through, source, target)
    {
      assert Str(SourceIdentityField) in Keys(td.fields);
      assert ThroughSlots(c, d, entries, source, target);
      ThroughKeysOnly(td, c, fields, entries);
      assert UniqueKeys(entries) ==> UniqueKeys(fields) by {
        assert SameKeys(fields, entries);
      }
      assert multiset(inline) <= multiset(c.nestedChildren);
      assert HoldsRewrite(c, entries, throughKey, through);
    }

    /**
     * The inner loop of `_process_m2m_through_field` over one item: a mapping
     * value whose key names a relation of the through model becomes an
     * object of the related model, put first among the instance's children,
     * and the entry being visited then holds its identity. When processing
     * that object fails the value stays as it is.
     */
    method InlineThroughRelations(throughKey: string, entries: Entries, through: ModelRef)
      returns (fields: Entries, inline: seq<Descriptor>)
      requires WellFormedSchema(schema)
      ensures ThroughRewrite(throughKey, entries, through, fields, inline, |entries|)
      ensures Size(Dict(fields)) <= Size(Dict(entries))
      decreases Size(Dict(entries)), 1
    {
      fields, inline := entries, [];
      for j := 0 to |entries|
        invariant ThroughRewrite(throughKey, entries, through, fields, inline, j)
        invariant Size(Dict(fields)) <= Size(Dict(entries))
      {
        var child;
        ghost var before := fields;
        fields, child := InlineThroughRelation(throughKey, entries, j, through, fields);
        RewriteNext(throughKey, entries, through, before, fields, inline, j, child);
        if child.Some? {
          inline := [child.value] + inline;
        }
      }
    }

    /** Entry `j` rewritten into the identity of `child`, or left as it is, extends the rewrite before it. */
    lemma RewriteNext(throughKey: string, entries: Entries, through: ModelRef, fields: Entries, fields': Entries,
                      inline: seq<Descriptor>, j: nat, child: Option<Descriptor>)
      requires ThroughRewrite(throughKey, entries, through, fields, inline, j) && j < |entries|
      requires child.None? ==> fields' == fields
      requires child.Some? ==> IsRewriteOf(child.value, throughKey, entries[j], through) &&
                               fields' == fields[j := (entries[j].0, Str(child.value.identity))]
      ensures ThroughRewrite(throughKey, entries, through, fields',
                             if child.Some? then [child.value] + inline else inline, j + 1)
    {
      if child.Some? {
        RewriteStep(throughKey, entries, through, fields, inline, j, child.value);
      } else {
        RewriteSkip(throughKey, entries, through, fields, inline, j);
      }
    }

    /** An entry left as it is extends the rewrite of the entries before it. */
    lemma RewriteSkip(throughKey: string, entries: Entries, through: ModelRef, fields: Entries,
                      inline: seq<Descriptor>, j: nat)
      requires ThroughRewrite(throughKey, entries, through, fields, inline, j) && j < |entries|
      ensures ThroughRewrite(throughKey, entries, through, fields, inline, j + 1)
    {
      forall c | c in inline
        ensures MadeOfEntry(c, throughKey, entries, through, fields, j + 1)
      {
        MadeOfEntryKept(c, throughKey, entries, through, fields, j, fields);
      }
    }

    /** The rewrite of entry `j` into the identity of `c` extends the rewrite of the entries before it. */
    lemma RewriteStep(throughKey: string, entries: Entries, through: ModelRef, fields: Entries,
                      inline: seq<Descriptor>, j: nat, c: Descriptor)
      requires ThroughRewrite(throughKey, entries, through, fields, inline, j) && j < |entries|
      requires IsRewriteOf(c, throughKey, entries[j], through)
      ensures ThroughRewrite(throughKey, entries, through, fields[j := (entries[j].0, Str(c.identity))], [c] + inline, j + 1)
    {
      RewrittenStep(throughKey, entries, through, fields, inline, j, c);
      MadeOfEntryStep(throughKey, entries, through, fields, inline, j, c);
    }

    lemma RewrittenStep(throughKey: string, entries: Entries, through: ModelRef, fields: Entries,
                        inline: seq<Descriptor>, j: nat, c: Descriptor)
      requires ThroughRewrite(throughKey, entries, through, fields, inline, j) && j < |entries|
      requires IsRewriteOf(c, throughKey, entries[j], through)
      ensures var fields' := fields[j := (entries[j].0, Str(c.identity))];
              forall j' :: 0 <= j' < j + 1 ==>
                fields'[j'] == entries[j'] || RewrittenAt(throughKey, entries, through, fields', [c] + inline, j')
    {
      var fields' := fields[j := (entries[j].0, Str(c.identity))];
      forall j' | 0 <= j' < j + 1
        ensures fields'[j'] == entries[j'] || RewrittenAt(throughKey, entries, through, fields', [c] + inline, j')
      {
        if j' == j {
          assert c in [c] + inline;
        } else if fields[j'] != entries[j'] {
          RewrittenKept(throughKey, entries, through, fields, inline, j', fields', c);
        }
      }
    }

    lemma MadeOfEntryStep(throughKey: string, entries: Entries, through: ModelRef, fields: Entries,
                          inline: seq<Descriptor>, j: nat, c: Descriptor)
      requires ThroughRewrite(throughKey, entries, through, fields, inline, j) && j < |entries|
      requires IsRewriteOf(c, throughKey, entries[j], through)
      ensures var fields' := fields[j := (entries[j].0, Str(c.identity))];
              forall c' :: c' in [c] + inline ==> MadeOfEntry(c', throughKey, entries, through, fields', j + 1)
    {
      var fields' := fields[j := (entries[j].0, Str(c.identity))];
      forall c' | c' in [c] + inline
        ensures MadeOfEntry(c', throughKey, entries, through, fields', j + 1)
      {
        if c' == c {
          assert fields'[j].1 == Str(c.identity);
        } else {
          MadeOfEntryKept(c', throughKey, entries, through, fields, j, fields');
        }
      }
    }

    /** An object made of an entry before `j` is still accounted for when entry `j` is rewritten. */
    lemma MadeOfEntryKept(c: Descriptor, throughKey: string, entries: Entries, through: ModelRef, fields: Entries, j: nat,
                          fields': Entries)
      requires j < |fields| == |fields'| && forall i :: 0 <= i < j ==> fields'[i] == fields[i]
      requires MadeOfEntry(c, throughKey, entries, through, fields, j)
      ensures MadeOfEntry(c, throughKey, entries, through, fields', j + 1)
    {
      var i :| 0 <= i < j && i < |entries| && i < |fields| && fields[i].1 == Str(c.identity) && IsRewriteOf(c, throughKey, entries[i], through);
      assert fields'[i] == fields[i];
    }

    /** Entry `j` holds the identity of an object among `inline` made of it. */
    ghost predicate RewrittenAt(throughKey: string, entries: Entries, through: ModelRef, fields: Entries,
                                inline: seq<Descriptor>, j: nat)
      requires j < |entries| && j < |fields|
      reads config
    {
      exists c :: c in inline && fields[j].1 == Str(c.identity) && IsRewriteOf(c, throughKey, entries[j], through)
    }

    /** A rewritten entry stays rewritten when a later entry is rewritten and its object prepended. */
    lemma RewrittenKept(throughKey: string, entries: Entries, through: ModelRef, fields: Entries,
                        inline: seq<Descriptor>, j: nat, fields': Entries, c: Descriptor)
      requires j < |entries| && j < |fields| && j < |fields'| && fields'[j] == fields[j]
      requires RewrittenAt(throughKey, entries, through, fields, inline, j)
      ensures RewrittenAt(throughKey, entries, through, fields', [c] + inline, j)
    {
      var c' :| c' in inline && fields[j].1 == Str(c'.identity) && IsRewriteOf(c', throughKey, entries[j], through);
      assert c' in [c] + inline;
    }

    /** One step of that loop, for the entry `entries[j]`. */
    method InlineThroughRelation(throughKey: string, entries: Entries, j: nat, through: ModelRef, fields: Entries)
      returns (fields': Entries, child: Option<Descriptor>)
      requires WellFormedSchema(schema)
      requires j < |entries| && SameKeys(fields, entries)
      ensures child.None? ==> fields' == fields
      ensures child.Some? ==> IsRewriteOf(child.value, throughKey, entries[j], through) &&
                              fields' == fields[j := (entries[j].0, Str(child.value.identity))]
      ensures Size(Dict(fields')) <= Size(Dict(fields))
      decreases Size(Dict(entries)), 0
    {
      fields', child := fields, None;
      var (k, fv) := entries[j];
      if fv.Dict? && k.Str? {
        var m := GetField(schema, through, k.s);
        if m.Some? && m.value.relatedModel.Some? {
          EntrySizeBelow(entries, j);
          var res := ProcessInlineObject(fv.entries, m.value.relatedModel.value, throughKey + "_" + k.s);
          if res.Ok? {
            ReplaceByStrNoLarger(fields, j, k, res.value.identity, 0);
            fields' := fields[j := (k, Str(res.value.identity))];
            child := Some(res.value);
          }
        }
      }
    }

    /**
     * An object of `model` written inline: keyed by its reference key if it
     * has one, else by `auto`.
     */
    method ProcessInlineObject(data: Entries, model: ModelRef, auto: string) returns (r: Result<Descriptor, SeedError>)
      requires WellFormedSchema(schema)
      ensures r.Ok? ==> IsInlineObject(r.value, data, model, auto, config.referenceKey)
      decreases Size(Dict(data)), 1
    {
      var (objectKey, fieldsData, explicit) := ChooseKey(data, config.referenceKey, Str(auto));
      var identity := Dotted(model.app, model.name, Display(objectKey));
      var d := NewDescriptor(identity, model.app, model.name, objectKey, model, None, explicit);
      r := ProcessObjectFields(d, fieldsData);
      if r.Ok? {
        NewHoldsEntries(d, r.value, fieldsData);
      }
    }
  }
}

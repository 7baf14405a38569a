/**
 * Merging and structural validation of seed documents (`YAMLParser`).
 *
 * The YAML text itself is not decoded here: a document enters the model as
 * the `Value` the decoder produced, `Null` for empty content.
 */
module Parser {
  import opened Wrappers
  import opened Values
  import opened Errors

  // ---------------------------------------------------------------------
  // Deep merge
  // ---------------------------------------------------------------------

  /**
   * What `_deep_merge` stores under an override key whose current value in
   * the result is `current`: the recursive merge when both sides are
   * mappings, the override value otherwise.
   */
  function MergedValue(current: Option<Value>, v: Value): Value
    decreases v, Width(v) + 2
  {
    match v
    case Dict(o) =>
      if current.Some? && current.value.Dict? then Dict(Merge(current.value.entries, o)) else v
    case _ => v
  }

  /** One iteration of the merge loop: `result[key] = ...` for one override entry. */
  function MergeStep(result: Entries, e: (Value, Value)): Entries
    decreases e.1, Width(e.1) + 3
  {
    Put(result, e.0, MergedValue(Get(result, e.0), e.1))
  }

  /** The result of the merge loop once it has processed `override[i..]` into `result`. */
  function MergeFrom(result: Entries, override: Entries, i: nat): Entries
    requires i <= |override|
    decreases Dict(override), |override| - i
  {
    if i == |override| then result
    else MergeFrom(MergeStep(result, override[i]), override, i + 1)
  }

  /** `_deep_merge(base, override)` */
  function Merge(base: Entries, override: Entries): Entries
    decreases Dict(override), |override| + 1
  {
    MergeFrom(base, override, 0)
  }

  /** `_deep_merge`: copy the base, then merge the override's entries in order. */
  method DeepMerge(base: Entries, override: Entries) returns (result: Entries)
    ensures result == Merge(base, override)
    decreases Dict(override), |override| + 1
  {
    result := base;
    var i := 0;
    while i < |override|
      invariant i <= |override|
      invariant MergeFrom(result, override, i) == Merge(base, override)
    {
      var key := override[i].0;
      var value := override[i].1;
      var current := Get(result, key);
      var merged := MergeValue(current, value);
      result := Put(result, key, merged);
      i := i + 1;
    }
  }

  /** The value stored for one override entry: two mappings are merged deeply, anything else replaces. */
  method MergeValue(current: Option<Value>, v: Value) returns (merged: Value)
    ensures merged == MergedValue(current, v)
    decreases v, Width(v) + 2
  {
    if current.Some? && current.value.Dict? && v.Dict? {
      var sub := DeepMerge(current.value.entries, v.entries);
      merged := Dict(sub);
    } else {
      merged := v;
    }
  }

  /** The keys of a merge are the keys of the base and of the override. */
  lemma MergeKeys(base: Entries, override: Entries)
    ensures Keys(Merge(base, override)) == Keys(base) + Keys(override)
  {
    MergeFromKeys(base, override, 0);
    assert override[0..] == override;
  }

  lemma {:induction false} MergeFromKeys(result: Entries, override: Entries, i: nat)
    requires i <= |override|
    ensures Keys(MergeFrom(result, override, i)) == Keys(result) + Keys(override[i..])
    decreases |override| - i
  {
    if i < |override| {
      var next := MergeStep(result, override[i]);
      MergeFromKeys(next, override, i + 1);
      assert Keys(next) == Keys(result) + {override[i].0};
      KeysFrom(override, i);
    } else {
      assert override[i..] == [];
    }
  }

  lemma KeysFrom(es: Entries, i: nat)
    requires i < |es|
    ensures Keys(es[i..]) == {es[i].0} + Keys(es[i + 1..])
  {
    var a := es[i..];
    assert a[0] == es[i];
    assert forall j :: 1 <= j < |a| ==> a[j] == es[i + 1..][j - 1];
  }

  /** Keys of the base keep their positions; new keys come after them. */
  lemma MergeKeepsBaseOrder(base: Entries, override: Entries)
    ensures |base| <= |Merge(base, override)|
    ensures forall j :: 0 <= j < |base| ==> Merge(base, override)[j].0 == base[j].0
  {
    MergeFromKeepsOrder(base, override, 0);
  }

  lemma {:induction false} MergeFromKeepsOrder(result: Entries, override: Entries, i: nat)
    requires i <= |override|
    ensures |result| <= |MergeFrom(result, override, i)|
    ensures forall j :: 0 <= j < |result| ==> MergeFrom(result, override, i)[j].0 == result[j].0
    decreases |override| - i
  {
    if i < |override| {
      var next := MergeStep(result, override[i]);
      MergeFromKeepsOrder(next, override, i + 1);
      assert forall j :: 0 <= j < |result| ==> next[j].0 == result[j].0;
    }
  }

  /** The merge of mappings with distinct keys has distinct keys. */
  lemma MergeUniqueKeys(base: Entries, override: Entries)
    requires UniqueKeys(base)
    ensures UniqueKeys(Merge(base, override))
  {
    MergeFromUniqueKeys(base, override, 0);
  }

  lemma {:induction false} MergeFromUniqueKeys(result: Entries, override: Entries, i: nat)
    requires i <= |override| && UniqueKeys(result)
    ensures UniqueKeys(MergeFrom(result, override, i))
    decreases |override| - i
  {
    if i < |override| {
      MergeFromUniqueKeys(MergeStep(result, override[i]), override, i + 1);
    }
  }

  /** A key that only the base holds keeps its base value. */
  lemma MergeKeepsBaseOnly(base: Entries, override: Entries, k: Value)
    requires k !in Keys(override)
    ensures Get(Merge(base, override), k) == Get(base, k)
  {
    MergeFromUntouched(base, override, 0, k);
  }

  lemma {:induction false} MergeFromUntouched(result: Entries, override: Entries, i: nat, k: Value)
    requires i <= |override|
    requires forall j :: i <= j < |override| ==> override[j].0 != k
    ensures Get(MergeFrom(result, override, i), k) == Get(result, k)
    decreases |override| - i
  {
    if i < |override| {
      MergeFromUntouched(MergeStep(result, override[i]), override, i + 1, k);
    }
  }

  /**
   * A key of the override ends up with the override value, merged into the
   * base value when both are mappings.
   */
  lemma MergeTakesOverride(base: Entries, override: Entries, k: Value)
    requires UniqueKeys(override) && k in Keys(override)
    ensures Get(Merge(base, override), k) == Some(MergedValue(Get(base, k), Get(override, k).value))
  {
    var p := Find(override, k).value;
    MergeFromOverride(base, override, 0, p);
  }

  lemma {:induction false} MergeFromOverride(result: Entries, override: Entries, i: nat, p: nat)
    requires i <= p < |override|
    requires forall j :: i <= j < |override| && j != p ==> override[j].0 != override[p].0
    ensures Get(MergeFrom(result, override, i), override[p].0) == Some(MergedValue(Get(result, override[p].0), override[p].1))
    decreases p - i
  {
    var next := MergeStep(result, override[i]);
    if i < p {
      MergeFromOverride(next, override, i + 1, p);
    } else {
      MergeFromUntouched(next, override, i + 1, override[p].0);
    }
  }

  /** Merging a mapping into an empty one yields that mapping. */
  lemma MergeIntoEmpty(d: Entries)
    requires UniqueKeys(d)
    ensures Merge([], d) == d
  {
    MergeFromPrefix(d, 0);
    assert d[..0] == [];
  }

  lemma {:induction false} MergeFromPrefix(d: Entries, i: nat)
    requires UniqueKeys(d) && i <= |d|
    ensures MergeFrom(d[..i], d, i) == d
    decreases |d| - i
  {
    if i < |d| {
      var k := d[i].0;
      assert k !in Keys(d[..i]) by {
        forall j | 0 <= j < i ensures d[..i][j].0 != k { }
      }
      assert Get(d[..i], k) == None;
      assert MergedValue(None, d[i].1) == d[i].1;
      assert Put(d[..i], k, d[i].1) == d[..i + 1];
      MergeFromPrefix(d, i + 1);
    } else {
      assert d[..i] == d;
    }
  }

  // ---------------------------------------------------------------------
  // Merging several documents
  // ---------------------------------------------------------------------

  /** Folding `_deep_merge` over the documents in order, starting from `{}`. */
  function MergeAll(docs: seq<Entries>): Entries
    decreases |docs|
  {
    if docs == [] then [] else Merge(MergeAll(docs[..|docs| - 1]), docs[|docs| - 1])
  }

  /** `_merge_yaml_data` */
  method MergeYamlData(docs: seq<Entries>) returns (merged: Entries)
    ensures merged == MergeAll(docs)
  {
    if |docs| == 0 {
      return [];
    }
    merged := [];
    var i := 0;
    while i < |docs|
      invariant i <= |docs|
      invariant merged == MergeAll(docs[..i])
    {
      assert docs[..i + 1][..i] == docs[..i];
      merged := DeepMerge(merged, docs[i]);
      i := i + 1;
    }
    assert docs[..i] == docs;
  }

  /** A key is in the merged document iff some document holds it. */
  lemma {:induction false} MergeAllKeys(docs: seq<Entries>, k: Value)
    ensures k in Keys(MergeAll(docs)) <==> exists i :: 0 <= i < |docs| && k in Keys(docs[i])
    decreases |docs|
  {
    if docs != [] {
      var n := |docs| - 1;
      MergeAllKeys(docs[..n], k);
      MergeKeys(MergeAll(docs[..n]), docs[n]);
      if k in Keys(MergeAll(docs[..n])) {
        var i :| 0 <= i < n && k in Keys(docs[..n][i]);
        assert docs[i] == docs[..n][i];
      }
      if exists i :: 0 <= i < |docs| && k in Keys(docs[i]) {
        var i :| 0 <= i < |docs| && k in Keys(docs[i]);
        if i < n {
          assert docs[..n][i] == docs[i];
        }
      }
    }
  }

  /** A single document comes through the merge unchanged. */
  lemma MergeAllSingle(d: Entries)
    requires UniqueKeys(d)
    ensures MergeAll([d]) == d
  {
    assert [d][..0] == [];
    MergeIntoEmpty(d);
  }

  /** A value that is not a mapping in the last document is the merged value. */
  lemma LastDocumentWins(docs: seq<Entries>, k: Value)
    requires |docs| > 0 && UniqueKeys(docs[|docs| - 1])
    requires Get(docs[|docs| - 1], k).Some? && !Get(docs[|docs| - 1], k).value.Dict?
    ensures Get(MergeAll(docs), k) == Get(docs[|docs| - 1], k)
  {
    MergeTakesOverride(MergeAll(docs[..|docs| - 1]), docs[|docs| - 1], k);
  }

  // ---------------------------------------------------------------------
  // Structural validation
  // ---------------------------------------------------------------------

  /** Every object of a collection is a mapping of fields. */
  predicate ItemsOk(objects: seq<Value>) {
    forall idx :: 0 <= idx < |objects| ==> objects[idx].Dict?
  }

  /** A collection name that is a string, holding a list of mappings. */
  predicate CollectionOk(c: (Value, Value)) {
    c.0.Str? && c.1.List? && ItemsOk(c.1.items)
  }

  /** An app label that is a string, holding a mapping of valid collections. */
  predicate AppOk(a: (Value, Value)) {
    a.0.Str? && a.1.Dict? && forall j :: 0 <= j < |a.1.entries| ==> CollectionOk(a.1.entries[j])
  }

  /** app_label -> collection -> list of field mappings */
  predicate WellShaped(data: Entries) {
    forall i :: 0 <= i < |data| ==> AppOk(data[i])
  }

  /** `e` names the first object of the collection that is not a mapping. */
  predicate ReportsItem(app: string, collection: string, objects: seq<Value>, e: SeedError) {
    e.ItemNotMapping? && e.app == app && e.collection == collection &&
    e.index < |objects| && !objects[e.index].Dict? &&
    forall idx :: 0 <= idx < e.index ==> objects[idx].Dict?
  }

  /** `e` is the error raised for an invalid collection entry. */
  predicate ReportsCollection(app: string, c: (Value, Value), e: SeedError) {
    if !c.0.Str? then e == CollectionNameNotString(app, c.0)
    else if !c.1.List? then e == ObjectsNotList(app, c.0.s)
    else ReportsItem(app, c.0.s, c.1.items, e)
  }

  /** `e` is the error raised for an invalid app entry. */
  predicate ReportsApp(a: (Value, Value), e: SeedError) {
    if !a.0.Str? then e == AppLabelNotString(a.0)
    else if !a.1.Dict? then e == CollectionsNotMapping(a.0.s)
    else exists j :: (0 <= j < |a.1.entries| && !CollectionOk(a.1.entries[j]) &&
      (forall j' :: 0 <= j' < j ==> CollectionOk(a.1.entries[j'])) &&
      ReportsCollection(a.0.s, a.1.entries[j], e))
  }

  /** `e` describes the first offending entry in iteration order. */
  predicate ReportsFirstOffender(data: Entries, e: SeedError) {
    exists i :: 0 <= i < |data| && !AppOk(data[i]) &&
      (forall i' :: 0 <= i' < i ==> AppOk(data[i'])) &&
      ReportsApp(data[i], e)
  }

  /** `_validate_structure`: `None` when the document is well shaped, else the error it raises. */
  method ValidateStructure(data: Entries) returns (err: Option<SeedError>)
    ensures err.None? <==> WellShaped(data)
    ensures err.Some? ==> IsYamlValidation(err.value) && ReportsFirstOffender(data, err.value)
  {
    if |data| == 0 {
      return None;
    }
    var i := 0;
    while i < |data|
      invariant i <= |data|
      invariant forall i' :: 0 <= i' < i ==> AppOk(data[i'])
    {
      var appLabel := data[i].0;
      var collections := data[i].1;
      if !appLabel.Str? {
        return Some(AppLabelNotString(appLabel));
      }
      if !collections.Dict? {
        return Some(CollectionsNotMapping(appLabel.s));
      }
      var cs := collections.entries;
      var j := 0;
      while j < |cs|
        invariant j <= |cs|
        invariant forall j' :: 0 <= j' < j ==> CollectionOk(cs[j'])
      {
        var name := cs[j].0;
        var objects := cs[j].1;
        if !name.Str? {
          err := Some(CollectionNameNotString(appLabel.s, name));
          assert ReportsApp(data[i], err.value);
          return;
        }
        if !objects.List? {
          err := Some(ObjectsNotList(appLabel.s, name.s));
          assert ReportsApp(data[i], err.value);
          return;
        }
        var idx := 0;
        while idx < |objects.items|
          invariant idx <= |objects.items|
          invariant forall idx' :: 0 <= idx' < idx ==> objects.items[idx'].Dict?
        {
          if !objects.items[idx].Dict? {
            err := Some(ItemNotMapping(appLabel.s, name.s, idx));
            assert ReportsApp(data[i], err.value);
            return;
          }
          idx := idx + 1;
        }
        j := j + 1;
      }
      i := i + 1;
    }
    return None;
  }

  /** Merging well-shaped documents yields a well-shaped document. */
  lemma MergeWellShaped(base: Entries, override: Entries)
    requires WellShaped(base) && WellShaped(override)
    ensures WellShaped(Merge(base, override))
  {
    MergeFromWellShaped(base, override, 0);
  }

  lemma {:induction false} MergeFromWellShaped(result: Entries, override: Entries, i: nat)
    requires i <= |override| && WellShaped(result) && WellShaped(override)
    ensures WellShaped(MergeFrom(result, override, i))
    decreases |override| - i
  {
    if i < |override| {
      var k := override[i].0;
      var v := override[i].1;
      assert AppOk(override[i]);
      var cur := Get(result, k);
      var nv := MergedValue(cur, v);
      assert AppOk((k, nv)) by {
        if cur.Some? && cur.value.Dict? {
          assert (k, cur.value) in result;
          var c :| 0 <= c < |result| && result[c] == (k, cur.value);
          assert AppOk(result[c]);
          assert nv == Dict(Merge(cur.value.entries, v.entries));
          CollectionsMerge(cur.value.entries, v.entries, 0);
        } else {
          assert nv == v;
        }
      }
      var next := MergeStep(result, override[i]);
      assert next == Put(result, k, nv);
      PutEntries(result, k, nv);
      assert WellShaped(next) by {
        forall j | 0 <= j < |next| ensures AppOk(next[j]) {
          assert next[j] in next;
        }
      }
      MergeFromWellShaped(next, override, i + 1);
    }
  }

  /** Merging two mappings of valid collections: lists are never merged, so every entry stays valid. */
  lemma {:induction false} CollectionsMerge(result: Entries, override: Entries, i: nat)
    requires i <= |override|
    requires forall j :: 0 <= j < |result| ==> CollectionOk(result[j])
    requires forall j :: 0 <= j < |override| ==> CollectionOk(override[j])
    ensures forall j :: 0 <= j < |MergeFrom(result, override, i)| ==> CollectionOk(MergeFrom(result, override, i)[j])
    decreases |override| - i
  {
    if i < |override| {
      var k := override[i].0;
      assert CollectionOk(override[i]);
      var nv := MergedValue(Get(result, k), override[i].1);
      assert nv == override[i].1;
      var next := MergeStep(result, override[i]);
      assert next == Put(result, k, nv);
      PutEntries(result, k, nv);
      forall j | 0 <= j < |next| ensures CollectionOk(next[j]) {
        assert next[j] in next;
      }
      CollectionsMerge(next, override, i + 1);
    }
  }

  /** Folding the merge over well-shaped documents yields a well-shaped document. */
  lemma {:induction false} MergeAllWellShaped(docs: seq<Entries>)
    requires forall i :: 0 <= i < |docs| ==> WellShaped(docs[i])
    ensures WellShaped(MergeAll(docs))
    decreases |docs|
  {
    if docs != [] {
      var n := |docs| - 1;
      MergeAllWellShaped(docs[..n]);
      MergeWellShaped(MergeAll(docs[..n]), docs[n]);
    }
  }

  /**
   * Only the merged document is validated: an earlier document whose app
   * holds a number passes when a later document replaces it.
   */
  lemma OnlyMergedDocumentIsValidated()
    ensures var first := [(Str("auth"), Int(5))];
            var second := [(Str("auth"), Dict([]))];
            !WellShaped(first) && WellShaped(MergeAll([first, second]))
  {
    var first := [(Str("auth"), Int(5))];
    var second := [(Str("auth"), Dict([]))];
    assert !AppOk(first[0]);
    assert [first, second][..1] == [first];
    assert second[0].0 in Keys(second);
    MergeAllSingle(first);
    MergeTakesOverride(first, second, Str("auth"));
    MergeKeys(first, second);
    MergeUniqueKeys(first, second);
    var m := MergeAll([first, second]);
    assert Keys(m) == {Str("auth")};
    assert |m| == 1;
    assert m[0] == (Str("auth"), Dict([]));
  }

  // ---------------------------------------------------------------------
  // Entry points
  // ---------------------------------------------------------------------

  /** Decoded content may be empty (`Null`, read as `{}`) or a mapping. */
  predicate Loadable(doc: Value) {
    doc.Null? || doc.Dict?
  }

  /** The mapping a loadable document stands for. */
  function Contents(doc: Value): (r: Entries)
    ensures doc.Dict? ==> r == doc.entries
    ensures !doc.Dict? ==> r == []
  {
    if doc.Dict? then doc.entries else []
  }

  function AllContents(docs: seq<Value>): (r: seq<Entries>)
    ensures |r| == |docs| && forall i :: 0 <= i < |docs| ==> r[i] == Contents(docs[i])
  {
    if docs == [] then [] else AllContents(docs[..|docs| - 1]) + [Contents(docs[|docs| - 1])]
  }

  /** The check `_load_yaml` makes once a file is decoded. */
  function LoadDocument(doc: Value): (r: Result<Entries, SeedError>)
    ensures r.Ok? <==> Loadable(doc)
    ensures r.Ok? ==> r.value == Contents(doc)
    ensures r.Err? ==> r.error == RootNotMapping(doc)
  {
    if doc.Null? then Ok([])
    else if !doc.Dict? then Err(RootNotMapping(doc))
    else Ok(doc.entries)
  }

  /** `parse_string` on decoded content. */
  method ParseString(doc: Value) returns (r: Result<Entries, SeedError>)
    ensures r.Ok? <==> Loadable(doc) && WellShaped(Contents(doc))
    ensures r.Ok? ==> r.value == Contents(doc)
    ensures !Loadable(doc) ==> r == Err(RootNotMapping(doc))
    ensures Loadable(doc) && r.Err? ==> ReportsFirstOffender(Contents(doc), r.error)
  {
    if doc.Null? {
      return Ok([]);
    }
    if !doc.Dict? {
      return Err(RootNotMapping(doc));
    }
    var err := ValidateStructure(doc.entries);
    if err.Some? {
      return Err(err.value);
    }
    return Ok(doc.entries);
  }

  /**
   * `parse_files` on the decoded files: load each, stopping at the first
   * that is not a mapping, merge them all, then validate the merge once.
   */
  method ParseFiles(docs: seq<Value>) returns (r: Result<Entries, SeedError>)
    ensures forall i :: 0 <= i < |docs| && !Loadable(docs[i]) && (forall i' :: 0 <= i' < i ==> Loadable(docs[i'])) ==>
              r == Err(RootNotMapping(docs[i]))
    ensures (forall i :: 0 <= i < |docs| ==> Loadable(docs[i])) ==>
              (r.Ok? <==> WellShaped(MergeAll(AllContents(docs)))) &&
              (r.Ok? ==> r.value == MergeAll(AllContents(docs))) &&
              (r.Err? ==> ReportsFirstOffender(MergeAll(AllContents(docs)), r.error))
    ensures r.Ok? ==> WellShaped(r.value)
  {
    var loaded: seq<Entries> := [];
    var i := 0;
    while i < |docs|
      invariant i <= |docs|
      invariant forall i' :: 0 <= i' < i ==> Loadable(docs[i'])
      invariant loaded == AllContents(docs[..i])
    {
      var one := LoadDocument(docs[i]);
      if one.Err? {
        return Err(one.error);
      }
      assert docs[..i + 1][..i] == docs[..i];
      loaded := loaded + [one.value];
      i := i + 1;
    }
    assert docs[..i] == docs;
    var merged := MergeYamlData(loaded);
    var err := ValidateStructure(merged);
    if err.Some? {
      return Err(err.value);
    }
    return Ok(merged);
  }

  /** Loading well-shaped files never fails validation. */
  lemma WellShapedFilesMerge(docs: seq<Value>)
    requires forall i :: 0 <= i < |docs| ==> Loadable(docs[i]) && WellShaped(Contents(docs[i]))
    ensures WellShaped(MergeAll(AllContents(docs)))
  {
    MergeAllWellShaped(AllContents(docs));
  }
}

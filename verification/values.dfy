/**
 * Decoded YAML documents as values.
 *
 * A mapping is an ordered association list, because every loop of the
 * seed loader walks a mapping in insertion order and identities depend on
 * that order. Assigning `d[k] = v` keeps the position of an existing key and
 * appends a new one; that is `Put` below.
 */
module Values {
  import opened Wrappers

  datatype Value =
    | Null
    | Bool(b: bool)
    | Int(i: int)
    | Str(s: string)
    | List(items: seq<Value>)
    | Dict(entries: seq<(Value, Value)>)

  /** An ordered mapping keyed by values, as a Python dict is. */
  type Assoc<V> = seq<(Value, V)>

  /** A decoded YAML mapping. */
  type Entries = Assoc<Value>

  function Keys<V>(es: Assoc<V>): (ks: set<Value>)
    ensures forall i :: 0 <= i < |es| ==> es[i].0 in ks
    ensures forall k :: k in ks ==> exists i :: 0 <= i < |es| && es[i].0 == k
  {
    set i | 0 <= i < |es| :: es[i].0
  }

  /** A Python dict never holds the same key twice. */
  predicate UniqueKeys<V>(es: Assoc<V>) {
    forall i, j :: 0 <= i < j < |es| ==> es[i].0 != es[j].0
  }

  /** Position of the first entry with key `k` at or after `from`. */
  function FindFrom<V>(es: Assoc<V>, k: Value, from: nat): (r: Option<nat>)
    requires from <= |es|
    ensures r.Some? ==> from <= r.value < |es| && es[r.value].0 == k
    ensures r.Some? ==> forall j :: from <= j < r.value ==> es[j].0 != k
    ensures r.None? ==> forall j :: from <= j < |es| ==> es[j].0 != k
    decreases |es| - from
  {
    if from == |es| then None
    else if es[from].0 == k then Some(from)
    else FindFrom(es, k, from + 1)
  }

  function Find<V>(es: Assoc<V>, k: Value): (r: Option<nat>)
    ensures r.Some? ==> r.value < |es| && es[r.value].0 == k
    ensures r.Some? ==> forall j :: 0 <= j < r.value ==> es[j].0 != k
    ensures r.None? <==> k !in Keys(es)
  {
    FindFrom(es, k, 0)
  }

  /** `d.get(k)` */
  function Get<V>(es: Assoc<V>, k: Value): (r: Option<V>)
    ensures r.Some? <==> k in Keys(es)
    ensures r.Some? ==> (k, r.value) in es
  {
    match Find(es, k)
    case Some(i) => Some(es[i].1)
    case None => None
  }

  /** `d[k] = v` */
  function Put<V>(es: Assoc<V>, k: Value, v: V): (r: Assoc<V>)
    ensures Keys(r) == Keys(es) + {k}
    ensures Get(r, k) == Some(v)
    ensures forall k' :: k' != k ==> Get(r, k') == Get(es, k')
    ensures UniqueKeys(es) ==> UniqueKeys(r)
    ensures k in Keys(es) ==> |r| == |es| && forall j :: 0 <= j < |es| ==> r[j].0 == es[j].0
    ensures k !in Keys(es) ==> r == es + [(k, v)]
  {
    match Find(es, k)
    case Some(i) =>
      PutPresent(es, k, v, i);
      es[i := (k, v)]
    case None =>
      PutAbsent(es, k, v);
      es + [(k, v)]
  }

  lemma PutPresent<V>(es: Assoc<V>, k: Value, v: V, i: nat)
    requires Find(es, k) == Some(i)
    ensures var r := es[i := (k, v)];
      Keys(r) == Keys(es) + {k} && Get(r, k) == Some(v) &&
      (forall k' :: k' != k ==> Get(r, k') == Get(es, k')) &&
      (UniqueKeys(es) ==> UniqueKeys(r)) &&
      forall j :: 0 <= j < |es| ==> r[j].0 == es[j].0
  {
    var r := es[i := (k, v)];
    assert forall j :: 0 <= j < |r| ==> r[j].0 == es[j].0;
    assert Find(r, k) == Find(es, k) by { FindSameKeys(r, es, k, 0); }
    assert forall k' :: k' != k ==> Find(r, k') == Find(es, k') by {
      forall k' | k' != k ensures Find(r, k') == Find(es, k') {
        FindReplaced(es, i, k, v, k', 0);
      }
    }
    assert Keys(r) == Keys(es) + {k};
  }

  lemma PutAbsent<V>(es: Assoc<V>, k: Value, v: V)
    requires Find(es, k) == None
    ensures var r := es + [(k, v)];
      Keys(r) == Keys(es) + {k} && Get(r, k) == Some(v) &&
      (forall k' :: k' != k ==> Get(r, k') == Get(es, k')) &&
      (UniqueKeys(es) ==> UniqueKeys(r))
  {
    var r := es + [(k, v)];
    assert r[|es|].0 == k && forall j :: 0 <= j < |es| ==> r[j] == es[j];
    assert Keys(r) == Keys(es) + {k};
    assert forall k' :: k' != k ==> Find(r, k') == Find(es, k') by {
      forall k' | k' != k ensures Find(r, k') == Find(es, k') {
        FindAppended(es, (k, v), k', 0);
      }
    }
    assert Find(r, k) == Some(|es|) by { FindAppendedNew(es, (k, v), 0); }
  }

  /** Every entry after `d[k] = v` was already there or is the new one. */
  lemma PutEntries<V>(es: Assoc<V>, k: Value, v: V)
    ensures forall e :: e in Put(es, k, v) ==> e in es || e == (k, v)
  {
    match Find(es, k)
    case Some(i) =>
      assert Put(es, k, v) == es[i := (k, v)];
      forall e | e in Put(es, k, v) ensures e in es || e == (k, v) {
        var j :| 0 <= j < |es| && es[i := (k, v)][j] == e;
        if j != i { assert es[j] == e; }
      }
    case None =>
  }

  lemma {:induction false} FindReplaced<V>(es: Assoc<V>, i: nat, k: Value, v: V, k': Value, from: nat)
    requires i < |es| && es[i].0 == k && k' != k && from <= |es|
    ensures FindFrom(es[i := (k, v)], k', from) == FindFrom(es, k', from)
    decreases |es| - from
  {
    if from < |es| {
      FindReplaced(es, i, k, v, k', from + 1);
    }
  }

  lemma {:induction false} FindSameKeys<V>(a: Assoc<V>, b: Assoc<V>, k: Value, from: nat)
    requires |a| == |b| && from <= |a|
    requires forall j :: 0 <= j < |a| ==> a[j].0 == b[j].0
    ensures FindFrom(a, k, from) == FindFrom(b, k, from)
    decreases |a| - from
  {
    if from < |a| {
      FindSameKeys(a, b, k, from + 1);
    }
  }

  lemma {:induction false} FindAppended<V>(es: Assoc<V>, e: (Value, V), k': Value, from: nat)
    requires e.0 != k' && from <= |es|
    ensures FindFrom(es + [e], k', from) == FindFrom(es, k', from)
    decreases |es| - from
  {
    if from < |es| {
      FindAppended(es, e, k', from + 1);
    }
  }

  lemma {:induction false} FindAppendedNew<V>(es: Assoc<V>, e: (Value, V), from: nat)
    requires from <= |es| && forall j :: from <= j < |es| ==> es[j].0 != e.0
    ensures FindFrom(es + [e], e.0, from) == Some(|es|)
    decreases |es| - from
  {
    if from < |es| {
      FindAppendedNew(es, e, from + 1);
    }
  }

  /** `{k2: v for k2, v in d.items() if k2 != k}`, and `d.pop(k)` once `k` is known to be present. */
  function Remove<V>(es: Assoc<V>, k: Value): (r: Assoc<V>)
    ensures Keys(r) == Keys(es) - {k}
    ensures forall k' :: k' != k ==> Get(r, k') == Get(es, k')
    ensures UniqueKeys(es) ==> UniqueKeys(r)
    ensures |r| <= |es|
  {
    if es == [] then []
    else
      var rest := Remove(es[1..], k);
      assert Keys(es) == {es[0].0} + Keys(es[1..]);
      if es[0].0 == k then
        assert forall k' :: k' != k ==> Get(es, k') == Get(es[1..], k') by {
          forall k' | k' != k ensures Get(es, k') == Get(es[1..], k') { FindTail(es, k'); }
        }
        rest
      else
        var r := [es[0]] + rest;
        assert r[1..] == rest;
        assert Keys(r) == {r[0].0} + Keys(r[1..]);
        assert forall k' :: k' != k ==> Get(r, k') == Get(es, k') by {
          forall k' | k' != k ensures Get(r, k') == Get(es, k') {
            if k' != es[0].0 { FindTail(es, k'); FindTail(r, k'); }
          }
        }
        r
  }

  /** Looking past a first entry whose key differs. */
  lemma FindTail<V>(es: Assoc<V>, k: Value)
    requires |es| > 0 && es[0].0 != k
    ensures Get(es, k) == Get(es[1..], k)
  {
    assert Find(es, k) == FindFrom(es, k, 1);
    FindShift(es, k, 1);
  }

  lemma {:induction false} FindShift<V>(es: Assoc<V>, k: Value, from: nat)
    requires 1 <= from <= |es|
    ensures FindFrom(es, k, from) == match FindFrom(es[1..], k, from - 1)
                                     case Some(j) => Some(j + 1)
                                     case None => None
    decreases |es| - from
  {
    if from < |es| {
      FindShift(es, k, from + 1);
    }
  }

  /** Python truthiness, as used by `if ref_key:` and `if not data:`. */
  predicate Truthy(v: Value) {
    match v
    case Null => false
    case Bool(b) => b
    case Int(i) => i != 0
    case Str(s) => s != ""
    case List(items) => items != []
    case Dict(es) => es != []
  }

  /** `str(n)` for a non-negative integer. */
  function NatToString(n: nat): (r: string)
    ensures |r| >= 1
    ensures forall c :: c in r ==> '0' <= c <= '9'
    decreases n
  {
    var d := ['0' + (n % 10) as char];
    if n < 10 then d else NatToString(n / 10) + d
  }

  /** Different numbers print differently. */
  lemma {:induction false} NatToStringInjective(a: nat, b: nat)
    requires NatToString(a) == NatToString(b)
    ensures a == b
    decreases a
  {
    var ra, rb := NatToString(a), NatToString(b);
    assert ra[|ra| - 1] == '0' + (a % 10) as char;
    assert rb[|rb| - 1] == '0' + (b % 10) as char;
    if a >= 10 && b >= 10 {
      assert NatToString(a / 10) == ra[..|ra| - 1];
      assert NatToString(b / 10) == rb[..|rb| - 1];
      NatToStringInjective(a / 10, b / 10);
    }
  }

  /** `str(i)` for an int. */
  function IntToString(i: int): (r: string)
    ensures |r| >= 1
  {
    if i < 0 then "-" + NatToString(-i) else NatToString(i)
  }

  /**
   * The text an f-string substitutes for a value (`str(v)`). Lists and
   * mappings used as object keys are rendered as fixed placeholders.
   */
  function Display(v: Value): string {
    match v
    case Null => "None"
    case Bool(b) => if b then "True" else "False"
    case Int(i) => IntToString(i)
    case Str(s) => s
    case List(_) => "[...]"
    case Dict(_) => "{...}"
  }

  /** `str.lower()` on ASCII letters. */
  function Lower(s: string): (r: string)
    ensures |r| == |s|
    ensures forall i :: 0 <= i < |s| ==> r[i] == (if 'A' <= s[i] <= 'Z' then s[i] - 'A' + 'a' else s[i])
  {
    if s == [] then [] else [if 'A' <= s[0] <= 'Z' then s[0] - 'A' + 'a' else s[0]] + Lower(s[1..])
  }

  // A size measure on documents, used only to show that the recursive
  // descent of the descriptor builder terminates.

  function Width(v: Value): nat {
    match v
    case List(items) => |items|
    case Dict(es) => |es|
    case _ => 0
  }

  ghost function Size(v: Value): nat
    decreases v, Width(v) + 1
  {
    match v
    case List(items) => 1 + ItemsSize(items, 0)
    case Dict(es) => 1 + EntriesSize(es, 0)
    case _ => 1
  }

  ghost function ItemsSize(items: seq<Value>, from: nat): nat
    requires from <= |items|
    decreases List(items), |items| - from
  {
    if from == |items| then 0 else Size(items[from]) + ItemsSize(items, from + 1)
  }

  ghost function EntriesSize(es: Entries, from: nat): nat
    requires from <= |es|
    decreases Dict(es), |es| - from
  {
    if from == |es| then 0 else 1 + Size(es[from].1) + EntriesSize(es, from + 1)
  }

  lemma {:induction false} ItemSmaller(items: seq<Value>, from: nat, i: nat)
    requires from <= i < |items|
    ensures Size(items[i]) <= ItemsSize(items, from)
    decreases |items| - from
  {
    if from < i {
      ItemSmaller(items, from + 1, i);
    }
  }

  lemma {:induction false} EntrySmaller(es: Entries, from: nat, i: nat)
    requires from <= i < |es|
    ensures Size(es[i].1) < EntriesSize(es, from)
    decreases |es| - from
  {
    if from < i {
      EntrySmaller(es, from + 1, i);
    }
  }

  /** Every value inside a list is smaller than the list. */
  lemma ItemSizeBelow(items: seq<Value>, i: nat)
    requires i < |items|
    ensures Size(items[i]) < Size(List(items))
  {
    ItemSmaller(items, 0, i);
  }

  /** Every value inside a mapping is smaller than the mapping. */
  lemma EntrySizeBelow(es: Entries, i: nat)
    requires i < |es|
    ensures Size(es[i].1) < Size(Dict(es))
  {
    EntrySmaller(es, 0, i);
  }

  /** Replacing one value of a mapping by a string does not make it larger. */
  lemma {:induction false} ReplaceByStrNoLarger(es: Entries, i: nat, k: Value, s: string, from: nat)
    requires from <= |es| && i < |es|
    ensures EntriesSize(es[i := (k, Str(s))], from) <= EntriesSize(es, from)
    decreases |es| - from
  {
    if from < |es| {
      ReplaceByStrNoLarger(es, i, k, s, from + 1);
    }
  }

  /** Putting a string under an existing key does not make a mapping larger. */
  lemma PutStrNoLarger(es: Entries, k: Value, s: string)
    requires k in Keys(es)
    ensures Size(Dict(Put(es, k, Str(s)))) <= Size(Dict(es))
  {
    var i := Find(es, k).value;
    assert Put(es, k, Str(s)) == es[i := (k, Str(s))];
    ReplaceByStrNoLarger(es, i, k, s, 0);
  }

  lemma {:induction false} EntriesSizeShift(es: Entries, from: nat)
    requires 1 <= from <= |es|
    ensures EntriesSize(es, from) == EntriesSize(es[1..], from - 1)
    decreases |es| - from
  {
    if from < |es| {
      EntriesSizeShift(es, from + 1);
    }
  }

  /** Removing a key does not make a mapping larger. */
  lemma {:induction false} RemoveNoLarger(es: Entries, k: Value)
    ensures Size(Dict(Remove(es, k))) <= Size(Dict(es))
    decreases |es|
  {
    if es != [] {
      RemoveNoLarger(es[1..], k);
      EntriesSizeShift(es, 1);
      var rest := Remove(es[1..], k);
      if es[0].0 != k {
        var r := [es[0]] + rest;
        assert r[1..] == rest;
        EntriesSizeShift(r, 1);
      }
    }
  }
}

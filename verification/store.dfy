/**
 * The database the loader writes to, reduced to what the loader observes:
 * rows created by `Model(**fields).save()`, the queries
 * `Model.objects.get(**params)` answers, and the member lists that
 * `manager.set(instances)` installs on a many-to-many field.
 */
module Store {
  import opened Values
  import opened Schema

  /** A saved model instance, known by its position in the table of rows. */
  type Handle = nat

  /** A keyword argument given to a model constructor: a plain value or a saved instance. */
  datatype Slot = Raw(value: Value) | Obj(handle: Handle)

  datatype Row = Row(model: ModelRef, fields: Assoc<Slot>)

  /** The three outcomes of `objects.get(**params)`. */
  datatype LookupResult = NoMatch | Match(handle: Handle) | Multiple

  /** One `getattr(owner, field).set(members)` call. */
  datatype Membership = Membership(owner: Handle, field: string, members: seq<Handle>)

  /** The handles of the rows of `model`, from position `from` on, that satisfy `matches`. */
  function Matching(rows: seq<Row>, model: ModelRef, matches: (Row, seq<(string, Value)>) -> bool,
                    params: seq<(string, Value)>, from: nat): (hs: seq<Handle>)
    requires from <= |rows|
    ensures forall i :: 0 <= i < |hs| ==> from <= hs[i] < |rows| && rows[hs[i]].model == model && matches(rows[hs[i]], params)
    ensures forall h :: from <= h < |rows| && rows[h].model == model && matches(rows[h], params) ==> h in hs
    ensures forall i, j :: 0 <= i < j < |hs| ==> hs[i] < hs[j]
    decreases |rows| - from
  {
    if from == |rows| then []
    else
      var rest := Matching(rows, model, matches, params, from + 1);
      if rows[from].model == model && matches(rows[from], params) then [from] + rest else rest
  }

  class Store {
    var rows: seq<Row>
    var memberships: seq<Membership>
    /** Whether a row satisfies the lookup parameters of a query (Django's field lookups). */
    const matches: (Row, seq<(string, Value)>) -> bool

    /** A database holding `existing` rows before the load starts. */
    constructor (existing: seq<Row>, matches: (Row, seq<(string, Value)>) -> bool)
      ensures rows == existing && memberships == [] && this.matches == matches
    {
      rows := existing;
      memberships := [];
      this.matches := matches;
    }

    /** `model.objects.get(**params)`: the single matching row, or which way the query fails. */
    function Lookup(model: ModelRef, params: seq<(string, Value)>): (r: LookupResult)
      reads this
      ensures r.Match? ==> r.handle < |rows| && rows[r.handle].model == model && matches(rows[r.handle], params) &&
                           forall h :: 0 <= h < |rows| && h != r.handle && rows[h].model == model ==> !matches(rows[h], params)
      ensures r.NoMatch? <==> forall h :: 0 <= h < |rows| && rows[h].model == model ==> !matches(rows[h], params)
      ensures r.Multiple? <==> exists h1, h2 :: 0 <= h1 < h2 < |rows| && rows[h1].model == model && rows[h2].model == model &&
                                                matches(rows[h1], params) && matches(rows[h2], params)
    {
      var hs := Matching(rows, model, matches, params, 0);
      if |hs| == 0 then NoMatch
      else if |hs| == 1 then
        assert forall h :: 0 <= h < |rows| && rows[h].model == model && matches(rows[h], params) ==> h == hs[0] by {
          forall h | 0 <= h < |rows| && rows[h].model == model && matches(rows[h], params) ensures h == hs[0] {
            assert h in hs;
          }
        }
        Match(hs[0])
      else
        assert rows[hs[0]].model == model && rows[hs[1]].model == model;
        assert forall h1, h2 :: (0 <= h1 < h2 < |rows| && rows[h1].model == model && rows[h2].model == model &&
                                 matches(rows[h1], params) && matches(rows[h2], params)) ==> |hs| >= 2 by {
          forall h1, h2 | 0 <= h1 < h2 < |rows| && rows[h1].model == model && rows[h2].model == model &&
                          matches(rows[h1], params) && matches(rows[h2], params)
            ensures |hs| >= 2
          {
            assert h1 in hs && h2 in hs;
          }
        }
        Multiple
    }

    /** `Model(**fields).save()`: a new row at the end of the table. */
    method Persist(model: ModelRef, fields: Assoc<Slot>) returns (h: Handle)
      modifies this
      ensures rows == old(rows) + [Row(model, fields)]
      ensures h == |old(rows)| && rows[h] == Row(model, fields)
      ensures memberships == old(memberships)
    {
      h := |rows|;
      rows := rows + [Row(model, fields)];
    }

    /** `getattr(owner, field).set(members)`: replaces the members of one relation. */
    method SetMembers(owner: Handle, field: string, members: seq<Handle>)
      modifies this
      ensures memberships == old(memberships) + [Membership(owner, field, members)]
      ensures rows == old(rows)
    {
      memberships := memberships + [Membership(owner, field, members)];
    }

    /** The end of a failed `transaction.atomic()` block: every write since the savepoint is undone. */
    method RollBack(savedRows: seq<Row>, savedMemberships: seq<Membership>)
      modifies this
      ensures rows == savedRows && memberships == savedMemberships
    {
      rows := savedRows;
      memberships := savedMemberships;
    }

    /** The members a many-to-many relation holds now: those of its latest `set`. */
    function MembersOf(owner: Handle, field: string): (r: seq<Handle>)
      reads this
      ensures r != [] ==> exists i :: 0 <= i < |memberships| && memberships[i] == Membership(owner, field, r)
    {
      LatestMembers(memberships, owner, field)
    }
  }

  function LatestMembers(log: seq<Membership>, owner: Handle, field: string): (r: seq<Handle>)
    ensures r != [] ==> exists i :: 0 <= i < |log| && log[i] == Membership(owner, field, r)
    decreases |log|
  {
    if log == [] then []
    else
      var last := log[|log| - 1];
      if last.owner == owner && last.field == field then last.members
      else
        var r := LatestMembers(log[..|log| - 1], owner, field);
        if r != [] then
          var i :| 0 <= i < |log| - 1 && log[..|log| - 1][i] == Membership(owner, field, r);
          assert log[i] == Membership(owner, field, r);
          r
        else r
  }

  /** A `set` replaces what the relation held before and leaves every other relation alone. */
  lemma SetReplacesMembers(log: seq<Membership>, owner: Handle, field: string, members: seq<Handle>,
                           owner': Handle, field': string)
    ensures LatestMembers(log + [Membership(owner, field, members)], owner, field) == members
    ensures (owner', field') != (owner, field) ==>
              LatestMembers(log + [Membership(owner, field, members)], owner', field') == LatestMembers(log, owner', field')
  {
    assert (log + [Membership(owner, field, members)])[..|log|] == log;
  }
}

/**
 * What the seed loader asks Django about models, as plain data: the app
 * registry (`apps.get_model`) and, per model, the list `_meta.get_fields()`
 * returns, in order, with the attributes the loader reads.
 */
module Schema {
  import opened Wrappers

  /** A model class, known by its app label and class name (`_meta.app_label`, `__name__`). */
  datatype ModelRef = ModelRef(app: string, name: string)

  /** The class of a concrete field. */
  datatype FieldKind =
    | Plain
    | ForeignKey
    | OneToOne
    | ManyToMany(through: ModelRef, throughAutoCreated: bool)

  /** One entry of `_meta.get_fields()`. */
  datatype Member =
    | Concrete(name: string, kind: FieldKind, relatedModel: Option<ModelRef>)
    /**
     * A relation declared on another model that points here. `name` is the
     * name `get_field` knows it by, `accessor` what `get_accessor_name()`
     * returns, `fieldName` the name of the pointing field.
     */
    | Reverse(name: string, accessor: string, relatedModel: Option<ModelRef>, fieldName: string,
              oneToOne: bool, oneToMany: bool, autoCreated: bool)

  datatype Schema = Schema(models: map<(string, string), ModelRef>, members: map<ModelRef, seq<Member>>)

  /** `apps.get_model(app_label, model_name)`; `None` where Django raises `LookupError`. */
  function GetModel(schema: Schema, app: string, name: string): Option<ModelRef> {
    if (app, name) in schema.models then Some(schema.models[(app, name)]) else None
  }

  /** `_meta.get_fields()` */
  function GetFields(schema: Schema, model: ModelRef): seq<Member> {
    if model in schema.members then schema.members[model] else []
  }

  function FindMember(ms: seq<Member>, name: string): (r: Option<Member>)
    ensures r.Some? ==> r.value in ms && r.value.name == name
    ensures r.None? ==> forall i :: 0 <= i < |ms| ==> ms[i].name != name
  {
    if ms == [] then None
    else if ms[0].name == name then Some(ms[0])
    else FindMember(ms[1..], name)
  }

  /** `_meta.get_field(name)`; `None` where Django raises `FieldDoesNotExist`. */
  function GetField(schema: Schema, model: ModelRef, name: string): Option<Member> {
    FindMember(GetFields(schema, model), name)
  }

  /**
   * `isinstance(field, ForeignKey)`. Django's `OneToOneField` is a subclass
   * of `ForeignKey`, so a one-to-one field passes this test too.
   */
  predicate IsForeignKeyInstance(m: Member) {
    m.Concrete? && (m.kind.ForeignKey? || m.kind.OneToOne?)
  }

  /** `isinstance(field, OneToOneField)` */
  predicate IsOneToOneInstance(m: Member) {
    m.Concrete? && m.kind.OneToOne?
  }

  /** `isinstance(field, ManyToManyField)` */
  predicate IsManyToManyInstance(m: Member) {
    m.Concrete? && m.kind.ManyToMany?
  }
}

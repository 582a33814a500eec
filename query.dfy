/** Values the relation-existence compiler reads and produces: where-records,
    subqueries, relations and the relation graph of the models. */
module Query {

  datatype Option<T> = None | Some(value: T)

  /** Failures surfaced to the caller of a compilation. */
  datatype Error =
    | UnknownRelation(model: string, relation: string)  // the model defines no relation of that name
    | UnknownRelationType                                // the key resolver's 'Unknown relation type'

  datatype Result<T> = Ok(value: T) | Err(error: Error)

  /** A method's completion: normal return or a thrown error. */
  datatype Outcome = Pass | Fail(error: Error)

  function ToOutcome<T>(res: Result<T>): Outcome {
    if res.Ok? then Pass else Fail(res.error)
  }

  /** One entry of a builder's where-list. */
  datatype Where =
    | Basic(clause: string)                                      // a constraint from a relation or a user callback
    | ColumnEquals(first: string, second: string)                // whereColumn(first, '=', second)
    | CountCompare(sub: Sub, operator: string, count: int, boolean: string)
    | Exists(sub: Sub, boolean: string, negated: bool)
    | In(column: string, sub: Sub, boolean: string, negated: bool)

  /** The base query of a subquery (what toBase() hands over): its projection and its where-list. */
  datatype Sub = Sub(columns: seq<string>, wheres: seq<Where>)

  /** The where-list after an operation that either appended `res` or failed. */
  function Appended(wheres: seq<Where>, res: Result<Where>): seq<Where> {
    if res.Ok? then wheres + [res.value] else wheres
  }

  /** The relation classes the compiler distinguishes, with the key names each exposes. */
  datatype RelationKind =
    | BelongsTo(foreignKey: string, ownerKey: string)
    | HasOneOrMany(qualifiedParentKey: string, qualifiedForeignKey: string)
    | OtherKind(className: string, join: Where)   // many-to-many, polymorphic, ...

  /** A relation obtained without its default constraints: its kind, the class of the
      related model, and the wheres of its own query (merged into the subquery). */
  datatype Relation = Relation(kind: RelationKind, related: string, constraints: seq<Where>)

  /** A model class: whether its instances switch to IN when created, and its relations by name. */
  datatype ModelClass = ModelClass(usesIn: bool, relations: map<string, Relation>)

  type Schema = map<string, ModelClass>

  predicate HasRelation(schema: Schema, model: string, name: string) {
    model in schema && name in schema[model].relations
  }

  /** Whether a freshly created instance of `model` reports isUseIn(). */
  predicate UsesIn(schema: Schema, model: string) {
    model in schema && schema[model].usesIn
  }

  /** The correlation predicate an existence subquery starts with (its wheres[0]);
      table qualification of the column names is not modelled. */
  function ExistenceJoin(kind: RelationKind): Where {
    match kind
    case BelongsTo(foreignKey, ownerKey) => ColumnEquals(foreignKey, ownerKey)
    case HasOneOrMany(parentKey, foreignKey) => ColumnEquals(parentKey, foreignKey)
    case OtherKind(_, join) => join
  }
}

/** The decision addHasWhere makes for one hop (COUNT, EXISTS or IN), the key
    resolver the IN form needs, and what the decision guarantees. */
module HasWhere {
  import opened Query

  /** The host framework's canUseExistsForExistenceCheck: only "at least one"
      and "none" reduce to a plain existence test. */
  predicate FrameworkCanUseExists(operator: string, count: int) {
    (operator == ">=" || operator == "<") && count == 1
  }

  /** The negation flag handed to the EXISTS and IN forms. */
  predicate Negated(operator: string, count: int) {
    operator == "<" && count == 1
  }

  datatype Strategy = CountStrategy | ExistsStrategy | InStrategy

  /** The branch addHasWhere takes. */
  function Choose(canUseExists: bool, useExists: bool, useIn: bool, parentUseIn: bool): Strategy {
    if !canUseExists then CountStrategy
    else if !useExists && (useIn || parentUseIn) then InStrategy
    else ExistsStrategy
  }

  /** getWhereInKey: the outer column of the IN test. */
  function WhereInKey(relation: Relation): (r: Result<string>)
    ensures r.Ok? <==> !relation.kind.OtherKind?
    ensures r.Err? ==> r.error == UnknownRelationType
  {
    match relation.kind
    case BelongsTo(foreignKey, _) => Ok(foreignKey)
    case HasOneOrMany(parentKey, _) => Ok(parentKey)
    case OtherKind(_, _) => Err(UnknownRelationType)
  }

  /** getWhereInSubKey: the column the IN subquery projects. */
  function WhereInSubKey(relation: Relation): (r: Result<string>)
    ensures r.Ok? <==> !relation.kind.OtherKind?
    ensures r.Err? ==> r.error == UnknownRelationType
  {
    match relation.kind
    case BelongsTo(_, ownerKey) => Ok(ownerKey)
    case HasOneOrMany(_, foreignKey) => Ok(foreignKey)
    case OtherKind(_, _) => Err(UnknownRelationType)
  }

  /** unset($wheres[0]) on a list. */
  function Unset0(wheres: seq<Where>): seq<Where> {
    if wheres == [] then [] else wheres[1..]
  }

  /** The where addHasWhere appends for the existence subquery `hasQuery`
      (before the relation's own constraints are merged into it). */
  function HasWhereFragment(hasQuery: Sub, relation: Relation, operator: string, count: int, boolean: string,
                            useExists: bool, useIn: bool, parentUseIn: bool,
                            canUseExists: (string, int) -> bool): Result<Where>
  {
    var merged := Sub(hasQuery.columns, hasQuery.wheres + relation.constraints);
    match Choose(canUseExists(operator, count), useExists, useIn, parentUseIn)
    case CountStrategy => Ok(CountCompare(merged, operator, count, boolean))
    case InStrategy =>
      var key := WhereInKey(relation);
      if key.Err? then Err(key.error)
      else
        var subKey := WhereInSubKey(relation);
        Ok(In(key.value, Sub([subKey.value], Unset0(merged.wheres)), boolean, Negated(operator, count)))
    case ExistsStrategy => Ok(Exists(merged, boolean, Negated(operator, count)))
  }

  /** When the count condition is not a plain existence test, one count
      comparison is produced, whatever the flags are. */
  lemma CountFallback(hasQuery: Sub, relation: Relation, operator: string, count: int, boolean: string,
                      useExists: bool, useIn: bool, parentUseIn: bool, canUseExists: (string, int) -> bool)
    requires !canUseExists(operator, count)
    ensures HasWhereFragment(hasQuery, relation, operator, count, boolean, useExists, useIn, parentUseIn, canUseExists)
         == Ok(CountCompare(Sub(hasQuery.columns, hasQuery.wheres + relation.constraints), operator, count, boolean))
  {
  }

  /** IN is chosen exactly when `exists` is off and either the builder or the
      parent model asks for `in`; otherwise EXISTS. Both carry the caller's boolean. */
  lemma ExistenceChoice(hasQuery: Sub, relation: Relation, operator: string, count: int, boolean: string,
                        useExists: bool, useIn: bool, parentUseIn: bool, canUseExists: (string, int) -> bool)
    requires canUseExists(operator, count)
    ensures var r := HasWhereFragment(hasQuery, relation, operator, count, boolean, useExists, useIn, parentUseIn, canUseExists);
      && (r.Err? || r.value.In? <==> !useExists && (useIn || parentUseIn))
      && (r.Ok? ==> (r.value.In? || r.value.Exists?) && r.value.boolean == boolean)
  {
  }

  /** EXISTS and IN are negated exactly for ("<", 1); under the framework's
      predicate that is exactly when the operator is "<". */
  lemma NegationFlag(hasQuery: Sub, relation: Relation, operator: string, count: int, boolean: string,
                     useExists: bool, useIn: bool, parentUseIn: bool, canUseExists: (string, int) -> bool)
    ensures var r := HasWhereFragment(hasQuery, relation, operator, count, boolean, useExists, useIn, parentUseIn, canUseExists);
      r.Ok? && (r.value.Exists? || r.value.In?) ==>
        (r.value.negated <==> operator == "<" && count == 1)
        && (canUseExists == FrameworkCanUseExists ==> (r.value.negated <==> operator == "<"))
  {
  }

  /** The IN form: the outer column is getWhereInKey, the subquery projects
      getWhereInSubKey and keeps every merged where except the first. */
  lemma InSubquery(hasQuery: Sub, relation: Relation, operator: string, count: int, boolean: string,
                   useExists: bool, useIn: bool, parentUseIn: bool, canUseExists: (string, int) -> bool)
    ensures var r := HasWhereFragment(hasQuery, relation, operator, count, boolean, useExists, useIn, parentUseIn, canUseExists);
      var merged := hasQuery.wheres + relation.constraints;
      r.Ok? && r.value.In? ==>
        && r.value.column == WhereInKey(relation).value
        && r.value.sub.columns == [WhereInSubKey(relation).value]
        && (merged != [] ==> r.value.sub.wheres == merged[1..])
  {
  }

  /** The key resolver: BelongsTo gives (foreign key, owner key), HasOneOrMany
      gives (parent key, foreign key), anything else fails with 'Unknown relation
      type' in both resolvers. The pair is the one the existence subquery's
      correlation compares, which the IN form drops. */
  lemma KeyResolution(relation: Relation)
    ensures relation.kind.BelongsTo? ==>
      WhereInKey(relation) == Ok(relation.kind.foreignKey) && WhereInSubKey(relation) == Ok(relation.kind.ownerKey)
    ensures relation.kind.HasOneOrMany? ==>
      WhereInKey(relation) == Ok(relation.kind.qualifiedParentKey) && WhereInSubKey(relation) == Ok(relation.kind.qualifiedForeignKey)
    ensures relation.kind.OtherKind? ==>
      WhereInKey(relation) == Err(UnknownRelationType) && WhereInSubKey(relation) == Err(UnknownRelationType)
    ensures !relation.kind.OtherKind? ==>
      ExistenceJoin(relation.kind) == ColumnEquals(WhereInKey(relation).value, WhereInSubKey(relation).value)
  {
  }

  /** An unsupported kind fails only on the IN path, and only with 'Unknown
      relation type'; COUNT and EXISTS never consult the relation's kind. */
  lemma UnsupportedOnlyOnIn(hasQuery: Sub, relation: Relation, other: RelationKind, operator: string, count: int, boolean: string,
                            useExists: bool, useIn: bool, parentUseIn: bool, canUseExists: (string, int) -> bool)
    ensures var r := HasWhereFragment(hasQuery, relation, operator, count, boolean, useExists, useIn, parentUseIn, canUseExists);
      && (r.Err? <==> Choose(canUseExists(operator, count), useExists, useIn, parentUseIn) == InStrategy && relation.kind.OtherKind?)
      && (r.Err? ==> r.error == UnknownRelationType)
    ensures Choose(canUseExists(operator, count), useExists, useIn, parentUseIn) != InStrategy ==>
      HasWhereFragment(hasQuery, relation, operator, count, boolean, useExists, useIn, parentUseIn, canUseExists)
      == HasWhereFragment(hasQuery, relation.(kind := other), operator, count, boolean, useExists, useIn, parentUseIn, canUseExists)
  {
  }
}

/** The builder side: `whereHasIn`, `whereHasNotIn`, the nesting of dotted
    relation paths, and addHasWhere's composition of the chosen test. Each
    method's effect on the where-list is tied to the value-level compilation
    in module PathCompiler. */
module WhereHasInDecorator {
  import opened Query
  import opened HasWhere
  import opened PathCompiler
  import Paths
  import opened UseInDecorator

  /** The `$relations` array the nesting closure captures by reference. */
  class Segments {
    var items: seq<string>

    constructor (items: seq<string>)
      ensures this.items == items
    {
      this.items := items;
    }

    /** array_shift: removes and returns the first element; nothing when empty. */
    method Shift() returns (head: Option<string>)
      modifies this
      ensures old(items) == [] ==> head == None && items == []
      ensures old(items) != [] ==> head == Some(old(items)[0]) && items == old(items)[1..]
    {
      if items == [] {
        head := None;
      } else {
        head := Some(items[0]);
        items := items[1..];
      }
    }
  }

  /** The callback `has` runs on an existence subquery: the caller's wheres, or
      the closure hasNested builds over the root builder and the shared segments. */
  datatype Scope =
    | User(callback: seq<Where>)
    | Nest(root: Builder, segments: Segments, operator: string, count: int, callback: seq<Where>)

  /** The hops a scope still has to add below the current one. */
  ghost function Tail(scope: Scope): seq<Step>
    reads if scope.Nest? then {scope.segments} else {}
    requires scope.Nest? ==> |scope.segments.items| >= 1
  {
    if scope.Nest? then NestedTail(scope.segments.items, scope.operator, scope.count) else []
  }

  ghost function Frame(scope: Scope): set<object> {
    if scope.Nest? then {scope.segments} else {}
  }

  class Builder {
    /** The model the builder queries; relations are looked up on it and it is
        their parent. */
    const model: Model
    var useExists: bool
    var useIn: bool
    var columns: seq<string>
    var wheres: seq<Where>

    /** A fresh builder: both flags off, selecting everything, no wheres. */
    constructor (model: Model)
      ensures this.model == model
      ensures !useExists && !useIn && columns == ["*"] && wheres == []
    {
      this.model := model;
      useExists := false;
      useIn := false;
      columns := ["*"];
      wheres := [];
    }

    /** toBase(): the builder's query as a value. */
    function Base(): Sub
      reads this
    {
      Sub(columns, wheres)
    }

    /** Switches this builder to IN for good, then adds the existence condition
        joined with "and". The flag stays on even when the condition fails. */
    method WhereHasIn(schema: Schema, relation: string, callback: seq<Where>, operator: string, count: int,
                      canUseExists: (string, int) -> bool) returns (r: Outcome)
      modifies this
      ensures useIn && useExists == old(useExists) && columns == old(columns)
      ensures var spec := HasSpec(schema, model.name, old(model.useIn), old(useExists), true,
                                  relation, operator, count, "and", callback, canUseExists);
        r == ToOutcome(spec) && wheres == Appended(old(wheres), spec)
    {
      useIn := true;
      r := Has(schema, relation, operator, count, "and", callback, canUseExists);
    }

    /** Exactly WhereHasIn with ("<", 1): the relation has no matching row. */
    method WhereHasNotIn(schema: Schema, relation: string, callback: seq<Where>,
                         canUseExists: (string, int) -> bool) returns (r: Outcome)
      modifies this
      ensures useIn && useExists == old(useExists) && columns == old(columns)
      ensures var spec := HasSpec(schema, model.name, old(model.useIn), old(useExists), true,
                                  relation, "<", 1, "and", callback, canUseExists);
        r == ToOutcome(spec) && wheres == Appended(old(wheres), spec)
    {
      r := WhereHasIn(schema, relation, callback, "<", 1, canUseExists);
    }

    /** The framework's `has`: a dotted name goes to HasNested, any other is one hop. */
    method Has(schema: Schema, relation: string, operator: string, count: int, boolean: string,
               callback: seq<Where>, canUseExists: (string, int) -> bool) returns (r: Outcome)
      modifies this
      ensures useIn == old(useIn) && useExists == old(useExists) && columns == old(columns)
      ensures var spec := old(HasSpec(schema, model.name, model.useIn, useExists, useIn,
                                      relation, operator, count, boolean, callback, canUseExists));
        r == ToOutcome(spec) && wheres == Appended(old(wheres), spec)
    {
      if '.' in relation {
        r := HasNested(schema, relation, operator, count, boolean, callback, canUseExists);
      } else {
        assert Plan(Paths.Split(relation), operator, count, boolean) == [Step(relation, operator, count, boolean)] + Tail(User(callback));
        r := HasHop(schema, relation, operator, count, boolean, User(callback), canUseExists);
      }
    }

    /** Splits the path, tests the first segment with (">=", 1) and the caller's
        boolean, and hands the rest to the nesting closure. */
    method HasNested(schema: Schema, relations: string, operator: string, count: int, boolean: string,
                     callback: seq<Where>, canUseExists: (string, int) -> bool) returns (r: Outcome)
      requires '.' in relations
      modifies this
      ensures useIn == old(useIn) && useExists == old(useExists) && columns == old(columns)
      ensures var spec := old(Compile(schema, model.name, model.useIn, useExists, useIn,
                                      Plan(Paths.Split(relations), operator, count, boolean), callback, canUseExists));
        r == ToOutcome(spec) && wheres == Appended(old(wheres), spec)
    {
      var segments := new Segments(Paths.Split(relations));
      var first := segments.Shift();
      r := HasHop(schema, first.value, ">=", 1, boolean, Nest(this, segments, operator, count, callback), canUseExists);
    }

    /** One hop of `has` on a dot-free relation name: look the relation up,
        build its existence subquery on a fresh builder for the related model,
        run the scope on it, then addHasWhere. */
    method HasHop(schema: Schema, relation: string, operator: string, count: int, boolean: string,
                  scope: Scope, canUseExists: (string, int) -> bool) returns (r: Outcome)
      requires scope.Nest? ==> |scope.segments.items| >= 1 && scope.root.useIn == useIn
      modifies this, Frame(scope)
      decreases if scope.Nest? then |scope.segments.items| else 0, 1
      ensures useIn == old(useIn) && useExists == old(useExists) && columns == old(columns)
      ensures var spec := old(Compile(schema, model.name, model.useIn, useExists, useIn,
                                      [Step(relation, operator, count, boolean)] + Tail(scope), scope.callback, canUseExists));
        r == ToOutcome(spec) && wheres == Appended(old(wheres), spec)
      ensures scope.Nest? && r.Pass? ==> scope.segments.items == []
    {
      var step := Step(relation, operator, count, boolean);
      ghost var rest := Tail(scope);
      var name := model.name;
      if !HasRelation(schema, name, relation) {
        return Fail(UnknownRelation(name, relation));
      }
      var rel := schema[name].relations[relation];
      CompileHop(schema, name, model.useIn, useExists, useIn, step, rest, scope.callback, canUseExists);
      ghost var expected := Scoped(schema, rel.related, UsesIn(schema, rel.related), useIn, rest, scope.callback, canUseExists);
      var hasQuery := ExistenceQuery(schema, rel, step, canUseExists);
      var scoped := hasQuery.CallScope(schema, scope, canUseExists);
      assert scoped == ToOutcome(expected);
      if scoped.Fail? {
        return scoped;
      }
      r := AddHasWhere(hasQuery, rel, operator, count, boolean, canUseExists);
    }

    /** getRelationExistenceQuery / getRelationExistenceCountQuery: a fresh
        builder on a fresh instance of the related model, selecting all columns
        or a row count, with the relation's correlation as its only where. */
    static method ExistenceQuery(schema: Schema, relation: Relation, step: Step,
                                 canUseExists: (string, int) -> bool) returns (hasQuery: Builder)
      ensures fresh(hasQuery) && fresh(hasQuery.model)
      ensures hasQuery.model.name == relation.related && hasQuery.model.useIn == UsesIn(schema, relation.related)
      ensures !hasQuery.useExists && !hasQuery.useIn
      ensures hasQuery.Base() == Sub(ExistenceColumns(step, canUseExists), [ExistenceJoin(relation.kind)])
    {
      var related := new Model(relation.related);
      if UsesIn(schema, relation.related) {
        related.UseIn();
      }
      hasQuery := new Builder(related);
      hasQuery.columns := ExistenceColumns(step, canUseExists);
      hasQuery.wheres := [ExistenceJoin(relation.kind)];
    }

    /** callScope on an existence subquery: the caller's callback adds its
        wheres; the nesting closure gives this builder the root's `useIn`,
        shifts the next segment off and adds its test, with whereHas (">=", 1)
        while more than one segment is left, else with the caller's condition
        and callback. */
    method CallScope(schema: Schema, scope: Scope, canUseExists: (string, int) -> bool) returns (r: Outcome)
      requires scope.Nest? ==> |scope.segments.items| >= 1 && !useExists && scope.root != this
      modifies this, Frame(scope)
      decreases if scope.Nest? then |scope.segments.items| else 0, 0
      ensures useIn == (if scope.Nest? then old(scope.root.useIn) else old(useIn))
      ensures useExists == old(useExists) && columns == old(columns)
      ensures var spec := old(Scoped(schema, model.name, model.useIn, if scope.Nest? then scope.root.useIn else useIn,
                                     Tail(scope), scope.callback, canUseExists));
        && r == ToOutcome(spec)
        && wheres == old(wheres) + (if spec.Ok? then spec.value else [])
      ensures scope.Nest? && r.Pass? ==> scope.segments.items == []
    {
      match scope {
        case User(callback) =>
          wheres := wheres + callback;
          r := Pass;
        case Nest(root, segments, operator, count, callback) =>
          ghost var items := segments.items;
          useIn := root.useIn;
          if |segments.items| > 1 {
            var next := segments.Shift();
            assert NestedTail(items, operator, count) == [Step(next.value, ">=", 1, "and")] + Tail(scope);
            r := HasHop(schema, next.value, ">=", 1, "and", scope, canUseExists);
          } else {
            var last := segments.Shift();
            assert NestedTail(items, operator, count) == [Step(last.value, operator, count, "and")] + Tail(User(callback));
            r := HasHop(schema, last.value, operator, count, "and", User(callback), canUseExists);
          }
      }
    }

    /** Merges the relation's constraints into the subquery, then appends a
        count comparison, an IN test (dropping the subquery's first where and
        projecting the inner key) or an EXISTS test. A failure of the key
        resolver leaves this where-list as it was. */
    method AddHasWhere(hasQuery: Builder, relation: Relation, operator: string, count: int, boolean: string,
                       canUseExists: (string, int) -> bool) returns (r: Outcome)
      requires hasQuery != this
      modifies this, hasQuery
      ensures useIn == old(useIn) && useExists == old(useExists) && columns == old(columns)
      ensures var spec := HasWhereFragment(old(hasQuery.Base()), relation, operator, count, boolean,
                                           old(useExists), old(useIn), old(model.useIn), canUseExists);
        r == ToOutcome(spec) && wheres == Appended(old(wheres), spec)
      ensures var merged := old(hasQuery.wheres) + relation.constraints;
        hasQuery.wheres ==
          if Choose(canUseExists(operator, count), old(useExists), old(useIn), old(model.useIn)) == InStrategy
          then Unset0(merged) else merged
    {
      hasQuery.wheres := hasQuery.wheres + relation.constraints;
      if !canUseExists(operator, count) {
        wheres := wheres + [CountCompare(hasQuery.Base(), operator, count, boolean)];
        return Pass;
      }
      var parentUseIn := model.IsUseIn();
      if !useExists && (useIn || parentUseIn) {
        hasQuery.wheres := Unset0(hasQuery.wheres);
        var key := WhereInKey(relation);
        if key.Err? {
          return Fail(key.error);
        }
        var subKey := WhereInSubKey(relation);
        hasQuery.columns := [subKey.value];
        wheres := wheres + [In(key.value, hasQuery.Base(), boolean, Negated(operator, count))];
        return Pass;
      }
      wheres := wheres + [Exists(hasQuery.Base(), boolean, Negated(operator, count))];
      r := Pass;
    }
  }
}

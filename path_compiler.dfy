/** What one call of `has` on a relation path appends to a builder, as a value:
    the path is cut into hops, each hop but the last tests (">=", 1), and every
    hop below the root is decided with the root's `useIn` flag. */
module PathCompiler {
  import opened Query
  import opened HasWhere
  import Paths

  /** One hop of a path: the relation it tests and the condition it carries. */
  datatype Step = Step(relation: string, operator: string, count: int, boolean: string)

  /** The hops the nesting closure creates for the segments left after the root's:
      every one joined with "and", the last carrying the caller's condition. */
  function NestedTail(rest: seq<string>, operator: string, count: int): (plan: seq<Step>)
    requires |rest| >= 1
    ensures |plan| == |rest|
    ensures forall i :: 0 <= i < |rest| ==> plan[i].relation == rest[i] && plan[i].boolean == "and"
    ensures forall i :: 0 <= i < |rest| - 1 ==> plan[i].operator == ">=" && plan[i].count == 1
    ensures plan[|rest| - 1].operator == operator && plan[|rest| - 1].count == count
    decreases |rest|
  {
    if |rest| == 1 then [Step(rest[0], operator, count, "and")]
    else [Step(rest[0], ">=", 1, "and")] + NestedTail(rest[1..], operator, count)
  }

  /** The hops of a path: one per segment, in order; only the root carries the
      caller's boolean and only the last the caller's operator and count. */
  function Plan(segments: seq<string>, operator: string, count: int, boolean: string): (plan: seq<Step>)
    requires |segments| >= 1
    ensures |plan| == |segments|
    ensures forall i :: 0 <= i < |segments| ==> plan[i].relation == segments[i]
    ensures plan[0].boolean == boolean
    ensures forall i :: 1 <= i < |segments| ==> plan[i].boolean == "and"
    ensures forall i :: 0 <= i < |segments| - 1 ==> plan[i].operator == ">=" && plan[i].count == 1
    ensures plan[|segments| - 1].operator == operator && plan[|segments| - 1].count == count
  {
    if |segments| == 1 then [Step(segments[0], operator, count, boolean)]
    else [Step(segments[0], ">=", 1, boolean)] + NestedTail(segments[1..], operator, count)
  }

  /** The where a builder on `model` (with the given flags) appends for `plan`:
      the relation is looked up, its existence subquery starts with the
      correlation, the callback adds to it (Scoped), and addHasWhere decides
      the form. */
  function Compile(schema: Schema, model: string, parentUseIn: bool, useExists: bool, useIn: bool,
                   plan: seq<Step>, callback: seq<Where>, canUseExists: (string, int) -> bool): Result<Where>
    requires |plan| >= 1
    decreases |plan|, 0
  {
    var step := plan[0];
    if !HasRelation(schema, model, step.relation) then Err(UnknownRelation(model, step.relation))
    else
      var relation := schema[model].relations[step.relation];
      var columns := ExistenceColumns(step, canUseExists);
      var scoped := Scoped(schema, relation.related, UsesIn(schema, relation.related), useIn, plan[1..], callback, canUseExists);
      if scoped.Err? then Err(scoped.error)
      else
        HasWhereFragment(Sub(columns, [ExistenceJoin(relation.kind)] + scoped.value), relation,
                         step.operator, step.count, step.boolean, useExists, useIn, parentUseIn, canUseExists)
  }

  /** The wheres the callback adds to an existence subquery on `model`: the
      caller's at the last hop, else the test for the remaining hops, made by
      a fresh builder (`useExists` off) given the root's `useIn`. */
  function Scoped(schema: Schema, model: string, parentUseIn: bool, useIn: bool,
                  rest: seq<Step>, callback: seq<Where>, canUseExists: (string, int) -> bool): Result<seq<Where>>
    decreases |rest|, 1
  {
    if rest == [] then Ok(callback)
    else
      match Compile(schema, model, parentUseIn, false, useIn, rest, callback, canUseExists)
      case Ok(w) => Ok([w])
      case Err(e) => Err(e)
  }

  /** The columns an existence subquery starts with: all, or a row count. */
  function ExistenceColumns(step: Step, canUseExists: (string, int) -> bool): seq<string> {
    if canUseExists(step.operator, step.count) then ["*"] else ["count(*)"]
  }

  /** Compile on a plan whose first hop's relation exists, in terms of that
      hop's subquery and the wheres its callback adds. */
  lemma CompileHop(schema: Schema, model: string, parentUseIn: bool, useExists: bool, useIn: bool,
                   step: Step, rest: seq<Step>, callback: seq<Where>, canUseExists: (string, int) -> bool)
    requires HasRelation(schema, model, step.relation)
    ensures var relation := schema[model].relations[step.relation];
      var scoped := Scoped(schema, relation.related, UsesIn(schema, relation.related), useIn, rest, callback, canUseExists);
      Compile(schema, model, parentUseIn, useExists, useIn, [step] + rest, callback, canUseExists)
      == if scoped.Err? then Err(scoped.error)
         else HasWhereFragment(Sub(ExistenceColumns(step, canUseExists), [ExistenceJoin(relation.kind)] + scoped.value),
                               relation, step.operator, step.count, step.boolean, useExists, useIn, parentUseIn, canUseExists)
  {
    assert ([step] + rest)[0] == step && ([step] + rest)[1..] == rest;
  }

  /** `has` on a possibly dotted relation name. */
  function HasSpec(schema: Schema, model: string, parentUseIn: bool, useExists: bool, useIn: bool,
                   relation: string, operator: string, count: int, boolean: string,
                   callback: seq<Where>, canUseExists: (string, int) -> bool): Result<Where>
  {
    Compile(schema, model, parentUseIn, useExists, useIn,
            Plan(Paths.Split(relation), operator, count, boolean), callback, canUseExists)
  }

  /** The nested test a hop's subquery carries: after the correlation for
      COUNT and EXISTS, first for IN (whose correlation was dropped). */
  function Inner(w: Where): Where {
    match w
    case In(_, sub, _, _) => if |sub.wheres| >= 1 then sub.wheres[0] else w
    case Exists(sub, _, _) => if |sub.wheres| >= 2 then sub.wheres[1] else w
    case CountCompare(sub, _, _, _) => if |sub.wheres| >= 2 then sub.wheres[1] else w
    case _ => w
  }

  /** The first `n` tests of a nest, outermost first. */
  function Chain(w: Where, n: nat): (tests: seq<Where>)
    ensures |tests| == n
    ensures n > 0 ==> tests[0] == w
    decreases n
  {
    if n == 0 then [] else [w] + Chain(Inner(w), n - 1)
  }

  /** `w` is the test for `step`: a count comparison when the condition is not a
      plain existence test, else EXISTS or IN (IN when `forcedIn`). */
  predicate HopMatches(w: Where, step: Step, canUseExists: (string, int) -> bool, forcedIn: bool) {
    if !canUseExists(step.operator, step.count) then
      w.CountCompare? && w.operator == step.operator && w.count == step.count && w.boolean == step.boolean
    else
      && (w.Exists? || w.In?)
      && w.boolean == step.boolean
      && w.negated == Negated(step.operator, step.count)
      && (forcedIn ==> w.In?)
  }

  /** A compiled plan of n hops is a nest of n tests, the i-th one for plan[i];
      every hop is decided with the root's `useIn`, so with `useIn` on (and the
      root's `useExists` off) every existence test is IN. */
  lemma {:induction false} CompileChain(schema: Schema, model: string, parentUseIn: bool, useExists: bool, useIn: bool,
                                        plan: seq<Step>, callback: seq<Where>, canUseExists: (string, int) -> bool, w: Where)
    requires |plan| >= 1
    requires Compile(schema, model, parentUseIn, useExists, useIn, plan, callback, canUseExists) == Ok(w)
    ensures |Chain(w, |plan|)| == |plan|
    ensures HopMatches(w, plan[0], canUseExists, useIn && !useExists)
    ensures forall i :: 1 <= i < |plan| ==> HopMatches(Chain(w, |plan|)[i], plan[i], canUseExists, useIn)
    decreases |plan|
  {
    var relation := schema[model].relations[plan[0].relation];
    if |plan| == 1 {
      assert Chain(w, 1) == [w];
    } else {
      var inner := Compile(schema, relation.related, UsesIn(schema, relation.related), false, useIn, plan[1..], callback, canUseExists);
      CompileChain(schema, relation.related, UsesIn(schema, relation.related), false, useIn, plan[1..], callback, canUseExists, inner.value);
      assert Inner(w) == inner.value;
      var rest := Chain(inner.value, |plan| - 1);
      assert Chain(w, |plan|) == [w] + rest;
      forall i | 1 <= i < |plan|
        ensures HopMatches(Chain(w, |plan|)[i], plan[i], canUseExists, useIn)
      {
        assert plan[1..][i - 1] == plan[i];
        if i > 1 {
          assert HopMatches(rest[i - 1], plan[1..][i - 1], canUseExists, useIn);
        }
      }
    }
  }

  /** Every relation on the path exists, hop after hop. */
  predicate Resolves(schema: Schema, model: string, names: seq<string>)
    decreases |names|
  {
    names == [] ||
    (HasRelation(schema, model, names[0]) &&
     Resolves(schema, schema[model].relations[names[0]].related, names[1..]))
  }

  /** Every relation on the path exists and has a kind the key resolver knows. */
  predicate ResolvesSupported(schema: Schema, model: string, names: seq<string>)
    decreases |names|
  {
    names == [] ||
    (HasRelation(schema, model, names[0]) &&
     !schema[model].relations[names[0]].kind.OtherKind? &&
     ResolvesSupported(schema, schema[model].relations[names[0]].related, names[1..]))
  }

  function Names(plan: seq<Step>): seq<string> {
    seq(|plan|, i requires 0 <= i < |plan| => plan[i].relation)
  }

  /** Compilation fails with UnknownRelation exactly when some segment of the
      path is not a relation of the model reached so far; when every relation
      exists and has a supported kind it succeeds. */
  lemma {:induction false} CompileErrors(schema: Schema, model: string, parentUseIn: bool, useExists: bool, useIn: bool,
                                         plan: seq<Step>, callback: seq<Where>, canUseExists: (string, int) -> bool)
    requires |plan| >= 1
    ensures var r := Compile(schema, model, parentUseIn, useExists, useIn, plan, callback, canUseExists);
      (r.Err? && r.error.UnknownRelation? <==> !Resolves(schema, model, Names(plan)))
    ensures ResolvesSupported(schema, model, Names(plan)) ==>
      Compile(schema, model, parentUseIn, useExists, useIn, plan, callback, canUseExists).Ok?
    decreases |plan|
  {
    var names := Names(plan);
    assert names[1..] == Names(plan[1..]);
    if HasRelation(schema, model, plan[0].relation) {
      var relation := schema[model].relations[plan[0].relation];
      if |plan| > 1 {
        CompileErrors(schema, relation.related, UsesIn(schema, relation.related), false, useIn, plan[1..], callback, canUseExists);
      }
    }
  }

  /** The relations a path reaches from `model`, one per segment, in order. */
  function Along(schema: Schema, model: string, names: seq<string>): (relations: seq<Relation>)
    requires Resolves(schema, model, names)
    ensures |relations| == |names|
    decreases |names|
  {
    if names == [] then []
    else
      var relation := schema[model].relations[names[0]];
      [relation] + Along(schema, relation.related, names[1..])
  }

  /** `test` is the existence test for `relation` whose subquery carries `body`
      between the correlation and the relation's own constraints: EXISTS and
      COUNT keep the correlation, IN drops it and compares the resolver's keys. */
  predicate Wraps(test: Where, relation: Relation, body: seq<Where>) {
    match test
    case Exists(sub, _, _) =>
      sub == Sub(["*"], [ExistenceJoin(relation.kind)] + body + relation.constraints)
    case CountCompare(sub, _, _, _) =>
      sub == Sub(["count(*)"], [ExistenceJoin(relation.kind)] + body + relation.constraints)
    case In(column, sub, _, _) =>
      && WhereInKey(relation) == Ok(column)
      && WhereInSubKey(relation).Ok? && sub.columns == [WhereInSubKey(relation).value]
      && sub.wheres == body + relation.constraints
    case _ => false
  }

  /** `w` nests one test per relation, outermost first: each subquery holds
      exactly the next test, and the deepest one the caller's callback. */
  predicate Nests(w: Where, relations: seq<Relation>, callback: seq<Where>)
    requires |relations| >= 1
    decreases |relations|
  {
    if |relations| == 1 then Wraps(w, relations[0], callback)
    else Wraps(w, relations[0], [Inner(w)]) && Nests(Inner(w), relations[1..], callback)
  }

  /** A compiled plan is the nest of the relations its segments reach, in
      order, with the callback in the deepest subquery only. */
  lemma {:induction false} CompileNest(schema: Schema, model: string, parentUseIn: bool, useExists: bool, useIn: bool,
                                       plan: seq<Step>, callback: seq<Where>, canUseExists: (string, int) -> bool, w: Where)
    requires |plan| >= 1
    requires Compile(schema, model, parentUseIn, useExists, useIn, plan, callback, canUseExists) == Ok(w)
    ensures Resolves(schema, model, Names(plan))
    ensures Nests(w, Along(schema, model, Names(plan)), callback)
    decreases |plan|
  {
    var names := Names(plan);
    assert names[1..] == Names(plan[1..]);
    var relation := schema[model].relations[plan[0].relation];
    if |plan| == 1 {
      assert Wraps(w, relation, callback);
    } else {
      var inner := Compile(schema, relation.related, UsesIn(schema, relation.related), false, useIn, plan[1..], callback, canUseExists);
      CompileNest(schema, relation.related, UsesIn(schema, relation.related), false, useIn, plan[1..], callback, canUseExists, inner.value);
      assert Inner(w) == inner.value;
      assert Wraps(w, relation, [inner.value]);
      assert Along(schema, model, names)[1..] == Along(schema, relation.related, Names(plan[1..]));
    }
  }

  /** What the hop facts of a compiled plan mean for a path's nest of tests,
      under the framework's predicate. */
  lemma {:induction false} PathChain(segments: seq<string>, operator: string, count: int, boolean: string,
                  useExists: bool, useIn: bool, w: Where)
    requires |segments| >= 1
    requires var plan := Plan(segments, operator, count, boolean);
      && |Chain(w, |plan|)| == |plan|
      && HopMatches(w, plan[0], FrameworkCanUseExists, useIn && !useExists)
      && forall i :: 1 <= i < |plan| ==> HopMatches(Chain(w, |plan|)[i], plan[i], FrameworkCanUseExists, useIn)
    ensures var n := |segments|; var c := Chain(w, n);
      && |c| == n
      && forall i :: 0 <= i < n ==>
        && (c[i].CountCompare? || c[i].Exists? || c[i].In?)
        && c[i].boolean == (if i == 0 then boolean else "and")
        && (i < n - 1 ==> (c[i].Exists? || c[i].In?) && !c[i].negated)
        && (useIn && !useExists && !c[i].CountCompare? ==> c[i].In?)
    ensures var n := |segments|; var last := Chain(w, n)[n - 1];
      if FrameworkCanUseExists(operator, count) then
        (last.Exists? || last.In?) && (last.negated <==> operator == "<")
      else
        last.CountCompare? && last.operator == operator && last.count == count
  {
    var plan := Plan(segments, operator, count, boolean);
    var n := |segments|;
    var c := Chain(w, n);
    assert c[0] == w;
    forall i | 0 <= i < n
      ensures HopMatches(c[i], plan[i], FrameworkCanUseExists, useIn && !useExists)
    {
    }
  }

  /** `has` on a path of n segments yields n nested tests, one per segment in
      order: the root joined with the caller's boolean, the others with "and";
      under the framework's predicate every hop but the last is a non-negated
      existence test, the last is negated exactly for "<" or is the caller's
      count comparison; with `useIn` on, every existence test is IN. */
  lemma {:induction false} HasShape(schema: Schema, model: string, parentUseIn: bool, useExists: bool, useIn: bool,
                 relation: string, operator: string, count: int, boolean: string,
                 callback: seq<Where>, w: Where)
    requires HasSpec(schema, model, parentUseIn, useExists, useIn, relation, operator, count, boolean,
                     callback, FrameworkCanUseExists) == Ok(w)
    ensures var n := |Paths.Split(relation)|; var c := Chain(w, n);
      && |c| == n
      && forall i :: 0 <= i < n ==>
        && (c[i].CountCompare? || c[i].Exists? || c[i].In?)
        && c[i].boolean == (if i == 0 then boolean else "and")
        && (i < n - 1 ==> (c[i].Exists? || c[i].In?) && !c[i].negated)
        && (useIn && !useExists && !c[i].CountCompare? ==> c[i].In?)
    ensures var n := |Paths.Split(relation)|; var last := Chain(w, n)[n - 1];
      if FrameworkCanUseExists(operator, count) then
        (last.Exists? || last.In?) && (last.negated <==> operator == "<")
      else
        last.CountCompare? && last.operator == operator && last.count == count
  {
    var segments := Paths.Split(relation);
    var plan := Plan(segments, operator, count, boolean);
    assert Compile(schema, model, parentUseIn, useExists, useIn, plan, callback, FrameworkCanUseExists) == Ok(w);
    CompileChain(schema, model, parentUseIn, useExists, useIn, plan, callback, FrameworkCanUseExists, w);
    PathChain(segments, operator, count, boolean, useExists, useIn, w);
  }

  /** `has` on a path nests, in order, one test per relation its segments
      reach: test i is built from the relation reached by the first i+1
      segments, and the caller's callback sits in the deepest subquery only. */
  lemma {:induction false} HasNest(schema: Schema, model: string, parentUseIn: bool, useExists: bool, useIn: bool,
                relation: string, operator: string, count: int, boolean: string,
                callback: seq<Where>, canUseExists: (string, int) -> bool, w: Where)
    requires HasSpec(schema, model, parentUseIn, useExists, useIn, relation, operator, count, boolean,
                     callback, canUseExists) == Ok(w)
    ensures Resolves(schema, model, Paths.Split(relation))
    ensures Nests(w, Along(schema, model, Paths.Split(relation)), callback)
  {
    var segments := Paths.Split(relation);
    var plan := Plan(segments, operator, count, boolean);
    CompileNest(schema, model, parentUseIn, useExists, useIn, plan, callback, canUseExists, w);
    assert Names(plan) == segments;
  }

  /** A single-hop `has` with `useIn` on, over a HasOneOrMany relation: the
      parent key IN the foreign keys of the related rows that meet the
      callback's and the relation's own wheres (the correlation is gone). */
  lemma SingleHopIn(schema: Schema, model: string, parentUseIn: bool, name: string, callback: seq<Where>,
                    parentKey: string, foreignKey: string, related: string, constraints: seq<Where>)
    requires '.' !in name
    requires HasRelation(schema, model, name)
    requires schema[model].relations[name] == Relation(HasOneOrMany(parentKey, foreignKey), related, constraints)
    ensures HasSpec(schema, model, parentUseIn, false, true, name, ">=", 1, "and", callback, FrameworkCanUseExists)
         == Ok(In(parentKey, Sub([foreignKey], callback + constraints), "and", false))
  {
    var step := Step(name, ">=", 1, "and");
    assert Plan(Paths.Split(name), ">=", 1, "and") == [step] + [];
    CompileHop(schema, model, parentUseIn, false, true, step, [], callback, FrameworkCanUseExists);
    assert ([ColumnEquals(parentKey, foreignKey)] + callback + constraints)[1..] == callback + constraints;
  }
}

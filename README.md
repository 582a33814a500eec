# whereHasIn: relation-existence filters with IN subqueries

This project models the relation-existence decorator of the Luminee/eloquent
package for Laravel's Eloquent query builder. It adds `whereHasIn` and
`whereHasNotIn`. For a relation path such as `"posts.comments"` they append
one filter to the builder's where-list. The filter is one of three forms:
- a row-count comparison;
- a `[NOT] EXISTS` subquery;
- `outerKey [NOT] IN (select innerKey ...)`, where the subquery's correlation
  predicate (its first where) is dropped.

A model can also choose IN for every existence test on it by calling `useIn()`.

The project has these modules:
- `Query` (query.dfy): the values. Where-records, subqueries, relations, and
  the relation graph (`Schema`: model class → relations by name).
- `UseInDecorator` (use_in_decorator.dfy): the model-side flags `useExists` and
  `useIn`, as a class whose methods update them.
- `Paths` (paths.dfy): `explode('.', …)` on relation paths and its inverse.
- `HasWhere` (has_where.dfy): what addHasWhere decides for one hop (COUNT,
  EXISTS or IN), the key resolver, and what the decision guarantees.
- `PathCompiler` (path_compiler.dfy): the value-level specification of one
  `has` call on a path. It covers the hops a path is cut into, the nested
  test they compile to, and their shape and error cases.
- `WhereHasInDecorator` (where_has_in.dfy): the builder as a class.
  - `whereHasIn`, `whereHasNotIn`, `hasNested` and `addHasWhere` are methods
    on it.
  - The shared `$relations` array that hasNested's closure consumes with
    `array_shift` is a `Segments` object.
  - Each method's effect on the where-list and on the flags is proved equal to
    the `PathCompiler` / `HasWhere` specification.

The host framework's `canUseExistsForExistenceCheck` is a parameter
`canUseExists`. The framework's own predicate accepts exactly (">=", 1) and
("<", 1). It is written `HasWhere.FrameworkCanUseExists`. `CompileChain`,
`CompileErrors`, `CompileNest` and `HasNest` hold for every `canUseExists`.
Only `PathChain`, `HasShape` and `SingleHopIn` assume the framework's
predicate.

The model follows the code, not a single-enum design: the model and each builder
both hold two independent booleans, `useExists` and `useIn`. Only `useIn()`
keeps them exclusive on the model. On a builder, `useExists` is never set by
this code.

Only the builder's `useIn` is copied to the nested builders of a path (the
closure's `$q->useIn = $this->useIn`). A model's own `useIn()` decides only the
hops whose parent is an instance of that model. So when only the root model
uses IN, the root hop is IN and a hop below it is EXISTS unless its own parent
class also uses IN. The model keeps this mix, as the code does.

## Model

| member | source | states |
|---|---|---|
| UseInDecorator.Model.constructor | src/Model/Concerns/UseInDecorator.php:7-19 | a fresh model has both flags off, so it does not report `in` |
| UseInDecorator.Model.UseIn | src/Model/Concerns/UseInDecorator.php:21-31 | afterwards `useIn` is on and `useExists` off (never both); a second call leaves the object unchanged |
| UseInDecorator.Model.IsUseIn | src/Model/Concerns/UseInDecorator.php:33-36 | returns the `useIn` flag and modifies nothing |
| Paths.Split | src/Builder/Concerns/WhereHasInDecorator.php:67 | explode yields at least one segment, none containing '.', whose join is the path; two or more segments exactly when the path has a dot, and the path itself otherwise |
| Paths.SplitCons | src/Builder/Concerns/WhereHasInDecorator.php:67 | a dot-free head followed by "." splits off as the first segment |
| Paths.SplitJoin | src/Builder/Concerns/WhereHasInDecorator.php:67 | splitting the join of dot-free segments gives the segments back (the round trip) |
| HasWhere.WhereInKey | src/Builder/Concerns/WhereHasInDecorator.php:116-126 | succeeds exactly for BelongsTo and HasOneOrMany; any other kind fails with 'Unknown relation type' |
| HasWhere.WhereInSubKey | src/Builder/Concerns/WhereHasInDecorator.php:133-143 | succeeds exactly for BelongsTo and HasOneOrMany; any other kind fails with 'Unknown relation type' |
| HasWhere.KeyResolution | src/Builder/Concerns/WhereHasInDecorator.php:116-143 | BelongsTo gives (foreign key, owner key), HasOneOrMany gives (qualified parent key, qualified foreign key), anything else fails in both resolvers; the pair is the one the dropped correlation compares |
| HasWhere.CountFallback | src/Builder/Concerns/WhereHasInDecorator.php:94-98 | if the existence check is not allowed, the result is one count comparison on the merged subquery with the caller's operator, count and boolean, whatever the flags are |
| HasWhere.ExistenceChoice | src/Builder/Concerns/WhereHasInDecorator.php:100-108 | when the existence check is allowed, IN (or the resolver's failure) is chosen iff `!useExists && (useIn \|\| parent isUseIn)`, else EXISTS; both carry the caller's boolean |
| HasWhere.NegationFlag | src/Builder/Concerns/WhereHasInDecorator.php:105-108 | EXISTS and IN are negated iff operator is "<" and count is 1; under the framework's predicate iff the operator is "<" |
| HasWhere.InSubquery | src/Builder/Concerns/WhereHasInDecorator.php:102-105 | on the IN path the outer column is getWhereInKey, the subquery projects getWhereInSubKey and keeps the merged where-list minus exactly its first element |
| HasWhere.UnsupportedOnlyOnIn | src/Builder/Concerns/WhereHasInDecorator.php:92-143 | an unsupported kind fails iff the IN path is taken, and only with 'Unknown relation type'; COUNT and EXISTS give the same result whatever the kind is |
| PathCompiler.NestedTail | src/Builder/Concerns/WhereHasInDecorator.php:69-78 | the closure's hops: one per remaining segment in order, all joined with "and", (">=", 1) on all but the last, the caller's operator and count on the last |
| PathCompiler.Plan | src/Builder/Concerns/WhereHasInDecorator.php:65-81 | one hop per segment in order; the root carries the caller's boolean, the rest "and"; (">=", 1) on every hop but the last, which carries the caller's operator and count |
| PathCompiler.CompileChain | src/Builder/Concerns/WhereHasInDecorator.php:65-109 | a compiled plan of n hops is a nest of n tests, the i-th one matching plan[i]; below the root every hop is decided with the root's `useIn` |
| Query.ExistenceJoin | src/Builder/Concerns/WhereHasInDecorator.php:102 | reference definition of the correlation an existence subquery starts with (the `wheres[0]` the IN path drops); `HasWhere.KeyResolution` proves it compares the two keys of the resolvers |
| HasWhere.FrameworkCanUseExists | src/Builder/Concerns/WhereHasInDecorator.php:96 | the host framework's existence-check predicate: exactly (">=", 1) and ("<", 1); `NegationFlag`, `PathChain`, `HasShape` and `SingleHopIn` are stated under it |
| HasWhere.Negated | src/Builder/Concerns/WhereHasInDecorator.php:105-108 | reference definition of the negation flag `operator === '<' && count === 1`; `NegationFlag` proves what it means for the result |
| HasWhere.Choose | src/Builder/Concerns/WhereHasInDecorator.php:96-101 | reference definition of the branch taken: COUNT when the check fails, IN when `!useExists && (useIn \|\| parent isUseIn)`, else EXISTS; `CountFallback` and `ExistenceChoice` prove the fragment follows it |
| HasWhere.Unset0 | src/Builder/Concerns/WhereHasInDecorator.php:102 | `unset($wheres[0])` on a list: the list without its first element; `InSubquery` proves the IN subquery keeps exactly that |
| HasWhere.HasWhereFragment | src/Builder/Concerns/WhereHasInDecorator.php:92-109 | reference definition of what addHasWhere appends for one hop; `CountFallback`, `ExistenceChoice`, `NegationFlag`, `InSubquery` and `UnsupportedOnlyOnIn` are proved about it, and `Builder.AddHasWhere` is proved equal to it |
| PathCompiler.ExistenceColumns | src/Builder/Concerns/WhereHasInDecorator.php:96-97 | reference definition of the existence subquery's projection: all columns for an existence test, a row count otherwise |
| PathCompiler.Compile | src/Builder/Concerns/WhereHasInDecorator.php:65-109 | reference definition of the test one builder appends for a plan of hops; `CompileChain`, `CompileNest` and `CompileErrors` are proved about it, and `Builder.HasHop` and `Builder.HasNested` are proved equal to it |
| PathCompiler.Scoped | src/Builder/Concerns/WhereHasInDecorator.php:69-78 | reference definition of the wheres the callback adds to a subquery: the caller's at the last hop, else the next hop's test on a builder given the root's `useIn`; `Builder.CallScope` is proved equal to it |
| PathCompiler.HasSpec | src/Builder/Concerns/WhereHasInDecorator.php:37-81 | reference definition of `has` on a possibly dotted name: Compile on the plan of its split path; `HasShape`, `HasNest` and `SingleHopIn` are proved about it, and `Builder.WhereHasIn`, `Builder.WhereHasNotIn` and `Builder.Has` are proved equal to it |
| PathCompiler.Along | src/Builder/Concerns/WhereHasInDecorator.php:65-81 | the relations a path reaches from a model, one per segment, in order |
| PathCompiler.CompileNest | src/Builder/Concerns/WhereHasInDecorator.php:65-109 | a compiled plan resolves hop by hop and is the nest of the relations reached: test i carries relation i's correlation (or, for IN, its two resolver keys) and constraints, each upper subquery holds exactly the next test, and the callback is in the deepest subquery only |
| PathCompiler.HasNest | src/Builder/Concerns/WhereHasInDecorator.php:65-81 | `has` on a path of n segments gives the nest of the n relations the segments reach in order, with the caller's callback only in the deepest subquery |
| PathCompiler.CompileErrors | src/Builder/Concerns/WhereHasInDecorator.php:65-81 | compilation fails with UnknownRelation iff some segment is not a relation of the model reached so far; it succeeds when every relation exists and has a supported kind |
| PathCompiler.HasShape | src/Builder/Concerns/WhereHasInDecorator.php:65-108 | `has` on an n-segment path yields n nested tests in order: the root joined by the caller's boolean, the others by "and"; every hop but the last is a non-negated existence test; the last is negated iff "<" or is the caller's count comparison; with `useIn` on (and `useExists` off) every existence test is IN; which relation each test belongs to and where the callback sits is `HasNest` |
| PathCompiler.SingleHopIn | src/Builder/Concerns/WhereHasInDecorator.php:92-123 | whereHasIn on a HasOneOrMany relation gives `parentKey IN (select foreignKey where callback and relation constraints)`, the correlation dropped |
| WhereHasInDecorator.Segments.Shift | src/Builder/Concerns/WhereHasInDecorator.php:76-80 | array_shift: nothing on an empty array, else the first element, leaving the rest in order |
| WhereHasInDecorator.Builder.constructor | src/Builder/Concerns/WhereHasInDecorator.php:14-26 | a fresh builder has `useExists` and `useIn` off and no wheres |
| WhereHasInDecorator.Builder.WhereHasIn | src/Builder/Concerns/WhereHasInDecorator.php:37-46 | sets `useIn` for good, then appends exactly what `has` with boolean "and" and `useIn` on compiles to, or fails leaving the where-list as it was |
| WhereHasInDecorator.Builder.WhereHasNotIn | src/Builder/Concerns/WhereHasInDecorator.php:48-51 | exactly WhereHasIn with ("<", 1) |
| WhereHasInDecorator.Builder.Has | src/Builder/Concerns/WhereHasInDecorator.php:65-81 | a dotted name goes to hasNested, any other is one hop; either way the where-list grows by exactly the path's compiled test |
| WhereHasInDecorator.Builder.HasNested | src/Builder/Concerns/WhereHasInDecorator.php:65-81 | appends the compiled test of the path's plan (root with (">=", 1) and the caller's boolean) and leaves the flags as they were |
| WhereHasInDecorator.Builder.HasHop | src/Builder/Concerns/WhereHasInDecorator.php:69-80 | one hop plus the scope's remaining hops appends their compiled test; on success the shared segments are all consumed |
| WhereHasInDecorator.Builder.CallScope | src/Builder/Concerns/WhereHasInDecorator.php:69-78 | the closure gives the subquery the root's `useIn`, shifts the next segment and adds its test, with whereHas (">=", 1) while more than one is left, else with the caller's condition and callback |
| WhereHasInDecorator.Builder.ExistenceQuery | src/Builder/Concerns/WhereHasInDecorator.php:92-94 | the subquery addHasWhere receives: a fresh builder on the related model, with both of its own flags off and the relation's correlation as its only where |
| WhereHasInDecorator.Builder.AddHasWhere | src/Builder/Concerns/WhereHasInDecorator.php:92-109 | merges the relation's constraints, then appends the count, IN or EXISTS fragment the decision specifies; on the IN path the subquery loses its first where; a resolver failure leaves the where-list unchanged |

## Left out

- Host framework internals are not shown in this repository. They are modelled
  abstractly as operations on where-lists:
  - `has`, `whereHas`, `getRelationExistenceQuery`, `mergeConstraintsFrom`,
    `addWhereCountQuery`, `addWhereExistsQuery`, `whereIn`, `toBase` and
    `select`;
  - the relation class hierarchy behind `instanceof`, which becomes a
    three-way `RelationKind`.
- `callScope`'s grouping of a callback's wheres into a nested where is not
  modelled. A callback's wheres are appended to the subquery as they are.
- Table qualification and aliasing of column names are not modelled.
- User callbacks are opaque lists of wheres. They reach only the last hop.
- PHP default arguments are not modelled as defaults. These are
  `whereHasIn`'s callback, operator and count (null, ">=", 1) and `hasNested`'s
  operator, count, boolean and callback. Callers pass every argument, and an
  empty where-list stands for a null callback.
- SQL text rendering, query execution and database connections are not
  modelled.
- src/Builder/EloquentBuilder.php only wires the trait into the framework's
  builder, and is not part of this model.
- The `?? false` fallback on the parent's mode is not modelled, and neither is
  a null parent. The parent model is always present, and its `isUseIn()` is a
  plain boolean.
- The relation's parent model is the builder's own model. A nested builder's
  model is a fresh instance of the related class. That instance calls `useIn()`
  on creation exactly when its class is marked `usesIn` in the schema.
- WhereHasInDecorator.Builder.HasNested: requires a dot in the name. Its only
  caller, `has`, guarantees one.
- WhereHasInDecorator.Builder.HasHop: after a failure, the segments left in the
  shared array are not specified.
- WhereHasInDecorator.Builder.ExistenceQuery: the count projection
  (`count(*)`) stands for the framework's count query. Its exact select
  expression is not modelled.

# styled-components-utils: a verified model of the resolution algebra

styled-components-utils builds CSS fragments from values that are either
known now or only known once a props object arrives. A **resolver** is a
function from props to a value. Each combinator (`not`, `and`, `or`, `is`,
`includes`, `join`, `map`, `tern`, `declare`, plus `prop`, which reads a
path out of the props) answers at once when its concrete operands decide
the answer. Otherwise it returns a new resolver that replays the same logic
when it is given a context.

This project models that algebra in Dafny and proves the following about it:

- The classification into concrete values and resolvers is total and
  exclusive.
- Each combinator short-circuits exactly where the source does.
- Resolving a combinator's result at a context `c` equals the combinator
  applied to the operands already resolved at `c`. Where this fails in
  JavaScript, the failure is stated as a lemma of its own: a skipped
  operand that would have thrown, or a resolver test yielding `undefined`
  in `declare`.
- The path walker `path` is modelled as the loop of the source, and that
  loop is proved equal to a left fold of property lookups over the
  non-empty segments of the split path.

Modules, in dependency order:

- `JsValues` (`js_values.dfy`). The JavaScript values the library touches:
  `undefined`, `null`, booleans, integers, strings, and objects and arrays
  carrying an identity.
  - Also: truthiness, `===`, `String(v)`, and own-property lookup
    `v[key]`.
  - A lookup on `undefined` or `null` throws a `TypeError`.
  - A JavaScript throw is a `Completion` (`Normal(v)` or `Throw(e)`).
- `Core` (`core.dfy`). `Val = Now(v) | Later(f)`, `isResolver` and
  `resolve`. A resolver is any function from a context to a completion, so
  a user resolver may throw.
- `Paths` (`paths.dfy`). The `path` function: the single-lookup branch,
  the split on `.`, `[` and `]`, and the walk loop (method `WalkPath`).
- `Props` (`props.dfy`). `prop`.
- `Logic` (`logic.dfy`). `not`, `and`, `or`, `is`.
- `Collections` (`collections.dfy`). `includes`, `join`, `map`.
- `Conditionals` (`conditionals.dfy`). `tern`, `declare` and `_declare`.
- `Scenarios` (`scenarios.dfy`). The expectations of the `resolvers` block
  of the repository's test suite (`src/__tests__/all.test.js:38-296`),
  written as lemmas. A few of them sit next to the member they exercise:
  `Props.PropNested`, `Logic.IsIdentity`, `JsValues.FreshReferencesDiffer`,
  `Collections.FreshReferenceNotIncluded` and
  `Collections.PrimitiveIncludedOnlyAsItself`.

Two choices go beyond a minimal model:

- **Conversion to text is modelled for every value.** `_declare` uses a
  template literal and `join` uses `Array.prototype.join`. `ToString`
  follows JavaScript:
  - integers print as their full decimal numeral (JavaScript switches to
    exponent form from 10^21 and is exact only up to 2^53; see Left out);
  - objects print as `[object Object]`;
  - arrays print as their elements joined by `,`, with `undefined` and
    `null` elements printed as nothing.

  So `declare` and `join` are specified on all inputs, not only on strings.
- **Objects have only own properties.** No prototype chain is modelled.

## Model

| member | source | states |
|---|---|---|
| JsValues.Truthy | src/resolvers/not.js:12 | a value is truthy exactly when it is not one of `undefined`, `null`, `false`, `0`, `""`; `-1` is truthy |
| JsValues.StrictEquals | src/resolvers/is.js:13-18 | objects and arrays are `===` exactly when they are the same reference (same identity); any other pair is `===` exactly when the two are the same value of the same type; a primitive is never `===` to an object or array |
| JsValues.StrictEqualsReflexiveSymmetric | src/resolvers/is.js:13-18 | `===` is reflexive and symmetric on this domain (no NaN) |
| JsValues.FreshReferencesDiffer | src/__tests__/all.test.js:179-180 | two literals `[]` (or `{}`) with different identities are not `===`, whatever their contents |
| JsValues.NatToString | src/core/path.js:22 | the decimal numeral of a number is non-empty, made of digits, and has no leading zero unless it is `0` |
| JsValues.DecimalValueOfNatToString | src/core/path.js:22 | reading the numeral of `n` back gives `n` |
| JsValues.CanonicalIndex | src/core/path.js:22 | a key is an array index only when it is the canonical numeral of that index |
| JsValues.CanonicalNumeral | src/core/path.js:22 | a digit string without a leading zero is the numeral of its value |
| JsValues.CanonicalIndexOfNatToString | src/core/path.js:22 | the numeral of `n` is recognised as index `n`, so `a[String(n)]` is `a[n]` |
| JsValues.TruthyPrintsNonEmpty | src/resolvers/join.js:17-18 | any truthy value that is not an array prints as a non-empty string |
| JsValues.Lookup | src/core/path.js:11 | `v[key]` throws a `TypeError` exactly when `v` is `undefined` or `null`; an object gives the value of a present own key and `undefined` for an absent one; any key of a boolean or number gives `undefined` |
| JsValues.ToString | src/resolvers/declare.js:3 | `String(v)`: a string prints as itself, an integer as its full decimal numeral (with `-` when negative, for every magnitude), an object as `[object Object]`, `undefined`/`null`/booleans as their names, an empty array as `""`; every truthy non-array prints non-empty |
| JsValues.Intercalate | src/resolvers/join.js:18-20 | `Array.prototype.join` on texts: no pieces join to `""`, one piece to itself; the result starts with the first piece, followed by the separator when there are more |
| JsValues.IntToString | src/resolvers/map.js:14 | the numeral of an integer is non-empty, starts with `-` exactly when the integer is negative, and is all digits otherwise |
| JsValues.LookupArrayIndex | src/core/path.js:22 | the numeral of an index below the array's length looks up that element |
| JsValues.LookupNullFree | src/core/path.js:22 | a lookup in a defined value containing no `null` succeeds, and what it yields again contains no `null` |
| Core.IsResolver | src/core/isResolver.js:17 | a value is a resolver exactly when it is not concrete |
| Core.ClassificationIsTotalAndExclusive | src/core/isResolver.js:15-17 | every value is exactly one of concrete and resolver; every concrete value is not a resolver; every function is one, including one that ignores its argument; the function is never called |
| Core.Resolve | src/core/resolve.js:11 | a concrete value passes through unchanged; a resolver is applied to exactly the given context |
| Core.ResolveIsIdempotent | src/core/resolve.js:11 | resolving what `resolve` returned gives it back, under any context |
| Core.ResolveConcreteIgnoresContext | src/__tests__/all.test.js:20-25 | a concrete value resolves to itself under every context |
| Paths.IsSimpleKey | src/core/path.js:10 | a path takes the single-lookup branch exactly when it contains no `.` and no `[`; a `]` alone keeps it on that branch; a key free of all three delimiters is simple |
| Paths.CloseBracketStaysSimple | src/core/path.js:10-20 | `"a]"` is looked up as one key (absent, so `undefined`), while a walk over its segments would read `a` |
| Paths.Split | src/core/path.js:14 | the split has at least one piece, and no piece contains `.`, `[` or `]` |
| Paths.SplitRoundTrip | src/core/path.js:14 | there is one piece more than there are delimiters, and putting the delimiters back between the pieces gives the path again |
| Paths.SplitNoDelimiter | src/core/path.js:14 | a path without delimiters splits into itself alone |
| Paths.Segments | src/core/path.js:14-20 | the keys the loop looks up are non-empty, free of delimiters, and are exactly the non-empty pieces of the split, in order (NonEmptyAppend, NonEmptyStep) |
| Paths.NonEmpty | src/core/path.js:20 | the kept crumbs are non-empty and are exactly the non-empty crumbs (order and multiplicity: NonEmptyAppend, NonEmptyStep) |
| Paths.NonEmptyAppend | src/core/path.js:20 | skipping empty crumbs distributes over concatenation, so the kept crumbs keep their order and multiplicity |
| Paths.NonEmptyStep | src/core/path.js:18-20 | from crumb `i` on, the kept crumbs are crumb `i` when it is non-empty, followed by the kept crumbs after it |
| Paths.DescendStep | src/core/path.js:22 | after a successful lookup of the first key, the walk continues from the value found |
| Paths.Descend | src/core/path.js:18-23 | the fold of lookups: no keys gives the start value; from `undefined` it gives `undefined`; from `null` with a key left it throws; any throw is a `TypeError` |
| Paths.Path | src/core/path.js:9-26 | a simple key throws exactly on an `undefined` or `null` context; a multi-part path on `undefined` gives `undefined`; every throw is a `TypeError` |
| Paths.WalkPath | src/core/path.js:9-26 | the loop returns the single lookup for a simple key; otherwise it returns the fold of lookups over the non-empty crumbs from `obj`, which stops at `undefined` and carries a throw out |
| Paths.DescendUndefined | src/core/path.js:21 | once the walk has reached `undefined` it stays `undefined` and does not throw |
| Paths.DescendNullFree | src/core/path.js:18-23 | a walk from a value containing no `null` never throws; a missing key yields `undefined` |
| Paths.DescendThrowsOnlyAtNull | src/core/path.js:21-22 | a walk throws only after reaching `null` with keys left to look up |
| Paths.PathAbsentSimpleKey | src/core/path.js:10-12 | a simple key absent from the object gives `undefined` |
| Paths.PathAbsentFirstSegment | src/__tests__/all.test.js:8 | a multi-part path whose first key is absent gives `undefined`, however many keys follow |
| Paths.PathAllEmpty | src/core/path.js:19-20 | a path made only of delimiters gives the context itself |
| Paths.FastBranchAgreesWithWalk | src/core/path.js:10-23 | for a non-empty delimiter-free key and a defined context, the single lookup equals the one-segment walk |
| Paths.FastBranchThrowsOnUndefined | src/core/path.js:10-23 | on an `undefined` context a simple key throws while a walked path gives `undefined` |
| Paths.PathNullFree | src/core/path.js:9-26 | from a defined context containing no `null`, every path resolves without throwing |
| Paths.SegmentExamples | src/core/path.js:14-20 | `".a"` walks `a` alone; `"a[0].b"` walks `a`, `0`, `b`; `"."` walks nothing |
| Props.Prop | src/resolvers/prop.js:9 | `prop(p)` is always a resolver, and at every context it is the path walk of `p` there |
| Props.PropSimpleKey | src/resolvers/prop.js:9 | `prop` of a simple key the context has resolves to that key's value |
| Props.PropAbsentKey | src/resolvers/prop.js:9 | `prop` of an absent simple key resolves to `undefined` |
| Props.PropNullFree | src/resolvers/prop.js:9 | a `prop` resolver never throws on a defined context containing no `null` |
| Props.PropNested | src/__tests__/all.test.js:40-44 | `prop("a.b.c")` reads `props.a.b.c` |
| Props.SegmentsOfDottedPath | src/core/path.js:14-20 | `"a.b.c"` walks `a`, `b`, `c` |
| Logic.BooleanOf | src/resolvers/and.js:17 | `Boolean(x)` of an evaluated operand: a throw propagates, otherwise a boolean that is its truthiness |
| Logic.NotOf | src/resolvers/not.js:12 | `!x` of an evaluated operand: a throw propagates, otherwise a boolean that is the negated truthiness |
| Logic.AndOf | src/resolvers/and.js:16 | `Boolean(x && y)`: a throw of `x` propagates; a falsy `x` gives `false` whatever `y` is; two values give the conjunction of their truthiness; with a truthy `x`, a throw of `y` propagates; only a throw of `x` or `y` escapes; the value is a boolean |
| Logic.OrOf | src/resolvers/or.js:16 | `Boolean(x \|\| y)`: a throw of `x` propagates; a truthy `x` gives `true` whatever `y` is; two values give the disjunction of their truthiness; with a falsy `x`, a throw of `y` propagates; only a throw of `x` or `y` escapes; the value is a boolean |
| Logic.IsOf | src/resolvers/is.js:16 | `x === y` left to right: a throw of `x` first, then a throw of `y`, otherwise `===` of the two values |
| Logic.Not | src/resolvers/not.js:12 | a concrete operand gives its negated truthiness at once; the result is a resolver exactly when the operand is |
| Logic.NotConsistent | src/resolvers/not.js:12 | `not` at `c` is the negation of the operand at `c`, and it is always a boolean |
| Logic.NotNot | src/resolvers/not.js:12 | negating a concrete value twice gives its truthiness |
| Logic.And | src/resolvers/and.js:13-20 | two concrete operands give `Boolean(a && b)`; a falsy concrete operand gives `false` at once; the result is a resolver exactly when some operand is deferred and no concrete operand is falsy; with a truthy concrete operand, it is the truthiness of the other |
| Logic.AndConsistent | src/resolvers/and.js:13-20 | `and` at `c` is `&&` of the operands at `c`, unless a concrete `false` skipped a deferred operand that throws at `c` |
| Logic.AndSkippedOperandMayThrow | src/resolvers/and.js:17 | `and(a, false)` gives `false` even where `a` throws, while `a && false` would throw |
| Logic.AndPointwise | src/resolvers/and.js:13-20 | for operands that do not throw at `c`, `and` at `c` is the concrete `and` of their values, is commutative, and is a boolean |
| Logic.Or | src/resolvers/or.js:13-20 | two concrete operands give `Boolean(a \|\| b)`; a truthy concrete operand gives `true` at once; the result is a resolver exactly when some operand is deferred and no concrete operand is truthy; with a falsy concrete operand, it is the truthiness of the other |
| Logic.OrConsistent | src/resolvers/or.js:13-20 | `or` at `c` is `\|\|` of the operands at `c`, unless a concrete truthy operand skipped a deferred operand that throws at `c` |
| Logic.OrSkippedOperandMayThrow | src/resolvers/or.js:17 | `or(a, true)` gives `true` even where `a` throws |
| Logic.OrPointwise | src/resolvers/or.js:13-20 | for operands that do not throw at `c`, `or` at `c` is the concrete `or` of their values, is commutative, and is a boolean |
| Logic.NotOrIsAndNot | src/resolvers/or.js:20 | De Morgan on concrete operands: `not(or(x, y)) == and(not(x), not(y))` |
| Logic.Is | src/resolvers/is.js:13-18 | two concrete operands give `a === b` at once; a resolver on either side always gives a resolver |
| Logic.IsConsistent | src/resolvers/is.js:16-18 | in all three deferred shapes, `is` at `c` compares the operands resolved at `c` |
| Logic.IsPointwise | src/resolvers/is.js:13-18 | for operands that do not throw, `is` at `c` is the concrete `is` of their values and does not depend on the order |
| Logic.IsIdentity | src/__tests__/all.test.js:178-180 | distinct `[]` or `{}` are not `is`-equal; a primitive is `is`-equal to itself |
| Collections.Member | src/resolvers/includes.js:20 | membership holds exactly when some element is `===` to the test |
| Collections.IncludesOf | src/resolvers/includes.js:18-20 | `collection.includes(test)` on evaluated operands: a throw of the collection comes first; an `undefined` or `null` receiver throws a `TypeError`; otherwise a throw of the test comes next; an array gives the membership boolean, a string whether the test's text occurs in it, and any other receiver a `TypeError` |
| Collections.IsSubstring | src/resolvers/includes.js:18-20 | `String.prototype.includes`: a prefix is found; a needle longer than the text is not; in `""` only `""` is found |
| Collections.Includes | src/resolvers/includes.js:15-20 | two concrete operands give membership at once; the result is a resolver exactly when either operand is |
| Collections.IncludesConsistent | src/resolvers/includes.js:16-20 | in all four shapes, `includes` at `c` is membership of the test at `c` in the array at `c`; a receiver that is neither an array nor a string throws |
| Collections.IncludesNonCollectionThrows | src/resolvers/includes.js:20 | a concrete receiver that is neither an array nor a string, with a resolver test, gives a resolver that throws a `TypeError` when called |
| Collections.FreshReferenceNotIncluded | src/__tests__/all.test.js:203-204 | an object or array whose identity no element has is never found |
| Collections.PrimitiveIncludedOnlyAsItself | src/__tests__/all.test.js:201 | a primitive is a member exactly when it occurs as itself; there is no coercion |
| Collections.ResolveAll | src/resolvers/join.js:16 | resolving the values yields each value resolved at the context, or the first throw, preceded only by values that resolved |
| Collections.Separator | src/resolvers/join.js:12 | an omitted (`undefined`) joiner is `""`; a string joiner is used as it is |
| Collections.JoinText | src/resolvers/join.js:17-20 | no truthy value joins to `""`; a single truthy value joins to its own text, with no joiner |
| Collections.JoinOf | src/resolvers/join.js:14-18 | a throw while resolving the values propagates; otherwise the result is the string `JoinText`: the truthy resolved values, in order, joined by the separator (`""` when none is truthy) |
| Collections.Truthies | src/resolvers/join.js:17 | the filter keeps exactly the truthy values and never adds any |
| Collections.Join | src/resolvers/join.js:12-21 | the result is a resolver exactly when some value is a resolver; otherwise it is at once the join of the truthy values with the joiner, `""` when no joiner is given |
| Collections.JoinConsistent | src/resolvers/join.js:13-18 | at `c` the join is that of the values resolved at `c`, with concrete values passed through; a throw of any value propagates |
| Collections.JoinPointwise | src/resolvers/join.js:13-20 | a deferred join at `c` equals the concrete join of the values resolved at `c` |
| Collections.TruthiesAppend | src/resolvers/join.js:17 | the filter distributes over concatenation, so order is kept |
| Collections.JoinTextDropsFalsy | src/resolvers/join.js:17-18 | a falsy entry contributes nothing wherever it stands: no doubled joiner |
| Collections.JoinTextAllFalsy | src/resolvers/join.js:20 | an empty or all-falsy list joins to `""` |
| Collections.JoinPiecesNonEmpty | src/resolvers/join.js:17-18 | without arrays among the values, every joined piece is non-empty |
| Collections.JoinTextLeadsWithFirstTruthy | src/resolvers/join.js:15-18 | the first kept value is the first truthy one |
| Collections.Entry | src/resolvers/map.js:14 | `mapping[key]`: a present key gives its entry as it is; an absent key gives `undefined` |
| Collections.Map | src/resolvers/map.js:13-14 | a concrete key selects its entry unresolved; an absent key gives `undefined`; a resolver key gives a resolver |
| Collections.MapConsistent | src/resolvers/map.js:14 | a resolver key at `c` selects with the key at `c` and resolves the selected entry at `c`; an absent key gives `undefined` |
| Collections.MapNumericKey | src/resolvers/map.js:14 | a number key selects the entry named by its numeral |
| Conditionals.Tern | src/resolvers/tern.js:15-16 | a concrete test returns `a` or `b` as it is, unresolved; a resolver test gives a resolver |
| Conditionals.TernConsistent | src/resolvers/tern.js:16 | a deferred `tern` at `c` is the `tern` of the test resolved at `c`, with the chosen branch resolved at the same `c` |
| Conditionals.TernResolvesOnlyChosen | src/resolvers/tern.js:16 | the branch not chosen does not affect the result |
| Conditionals.Declaration | src/resolvers/declare.js:3 | `_declare` starts with `property: `, ends with `;`, is three characters longer than the property and the value's text together, and is `property: value;` for a string value |
| Conditionals.DeclareOf | src/resolvers/declare.js:25-39 | the test first: its throw propagates, and a falsy test gives `""`; then the value: its throw propagates and `undefined` gives `""`; a truthy test and a defined value give the declaration of exactly that value; every value is a string |
| Conditionals.DefaultTest | src/resolvers/declare.js:22 | an omitted or `undefined` test is `true`; any other test is kept |
| Conditionals.Declare | src/resolvers/declare.js:22-41 | a falsy concrete test gives `""` at once; a concrete `undefined` value gives `""` at once, even under a resolver test; concrete operands give `property: value;` or `""`; the result is a resolver exactly in the remaining cases |
| Conditionals.DeclareConsistent | src/resolvers/declare.js:22-41 | at `c`, `declare` evaluates the test first and then the value, and gives `""` or the declaration; a concrete `undefined` value skips a throwing test |
| Conditionals.DeclarePointwise | src/resolvers/declare.js:22-41 | for operands that do not throw and a test that does not resolve to `undefined`, `declare` at `c` is the concrete `declare` of the resolved operands |
| Conditionals.DeclareUndefinedTest | src/resolvers/declare.js:22-34 | a resolver test yielding `undefined` suppresses the declaration, while a concrete `undefined` test declares |
| Conditionals.DeclareShape | src/resolvers/declare.js:3 | every result is `""` or starts with `property: ` and ends with `;` |
| Conditionals.DeclareString | src/resolvers/declare.js:3 | a string value with the default test gives exactly `property: value;` |
| Scenarios.NotImmediateScenarios | src/__tests__/all.test.js:110-115 | `not` of `"a"`, `""`, `false`, `true` is `false`, `true`, `true`, `false` at once |
| Scenarios.OrImmediateScenarios | src/__tests__/all.test.js:123-127 | `or` of `("a","b")`, `("",true)`, `(true,false)` is `true` and of `("",false)` is `false`, at once |
| Scenarios.AndImmediateScenarios | src/__tests__/all.test.js:147-151 | `and` of `("a","b")` is `true` and of `("",true)`, `(true,false)`, `("",false)` is `false`, at once |
| Scenarios.IsImmediateScenarios | src/__tests__/all.test.js:176-178 | `is("a","b")` and `is("",true)` are `false`, `is("","")` is `true`, at once |
| Scenarios.IsDeferredScenarios | src/__tests__/all.test.js:182-195 | over `{a: "yes", b: "yes", c: "no"}`: `is(a, b)` is `true`; `is(a, c)`, `is(b, c)`, `is(b, "no")` and `is("yes", c)` are `false` |
| Scenarios.IncludesDeferredTestScenarios | src/__tests__/all.test.js:206-212 | `["A","B"]` with the resolver tests `prop("a")`, `prop("b")` gives `true`, with `prop("c")` `false` |
| Scenarios.IncludesDeferredArrayScenarios | src/__tests__/all.test.js:213-228 | with `prop("array")` as the array, the tests `prop("a")` and `"A"` give `true`, `prop("c")` and `"C"` `false` |
| Scenarios.ShortCircuitScenarios | src/__tests__/all.test.js:128-153 | `or` with `true` and `and` with `false` answer at once, next to `prop("unknown")` |
| Scenarios.DeferredLogicScenarios | src/__tests__/all.test.js:116-171 | six of the deferred cases over `{isMammal: true, isCat: false}`: both `not` cases, `or(isCat, isMammal)`, `or(isCat, unknown)`, `and(isMammal, true)`, `and(isCat, isMammal)` |
| Scenarios.DeferredLogicMoreScenarios | src/__tests__/all.test.js:133-171 | the other six: `or(isMammal, false)`, `or(false, isMammal)`, `or(isMammal, isCat)`, `and(true, isMammal)`, `and(isMammal, isCat)`, `and(isCat, unknown)` |
| Scenarios.IncludesScenarios | src/__tests__/all.test.js:198-205 | `["A","B"]` includes `"B"` but not `true`, `"C"`, `[]` or `{}` |
| Scenarios.JoinImmediateScenario | src/__tests__/all.test.js:96-100 | `join(" ", "really,", "just join", "us")` is `"really, just join us"` |
| Scenarios.JoinDeferredScenario | src/__tests__/all.test.js:101-107 | the deferred join yields `"later, just join us"` |
| Scenarios.MapScenarios | src/__tests__/all.test.js:49-61 | selection by a concrete key (`"a"`), by a resolver key (`prop("bb")`), and of resolver entries with `prop("aa")` |
| Scenarios.MapMoreScenarios | src/__tests__/all.test.js:50-62 | the remaining map cases: concrete key `"b"`, resolver key `prop("aa")`, resolver entries with `prop("bb")` |
| Scenarios.TernScenarios | src/__tests__/all.test.js:67-92 | concrete tests `true`/`false` select `"A"`/`"B"`; with deferred branches, a `prop("false")` test selects `"B"` (the cases at 72-85 are the three `TernProp` lemmas) |
| Scenarios.TernPropTestTrue | src/__tests__/all.test.js:72 | over `{true: true, false: false}`, a `prop("true")` test selects `"A"` |
| Scenarios.TernPropTestFalse | src/__tests__/all.test.js:73-75 | over `{true: true, false: false}`, a `prop("false")` test selects `"B"` |
| Scenarios.TernPropBranches | src/__tests__/all.test.js:79-85 | with deferred branches, a `prop("true")` test selects `prop("a")`, giving `"A"` |
| Scenarios.DeclareImmediateScenarios | src/__tests__/all.test.js:231-245 | the falsy tests `false`, `null`, `""` and `0` give `""`; the default, `true`, `1`, `-1` and `"hi"` tests declare `color: white;` |
| Scenarios.DeclareUndefinedImmediateScenarios | src/__tests__/all.test.js:257-263 | a concrete `undefined` value gives `""` at once, under the resolver test `prop("trueTest")` and under `true` (lines 260-262 are in DeclareResolverValueScenarios) |
| Scenarios.DeclareResolverTestScenarios | src/__tests__/all.test.js:248-266 | a concrete value under `prop("trueTest")` is declared (`white`, `black`), and under `prop("falseTest")` gives `""` |
| Scenarios.DeclareResolverValueScenarios | src/__tests__/all.test.js:251-262 | under `true`, `prop("definedValue")` declares `black`, and the absent `prop("undefined")` gives `""` |
| Scenarios.DeclareDeferredScenario | src/__tests__/all.test.js:267-273 | a deferred value and a deferred test give `"color: black;"` |
| Scenarios.DeclareFalseTestScenario | src/__tests__/all.test.js:274-280 | a deferred false test gives `""` |
| Scenarios.DeclareUndefinedValueScenario | src/__tests__/all.test.js:281-287 | a deferred value that is absent gives `""` |
| Scenarios.DeclareUndefinedValueFalseTestScenario | src/__tests__/all.test.js:288-294 | an absent deferred value under a deferred false test gives `""` |

## Left out

- Collections.Includes: when both operands are concrete, the receiver must be an array or a string. In JavaScript, `includes(receiver, test)` on any other concrete receiver (`undefined`, `null`, a number, a plain object) with a concrete test throws as soon as it is called. The model has no throwing construction, so those inputs are excluded. With a resolver on either side the case is modelled: the resolver throws a `TypeError` when it is called (see `IncludesNonCollectionThrows`).
- Logic.AndConsistent, Logic.OrConsistent: consistency holds only when the short-circuit did not skip a deferred operand that throws. This follows the source, which never calls the skipped operand. The exception is stated in `AndSkippedOperandMayThrow` and `OrSkippedOperandMayThrow`.
- Conditionals.DeclareConsistent, Conditionals.DeclarePointwise: a concrete `undefined` value skips a throwing test. The default parameter turns only a concrete `undefined` test into `true`; a resolver test that yields `undefined` is falsy. So the pointwise equation excludes a resolver test resolving to `undefined` (see `DeclareUndefinedTest`).
- Numbers are unbounded integers. Floating point, `NaN` and `-0` are not modelled. JavaScript prints integers of magnitude 10^21 or more in exponent form and does not hold integers beyond 2^53 exactly; the model prints every integer as its full decimal numeral. Without `NaN`, the SameValueZero comparison of `Array.prototype.includes` coincides with `===`, and the model uses `===` for both.
- The prototype chain is not modelled: lookups see own properties, and for strings and arrays their indices and `length`. Keys such as `toString` or `constructor` give `undefined`, where JavaScript would find the inherited member.
- Symbols, functions stored as data, and objects with their own `toString` are not modelled. An object prints as `[object Object]`.
- Strings are sequences of characters. UTF-16 code units, surrogate pairs and `String.prototype.includes` coercions beyond `String(v)` are not modelled.
- The regular expression of `str.split(/[.\[\]]/g)` is modelled as a split on the character class `.`, `[`, `]`.
- `declare` calls a deferred `value(o)` twice. Resolvers here are pure functions, so the two calls agree, and the model evaluates it once.
- Resolvers that return resolvers, and calls with the wrong number of arguments, are not modelled. A resolver yields one value.
- `path` only reads its context. The model works on immutable values, so this holds by construction and is not stated as a lemma.
- The modules imported as `../core` and `../resolvers` only re-export the files above; they are not part of this model.
- The Jest harness `src/__tests__/all.test.js` is not modelled as code. The expectations of its `resolvers` block (lines 38-296) appear as lemmas, as listed under `Scenarios` above. Its `core` block (lines 4-36) is not restated case by case; only the lemmas cited against it in the table refer to it.

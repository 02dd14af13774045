/** The conditional combinators `tern` and `declare`. */
module Conditionals {
  import opened JsValues
  import opened Core

  // ---------------------------------------------------------------------
  // tern

  /** `tern(a, b, test)`: a concrete test picks `a` or `b` as they are,
      unresolved; a resolver test gives a resolver that resolves the test
      and then the chosen branch with the same context. */
  function Tern(a: Val, b: Val, test: Val): (r: Val)
    ensures test.Now? && Truthy(test.v) ==> r == a
    ensures test.Now? && !Truthy(test.v) ==> r == b
    ensures IsResolver(test) ==> IsResolver(r)
  {
    match test
    case Now(t) => if Truthy(t) then a else b
    case Later(_) =>
      Later((o: JsVal) =>
              match Resolve(test, o)
              case Throw(e) => Throw(e)
              case Normal(t) => Resolve(if Truthy(t) then a else b, o))
  }

  /** Resolving a deferred `tern` at `c` is resolving, at `c`, the `tern`
      of the test already resolved at `c`. */
  lemma TernConsistent(a: Val, b: Val, test: Val, c: JsVal)
    requires IsResolver(test)
    ensures Resolve(Tern(a, b, test), c) ==
            match Resolve(test, c)
            case Throw(e) => Throw(e)
            case Normal(t) => Resolve(Tern(a, b, Now(t)), c)
  {
  }

  /** Only the chosen branch is resolved: the other one may be anything. */
  lemma TernResolvesOnlyChosen(a: Val, b: Val, other: Val, test: Val, c: JsVal)
    requires IsResolver(test) && Resolve(test, c).Normal?
    ensures Truthy(Resolve(test, c).value) ==>
              Resolve(Tern(a, b, test), c) == Resolve(Tern(a, other, test), c) == Resolve(a, c)
    ensures !Truthy(Resolve(test, c).value) ==>
              Resolve(Tern(a, b, test), c) == Resolve(Tern(other, b, test), c) == Resolve(b, c)
  {
  }

  // ---------------------------------------------------------------------
  // declare

  /** `_declare(property, value)`: the text `property: value;`. */
  function Declaration(property: string, value: JsVal): (r: string)
    ensures property + ": " <= r && r[|r| - 1] == ';'
    ensures |r| == |property| + |ToString(value)| + 3
    ensures value.Str? ==> r == property + ": " + value.s + ";"
  {
    property + ": " + ToString(value) + ";"
  }

  /** `test = true`: an omitted test, or an explicit `undefined`, is `true`. */
  function DefaultTest(test: Val): (r: Val)
    ensures test.Now? && test.v.Undef? ==> r == Now(Bool(true))
    ensures !(test.Now? && test.v.Undef?) ==> r == test
  {
    if test.Now? && test.v.Undef? then Now(Bool(true)) else test
  }

  /** What a resolved `declare` yields, in the order its deferred bodies
      evaluate: the test first (a falsy test gives ""), then the value
      (`undefined` gives ""), and otherwise the declaration. */
  function DeclareOf(property: string, value: Completion, test: Completion): (r: Completion)
    ensures test.Throw? ==> r == test
    ensures test.Normal? && !Truthy(test.value) ==> r == Normal(Str(""))
    ensures test.Normal? && Truthy(test.value) && value.Throw? ==> r == value
    ensures value == Normal(Undef) && test.Normal? ==> r == Normal(Str(""))
    ensures test.Normal? && Truthy(test.value) && value.Normal? && !value.value.Undef? ==>
              r == Normal(Str(Declaration(property, value.value)))
    ensures r.Normal? ==> r.value.Str?
  {
    match test
    case Throw(_) => test
    case Normal(t) =>
      if !Truthy(t) then Normal(Str(""))
      else
        match value
        case Throw(_) => value
        case Normal(v) => Normal(Str(if v.Undef? then "" else Declaration(property, v)))
  }

  /** `declare(property, value, test = true)`.  Concrete operands give the
      text at once; a concrete `undefined` value gives "" at once, even
      under a resolver test; a concrete falsy test gives "" at once,
      whatever the value; otherwise the result is a resolver over the
      operands that need the context. */
  function Declare(property: string, value: Val, test: Val := Now(Bool(true))): (r: Val)
    ensures test.Now? && !test.v.Undef? && !Truthy(test.v) ==> r == Now(Str(""))
    ensures value == Now(Undef) ==> r == Now(Str(""))
    ensures value.Now? && !value.v.Undef? && DefaultTest(test).Now? ==>
              r == Now(Str(if Truthy(DefaultTest(test).v) then Declaration(property, value.v) else ""))
    ensures IsResolver(r) <==> value != Now(Undef) &&
                               (IsResolver(test) || (IsResolver(value) && Truthy(DefaultTest(test).v)))
  {
    var t := DefaultTest(test);
    if IsResolver(t) then
      if IsResolver(value) then
        Later((o: JsVal) =>
                match t.f(o)
                case Throw(e) => Throw(e)
                case Normal(tv) =>
                  if !Truthy(tv) then Normal(Str(""))
                  else
                    match value.f(o)
                    case Throw(e) => Throw(e)
                    case Normal(v) => Normal(Str(if !v.Undef? then Declaration(property, v) else "")))
      else if !value.v.Undef? then
        Later((o: JsVal) =>
                match t.f(o)
                case Throw(e) => Throw(e)
                case Normal(tv) => Normal(Str(if Truthy(tv) then Declaration(property, value.v) else "")))
      else
        Now(Str(""))
    else if Truthy(t.v) then
      if IsResolver(value) then
        Later((o: JsVal) =>
                match value.f(o)
                case Throw(e) => Throw(e)
                case Normal(v) => Normal(Str(if !v.Undef? then Declaration(property, v) else "")))
      else if !value.v.Undef? then
        Now(Str(Declaration(property, value.v)))
      else
        Now(Str(""))
    else
      Now(Str(""))
  }

  /** In all shapes, `declare` at `c` is the declaration of the operands
      resolved at `c`, except that a concrete `undefined` value answers ""
      without calling the test, so a throwing test is never seen. */
  lemma DeclareConsistent(property: string, value: Val, test: Val, c: JsVal)
    requires Resolve(test, c).Normal? || value != Now(Undef)
    ensures Resolve(Declare(property, value, test), c) ==
            DeclareOf(property, Resolve(value, c), Resolve(DefaultTest(test), c))
  {
  }

  /** With operands that resolve without throwing, `declare` at `c` is the
      concrete `declare` of the resolved operands, provided a resolver test
      does not resolve to `undefined` (see DeclareUndefinedTest). */
  lemma DeclarePointwise(property: string, value: Val, test: Val, c: JsVal)
    requires Resolve(value, c).Normal? && Resolve(test, c).Normal?
    requires test.Now? || !Resolve(test, c).value.Undef?
    ensures Resolve(Declare(property, value, test), c) ==
            Resolve(Declare(property, Now(Resolve(value, c).value), Now(Resolve(test, c).value)), c)
  {
  }

  /** The default applies only to a concrete test: a resolver test that
      yields `undefined` is falsy, while a concrete `undefined` test counts
      as `true`. */
  lemma DeclareUndefinedTest(property: string, x: JsVal, test: Val, c: JsVal)
    requires !x.Undef? && IsResolver(test) && Resolve(test, c) == Normal(Undef)
    ensures Resolve(Declare(property, Now(x), test), c) == Normal(Str(""))
    ensures Declare(property, Now(x), Now(Undef)) == Now(Str(Declaration(property, x)))
  {
  }

  /** Whatever it yields is "" or `property: …;`. */
  lemma DeclareShape(property: string, value: Val, test: Val, c: JsVal)
    requires Resolve(Declare(property, value, test), c).Normal?
    ensures var s := Resolve(Declare(property, value, test), c).value;
            s == Str("") ||
            (s.Str? && property + ": " <= s.s && |s.s| >= |property| + 3 && s.s[|s.s| - 1] == ';')
  {
    var s := Resolve(Declare(property, value, test), c).value;
    if s != Str("") {
      assert exists v :: s == Str(Declaration(property, v));
    }
  }

  /** A string value is declared as it is written. */
  lemma DeclareString(property: string, v: string)
    ensures Declare(property, Now(Str(v))) == Now(Str(property + ": " + v + ";"))
  {
  }
}

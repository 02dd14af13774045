/** The resolution core: a value is either known now or a resolver that
    computes it from a props context, and `Resolve` is the one place that
    tells the two apart. */
module Core {
  import opened JsValues

  /** A value or a resolver.  The tag replaces the dynamic test
      `typeof value === "function"`; a resolver's body is any function of
      the context, and may throw. */
  datatype Val = Now(v: JsVal) | Later(f: JsVal -> Completion)

  /** `isResolver`: decided by the shape alone; the resolver is not called. */
  function IsResolver(x: Val): (r: bool)
    ensures r <==> !x.Now?
  {
    x.Later?
  }

  /** Every value is exactly one of resolver and concrete, whatever the
      resolver's body, including one that ignores its context. */
  lemma ClassificationIsTotalAndExclusive(x: Val, y: JsVal, f: JsVal -> Completion)
    ensures IsResolver(x) != x.Now?
    ensures !IsResolver(Now(y))
    ensures IsResolver(Later(f))
    ensures IsResolver(Later((_: JsVal) => Normal(Undef)))
  {
  }

  /** `resolve`: a concrete value passes through, a resolver is applied
      to exactly the given context. */
  function Resolve(x: Val, context: JsVal): (r: Completion)
    ensures x.Now? ==> r == Normal(x.v)
    ensures x.Later? ==> r == x.f(context)
  {
    match x
    case Now(v) => Normal(v)
    case Later(f) => f(context)
  }

  /** Resolution goes one level: what it yields resolves to itself, under
      every context. */
  lemma ResolveIsIdempotent(x: Val, c: JsVal, d: JsVal)
    requires Resolve(x, c).Normal?
    ensures Resolve(Now(Resolve(x, c).value), d) == Resolve(x, c)
  {
  }

  /** A concrete value does not depend on the context. */
  lemma ResolveConcreteIgnoresContext(y: JsVal, c: JsVal, d: JsVal)
    ensures Resolve(Now(y), c) == Resolve(Now(y), d) == Normal(y)
  {
  }
}

/** The boolean and equality combinators `not`, `and`, `or` and `is`.
    Each answers at once when its concrete operands decide the answer, and
    otherwise returns a resolver that replays the same logic at a context.

    The operators on completions (`NotOf`, `AndOf`, `OrOf`, `IsOf`) are the
    JavaScript expressions `!x`, `Boolean(x && y)`, `Boolean(x || y)` and
    `x === y` over already evaluated operands: a throw propagates, and the
    right operand of `&&` / `||` counts only when the left does not decide. */
module Logic {
  import opened JsValues
  import opened Core

  function BooleanOf(x: Completion): (r: Completion)
    ensures r.Throw? <==> x.Throw?
    ensures x.Throw? ==> r == x
    ensures r.Normal? ==> r.value.Bool? && (r.value.b <==> Truthy(x.value))
  {
    match x
    case Throw(_) => x
    case Normal(u) => Normal(Bool(Truthy(u)))
  }

  function NotOf(x: Completion): (r: Completion)
    ensures r.Throw? <==> x.Throw?
    ensures x.Throw? ==> r == x
    ensures r.Normal? ==> r.value.Bool? && (r.value.b <==> !Truthy(x.value))
  {
    match x
    case Throw(_) => x
    case Normal(u) => Normal(Bool(!Truthy(u)))
  }

  function AndOf(x: Completion, y: Completion): (r: Completion)
    ensures x.Throw? ==> r == x
    ensures x.Normal? && !Truthy(x.value) ==> r == Normal(Bool(false))
    ensures x.Normal? && y.Normal? ==> r == Normal(Bool(Truthy(x.value) && Truthy(y.value)))
    ensures x.Normal? && Truthy(x.value) && y.Throw? ==> r == y
    ensures r.Throw? ==> r == x || r == y
    ensures r.Normal? ==> r.value.Bool?
  {
    match x
    case Throw(_) => x
    case Normal(u) => if !Truthy(u) then Normal(Bool(false)) else BooleanOf(y)
  }

  function OrOf(x: Completion, y: Completion): (r: Completion)
    ensures x.Throw? ==> r == x
    ensures x.Normal? && Truthy(x.value) ==> r == Normal(Bool(true))
    ensures x.Normal? && y.Normal? ==> r == Normal(Bool(Truthy(x.value) || Truthy(y.value)))
    ensures x.Normal? && !Truthy(x.value) && y.Throw? ==> r == y
    ensures r.Throw? ==> r == x || r == y
    ensures r.Normal? ==> r.value.Bool?
  {
    match x
    case Throw(_) => x
    case Normal(u) => if Truthy(u) then Normal(Bool(true)) else BooleanOf(y)
  }

  function IsOf(x: Completion, y: Completion): (r: Completion)
    ensures x.Throw? ==> r == x
    ensures x.Normal? && y.Throw? ==> r == y
    ensures x.Normal? && y.Normal? ==> r == Normal(Bool(StrictEquals(x.value, y.value)))
  {
    match (x, y)
    case (Throw(_), _) => x
    case (_, Throw(_)) => y
    case (Normal(u), Normal(w)) => Normal(Bool(StrictEquals(u, w)))
  }

  // ---------------------------------------------------------------------
  // not

  /** `not(value)`: a concrete operand is negated now, a resolver defers. */
  function Not(value: Val): (r: Val)
    ensures value.Now? ==> r == Now(Bool(!Truthy(value.v)))
    ensures IsResolver(r) <==> IsResolver(value)
  {
    match value
    case Now(u) => Now(Bool(!Truthy(u)))
    case Later(_) => Later((o: JsVal) => NotOf(Resolve(value, o)))
  }

  /** Deferred or not, `not` at `c` is the negation of the operand at `c`,
      and whatever it yields is a boolean. */
  lemma NotConsistent(value: Val, c: JsVal)
    ensures Resolve(Not(value), c) == NotOf(Resolve(value, c))
    ensures Resolve(Not(value), c).Normal? ==> Resolve(Not(value), c).value.Bool?
  {
  }

  /** Negating twice gives the truthiness of a concrete operand. */
  lemma NotNot(x: JsVal)
    ensures Not(Not(Now(x))) == Now(Bool(Truthy(x)))
  {
  }

  // ---------------------------------------------------------------------
  // and

  predicate FalsyNow(x: Val) {
    x.Now? && !Truthy(x.v)
  }

  predicate TruthyNow(x: Val) {
    x.Now? && Truthy(x.v)
  }

  /** `and(a, b)`: a concrete falsy operand gives `false` at once, without
      calling the other; two concrete operands give their conjunction; in
      every other case the result is a resolver. */
  function And(a: Val, b: Val): (r: Val)
    ensures a.Now? && b.Now? ==> r == Now(Bool(Truthy(a.v) && Truthy(b.v)))
    ensures FalsyNow(a) || FalsyNow(b) ==> r == Now(Bool(false))
    ensures IsResolver(r) <==> (IsResolver(a) || IsResolver(b)) && !FalsyNow(a) && !FalsyNow(b)
    ensures a.Later? && TruthyNow(b) ==> forall c :: Resolve(r, c) == BooleanOf(Resolve(a, c))
    ensures TruthyNow(a) && b.Later? ==> forall c :: Resolve(r, c) == BooleanOf(Resolve(b, c))
  {
    match (a, b)
    case (Later(_), Later(_)) => Later((o: JsVal) => AndOf(Resolve(a, o), Resolve(b, o)))
    case (Later(_), Now(y)) => if !Truthy(y) then Now(Bool(false)) else Later((o: JsVal) => BooleanOf(Resolve(a, o)))
    case (Now(x), Later(_)) => if !Truthy(x) then Now(Bool(false)) else Later((o: JsVal) => BooleanOf(Resolve(b, o)))
    case (Now(x), Now(y)) => Now(Bool(Truthy(x) && Truthy(y)))
  }

  /** Resolving `and(a, b)` at `c` is `&&` of the operands resolved at `c`,
      except when the skipped operand is a resolver that throws at `c`:
      `and(a, false)` never calls `a`. */
  lemma AndConsistent(a: Val, b: Val, c: JsVal)
    requires Resolve(a, c).Normal? || !FalsyNow(b)
    ensures Resolve(And(a, b), c) == AndOf(Resolve(a, c), Resolve(b, c))
  {
  }

  lemma AndSkippedOperandMayThrow(a: Val, b: Val, c: JsVal)
    requires a.Later? && Resolve(a, c).Throw? && FalsyNow(b)
    ensures Resolve(And(a, b), c) == Normal(Bool(false))
    ensures AndOf(Resolve(a, c), Resolve(b, c)) == Resolve(a, c)
  {
  }

  /** With operands that resolve without throwing, `and` at `c` is the
      concrete `and` of their values, is a boolean, and is commutative. */
  lemma AndPointwise(a: Val, b: Val, c: JsVal)
    requires Resolve(a, c).Normal? && Resolve(b, c).Normal?
    ensures Resolve(And(a, b), c) == Resolve(And(Now(Resolve(a, c).value), Now(Resolve(b, c).value)), c)
    ensures Resolve(And(a, b), c) == Resolve(And(b, a), c)
    ensures Resolve(And(a, b), c).Normal? && Resolve(And(a, b), c).value.Bool?
  {
  }

  // ---------------------------------------------------------------------
  // or

  /** `or(a, b)`: a concrete truthy operand gives `true` at once, without
      calling the other; two concrete operands give their disjunction; in
      every other case the result is a resolver. */
  function Or(a: Val, b: Val): (r: Val)
    ensures a.Now? && b.Now? ==> r == Now(Bool(Truthy(a.v) || Truthy(b.v)))
    ensures TruthyNow(a) || TruthyNow(b) ==> r == Now(Bool(true))
    ensures IsResolver(r) <==> (IsResolver(a) || IsResolver(b)) && !TruthyNow(a) && !TruthyNow(b)
    ensures a.Later? && FalsyNow(b) ==> forall c :: Resolve(r, c) == BooleanOf(Resolve(a, c))
    ensures FalsyNow(a) && b.Later? ==> forall c :: Resolve(r, c) == BooleanOf(Resolve(b, c))
  {
    match (a, b)
    case (Later(_), Later(_)) => Later((o: JsVal) => OrOf(Resolve(a, o), Resolve(b, o)))
    case (Later(_), Now(y)) => if Truthy(y) then Now(Bool(true)) else Later((o: JsVal) => BooleanOf(Resolve(a, o)))
    case (Now(x), Later(_)) => if Truthy(x) then Now(Bool(true)) else Later((o: JsVal) => BooleanOf(Resolve(b, o)))
    case (Now(x), Now(y)) => Now(Bool(Truthy(x) || Truthy(y)))
  }

  /** Resolving `or(a, b)` at `c` is `||` of the operands resolved at `c`,
      except when the skipped operand is a resolver that throws at `c`:
      `or(a, true)` never calls `a`. */
  lemma OrConsistent(a: Val, b: Val, c: JsVal)
    requires Resolve(a, c).Normal? || !TruthyNow(b)
    ensures Resolve(Or(a, b), c) == OrOf(Resolve(a, c), Resolve(b, c))
  {
  }

  lemma OrSkippedOperandMayThrow(a: Val, b: Val, c: JsVal)
    requires a.Later? && Resolve(a, c).Throw? && TruthyNow(b)
    ensures Resolve(Or(a, b), c) == Normal(Bool(true))
    ensures OrOf(Resolve(a, c), Resolve(b, c)) == Resolve(a, c)
  {
  }

  /** With operands that resolve without throwing, `or` at `c` is the
      concrete `or` of their values, is a boolean, and is commutative. */
  lemma OrPointwise(a: Val, b: Val, c: JsVal)
    requires Resolve(a, c).Normal? && Resolve(b, c).Normal?
    ensures Resolve(Or(a, b), c) == Resolve(Or(Now(Resolve(a, c).value), Now(Resolve(b, c).value)), c)
    ensures Resolve(Or(a, b), c) == Resolve(Or(b, a), c)
    ensures Resolve(Or(a, b), c).Normal? && Resolve(Or(a, b), c).value.Bool?
  {
  }

  /** De Morgan, on concrete operands. */
  lemma NotOrIsAndNot(x: JsVal, y: JsVal)
    ensures Not(Or(Now(x), Now(y))) == And(Not(Now(x)), Not(Now(y)))
  {
    assert Or(Now(x), Now(y)) == Now(Bool(Truthy(x) || Truthy(y)));
    assert Not(Now(x)) == Now(Bool(!Truthy(x)));
    assert Not(Now(y)) == Now(Bool(!Truthy(y)));
  }

  // ---------------------------------------------------------------------
  // is

  /** `is(a, b)`: `===` at once when both are concrete; a resolver on
      either side always defers, since equality needs both sides. */
  function Is(a: Val, b: Val): (r: Val)
    ensures a.Now? && b.Now? ==> r == Now(Bool(StrictEquals(a.v, b.v)))
    ensures IsResolver(r) <==> IsResolver(a) || IsResolver(b)
  {
    match (a, b)
    case (Later(_), Later(_)) => Later((o: JsVal) => IsOf(Resolve(a, o), Resolve(b, o)))
    case (Later(_), Now(y)) => Later((o: JsVal) => IsOf(Resolve(a, o), Normal(y)))
    case (Now(x), Later(_)) => Later((o: JsVal) => IsOf(Normal(x), Resolve(b, o)))
    case (Now(x), Now(y)) => Now(Bool(StrictEquals(x, y)))
  }

  /** In all four shapes, `is` at `c` compares the operands resolved at `c`. */
  lemma IsConsistent(a: Val, b: Val, c: JsVal)
    ensures Resolve(Is(a, b), c) == IsOf(Resolve(a, c), Resolve(b, c))
  {
  }

  /** With operands that resolve without throwing, `is` at `c` is the
      concrete `is` of their values, and does not depend on the order. */
  lemma IsPointwise(a: Val, b: Val, c: JsVal)
    requires Resolve(a, c).Normal? && Resolve(b, c).Normal?
    ensures Resolve(Is(a, b), c) == Resolve(Is(Now(Resolve(a, c).value), Now(Resolve(b, c).value)), c)
    ensures Resolve(Is(a, b), c) == Resolve(Is(b, a), c)
  {
    StrictEqualsReflexiveSymmetric(Resolve(a, c).value, Resolve(b, c).value);
  }

  /** Equality is never structural: two literals `[]` (or `{}`) differ,
      while equal primitives are equal. */
  lemma IsIdentity(i: nat, j: nat, x: JsVal)
    requires i != j && !x.Obj? && !x.Arr?
    ensures Is(Now(Arr(i, [])), Now(Arr(j, []))) == Now(Bool(false))
    ensures Is(Now(Obj(i, map[])), Now(Obj(j, map[]))) == Now(Bool(false))
    ensures Is(Now(x), Now(x)) == Now(Bool(true))
  {
  }
}

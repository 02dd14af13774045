/** The collection and string combinators `includes`, `join` and `map`. */
module Collections {
  import opened JsValues
  import opened Core

  // ---------------------------------------------------------------------
  // includes

  /** `es.includes(t)`: some element is `===` to `t` (SameValueZero, which
      is `===` once there is no NaN). */
  function Member(t: JsVal, es: seq<JsVal>): (r: bool)
    ensures r <==> exists i :: 0 <= i < |es| && StrictEquals(es[i], t)
  {
    if es == [] then false
    else
      StrictEquals(es[0], t) || (
        var rest := Member(t, es[1..]);
        assert rest ==> exists i :: 1 <= i < |es| && StrictEquals(es[i], t) by {
          if rest {
            var j :| 0 <= j < |es[1..]| && StrictEquals(es[1..][j], t);
            assert es[j + 1] == es[1..][j];
          }
        }
        rest)
  }

  /** `s.includes(needle)` on a string: `needle` occurs in `s`. */
  predicate IsSubstring(needle: string, s: string): (r: bool)
    ensures needle <= s ==> r
    ensures |needle| > |s| ==> !r
    ensures s == [] ==> (r <==> needle == [])
  {
    assert s[0..] == s;
    exists i :: 0 <= i <= |s| && needle <= s[i..]
  }

  /** `array.includes(test)` over evaluated operands.  A throw of the array
      operand comes first; reading `.includes` of `undefined` or `null`
      throws before the test is evaluated; a string searches for the test
      as text; any other receiver has no `includes` to call. */
  function IncludesOf(collection: Completion, test: Completion): (r: Completion)
    ensures collection.Throw? ==> r == collection
    ensures collection.Normal? && (collection.value.Undef? || collection.value.Null?) ==> r == Throw(TypeError)
    ensures collection.Normal? && !collection.value.Undef? && !collection.value.Null? && test.Throw? ==> r == test
    ensures collection.Normal? && collection.value.Arr? && test.Normal? ==>
              r == Normal(Bool(Member(test.value, collection.value.elems)))
    ensures collection.Normal? && collection.value.Str? && test.Normal? ==>
              r == Normal(Bool(IsSubstring(ToString(test.value), collection.value.s)))
    ensures collection.Normal? && !collection.value.Arr? && !collection.value.Str? && test.Normal? ==>
              r == Throw(TypeError)
  {
    match collection
    case Throw(_) => collection
    case Normal(a) =>
      if a.Undef? || a.Null? then Throw(TypeError)
      else
        match test
        case Throw(_) => test
        case Normal(t) =>
          match a
          case Arr(_, es) => Normal(Bool(Member(t, es)))
          case Str(s) => Normal(Bool(IsSubstring(ToString(t), s)))
          case _ => Throw(TypeError)
  }

  /** `includes(array, test)`: membership at once when both are concrete;
      a resolver on either side defers (no short-circuit is possible).  When
      both are concrete, the receiver must be an array (or a string). */
  function Includes(collection: Val, test: Val): (r: Val)
    requires collection.Later? || test.Later? || collection.v.Arr? || collection.v.Str?
    ensures collection.Now? && test.Now? ==> r.Now? && IncludesOf(Normal(collection.v), Normal(test.v)) == Normal(r.v)
    ensures collection.Now? && collection.v.Arr? && test.Now? ==> r == Now(Bool(Member(test.v, collection.v.elems)))
    ensures IsResolver(r) <==> IsResolver(collection) || IsResolver(test)
  {
    match (collection, test)
    case (Later(fa), Later(ft)) => Later((o: JsVal) => IncludesOf(fa(o), ft(o)))
    case (Later(fa), Now(t)) => Later((o: JsVal) => IncludesOf(fa(o), Normal(t)))
    case (Now(a), Later(ft)) => Later((o: JsVal) => IncludesOf(Normal(a), ft(o)))
    case (Now(a), Now(t)) => Now(IncludesOf(Normal(a), Normal(t)).value)
  }

  /** In all four shapes, `includes` at `c` is membership of the test
      resolved at `c` in the array resolved at `c`. */
  lemma IncludesConsistent(collection: Val, test: Val, c: JsVal)
    requires collection.Later? || test.Later? || collection.v.Arr? || collection.v.Str?
    ensures Resolve(Includes(collection, test), c) == IncludesOf(Resolve(collection, c), Resolve(test, c))
  {
  }

  /** A concrete receiver that is neither an array nor a string, under a
      resolver test, gives a resolver that throws a TypeError once called. */
  lemma IncludesNonCollectionThrows(a: JsVal, test: Val, c: JsVal)
    requires IsResolver(test) && !a.Arr? && !a.Str?
    requires a.Undef? || a.Null? || Resolve(test, c).Normal?
    ensures IsResolver(Includes(Now(a), test))
    ensures Resolve(Includes(Now(a), test), c) == Throw(TypeError)
  {
    IncludesConsistent(Now(a), test, c);
  }

  /** A fresh `[]` or `{}` is never found: no element has its identity. */
  lemma FreshReferenceNotIncluded(es: seq<JsVal>, t: JsVal)
    requires t.Obj? || t.Arr?
    requires forall i :: 0 <= i < |es| ==> !((es[i].Obj? || es[i].Arr?) && es[i].id == t.id)
    ensures !Member(t, es)
  {
    if Member(t, es) {
      var i :| 0 <= i < |es| && StrictEquals(es[i], t);
      StrictEqualsReflexiveSymmetric(es[i], t);
    }
  }

  /** There is no coercion: a primitive is found only as itself. */
  lemma PrimitiveIncludedOnlyAsItself(es: seq<JsVal>, t: JsVal)
    requires !t.Obj? && !t.Arr?
    ensures Member(t, es) <==> t in es
  {
    if Member(t, es) {
      var i :| 0 <= i < |es| && StrictEquals(es[i], t);
      StrictEqualsReflexiveSymmetric(es[i], t);
    }
    if t in es {
      var i :| 0 <= i < |es| && es[i] == t;
      StrictEqualsReflexiveSymmetric(t, t);
    }
  }

  // ---------------------------------------------------------------------
  // join

  /** The values of `values.map(v => isResolver(v) ? v(o) : v)`, or the
      first throw. */
  datatype Resolved = Values(vs: seq<JsVal>) | Threw(error: Exception)

  /** Resolves every value at `o` from left to right: concrete values pass
      through, resolvers are applied, and the first throw ends it. */
  function ResolveAll(values: seq<Val>, o: JsVal): (r: Resolved)
    ensures r.Values? ==> |r.vs| == |values| &&
                          forall i :: 0 <= i < |values| ==> Resolve(values[i], o) == Normal(r.vs[i])
    ensures r.Threw? ==> exists i :: 0 <= i < |values| && Resolve(values[i], o) == Throw(r.error) &&
                                     forall j :: 0 <= j < i ==> Resolve(values[j], o).Normal?
    ensures (forall i :: 0 <= i < |values| ==> Resolve(values[i], o).Normal?) ==> r.Values?
  {
    if values == [] then Values([])
    else
      match Resolve(values[0], o)
      case Throw(e) => Threw(e)
      case Normal(x) =>
        match ResolveAll(values[1..], o)
        case Threw(e) =>
          assert exists i :: 1 <= i < |values| && Resolve(values[i], o) == Throw(e) &&
                             forall j :: 0 <= j < i ==> Resolve(values[j], o).Normal? by {
            var k :| 0 <= k < |values[1..]| && Resolve(values[1..][k], o) == Throw(e) &&
                     forall j :: 0 <= j < k ==> Resolve(values[1..][j], o).Normal?;
            assert values[k + 1] == values[1..][k];
            forall j | 0 <= j < k + 1 ensures Resolve(values[j], o).Normal? {
              if j > 0 { assert values[j] == values[1..][j - 1]; }
            }
          }
          Threw(e)
        case Values(xs) =>
          assert forall i :: 1 <= i < |values| ==> values[i] == values[1..][i - 1];
          Values([x] + xs)
  }

  predicate AnyResolver(values: seq<Val>) {
    exists i :: 0 <= i < |values| && IsResolver(values[i])
  }

  function Concretes(values: seq<Val>): (r: seq<JsVal>)
    requires !AnyResolver(values)
    ensures |r| == |values| && forall i :: 0 <= i < |values| ==> values[i] == Now(r[i])
  {
    seq(|values|, i requires 0 <= i < |values| && !AnyResolver(values) => values[i].v)
  }

  /** The joiner: `joiner = ""` replaces an omitted (or `undefined`) joiner,
      and `join` prints any other. */
  function Separator(joiner: JsVal): (r: string)
    ensures joiner.Undef? ==> r == ""
    ensures joiner.Str? ==> r == joiner.s
  {
    if joiner.Undef? then "" else ToString(joiner)
  }

  /** `vs.filter(Boolean)`: the truthy values, in their original order. */
  function Truthies(vs: seq<JsVal>): (r: seq<JsVal>)
    ensures forall x :: x in r <==> x in vs && Truthy(x)
    ensures |r| <= |vs|
  {
    if vs == [] then [] else (if Truthy(vs[0]) then [vs[0]] else []) + Truthies(vs[1..])
  }

  function Strings(vs: seq<JsVal>): (r: seq<string>)
    ensures |r| == |vs| && forall i :: 0 <= i < |vs| ==> r[i] == ToString(vs[i])
  {
    seq(|vs|, i requires 0 <= i < |vs| => ToString(vs[i]))
  }

  /** `vs.filter(Boolean).join(sep)`. */
  function JoinText(sep: string, vs: seq<JsVal>): (r: string)
    ensures Truthies(vs) == [] ==> r == ""
    ensures |Truthies(vs)| == 1 ==> r == ToString(Truthies(vs)[0])
  {
    Intercalate(Strings(Truthies(vs)), sep)
  }

  function JoinOf(joiner: JsVal, resolved: Resolved): (r: Completion)
    ensures resolved.Threw? ==> r == Throw(resolved.error)
    ensures resolved.Values? ==> r == Normal(Str(JoinText(Separator(joiner), resolved.vs)))
    ensures resolved.Values? && Truthies(resolved.vs) == [] ==> r == Normal(Str(""))
  {
    match resolved
    case Threw(e) => Throw(e)
    case Values(xs) => Normal(Str(JoinText(Separator(joiner), xs)))
  }

  /** `join(joiner, ...values)`: a string at once when no value is a
      resolver, and otherwise a resolver that resolves every value first. */
  function Join(joiner: JsVal, values: seq<Val>): (r: Val)
    ensures IsResolver(r) <==> AnyResolver(values)
    ensures !AnyResolver(values) ==> r == Now(Str(JoinText(Separator(joiner), Concretes(values))))
  {
    if AnyResolver(values) then Later((o: JsVal) => JoinOf(joiner, ResolveAll(values, o)))
    else Now(Str(JoinText(Separator(joiner), Concretes(values))))
  }

  /** Deferred or not, `join` at `c` filters and joins the values resolved
      at `c`; concrete values take part unchanged. */
  lemma JoinConsistent(joiner: JsVal, values: seq<Val>, c: JsVal)
    ensures Resolve(Join(joiner, values), c) == JoinOf(joiner, ResolveAll(values, c))
  {
    if !AnyResolver(values) {
      var r := ResolveAll(values, c);
      assert r.Values?;
      assert r.vs == Concretes(values);
    }
  }

  function Nows(xs: seq<JsVal>): (r: seq<Val>)
    ensures |r| == |xs| && forall i :: 0 <= i < |xs| ==> r[i] == Now(xs[i])
  {
    seq(|xs|, i requires 0 <= i < |xs| => Now(xs[i]))
  }

  /** The deferred join at `c` is the immediate join of the resolved values. */
  lemma JoinPointwise(joiner: JsVal, values: seq<Val>, c: JsVal)
    requires ResolveAll(values, c).Values?
    ensures !IsResolver(Join(joiner, Nows(ResolveAll(values, c).vs)))
    ensures Resolve(Join(joiner, values), c) == Resolve(Join(joiner, Nows(ResolveAll(values, c).vs)), c)
  {
    var xs := ResolveAll(values, c).vs;
    JoinConsistent(joiner, values, c);
    assert !AnyResolver(Nows(xs));
    assert Concretes(Nows(xs)) == xs;
  }

  lemma {:induction false} TruthiesAppend(xs: seq<JsVal>, ys: seq<JsVal>)
    ensures Truthies(xs + ys) == Truthies(xs) + Truthies(ys)
  {
    if xs == [] {
      assert xs + ys == ys;
    } else {
      var h := if Truthy(xs[0]) then [xs[0]] else [];
      calc {
        Truthies(xs + ys);
      == { assert (xs + ys)[0] == xs[0]; assert (xs + ys)[1..] == xs[1..] + ys; }
        h + Truthies(xs[1..] + ys);
      == { TruthiesAppend(xs[1..], ys); }
        h + (Truthies(xs[1..]) + Truthies(ys));
      ==
        (h + Truthies(xs[1..])) + Truthies(ys);
      }
    }
  }

  /** A falsy entry contributes nothing, wherever it stands: the joiner is
      never doubled for it. */
  lemma JoinTextDropsFalsy(sep: string, xs: seq<JsVal>, z: JsVal, ys: seq<JsVal>)
    requires !Truthy(z)
    ensures JoinText(sep, xs + [z] + ys) == JoinText(sep, xs + ys)
  {
    TruthiesAppend(xs + [z], ys);
    TruthiesAppend(xs, [z]);
    TruthiesAppend(xs, ys);
    assert [z][1..] == [];
    assert Truthies([z]) == [];
    assert Truthies(xs + [z] + ys) == Truthies(xs + ys);
    assert Strings(Truthies(xs + [z] + ys)) == Strings(Truthies(xs + ys));
  }

  /** An empty or all-falsy list joins to "". */
  lemma {:induction false} JoinTextAllFalsy(sep: string, vs: seq<JsVal>)
    requires forall i :: 0 <= i < |vs| ==> !Truthy(vs[i])
    ensures Truthies(vs) == []
    ensures JoinText(sep, vs) == ""
  {
    if vs != [] {
      JoinTextAllFalsy(sep, vs[1..]);
    }
  }

  /** With no array among them, every joined piece is non-empty, so two
      joiners are never adjacent. */
  lemma JoinPiecesNonEmpty(vs: seq<JsVal>)
    requires forall i :: 0 <= i < |vs| ==> !vs[i].Arr?
    ensures forall i :: 0 <= i < |Strings(Truthies(vs))| ==> Strings(Truthies(vs))[i] != ""
  {
    forall i | 0 <= i < |Strings(Truthies(vs))|
      ensures Strings(Truthies(vs))[i] != ""
    {
      var x := Truthies(vs)[i];
      assert x in vs;
      TruthyPrintsNonEmpty(x);
    }
  }

  /** Truthy entries keep their order: the first piece is that of the
      first truthy value. */
  lemma {:induction false} JoinTextLeadsWithFirstTruthy(vs: seq<JsVal>, k: nat)
    requires k < |vs| && Truthy(vs[k])
    requires forall i :: 0 <= i < k ==> !Truthy(vs[i])
    ensures Truthies(vs) != [] && Truthies(vs)[0] == vs[k]
  {
    if k > 0 {
      JoinTextLeadsWithFirstTruthy(vs[1..], k - 1);
    }
  }

  // ---------------------------------------------------------------------
  // map

  /** `mapping[key]`: an absent key is `undefined`; an entry that is a
      resolver comes back as it is. */
  function Entry(mapping: map<string, Val>, key: string): (r: Val)
    ensures key in mapping ==> r == mapping[key]
    ensures key !in mapping ==> r == Now(Undef)
  {
    if key in mapping then mapping[key] else Now(Undef)
  }

  /** `map(mapping, key)`: a concrete key selects its entry unresolved; a
      resolver key gives a resolver that also resolves the entry it
      selects, with the same context.  The mapping itself is never
      resolved.  A key is turned into a property name by `String(key)`. */
  function Map(mapping: map<string, Val>, key: Val): (r: Val)
    ensures key.Now? ==> r == Entry(mapping, ToString(key.v))
    ensures key.Now? && ToString(key.v) !in mapping ==> r == Now(Undef)
    ensures IsResolver(key) ==> IsResolver(r)
  {
    match key
    case Now(k) => Entry(mapping, ToString(k))
    case Later(fk) =>
      Later((o: JsVal) =>
              match fk(o)
              case Throw(e) => Throw(e)
              case Normal(k) => Resolve(Entry(mapping, ToString(k)), o))
  }

  /** A resolver key at `c` selects with the key resolved at `c` and then
      resolves the selected entry at `c`; a missing key gives `undefined`. */
  lemma MapConsistent(mapping: map<string, Val>, key: Val, c: JsVal)
    requires IsResolver(key)
    ensures Resolve(Map(mapping, key), c) ==
            match Resolve(key, c)
            case Throw(e) => Throw(e)
            case Normal(k) => Resolve(Map(mapping, Now(k)), c)
    ensures Resolve(key, c).Normal? && ToString(Resolve(key, c).value) !in mapping ==>
              Resolve(Map(mapping, key), c) == Normal(Undef)
  {
  }

  /** A number key and its numeral select the same entry. */
  lemma MapNumericKey(mapping: map<string, Val>, n: nat)
    ensures Map(mapping, Now(Int(n))) == Map(mapping, Now(Str(NatToString(n))))
  {
  }
}

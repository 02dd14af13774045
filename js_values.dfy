/** The JavaScript values the resolvers work on, with the three pieces of
    JavaScript semantics every resolver relies on: truthiness, strict
    equality (`===`) and conversion to a string.  Property access lives
    here too, because it is the only operation on values that can throw. */
module JsValues {

  datatype Option<T> = None | Some(value: T)

  /** A JavaScript value, without functions.  Objects and arrays carry an
      identity `id`: two literals `[]` are two different arrays. */
  datatype JsVal =
    | Undef
    | Null
    | Bool(b: bool)
    | Int(n: int)
    | Str(s: string)
    | Obj(id: nat, fields: map<string, JsVal>)
    | Arr(id: nat, elems: seq<JsVal>)

  /** What a throw carries: the TypeError of a property read on
      `undefined`/`null` or of calling a non-function, or any value a
      resolver of the caller's throws itself. */
  datatype Exception = TypeError | Raised(payload: JsVal)

  /** The outcome of evaluating an expression: a value, or a throw that
      propagates to the caller. */
  datatype Completion = Normal(value: JsVal) | Throw(error: Exception)

  /** The five falsy values of the domain (there is no NaN and no -0). */
  const FalsyValues: set<JsVal> := {Undef, Null, Bool(false), Int(0), Str("")}

  /** `Boolean(v)`, the coercion behind `!`, `&&`, `||`, `?:` and `filter(Boolean)`. */
  function Truthy(v: JsVal): (r: bool)
    ensures r <==> v !in FalsyValues
  {
    match v
    case Undef => false
    case Null => false
    case Bool(b) => b
    case Int(n) => n != 0
    case Str(s) => s != ""
    case Obj(_, _) => true
    case Arr(_, _) => true
  }

  /** `a === b`: primitives compare by value, objects and arrays by identity. */
  function StrictEquals(a: JsVal, b: JsVal): (r: bool)
    ensures (a.Obj? || a.Arr?) ==> (r <==> b.Obj? == a.Obj? && b.Arr? == a.Arr? && b.id == a.id)
    ensures !(a.Obj? || a.Arr?) && !(b.Obj? || b.Arr?) ==> (r <==> a == b)
    ensures !(a.Obj? || a.Arr?) && (b.Obj? || b.Arr?) ==> !r
  {
    match (a, b)
    case (Obj(i, _), Obj(j, _)) => i == j
    case (Arr(i, _), Arr(j, _)) => i == j
    case (Obj(_, _), _) => false
    case (Arr(_, _), _) => false
    case (_, Obj(_, _)) => false
    case (_, Arr(_, _)) => false
    case _ => a == b
  }

  /** Without NaN, `===` is an equivalence on primitives and on references. */
  lemma StrictEqualsReflexiveSymmetric(a: JsVal, b: JsVal)
    ensures StrictEquals(a, a)
    ensures StrictEquals(a, b) == StrictEquals(b, a)
  {
  }

  /** Two distinct literals compare unequal, whatever they hold. */
  lemma FreshReferencesDiffer(i: nat, j: nat, fs: map<string, JsVal>, gs: map<string, JsVal>,
                              es: seq<JsVal>, ds: seq<JsVal>)
    requires i != j
    ensures !StrictEquals(Obj(i, fs), Obj(j, gs))
    ensures !StrictEquals(Arr(i, es), Arr(j, ds))
    ensures !StrictEquals(Obj(i, fs), Arr(j, ds))
  {
  }

  // ---------------------------------------------------------------------
  // Decimal numerals

  predicate IsDigit(ch: char) {
    '0' <= ch <= '9'
  }

  function Digit(d: nat): (ch: char)
    requires d < 10
    ensures IsDigit(ch) && ch as int - '0' as int == d
  {
    ('0' as int + d) as char
  }

  function DigitValue(ch: char): (d: nat)
    requires IsDigit(ch)
    ensures d < 10 && Digit(d) == ch
  {
    ch as int - '0' as int
  }

  predicate AllDigits(s: string) {
    forall i :: 0 <= i < |s| ==> IsDigit(s[i])
  }

  /** The value of a string of decimal digits, most significant first. */
  function DecimalValue(s: string): nat
    requires AllDigits(s)
  {
    if s == [] then 0 else 10 * DecimalValue(s[..|s| - 1]) + DigitValue(s[|s| - 1])
  }

  /** The decimal numeral of `n`, as `String(n)` writes it: no leading zero. */
  function NatToString(n: nat): (r: string)
    ensures |r| >= 1 && AllDigits(r)
    ensures r[0] == '0' <==> n == 0
  {
    if n < 10 then [Digit(n)] else NatToString(n / 10) + [Digit(n % 10)]
  }

  /** `String(n)` for an integer: a minus sign exactly for a negative one. */
  function IntToString(n: int): (r: string)
    ensures |r| >= 1 && (r[0] == '-' <==> n < 0)
    ensures n >= 0 ==> AllDigits(r)
  {
    if n < 0 then "-" + NatToString(-n) else NatToString(n)
  }

  lemma {:induction false} DecimalValueOfNatToString(n: nat)
    ensures DecimalValue(NatToString(n)) == n
  {
    var r := NatToString(n);
    if n >= 10 {
      DecimalValueOfNatToString(n / 10);
      assert r[..|r| - 1] == NatToString(n / 10);
    }
  }

  /** The array index a property name denotes: a canonical numeral ("0",
      "17", never "01" or ""), as for `arr["0"]`. */
  function CanonicalIndex(key: string): (r: Option<nat>)
    ensures r.Some? ==> key == NatToString(r.value)
  {
    if key != "" && AllDigits(key) && (|key| == 1 || key[0] != '0') then
      CanonicalNumeral(key);
      Some(DecimalValue(key))
    else
      None
  }

  lemma {:induction false} CanonicalNumeral(key: string)
    requires key != "" && AllDigits(key) && (|key| == 1 || key[0] != '0')
    ensures key == NatToString(DecimalValue(key))
    decreases |key|
  {
    var n := DecimalValue(key);
    var d := DigitValue(key[|key| - 1]);
    if |key| == 1 {
      assert key[..0] == [];
    } else {
      var front := key[..|key| - 1];
      assert AllDigits(front);
      assert front[0] == key[0];
      CanonicalNumeral(front);
      var m := DecimalValue(front);
      assert n == 10 * m + d;
      assert n / 10 == m && n % 10 == d;
      assert key == front + [key[|key| - 1]];
    }
  }

  /** Round trip: the numeral of `n` names index `n`. */
  lemma CanonicalIndexOfNatToString(n: nat)
    ensures CanonicalIndex(NatToString(n)) == Some(n)
  {
    DecimalValueOfNatToString(n);
  }

  // ---------------------------------------------------------------------
  // Conversion to a string

  /** `pieces.join(sep)`. */
  function Intercalate(pieces: seq<string>, sep: string): (r: string)
    ensures pieces == [] ==> r == ""
    ensures |pieces| == 1 ==> r == pieces[0]
    ensures pieces != [] ==> pieces[0] <= r
    ensures |pieces| >= 2 ==> pieces[0] + sep <= r
  {
    if |pieces| == 0 then ""
    else if |pieces| == 1 then pieces[0]
    else pieces[0] + sep + Intercalate(pieces[1..], sep)
  }

  /** `String(v)`, as used by template literals and `Array.prototype.join`.
      An array prints as its elements joined by ",", with `undefined` and
      `null` elements printed as nothing; a plain object as "[object Object]". */
  function ToString(v: JsVal): (r: string)
    ensures v.Str? ==> r == v.s
    ensures v.Int? ==> r == IntToString(v.n)
    ensures v.Obj? ==> r == "[object Object]"
    ensures v.Undef? ==> r == "undefined"
    ensures v.Null? ==> r == "null"
    ensures v.Bool? ==> r == (if v.b then "true" else "false")
    ensures v.Arr? && v.elems == [] ==> r == ""
    ensures Truthy(v) && !v.Arr? ==> r != ""
  {
    match v
    case Undef => "undefined"
    case Null => "null"
    case Bool(b) => if b then "true" else "false"
    case Int(n) => IntToString(n)
    case Str(s) => s
    case Obj(_, _) => "[object Object]"
    case Arr(_, es) =>
      Intercalate(seq(|es|, i requires 0 <= i < |es| =>
                        if es[i].Undef? || es[i].Null? then "" else ToString(es[i])), ",")
  }

  /** Every truthy value other than an array prints as a non-empty string
      (an array may print empty: `String([])` is ""). */
  lemma TruthyPrintsNonEmpty(v: JsVal)
    requires Truthy(v) && !v.Arr?
    ensures ToString(v) != ""
  {
  }

  // ---------------------------------------------------------------------
  // Property access

  /** `v[key]` for a property name `key`.  It throws a TypeError exactly
      when `v` is `undefined` or `null`; an absent property is `undefined`.
      Only own properties are modelled (no prototype chain). */
  function Lookup(v: JsVal, key: string): (r: Completion)
    ensures r.Throw? <==> v.Undef? || v.Null?
    ensures r.Throw? ==> r.error == TypeError
    ensures v.Obj? && key !in v.fields ==> r == Normal(Undef)
    ensures v.Obj? && key in v.fields ==> r == Normal(v.fields[key])
    ensures (v.Bool? || v.Int?) ==> r == Normal(Undef)
  {
    match v
    case Undef => Throw(TypeError)
    case Null => Throw(TypeError)
    case Bool(_) => Normal(Undef)
    case Int(_) => Normal(Undef)
    case Str(s) =>
      if key == "length" then Normal(Int(|s|))
      else
        (match CanonicalIndex(key)
         case Some(i) => if i < |s| then Normal(Str([s[i]])) else Normal(Undef)
         case None => Normal(Undef))
    case Obj(_, fs) => Normal(if key in fs then fs[key] else Undef)
    case Arr(_, es) =>
      if key == "length" then Normal(Int(|es|))
      else
        (match CanonicalIndex(key)
         case Some(i) => if i < |es| then Normal(es[i]) else Normal(Undef)
         case None => Normal(Undef))
  }

  /** `a[String(i)]` is the element at index `i`. */
  lemma LookupArrayIndex(id: nat, es: seq<JsVal>, i: nat)
    requires i < |es|
    ensures Lookup(Arr(id, es), NatToString(i)) == Normal(es[i])
  {
    CanonicalIndexOfNatToString(i);
    assert NatToString(i) != "length" by {
      assert IsDigit(NatToString(i)[0]);
    }
  }

  /** No `null` anywhere inside `v`. */
  predicate NullFree(v: JsVal) {
    match v
    case Null => false
    case Obj(_, fs) => forall k :: k in fs ==> NullFree(fs[k])
    case Arr(_, es) => forall i :: 0 <= i < |es| ==> NullFree(es[i])
    case _ => true
  }

  /** Reading a property of a defined, null-free value never throws and
      gives a null-free value. */
  lemma LookupNullFree(v: JsVal, key: string)
    requires NullFree(v) && !v.Undef?
    ensures Lookup(v, key).Normal? && NullFree(Lookup(v, key).value)
  {
  }
}

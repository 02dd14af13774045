/** The behaviours the repository's own test suite exercises, restated as
    lemmas over the model. */
module Scenarios {
  import opened JsValues
  import opened Core
  import opened Paths
  import opened Props
  import opened Logic
  import opened Collections
  import opened Conditionals

  function Animals(): JsVal {
    Obj(0, map["isMammal" := Bool(true), "isCat" := Bool(false)])
  }

  /** `or`/`and` with a deciding concrete operand never call `prop("unknown")`. */
  lemma ShortCircuitScenarios()
    ensures Or(Prop("unknown"), Now(Bool(true))) == Now(Bool(true))
    ensures Or(Now(Bool(true)), Prop("unknown")) == Now(Bool(true))
    ensures And(Prop("unknown"), Now(Bool(false))) == Now(Bool(false))
    ensures And(Now(Bool(false)), Prop("unknown")) == Now(Bool(false))
  {
  }

  lemma DeferredLogicScenarios()
    ensures Resolve(Not(Prop("isMammal")), Animals()) == Normal(Bool(false))
    ensures Resolve(Not(Prop("isCat")), Animals()) == Normal(Bool(true))
    ensures Resolve(Or(Prop("isCat"), Prop("isMammal")), Animals()) == Normal(Bool(true))
    ensures Resolve(Or(Prop("isCat"), Prop("unknown")), Animals()) == Normal(Bool(false))
    ensures Resolve(And(Prop("isMammal"), Now(Bool(true))), Animals()) == Normal(Bool(true))
    ensures Resolve(And(Prop("isCat"), Prop("isMammal")), Animals()) == Normal(Bool(false))
  {
    PropSimpleKey("isMammal", 0, Animals().fields);
    PropSimpleKey("isCat", 0, Animals().fields);
    PathAbsentSimpleKey(0, Animals().fields, "unknown");
  }

  /** The remaining deferred `or` and `and` cases, where one operand is
      concrete or the deferred operands come in the other order. */
  lemma DeferredLogicMoreScenarios()
    ensures Resolve(Or(Prop("isMammal"), Now(Bool(false))), Animals()) == Normal(Bool(true))
    ensures Resolve(Or(Now(Bool(false)), Prop("isMammal")), Animals()) == Normal(Bool(true))
    ensures Resolve(Or(Prop("isMammal"), Prop("isCat")), Animals()) == Normal(Bool(true))
    ensures Resolve(And(Now(Bool(true)), Prop("isMammal")), Animals()) == Normal(Bool(true))
    ensures Resolve(And(Prop("isMammal"), Prop("isCat")), Animals()) == Normal(Bool(false))
    ensures Resolve(And(Prop("isCat"), Prop("unknown")), Animals()) == Normal(Bool(false))
  {
    PropSimpleKey("isMammal", 0, Animals().fields);
    PropSimpleKey("isCat", 0, Animals().fields);
    PathAbsentSimpleKey(0, Animals().fields, "unknown");
  }

  lemma IncludesScenarios()
    ensures Includes(Now(Arr(1, [Str("A"), Str("B")])), Now(Str("B"))) == Now(Bool(true))
    ensures Includes(Now(Arr(1, [Str("A"), Str("B")])), Now(Bool(true))) == Now(Bool(false))
    ensures Includes(Now(Arr(1, [Str("A"), Str("B")])), Now(Str("C"))) == Now(Bool(false))
    ensures Includes(Now(Arr(1, [Str("A"), Str("B")])), Now(Arr(2, []))) == Now(Bool(false))
    ensures Includes(Now(Arr(1, [Str("A"), Str("B")])), Now(Obj(2, map[]))) == Now(Bool(false))
  {
    PrimitiveIncludedOnlyAsItself([Str("A"), Str("B")], Str("C"));
    PrimitiveIncludedOnlyAsItself([Str("A"), Str("B")], Bool(true));
    FreshReferenceNotIncluded([Str("A"), Str("B")], Arr(2, []));
    FreshReferenceNotIncluded([Str("A"), Str("B")], Obj(2, map[]));
  }

  lemma TruthiesOfThreeStrings(a: string, b: string, c: string)
    requires a != "" && b != "" && c != ""
    ensures Truthies([Str(a), Str(b), Str(c)]) == [Str(a), Str(b), Str(c)]
  {
    var xs := [Str(a), Str(b), Str(c)];
    assert xs[1..] == [Str(b), Str(c)];
    assert xs[1..][1..] == [Str(c)];
    assert Truthies([Str(c)]) == [Str(c)];
    assert Truthies([Str(b), Str(c)]) == [Str(b)] + [Str(c)];
    assert Truthies(xs) == [Str(a)] + [Str(b), Str(c)];
  }

  lemma IntercalateThree(sep: string, a: string, b: string, c: string)
    ensures Intercalate([a, b, c], sep) == a + sep + b + sep + c
  {
    var ps := [a, b, c];
    assert ps[1..] == [b, c];
    assert ps[1..][1..] == [c];
    assert Intercalate(ps[1..], sep) == b + sep + c;
  }

  lemma JoinThreeStrings(sep: string, a: string, b: string, c: string)
    requires a != "" && b != "" && c != ""
    ensures JoinText(sep, [Str(a), Str(b), Str(c)]) == a + sep + b + sep + c
  {
    TruthiesOfThreeStrings(a, b, c);
    assert Strings([Str(a), Str(b), Str(c)]) == [a, b, c];
    IntercalateThree(sep, a, b, c);
  }

  lemma JoinImmediateScenario()
    ensures Join(Str(" "), [Now(Str("really,")), Now(Str("just join")), Now(Str("us"))])
            == Now(Str("really, just join us"))
  {
    var vs := [Now(Str("really,")), Now(Str("just join")), Now(Str("us"))];
    assert !AnyResolver(vs);
    assert Concretes(vs) == [Str("really,"), Str("just join"), Str("us")];
    JoinThreeStrings(" ", "really,", "just join", "us");
    ImmediateJoinText();
  }

  lemma ImmediateJoinText()
    ensures "really," + " " + "just join" + " " + "us" == "really, just join us"
  {
  }

  lemma ResolvePropThenStrings(p: string, x: JsVal, y: JsVal, z: JsVal, props: JsVal)
    requires Resolve(Prop(p), props) == Normal(x)
    ensures ResolveAll([Prop(p), Now(y), Now(z)], props) == Values([x, y, z])
  {
    var ws := [Prop(p), Now(y), Now(z)];
    assert ws[1..] == [Now(y), Now(z)];
    assert ws[1..][1..] == [Now(z)];
    assert ResolveAll([Now(z)], props) == Values([z]);
    assert ResolveAll(ws[1..], props) == Values([y, z]);
  }

  lemma JoinPropThenStrings(p: string, a: string, b: string, c: string, props: JsVal)
    requires a != "" && b != "" && c != ""
    requires Resolve(Prop(p), props) == Normal(Str(a))
    ensures Resolve(Join(Str(""), [Prop(p), Now(Str(b)), Now(Str(c))]), props) == Normal(Str(a + "" + b + "" + c))
  {
    var ws := [Prop(p), Now(Str(b)), Now(Str(c))];
    var xs := [Str(a), Str(b), Str(c)];
    ResolvePropThenStrings(p, Str(a), Str(b), Str(c), props);
    JoinConsistent(Str(""), ws, props);
    assert Separator(Str("")) == "";
    assert JoinOf(Str(""), Values(xs)) == Normal(Str(JoinText("", xs)));
    JoinThreeStrings("", a, b, c);
  }

  lemma JoinDeferredScenario()
    ensures Resolve(Join(Str(""), [Prop("prop"), Now(Str(", just join ")), Now(Str("us"))]),
                    Obj(0, map["prop" := Str("later")]))
            == Normal(Str("later, just join us"))
  {
    PropSimpleKey("prop", 0, map["prop" := Str("later")]);
    JoinPropThenStrings("prop", "later", ", just join ", "us", Obj(0, map["prop" := Str("later")]));
    DeferredJoinText();
  }

  lemma DeferredJoinText()
    ensures "later" + "" + ", just join " + "" + "us" == "later, just join us"
  {
  }

  lemma MapScenarios()
    ensures Map(map["a" := Now(Str("A")), "b" := Now(Str("B"))], Now(Str("a"))) == Now(Str("A"))
    ensures Resolve(Map(map["a" := Now(Str("A")), "b" := Now(Str("B"))], Prop("bb")),
                    Obj(0, map["aa" := Str("a"), "bb" := Str("b")])) == Normal(Str("B"))
    ensures Resolve(Map(map["a" := Prop("a"), "b" := Prop("b")], Prop("aa")),
                    Obj(0, map["aa" := Str("a"), "bb" := Str("b"), "a" := Str("A"), "b" := Str("B")]))
            == Normal(Str("A"))
  {
    PropSimpleKey("bb", 0, map["aa" := Str("a"), "bb" := Str("b")]);
    var props := map["aa" := Str("a"), "bb" := Str("b"), "a" := Str("A"), "b" := Str("B")];
    PropSimpleKey("aa", 0, props);
    PropSimpleKey("a", 0, props);
  }

  lemma MapMoreScenarios()
    ensures Map(map["a" := Now(Str("A")), "b" := Now(Str("B"))], Now(Str("b"))) == Now(Str("B"))
    ensures Resolve(Map(map["a" := Now(Str("A")), "b" := Now(Str("B"))], Prop("aa")),
                    Obj(0, map["aa" := Str("a"), "bb" := Str("b")])) == Normal(Str("A"))
    ensures Resolve(Map(map["a" := Prop("a"), "b" := Prop("b")], Prop("bb")),
                    Obj(0, map["aa" := Str("a"), "bb" := Str("b"), "a" := Str("A"), "b" := Str("B")]))
            == Normal(Str("B"))
  {
    PropSimpleKey("aa", 0, map["aa" := Str("a"), "bb" := Str("b")]);
    var props := map["aa" := Str("a"), "bb" := Str("b"), "a" := Str("A"), "b" := Str("B")];
    PropSimpleKey("bb", 0, props);
    PropSimpleKey("b", 0, props);
  }

  lemma TernScenarios()
    ensures Tern(Now(Str("A")), Now(Str("B")), Now(Bool(true))) == Now(Str("A"))
    ensures Tern(Now(Str("A")), Now(Str("B")), Now(Bool(false))) == Now(Str("B"))
    ensures Resolve(Tern(Prop("a"), Prop("b"), Prop("false")),
                    Obj(0, map["true" := Bool(true), "false" := Bool(false), "a" := Str("A"), "b" := Str("B")]))
            == Normal(Str("B"))
  {
    var props := map["true" := Bool(true), "false" := Bool(false), "a" := Str("A"), "b" := Str("B")];
    PropSimpleKey("false", 0, props);
    PropSimpleKey("b", 0, props);
  }

  lemma TernPropTestTrue()
    ensures Resolve(Tern(Now(Str("A")), Now(Str("B")), Prop("true")),
                    Obj(0, map["true" := Bool(true), "false" := Bool(false)])) == Normal(Str("A"))
  {
    PropSimpleKey("true", 0, map["true" := Bool(true), "false" := Bool(false)]);
  }

  lemma TernPropTestFalse()
    ensures Resolve(Tern(Now(Str("A")), Now(Str("B")), Prop("false")),
                    Obj(0, map["true" := Bool(true), "false" := Bool(false)])) == Normal(Str("B"))
  {
    PropSimpleKey("false", 0, map["true" := Bool(true), "false" := Bool(false)]);
  }

  lemma TernPropBranches()
    ensures Resolve(Tern(Prop("a"), Prop("b"), Prop("true")),
                    Obj(0, map["true" := Bool(true), "false" := Bool(false), "a" := Str("A"), "b" := Str("B")]))
            == Normal(Str("A"))
  {
    var props := map["true" := Bool(true), "false" := Bool(false), "a" := Str("A"), "b" := Str("B")];
    PropSimpleKey("true", 0, props);
    PropSimpleKey("a", 0, props);
  }

  lemma DeclareImmediateScenarios()
    ensures Declare("color", Now(Str("white")), Now(Bool(false))) == Now(Str(""))
    ensures Declare("color", Now(Str("white")), Now(Null)) == Now(Str(""))
    ensures Declare("color", Now(Str("white")), Now(Str(""))) == Now(Str(""))
    ensures Declare("color", Now(Str("white")), Now(Int(0))) == Now(Str(""))
    ensures Declare("color", Now(Str("white"))) == Now(Str("color: white;"))
    ensures Declare("color", Now(Str("white")), Now(Bool(true))) == Now(Str("color: white;"))
    ensures Declare("color", Now(Str("white")), Now(Int(1))) == Now(Str("color: white;"))
    ensures Declare("color", Now(Str("white")), Now(Int(-1))) == Now(Str("color: white;"))
    ensures Declare("color", Now(Str("white")), Now(Str("hi"))) == Now(Str("color: white;"))
  {
    DeclareString("color", "white");
    assert "color" + ": " + "white" + ";" == "color: white;";
  }

  /** A concrete `undefined` value gives "" at once, even under a resolver test. */
  lemma DeclareUndefinedImmediateScenarios()
    ensures Declare("color", Now(Undef), Prop("trueTest")) == Now(Str(""))
    ensures Declare("color", Now(Undef), Now(Bool(true))) == Now(Str(""))
  {
  }

  function Styles(): map<string, JsVal> {
    map["definedValue" := Str("black"), "trueTest" := Bool(true), "falseTest" := Bool(false)]
  }

  lemma DeclareFalseTestScenario()
    ensures Resolve(Declare("color", Prop("definedValue"), Prop("falseTest")), Obj(0, Styles()))
            == Normal(Str(""))
  {
    PropSimpleKey("falseTest", 0, Styles());
  }

  lemma DeclareUndefinedValueScenario()
    ensures Resolve(Declare("color", Prop("undefinedValue"), Prop("trueTest")), Obj(0, Styles()))
            == Normal(Str(""))
  {
    PropSimpleKey("trueTest", 0, Styles());
    PathAbsentSimpleKey(0, Styles(), "undefinedValue");
  }

  lemma DeclareDeferredScenario()
    ensures Resolve(Declare("color", Prop("definedValue"), Prop("trueTest")), Obj(0, Styles()))
            == Normal(Str("color: black;"))
  {
    PropSimpleKey("trueTest", 0, Styles());
    PropSimpleKey("definedValue", 0, Styles());
    assert Declaration("color", Str("black")) == "color: black;" by {
      assert "color" + ": " + "black" + ";" == "color: black;";
    }
  }

  // ---------------------------------------------------------------------
  // Immediate `not`, `or`, `and` and `is`

  lemma NotImmediateScenarios()
    ensures Not(Now(Str("a"))) == Now(Bool(false))
    ensures Not(Now(Str(""))) == Now(Bool(true))
    ensures Not(Now(Bool(false))) == Now(Bool(true))
    ensures Not(Now(Bool(true))) == Now(Bool(false))
  {
  }

  lemma OrImmediateScenarios()
    ensures Or(Now(Str("a")), Now(Str("b"))) == Now(Bool(true))
    ensures Or(Now(Str("")), Now(Bool(true))) == Now(Bool(true))
    ensures Or(Now(Bool(true)), Now(Bool(false))) == Now(Bool(true))
    ensures Or(Now(Str("")), Now(Bool(false))) == Now(Bool(false))
  {
  }

  lemma AndImmediateScenarios()
    ensures And(Now(Str("a")), Now(Str("b"))) == Now(Bool(true))
    ensures And(Now(Str("")), Now(Bool(true))) == Now(Bool(false))
    ensures And(Now(Bool(true)), Now(Bool(false))) == Now(Bool(false))
    ensures And(Now(Str("")), Now(Bool(false))) == Now(Bool(false))
  {
  }

  lemma IsImmediateScenarios()
    ensures Is(Now(Str("a")), Now(Str("b"))) == Now(Bool(false))
    ensures Is(Now(Str("")), Now(Bool(true))) == Now(Bool(false))
    ensures Is(Now(Str("")), Now(Str(""))) == Now(Bool(true))
  {
  }

  // ---------------------------------------------------------------------
  // Deferred `is`

  function Answers(): map<string, JsVal> {
    map["a" := Str("yes"), "b" := Str("yes"), "c" := Str("no")]
  }

  lemma IsDeferredScenarios()
    ensures Resolve(Is(Prop("a"), Prop("b")), Obj(0, Answers())) == Normal(Bool(true))
    ensures Resolve(Is(Prop("a"), Prop("c")), Obj(0, Answers())) == Normal(Bool(false))
    ensures Resolve(Is(Prop("b"), Prop("c")), Obj(0, Answers())) == Normal(Bool(false))
    ensures Resolve(Is(Prop("b"), Now(Str("no"))), Obj(0, Answers())) == Normal(Bool(false))
    ensures Resolve(Is(Now(Str("yes")), Prop("c")), Obj(0, Answers())) == Normal(Bool(false))
  {
    PropSimpleKey("a", 0, Answers());
    PropSimpleKey("b", 0, Answers());
    PropSimpleKey("c", 0, Answers());
  }

  // ---------------------------------------------------------------------
  // Deferred `includes`

  function Letters(): JsVal {
    Arr(1, [Str("A"), Str("B")])
  }

  function LetterProps(): map<string, JsVal> {
    map["a" := Str("A"), "b" := Str("B"), "c" := Str("C")]
  }

  /** A resolver test against a concrete array. */
  lemma IncludesDeferredTestScenarios()
    ensures Resolve(Includes(Now(Letters()), Prop("a")), Obj(0, LetterProps())) == Normal(Bool(true))
    ensures Resolve(Includes(Now(Letters()), Prop("b")), Obj(0, LetterProps())) == Normal(Bool(true))
    ensures Resolve(Includes(Now(Letters()), Prop("c")), Obj(0, LetterProps())) == Normal(Bool(false))
  {
    PropSimpleKey("a", 0, LetterProps());
    PropSimpleKey("b", 0, LetterProps());
    PropSimpleKey("c", 0, LetterProps());
    IncludesConsistent(Now(Letters()), Prop("a"), Obj(0, LetterProps()));
    IncludesConsistent(Now(Letters()), Prop("b"), Obj(0, LetterProps()));
    IncludesConsistent(Now(Letters()), Prop("c"), Obj(0, LetterProps()));
    PrimitiveIncludedOnlyAsItself(Letters().elems, Str("C"));
  }

  function ArrayProps(): map<string, JsVal> {
    LetterProps()["array" := Letters()]
  }

  /** A resolver array, with a resolver or a concrete test. */
  lemma IncludesDeferredArrayScenarios()
    ensures Resolve(Includes(Prop("array"), Prop("a")), Obj(0, ArrayProps())) == Normal(Bool(true))
    ensures Resolve(Includes(Prop("array"), Now(Str("A"))), Obj(0, ArrayProps())) == Normal(Bool(true))
    ensures Resolve(Includes(Prop("array"), Prop("c")), Obj(0, ArrayProps())) == Normal(Bool(false))
    ensures Resolve(Includes(Prop("array"), Now(Str("C"))), Obj(0, ArrayProps())) == Normal(Bool(false))
  {
    PropSimpleKey("array", 0, ArrayProps());
    PropSimpleKey("a", 0, ArrayProps());
    PropSimpleKey("c", 0, ArrayProps());
    IncludesConsistent(Prop("array"), Prop("a"), Obj(0, ArrayProps()));
    IncludesConsistent(Prop("array"), Now(Str("A")), Obj(0, ArrayProps()));
    IncludesConsistent(Prop("array"), Prop("c"), Obj(0, ArrayProps()));
    IncludesConsistent(Prop("array"), Now(Str("C")), Obj(0, ArrayProps()));
    PrimitiveIncludedOnlyAsItself(Letters().elems, Str("C"));
  }

  // ---------------------------------------------------------------------
  // `declare` with one resolver operand

  lemma DeclareText(value: string)
    ensures Declaration("color", Str(value)) == "color: " + value + ";"
  {
    assert "color" + ": " + value == "color: " + value;
  }

  lemma DeclareResolverTestScenarios()
    ensures Resolve(Declare("color", Now(Str("white")), Prop("trueTest")), Obj(0, Styles()))
            == Normal(Str("color: white;"))
    ensures Resolve(Declare("color", Now(Str("black")), Prop("trueTest")), Obj(0, Styles()))
            == Normal(Str("color: black;"))
    ensures Resolve(Declare("color", Now(Str("white")), Prop("falseTest")), Obj(0, Styles()))
            == Normal(Str(""))
  {
    PropSimpleKey("trueTest", 0, Styles());
    PropSimpleKey("falseTest", 0, Styles());
    DeclareText("white");
    DeclareText("black");
    assert "color: " + "white" + ";" == "color: white;";
    assert "color: " + "black" + ";" == "color: black;";
  }

  lemma DeclareResolverValueScenarios()
    ensures Resolve(Declare("color", Prop("definedValue"), Now(Bool(true))), Obj(0, Styles()))
            == Normal(Str("color: black;"))
    ensures Resolve(Declare("color", Prop("undefined"), Now(Bool(true))), Obj(0, Styles()))
            == Normal(Str(""))
  {
    PropSimpleKey("definedValue", 0, Styles());
    PathAbsentSimpleKey(0, Styles(), "undefined");
    DeclareText("black");
    assert "color: " + "black" + ";" == "color: black;";
  }

  lemma DeclareUndefinedValueFalseTestScenario()
    ensures Resolve(Declare("color", Prop("undefinedValue"), Prop("falseTest")), Obj(0, Styles()))
            == Normal(Str(""))
  {
    PropSimpleKey("falseTest", 0, Styles());
  }
}

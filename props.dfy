/** `prop`: the resolver that reads a path out of the props context. */
module Props {
  import opened JsValues
  import opened Core
  import opened Paths

  /** `prop(p)` never looks at anything until it is given a context, and
      then it is the path walk of `p` in that context. */
  function Prop(p: string): (r: Val)
    ensures IsResolver(r)
    ensures forall c :: Resolve(r, c) == Path(c, p)
  {
    Later((c: JsVal) => Path(c, p))
  }

  /** A key the context lacks resolves to `undefined`. */
  lemma PropAbsentKey(p: string, id: nat, fields: map<string, JsVal>)
    requires IsSimpleKey(p) && p !in fields
    ensures Resolve(Prop(p), Obj(id, fields)) == Normal(Undef)
  {
    PathAbsentSimpleKey(id, fields, p);
  }

  /** A simple key the context has resolves to its value. */
  lemma PropSimpleKey(key: string, id: nat, fields: map<string, JsVal>)
    requires IsSimpleKey(key) && key in fields
    ensures Resolve(Prop(key), Obj(id, fields)) == Normal(fields[key])
  {
  }

  /** On a null-free props object a `prop` resolver never throws. */
  lemma PropNullFree(p: string, props: JsVal)
    requires NullFree(props) && !props.Undef?
    ensures Resolve(Prop(p), props).Normal?
  {
    PathNullFree(props, p);
  }

  /** `prop("a.b.c")` reads `props.a.b.c`. */
  lemma PropNested(s: JsVal)
    ensures Resolve(Prop("a.b.c"), Obj(0, map["a" := Obj(1, map["b" := Obj(2, map["c" := s])])]))
            == Normal(s)
  {
    SegmentsOfDottedPath();
  }

  lemma SegmentsOfDottedPath()
    ensures Segments("a.b.c") == ["a", "b", "c"]
  {
    SplitNoDelimiter("c");
    assert "a.b.c"[1..] == ".b.c";
    assert ".b.c"[1..] == "b.c";
    assert "b.c"[1..] == ".c";
    assert ".c"[1..] == "c";
    assert Split(".c") == ["", "c"];
    assert ['b'] + "" == "b";
    assert Split("b.c") == ["b", "c"];
    assert Split(".b.c") == ["", "b", "c"];
    assert ['a'] + "" == "a";
    assert Split("a.b.c") == ["a", "b", "c"];
  }
}

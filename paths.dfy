/** The path walker: `"a.b[0]"` names the value reached from a context by
    the lookups `a`, `b`, `0` in turn. */
module Paths {
  import opened JsValues

  predicate IsDelimiter(ch: char) {
    ch == '.' || ch == '[' || ch == ']'
  }

  predicate NoDelimiter(s: string) {
    forall i :: 0 <= i < |s| ==> !IsDelimiter(s[i])
  }

  /** The condition of the single-lookup branch: no `.` and no `[` (a `]`
      alone does not leave it). */
  predicate IsSimpleKey(s: string): (r: bool)
    ensures r <==> forall i :: 0 <= i < |s| ==> s[i] != '.' && s[i] != '['
    ensures NoDelimiter(s) ==> r
  {
    '.' !in s && '[' !in s
  }

  /** `s.split(/[.\[\]]/g)`: the pieces between delimiters, empty ones
      included; the empty string splits into one empty piece. */
  function Split(s: string): (r: seq<string>)
    ensures |r| >= 1
    ensures forall i :: 0 <= i < |r| ==> NoDelimiter(r[i])
  {
    if s == [] then [""]
    else
      var rest := Split(s[1..]);
      if IsDelimiter(s[0]) then [""] + rest
      else [[s[0]] + rest[0]] + rest[1..]
  }

  /** The delimiters of `s`, in order. */
  function Delimiters(s: string): seq<char> {
    if s == [] then []
    else (if IsDelimiter(s[0]) then [s[0]] else []) + Delimiters(s[1..])
  }

  /** Puts pieces back together with the given delimiters between them. */
  function Rejoin(pieces: seq<string>, ds: seq<char>): string
    requires |pieces| == |ds| + 1
  {
    if ds == [] then pieces[0] else pieces[0] + [ds[0]] + Rejoin(pieces[1..], ds[1..])
  }

  /** Splitting loses nothing but the delimiters: there is one piece more
      than there are delimiters, and putting the delimiters back between
      the pieces gives the original path.  Together with the pieces being
      delimiter-free, this determines the split. */
  lemma {:induction false} SplitRoundTrip(s: string)
    ensures |Split(s)| == |Delimiters(s)| + 1
    ensures Rejoin(Split(s), Delimiters(s)) == s
  {
    if s != [] {
      SplitRoundTrip(s[1..]);
      var rest := Split(s[1..]);
      if !IsDelimiter(s[0]) {
        var ds := Delimiters(s[1..]);
        assert Delimiters(s) == ds;
        if ds != [] {
          assert Split(s)[1..] == rest[1..];
        }
      }
    }
  }

  /** A delimiter-free path is its own one piece. */
  lemma {:induction false} SplitNoDelimiter(s: string)
    requires NoDelimiter(s)
    ensures Split(s) == [s]
  {
    if s != [] {
      SplitNoDelimiter(s[1..]);
      assert [s[0]] + s[1..] == s;
    }
  }

  /** `crumbs.filter(c => c !== "")`, order kept. */
  function NonEmpty(pieces: seq<string>): (r: seq<string>)
    ensures forall i :: 0 <= i < |r| ==> r[i] != ""
    ensures forall p :: p in r <==> p in pieces && p != ""
  {
    if pieces == [] then []
    else (if pieces[0] == "" then [] else [pieces[0]]) + NonEmpty(pieces[1..])
  }

  /** The keys a multi-part path walks. */
  function Segments(s: string): (r: seq<string>)
    ensures forall i :: 0 <= i < |r| ==> r[i] != "" && NoDelimiter(r[i])
    ensures forall x :: x in r <==> x in Split(s) && x != ""
  {
    var pieces := Split(s);
    var r := NonEmpty(pieces);
    assert forall i :: 0 <= i < |r| ==> NoDelimiter(r[i]) by {
      forall i | 0 <= i < |r| ensures NoDelimiter(r[i]) {
        assert r[i] in pieces;
      }
    }
    r
  }

  /** The walk: the left fold of lookups over `keys` starting from `v`,
      which stops with `undefined` as soon as the value reached is
      `undefined`.  A lookup on `null` throws. */
  function Descend(v: JsVal, keys: seq<string>): (r: Completion)
    ensures keys == [] ==> r == Normal(v)
    ensures v.Undef? ==> r == Normal(Undef)
    ensures keys != [] && v.Null? ==> r == Throw(TypeError)
    ensures r.Throw? ==> r.error == TypeError
    decreases |keys|
  {
    if keys == [] then Normal(v)
    else if v.Undef? then Normal(Undef)
    else
      match Lookup(v, keys[0])
      case Throw(e) => Throw(e)
      case Normal(w) => Descend(w, keys[1..])
  }

  /** `path(obj, str)`: a simple key is one lookup, anything else a walk
      over the non-empty segments. */
  function Path(obj: JsVal, str: string): (r: Completion)
    ensures IsSimpleKey(str) ==> (r.Throw? <==> obj.Undef? || obj.Null?)
    ensures !IsSimpleKey(str) && obj.Undef? ==> r == Normal(Undef)
    ensures r.Throw? ==> r.error == TypeError
  {
    if IsSimpleKey(str) then Lookup(obj, str) else Descend(obj, Segments(str))
  }

  /** The loop of the source: it visits every crumb, skips the empty ones,
      breaks once the result is `undefined` and otherwise looks the crumb
      up in the result so far. */
  method WalkPath(obj: JsVal, str: string) returns (r: Completion)
    ensures r == Path(obj, str)
  {
    if IsSimpleKey(str) {
      return Lookup(obj, str);
    }
    var crumbs := Split(str);
    var i := -1;
    var result := Undef;
    while i + 1 < |crumbs|
      invariant -1 <= i < |crumbs|
      invariant i >= 0 ==> Descend(result, NonEmpty(crumbs[i + 1..])) == Descend(obj, NonEmpty(crumbs))
      invariant i == -1 ==> result == Undef
    {
      i := i + 1;
      if i == 0 {
        result := obj;
        assert crumbs[0..] == crumbs;
      }
      NonEmptyStep(crumbs, i);
      ghost var rest := NonEmpty(crumbs[i + 1..]);
      assert Descend(result, NonEmpty(crumbs[i..])) == Descend(obj, NonEmpty(crumbs));
      if crumbs[i] == "" {
        assert NonEmpty(crumbs[i..]) == rest;
        continue;
      }
      if result.Undef? {
        DescendUndefined(NonEmpty(crumbs[i + 1..]));
        break;
      }
      match Lookup(result, crumbs[i])
      case Throw(e) =>
        return Throw(e);
      case Normal(w) =>
        DescendStep(result, crumbs[i], rest, w);
        result := w;
    }
    assert crumbs[i + 1..] == [] ==> NonEmpty(crumbs[i + 1..]) == [];
    return Normal(result);
  }

  /** One step of the walk: a successful lookup of the first key continues
      from its value. */
  lemma DescendStep(v: JsVal, key: string, rest: seq<string>, w: JsVal)
    requires !v.Undef? && Lookup(v, key) == Normal(w)
    ensures Descend(v, [key] + rest) == Descend(w, rest)
  {
    assert ([key] + rest)[0] == key;
    assert ([key] + rest)[1..] == rest;
  }

  lemma NonEmptyStep(pieces: seq<string>, i: nat)
    requires i < |pieces|
    ensures NonEmpty(pieces[i..]) ==
            (if pieces[i] == "" then [] else [pieces[i]]) + NonEmpty(pieces[i + 1..])
  {
    assert pieces[i..][1..] == pieces[i + 1..];
  }

  /** Dropping the empty crumbs keeps the order and the multiplicity of
      the others: the filter distributes over concatenation. */
  lemma {:induction false} NonEmptyAppend(xs: seq<string>, ys: seq<string>)
    ensures NonEmpty(xs + ys) == NonEmpty(xs) + NonEmpty(ys)
  {
    if xs == [] {
      assert xs + ys == ys;
    } else {
      var h := if xs[0] == "" then [] else [xs[0]];
      calc {
        NonEmpty(xs + ys);
      == { assert (xs + ys)[0] == xs[0]; assert (xs + ys)[1..] == xs[1..] + ys; }
        h + NonEmpty(xs[1..] + ys);
      == { NonEmptyAppend(xs[1..], ys); }
        h + (NonEmpty(xs[1..]) + NonEmpty(ys));
      ==
        (h + NonEmpty(xs[1..])) + NonEmpty(ys);
      }
    }
  }

  /** Once `undefined`, the walk stays `undefined` and does not throw. */
  lemma DescendUndefined(keys: seq<string>)
    ensures Descend(Undef, keys) == Normal(Undef)
  {
  }

  /** A walk from a null-free context never throws: a missing key yields
      `undefined`, which the walk then passes through. */
  lemma {:induction false} DescendNullFree(v: JsVal, keys: seq<string>)
    requires NullFree(v)
    ensures Descend(v, keys).Normal?
    ensures NullFree(Descend(v, keys).value)
    decreases |keys|
  {
    if keys != [] && !v.Undef? {
      LookupNullFree(v, keys[0]);
      DescendNullFree(Lookup(v, keys[0]).value, keys[1..]);
    }
  }

  /** A walk throws only on reaching `null` with a key left to look up. */
  lemma {:induction false} DescendThrowsOnlyAtNull(v: JsVal, keys: seq<string>)
    requires Descend(v, keys).Throw?
    ensures exists j :: 0 <= j < |keys| && Descend(v, keys[..j]) == Normal(Null)
    decreases |keys|
  {
    if !v.Null? {
      var w := Lookup(v, keys[0]).value;
      DescendThrowsOnlyAtNull(w, keys[1..]);
      var j :| 0 <= j < |keys[1..]| && Descend(w, keys[1..][..j]) == Normal(Null);
      assert keys[..j + 1][1..] == keys[1..][..j];
      assert Descend(v, keys[..j + 1]) == Normal(Null);
    } else {
      assert keys[..0] == [];
    }
  }

  /** A simple key missing from an object gives `undefined`. */
  lemma PathAbsentSimpleKey(id: nat, fields: map<string, JsVal>, key: string)
    requires IsSimpleKey(key) && key !in fields
    ensures Path(Obj(id, fields), key) == Normal(Undef)
  {
  }

  /** A multi-part path whose first key is missing gives `undefined`,
      however many keys follow. */
  lemma PathAbsentFirstSegment(id: nat, fields: map<string, JsVal>, str: string)
    requires !IsSimpleKey(str)
    requires Segments(str) != [] && Segments(str)[0] !in fields
    ensures Path(Obj(id, fields), str) == Normal(Undef)
  {
    DescendUndefined(Segments(str)[1..]);
  }

  /** A path made of delimiters only (`"."`, `"[]"`) is the context itself. */
  lemma PathAllEmpty(obj: JsVal, str: string)
    requires !IsSimpleKey(str) && Segments(str) == []
    ensures Path(obj, str) == Normal(obj)
  {
  }

  /** For a non-empty delimiter-free key and a defined context, the single
      lookup agrees with a one-segment walk. */
  lemma FastBranchAgreesWithWalk(obj: JsVal, key: string)
    requires key != "" && NoDelimiter(key) && !obj.Undef?
    ensures IsSimpleKey(key)
    ensures Path(obj, key) == Descend(obj, Segments(key))
  {
    SplitNoDelimiter(key);
    assert NonEmpty([key]) == [key] + NonEmpty([]);
  }

  /** On an `undefined` context the two branches differ: the single lookup
      throws, while the walk stops with `undefined`. */
  lemma FastBranchThrowsOnUndefined(key: string, str: string)
    requires IsSimpleKey(key) && !IsSimpleKey(str)
    ensures Path(Undef, key) == Throw(TypeError)
    ensures Path(Undef, str) == Normal(Undef)
  {
    DescendUndefined(Segments(str));
  }

  /** From a null-free object, every path resolves without throwing. */
  lemma PathNullFree(obj: JsVal, str: string)
    requires NullFree(obj) && !obj.Undef?
    ensures Path(obj, str).Normal?
  {
    if IsSimpleKey(str) {
      LookupNullFree(obj, str);
    } else {
      DescendNullFree(obj, Segments(str));
    }
  }

  /** A `]` alone does not leave the single-lookup branch: `"a]"` is read
      as one key, although the walk would split it into `a` and "". */
  lemma CloseBracketStaysSimple()
    ensures IsSimpleKey("a]")
    ensures Path(Obj(0, map["a" := Int(1)]), "a]") == Normal(Undef)
    ensures Segments("a]") == ["a"]
    ensures Descend(Obj(0, map["a" := Int(1)]), Segments("a]")) == Normal(Int(1))
  {
    assert "a]"[1..] == "]";
    assert "]"[1..] == "";
    assert Split("]") == ["", ""];
    assert ['a'] + "" == "a";
    assert Split("a]") == ["a", ""];
    assert "a]" != "a";
  }

  /** The pieces of the paths the tests use: a leading `.` adds an empty
      piece that is skipped, and `[0]` adds one after `]`. */
  lemma SegmentExamples()
    ensures Split(".a") == ["", "a"] && Segments(".a") == ["a"]
    ensures Split("a[0].b") == ["a", "0", "", "b"] && Segments("a[0].b") == ["a", "0", "b"]
    ensures Split(".") == ["", ""] && Segments(".") == []
  {
    SplitNoDelimiter("a");
    SplitNoDelimiter("b");
    assert ".a"[1..] == "a";
    assert ".b"[1..] == "b";
    assert Split(".b") == ["", "b"];
    assert "].b"[1..] == ".b";
    assert Split("].b") == ["", "", "b"];
    assert "0].b"[1..] == "].b";
    assert ['0'] + "" == "0";
    assert Split("0].b") == ["0", "", "b"];
    assert "[0].b"[1..] == "0].b";
    assert "a[0].b"[1..] == "[0].b";
    assert Split("[0].b") == ["", "0", "", "b"];
    assert "."[1..] == "";
  }
}

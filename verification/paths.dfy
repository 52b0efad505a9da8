/** Reading, writing and removing one nested key, and the dotted names of paths. */
module Paths {
  import opened JsonTree

  // ---------- reading ----------

  /** What a path reads as: a missing key, or a step into a non-dictionary, reads as null. */
  function ValueAt(tree: Json, path: seq<string>): Json {
    match Lookup(tree, path) case Some(v) => v case None => Null
  }

  method GetNested(src: Json, path: seq<string>) returns (current: Json)
    ensures current == ValueAt(src, path)
  {
    current := src;
    for i := 0 to |path|
      invariant ValueAt(current, path[i..]) == ValueAt(src, path)
    {
      assert path[i..][1..] == path[i + 1..];
      if !current.Obj? {
        return Null;
      }
      current := Get(current.fields, path[i]);
    }
  }

  // ---------- writing ----------

  /** The dictionary after `_set_nested`, or None where the call raises: on an empty path, and
      on a step into something that is not a dictionary. */
  function SetNested(dst: Dict, path: seq<string>, value: Json): Option<Dict>
    decreases path
  {
    if path == [] then None
    else if |path| == 1 then Some(dst[path[0] := value])
    else
      var child := if path[0] in dst then dst[path[0]] else Obj(map[]);
      if !child.Obj? then None
      else match SetNested(child.fields, path[1..], value)
           case None => None
           case Some(updated) => Some(dst[path[0] := Obj(updated)])
  }

  predicate Incomparable(p: seq<string>, q: seq<string>) {
    !(p <= q) && !(q <= p)
  }

  lemma {:induction false} IncomparableTails(p: seq<string>, q: seq<string>)
    requires p != [] && q != [] && p[0] == q[0]
    ensures Incomparable(p, q) <==> Incomparable(p[1..], q[1..])
  {
    assert p == [p[0]] + p[1..] && q == [q[0]] + q[1..];
  }

  /** The write succeeds exactly when no value blocks the way; the written path then holds the
      value, and every path that is neither above nor below it holds what it held. */
  lemma {:induction false} SetNestedWrites(dst: Dict, path: seq<string>, value: Json)
    ensures SetNested(dst, path, value).Some? <==> path != [] && !Blocked(Obj(dst), path)
    ensures SetNested(dst, path, value).Some? ==>
              var out := Obj(SetNested(dst, path, value).value);
              && Lookup(out, path) == Some(value)
              && forall q | Incomparable(path, q) ::
                   Lookup(out, q) == Lookup(Obj(dst), q) && Blocked(out, q) == Blocked(Obj(dst), q)
    decreases path
  {
    if |path| == 1 {
      assert !Blocked(Obj(dst), path);
      forall q | Incomparable(path, q)
        ensures Lookup(Obj(dst[path[0] := value]), q) == Lookup(Obj(dst), q)
        ensures Blocked(Obj(dst[path[0] := value]), q) == Blocked(Obj(dst), q)
      {
        assert q != [] && path == [path[0]];
      }
    } else if |path| > 1 {
      var child := if path[0] in dst then dst[path[0]] else Obj(map[]);
      if child.Obj? {
        SetNestedWrites(child.fields, path[1..], value);
        if SetNested(dst, path, value).Some? {
          var out := SetNested(dst, path, value).value;
          forall q | Incomparable(path, q)
            ensures Lookup(Obj(out), q) == Lookup(Obj(dst), q) && Blocked(Obj(out), q) == Blocked(Obj(dst), q)
          {
            if q != [] && q[0] == path[0] {
              IncomparableTails(path, q);
              assert q[1..] != [];
            }
          }
        }
      }
    }
  }

  function SetAfter(first: Option<Dict>, path: seq<string>, value: Json): Option<Dict> {
    match first case None => None case Some(d) => SetNested(d, path, value)
  }

  /** What the write leaves under the first key of the path. */
  function NewChild(dst: Dict, path: seq<string>, value: Json): Option<Json>
    requires path != []
  {
    if |path| == 1 then Some(value)
    else
      var child := if path[0] in dst then dst[path[0]] else Obj(map[]);
      if !child.Obj? then None
      else match SetNested(child.fields, path[1..], value)
           case None => None
           case Some(updated) => Some(Obj(updated))
  }

  lemma SetNestedByChild(dst: Dict, path: seq<string>, value: Json)
    requires path != []
    ensures SetNested(dst, path, value) ==
            match NewChild(dst, path, value) case None => None case Some(c) => Some(dst[path[0] := c])
  {
  }

  lemma SecondWriteApart(dst: Dict, p: seq<string>, v: Json, q: seq<string>, w: Json)
    requires p != [] && q != [] && p[0] != q[0]
    ensures SetAfter(SetNested(dst, p, v), q, w) ==
            match NewChild(dst, p, v)
            case None => None
            case Some(one) =>
              match NewChild(dst, q, w)
              case None => None
              case Some(two) => Some(dst[p[0] := one][q[0] := two])
  {
    SetNestedByChild(dst, p, v);
    var one := NewChild(dst, p, v);
    if one.Some? {
      SetNestedByChild(dst[p[0] := one.value], q, w);
    }
  }

  lemma WritesApart(dst: Dict, p: seq<string>, v: Json, q: seq<string>, w: Json)
    requires p != [] && q != [] && p[0] != q[0]
    ensures SetAfter(SetNested(dst, p, v), q, w) == SetAfter(SetNested(dst, q, w), p, v)
  {
    SecondWriteApart(dst, p, v, q, w);
    SecondWriteApart(dst, q, w, p, v);
    var one, two := NewChild(dst, p, v), NewChild(dst, q, w);
    if one.Some? && two.Some? {
      UpdatesSwap(dst, p[0], one.value, q[0], two.value);
    }
  }

  lemma UpdatesSwap(dst: Dict, k: string, v: Json, l: string, w: Json)
    requires k != l
    ensures dst[k := v][l := w] == dst[l := w][k := v]
  {
  }

  /** Writes at paths that are not above or below one another can be swapped, failures included. */
  lemma {:induction false} WritesCommute(dst: Dict, p: seq<string>, v: Json, q: seq<string>, w: Json)
    requires Incomparable(p, q)
    ensures SetAfter(SetNested(dst, p, v), q, w) == SetAfter(SetNested(dst, q, w), p, v)
    decreases p
  {
    if p[0] != q[0] {
      WritesApart(dst, p, v, q, w);
    } else {
      IncomparableTails(p, q);
      assert |p| > 1 && |q| > 1;
      var k := p[0];
      var child := if k in dst then dst[k] else Obj(map[]);
      if child.Obj? {
        WritesCommute(child.fields, p[1..], v, q[1..], w);
        OverwriteChild(dst, k, p, v, q, w);
        OverwriteChild(dst, k, q, w, p, v);
      }
    }
  }

  lemma OverwriteChild(dst: Dict, k: string, p: seq<string>, v: Json, q: seq<string>, w: Json)
    requires |p| > 1 && |q| > 1 && p[0] == q[0] == k && (k in dst ==> dst[k].Obj?)
    ensures var fields := if k in dst then dst[k].fields else map[];
            SetAfter(SetNested(dst, p, v), q, w) ==
            match SetAfter(SetNested(fields, p[1..], v), q[1..], w)
            case None => None
            case Some(both) => Some(dst[k := Obj(both)])
  {
    SetNestedByChild(dst, p, v);
    var one := NewChild(dst, p, v);
    if one.Some? {
      SetNestedByChild(dst[k := one.value], q, w);
      var two := NewChild(dst[k := one.value], q, w);
      if two.Some? {
        assert dst[k := one.value][k := two.value] == dst[k := two.value];
      }
    }
  }

  // ---------- batches of writes ----------

  datatype Edit = Edit(path: seq<string>, value: Json)

  /** `_set_nested` for each edit in turn; None when one of the calls raises. */
  function ApplyEdits(dst: Dict, edits: seq<Edit>): Option<Dict>
    decreases edits
  {
    if edits == [] then Some(dst)
    else match SetNested(dst, edits[0].path, edits[0].value)
         case None => None
         case Some(next) => ApplyEdits(next, edits[1..])
  }

  predicate PrefixFree(edits: seq<Edit>) {
    forall i, j | 0 <= i < |edits| && 0 <= j < |edits| && i != j :: Incomparable(edits[i].path, edits[j].path)
  }

  lemma {:induction false} ApplyConcat(dst: Dict, a: seq<Edit>, b: seq<Edit>)
    ensures ApplyEdits(dst, a + b) ==
            match ApplyEdits(dst, a) case None => None case Some(mid) => ApplyEdits(mid, b)
    decreases a
  {
    if a == [] {
      assert a + b == b;
    } else {
      assert (a + b)[1..] == a[1..] + b;
      var next := SetNested(dst, a[0].path, a[0].value);
      if next.Some? {
        ApplyConcat(next.value, a[1..], b);
      }
    }
  }

  function Without<T>(s: seq<T>, i: nat): seq<T>
    requires i < |s|
  {
    s[..i] + s[i + 1..]
  }

  lemma WithoutKeepsPrefixFree(edits: seq<Edit>, i: nat)
    requires i < |edits| && PrefixFree(edits)
    ensures PrefixFree(Without(edits, i))
  {
    var rest := Without(edits, i);
    forall a, b | 0 <= a < |rest| && 0 <= b < |rest| && a != b
      ensures Incomparable(rest[a].path, rest[b].path)
    {
      var a', b' := if a < i then a else a + 1, if b < i then b else b + 1;
      assert rest[a] == edits[a'] && rest[b] == edits[b'];
    }
  }

  lemma {:induction false} MoveToFront(dst: Dict, edits: seq<Edit>, i: nat)
    requires i < |edits| && PrefixFree(edits)
    ensures ApplyEdits(dst, edits) == ApplyEdits(dst, [edits[i]] + Without(edits, i))
    decreases i
  {
    if i == 0 {
      assert [edits[0]] + Without(edits, 0) == edits;
    } else {
      var e, first, rest := edits[i], edits[0], edits[1..];
      assert forall a | 0 <= a < |rest| :: rest[a] == edits[a + 1];
      assert PrefixFree(rest);
      var moved := [e] + Without(edits, i);
      assert moved[1..] == [first] + Without(rest, i - 1);
      assert moved[1..][1..] == Without(rest, i - 1);
      WritesCommute(dst, first.path, first.value, e.path, e.value);
      var next := SetNested(dst, first.path, first.value);
      if next.Some? {
        MoveToFront(next.value, rest, i - 1);
        assert ([e] + Without(rest, i - 1))[1..] == Without(rest, i - 1);
      } else {
        var other := SetNested(dst, e.path, e.value);
        assert other.Some? ==> SetNested(other.value, first.path, first.value) == None;
      }
    }
  }

  lemma Occurrence<T>(edits: seq<T>, shuffled: seq<T>) returns (i: nat)
    requires shuffled != [] && multiset(edits) == multiset(shuffled)
    ensures i < |edits| && edits[i] == shuffled[0]
    ensures multiset(Without(edits, i)) == multiset(shuffled[1..])
  {
    assert shuffled[0] in multiset(edits);
    i :| 0 <= i < |edits| && edits[i] == shuffled[0];
    var e := shuffled[0];
    assert edits == edits[..i] + [e] + edits[i + 1..];
    assert shuffled == [e] + shuffled[1..];
    assert multiset(edits) == multiset(edits[..i]) + multiset{e} + multiset(edits[i + 1..]);
    assert multiset(shuffled) == multiset{e} + multiset(shuffled[1..]);
    assert multiset(Without(edits, i)) == multiset(edits) - multiset{e};
    assert multiset(shuffled[1..]) == multiset(shuffled) - multiset{e};
  }

  /** The order of a prefix-free batch does not matter. */
  lemma {:induction false} AnyOrder(dst: Dict, edits: seq<Edit>, shuffled: seq<Edit>)
    requires PrefixFree(edits) && multiset(edits) == multiset(shuffled)
    ensures ApplyEdits(dst, edits) == ApplyEdits(dst, shuffled)
    decreases shuffled
  {
    if shuffled == [] {
      assert |multiset(edits)| == 0;
    } else {
      var e := shuffled[0];
      var i := Occurrence(edits, shuffled);
      MoveToFront(dst, edits, i);
      WithoutKeepsPrefixFree(edits, i);
      assert ([e] + Without(edits, i))[1..] == Without(edits, i);
      var next := SetNested(dst, e.path, e.value);
      if next.Some? {
        AnyOrder(next.value, Without(edits, i), shuffled[1..]);
      }
    }
  }

  /** After a prefix-free batch every path of the batch holds its value. */
  lemma {:induction false} BatchIsReadBack(dst: Dict, edits: seq<Edit>, i: nat)
    requires PrefixFree(edits) && i < |edits| && ApplyEdits(dst, edits).Some?
    ensures Lookup(Obj(ApplyEdits(dst, edits).value), edits[i].path) == Some(edits[i].value)
    decreases edits
  {
    var next := SetNested(dst, edits[0].path, edits[0].value).value;
    var rest := edits[1..];
    assert forall a | 0 <= a < |rest| :: rest[a] == edits[a + 1];
    if i > 0 {
      BatchIsReadBack(next, rest, i - 1);
    } else {
      SetNestedWrites(dst, edits[0].path, edits[0].value);
      BatchKeepsOthers(next, rest, edits[0].path);
    }
  }

  /** A prefix-free batch raises only where one of its paths was blocked from the start. */
  lemma {:induction false} BatchSucceeds(dst: Dict, edits: seq<Edit>)
    requires PrefixFree(edits)
    requires forall i | 0 <= i < |edits| :: edits[i].path != [] && !Blocked(Obj(dst), edits[i].path)
    ensures ApplyEdits(dst, edits).Some?
    decreases edits
  {
    if edits != [] {
      SetNestedWrites(dst, edits[0].path, edits[0].value);
      var next, rest := SetNested(dst, edits[0].path, edits[0].value).value, edits[1..];
      assert forall a | 0 <= a < |rest| :: rest[a] == edits[a + 1];
      BatchSucceeds(next, rest);
    }
  }

  lemma {:induction false} BatchKeepsOthers(dst: Dict, edits: seq<Edit>, path: seq<string>)
    requires ApplyEdits(dst, edits).Some?
    requires forall i | 0 <= i < |edits| :: Incomparable(edits[i].path, path)
    ensures Lookup(Obj(ApplyEdits(dst, edits).value), path) == Lookup(Obj(dst), path)
    ensures Blocked(Obj(ApplyEdits(dst, edits).value), path) == Blocked(Obj(dst), path)
    decreases edits
  {
    if edits != [] {
      SetNestedWrites(dst, edits[0].path, edits[0].value);
      var rest := edits[1..];
      assert forall a | 0 <= a < |rest| :: rest[a] == edits[a + 1];
      BatchKeepsOthers(SetNested(dst, edits[0].path, edits[0].value).value, rest, path);
    }
  }

  /** Writing onto the empty dictionary makes nothing that is not at, above or below a written path. */
  lemma {:induction false} BatchMakesNothingElse(dst: Dict, edits: seq<Edit>, path: seq<string>)
    requires ApplyEdits(dst, edits).Some? && Lookup(Obj(ApplyEdits(dst, edits).value), path).Some?
    ensures Lookup(Obj(dst), path).Some? || exists i :: 0 <= i < |edits| && !Incomparable(edits[i].path, path)
    decreases edits
  {
    if edits != [] {
      var next := SetNested(dst, edits[0].path, edits[0].value).value;
      BatchMakesNothingElse(next, edits[1..], path);
      if Lookup(Obj(next), path).Some? {
        SetNestedWrites(dst, edits[0].path, edits[0].value);
        assert Incomparable(edits[0].path, path) ==> Lookup(Obj(dst), path).Some?;
      } else {
        var i :| 0 <= i < |edits[1..]| && !Incomparable(edits[1..][i].path, path);
        assert !Incomparable(edits[i + 1].path, path);
      }
    }
  }

  /** Everything above a value is a dictionary. */
  lemma {:induction false} AboveIsDict(tree: Json, above: seq<string>, path: seq<string>)
    requires above < path && Lookup(tree, path).Some?
    ensures Lookup(tree, above).Some? && Lookup(tree, above).value.Obj?
    decreases above
  {
    if above != [] {
      AboveIsDict(tree.fields[path[0]], above[1..], path[1..]);
    }
  }

  // ---------- removing ----------

  function RemoveNestedKey(dst: Dict, path: seq<string>): Dict
    decreases path
  {
    if path == [] then dst
    else if |path| == 1 then dst - {path[0]}
    else if path[0] in dst && dst[path[0]].Obj? then
      dst[path[0] := Obj(RemoveNestedKey(dst[path[0]].fields, path[1..]))]
    else dst
  }

  /** Removal takes away exactly the named path and what is under it; dictionaries above it stay. */
  lemma {:induction false} RemoveNestedRemoves(dst: Dict, path: seq<string>, q: seq<string>)
    requires path != []
    ensures Lookup(Obj(RemoveNestedKey(dst, path)), path) == None
    ensures path <= q ==> Lookup(Obj(RemoveNestedKey(dst, path)), q) == None
    ensures Incomparable(path, q) ==> Lookup(Obj(RemoveNestedKey(dst, path)), q) == Lookup(Obj(dst), q)
    ensures q < path ==> SameUpToKeys(Lookup(Obj(dst), q), Lookup(Obj(RemoveNestedKey(dst, path)), q))
    decreases path
  {
    if |path| == 1 {
      assert path == [path[0]];
      assert q < path ==> q == [];
      assert path <= q ==> q[0] == path[0];
    } else {
      if path[0] in dst && dst[path[0]].Obj? {
        RemoveNestedRemoves(dst[path[0]].fields, path[1..], if q == [] then [] else q[1..]);
      }
      if q != [] && q[0] == path[0] {
        IncomparableTails(path, q);
        assert path == [path[0]] + path[1..] && q == [q[0]] + q[1..];
      }
    }
  }

  /** The same value, or a dictionary in both. */
  predicate SameUpToKeys(before: Option<Json>, after: Option<Json>) {
    before == after || (before.Some? && after.Some? && before.value.Obj? && after.value.Obj?)
  }

  // ---------- dotted names ----------

  predicate Plain(segment: string) {
    segment != "" && '.' !in segment
  }

  /** `".".join(path)` */
  function Join(path: seq<string>): string {
    if path == [] then "" else if |path| == 1 then path[0] else path[0] + "." + Join(path[1..])
  }

  /** `name.split(".")` */
  function Split(name: string): (path: seq<string>)
    ensures path != []
  {
    if name == "" then [""]
    else
      var rest := Split(name[1..]);
      if name[0] == '.' then [""] + rest else [[name[0]] + rest[0]] + rest[1..]
  }

  lemma {:induction false} SplitSegment(segment: string, rest: string)
    requires '.' !in segment
    ensures Split(segment) == [segment]
    ensures Split(segment + "." + rest) == [segment] + Split(rest)
    decreases segment
  {
    if segment == "" {
      assert segment + "." + rest == "." + rest;
    } else {
      SplitSegment(segment[1..], rest);
      assert (segment + "." + rest)[1..] == segment[1..] + "." + rest;
      assert [segment[0]] + segment[1..] == segment;
    }
  }

  lemma {:induction false} SplitJoin(path: seq<string>)
    requires path != [] && forall s | s in path :: '.' !in s
    ensures Split(Join(path)) == path
    decreases path
  {
    SplitSegment(path[0], Join(path[1..]));
    if |path| > 1 {
      SplitJoin(path[1..]);
    } else {
      assert path == [path[0]];
    }
  }
}

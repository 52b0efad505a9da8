/** The configuration comparator, and its diffs read as an edit script. */
module Comparing {
  import opened JsonTree
  import opened Paths

  // ---------- the comparator as written, with dotted path strings ----------

  datatype NamedDiff = NamedDiff(path: string, source: Json, target: Json)

  function CompareValues(source: Json, target: Json, path: string): seq<NamedDiff>
    decreases source, 1, 0
  {
    if source.Obj? && target.Obj? then
      CompareKeys(SortedKeys(source.fields.Keys + target.fields.Keys), source, target, path)
    else if source != target then [NamedDiff(path, source, target)]
    else []
  }

  /** The loop over the sorted keys. When one side lacks the key it reads as null, so the recursive
      call can only compare the two values for equality. */
  function CompareKeys(keys: seq<string>, source: Json, target: Json, path: string): seq<NamedDiff>
    requires source.Obj? && target.Obj?
    decreases source, 0, |keys|
  {
    if keys == [] then []
    else
      var key := keys[0];
      var childPath := if path != "" then path + "." + key else key;
      CompareAt(key, source, target, childPath) + CompareKeys(keys[1..], source, target, path)
  }

  function CompareAt(key: string, source: Json, target: Json, path: string): seq<NamedDiff>
    requires source.Obj? && target.Obj?
    decreases source, 0, 0
  {
    if key in source.fields && key in target.fields then CompareValues(source.fields[key], target.fields[key], path)
    else if Get(source.fields, key) != Get(target.fields, key) then
      [NamedDiff(path, Get(source.fields, key), Get(target.fields, key))]
    else []
  }

  // ---------- the same diffs, with paths as lists of keys ----------

  datatype Diff = Diff(path: seq<string>, source: Json, target: Json)

  function Under(key: string, diffs: seq<Diff>): seq<Diff> {
    seq(|diffs|, i requires 0 <= i < |diffs| => diffs[i].(path := [key] + diffs[i].path))
  }

  function Diffs(source: Json, target: Json): seq<Diff>
    decreases source, 1, 0
  {
    if source.Obj? && target.Obj? then
      DiffsOver(SortedKeys(source.fields.Keys + target.fields.Keys), source, target)
    else if source != target then [Diff([], source, target)]
    else []
  }

  function DiffsOver(keys: seq<string>, source: Json, target: Json): seq<Diff>
    requires source.Obj? && target.Obj?
    decreases source, 0, |keys|
  {
    if keys == [] then []
    else DiffsAt(keys[0], source, target) + DiffsOver(keys[1..], source, target)
  }

  function DiffsAt(key: string, source: Json, target: Json): seq<Diff>
    requires source.Obj? && target.Obj?
    decreases source, 0, 0
  {
    if key in source.fields && key in target.fields then
      Under(key, Diffs(source.fields[key], target.fields[key]))
    else if Get(source.fields, key) != Get(target.fields, key) then
      [Diff([key], Get(source.fields, key), Get(target.fields, key))]
    else []
  }

  // ---------- the two agree on trees with plain keys ----------

  predicate PlainKeys(tree: Json) {
    tree.Obj? ==> forall k | k in tree.fields :: Plain(k) && PlainKeys(tree.fields[k])
  }

  predicate PlainPath(path: seq<string>) {
    forall s | s in path :: Plain(s)
  }

  function Named(diffs: seq<Diff>, prefix: seq<string>): seq<NamedDiff> {
    seq(|diffs|, i requires 0 <= i < |diffs| =>
      NamedDiff(Join(prefix + diffs[i].path), diffs[i].source, diffs[i].target))
  }

  lemma {:induction false} JoinExtends(prefix: seq<string>, key: string)
    requires prefix != []
    ensures Join(prefix + [key]) == Join(prefix) + "." + key
    ensures prefix[0] != "" ==> Join(prefix) != ""
    decreases prefix
  {
    var longer := prefix + [key];
    assert longer[1..] == prefix[1..] + [key];
    if |prefix| > 1 {
      JoinExtends(prefix[1..], key);
      Appended(prefix[0], Join(prefix[1..]), key);
    } else {
      assert longer[1..] == [key] && Join([key]) == key;
    }
  }

  lemma Appended(a: string, b: string, c: string)
    ensures a + "." + (b + "." + c) == a + "." + b + "." + c
  {
  }

  lemma NamedUnder(key: string, diffs: seq<Diff>, prefix: seq<string>)
    ensures Named(Under(key, diffs), prefix) == Named(diffs, prefix + [key])
  {
    forall i | 0 <= i < |diffs|
      ensures prefix + Under(key, diffs)[i].path == prefix + [key] + diffs[i].path
    {
    }
  }

  /** The dotted name of what is below starts afresh: an empty key at the top is taken for no prefix. */
  predicate NameLost(source: Json, target: Json, prefix: seq<string>) {
    if prefix != [] then prefix[0] == ""
    else source.Obj? && target.Obj? && "" in source.fields && "" in target.fields
  }

  /** Unless both trees go on below an empty key at the top, the dotted strings are the key lists, joined. */
  lemma {:induction false} CompareNamesDiffs(source: Json, target: Json, prefix: seq<string>)
    requires !NameLost(source, target, prefix)
    ensures CompareValues(source, target, Join(prefix)) == Named(Diffs(source, target), prefix)
    decreases source, 1, 0
  {
    if source.Obj? && target.Obj? {
      CompareKeysNamesDiffs(SortedKeys(source.fields.Keys + target.fields.Keys), source, target, prefix);
    } else {
      assert prefix + [] == prefix;
    }
  }

  lemma {:induction false} CompareKeysNamesDiffs(keys: seq<string>, source: Json, target: Json, prefix: seq<string>)
    requires source.Obj? && target.Obj?
    requires !NameLost(source, target, prefix)
    requires forall k | k in keys :: k in source.fields || k in target.fields
    ensures CompareKeys(keys, source, target, Join(prefix)) == Named(DiffsOver(keys, source, target), prefix)
    decreases source, 0, |keys|
  {
    if keys != [] {
      if prefix == [] {
        assert prefix + [keys[0]] == [keys[0]];
      } else {
        JoinExtends(prefix, keys[0]);
      }
      CompareAtNamesDiffs(keys[0], source, target, prefix);
      CompareKeysNamesDiffs(keys[1..], source, target, prefix);
      NamedConcat(DiffsAt(keys[0], source, target), DiffsOver(keys[1..], source, target), prefix);
    }
  }

  lemma {:induction false} CompareAtNamesDiffs(key: string, source: Json, target: Json, prefix: seq<string>)
    requires source.Obj? && target.Obj? && (key in source.fields || key in target.fields)
    requires !NameLost(source, target, prefix)
    ensures CompareAt(key, source, target, Join(prefix + [key])) == Named(DiffsAt(key, source, target), prefix)
    decreases source, 0, 0
  {
    if key in source.fields && key in target.fields {
      CompareNamesDiffs(source.fields[key], target.fields[key], prefix + [key]);
      NamedUnder(key, Diffs(source.fields[key], target.fields[key]), prefix);
    }
  }

  lemma NamedConcat(a: seq<Diff>, b: seq<Diff>, prefix: seq<string>)
    ensures Named(a + b, prefix) == Named(a, prefix) + Named(b, prefix)
  {
  }

  /** Splitting a reported path string gives back the list of keys. */
  lemma ReportedPathsSplit(source: Json, target: Json, i: nat)
    requires source.Obj? && target.Obj? && PlainKeys(source) && PlainKeys(target)
    requires i < |Diffs(source, target)|
    ensures |CompareValues(source, target, "")| == |Diffs(source, target)|
    ensures Split(CompareValues(source, target, "")[i].path) == Diffs(source, target)[i].path
  {
    CompareNamesDiffs(source, target, []);
    var d := Diffs(source, target)[i];
    assert [] + d.path == d.path;
    DiffIsAccurate(source, target, d);
    DiffPathsArePlain(source, target, d);
    SplitJoin(d.path);
  }

  // ---------- what a diff says ----------

  lemma {:induction false} InDiffsOver(keys: seq<string>, source: Json, target: Json, d: Diff)
    requires source.Obj? && target.Obj?
    ensures d in DiffsOver(keys, source, target) <==> exists k :: k in keys && d in DiffsAt(k, source, target)
  {
    if keys != [] {
      InDiffsOver(keys[1..], source, target, d);
      if d in DiffsOver(keys, source, target) {
        if d in DiffsAt(keys[0], source, target) {
          assert keys[0] in keys;
        } else {
          var k :| k in keys[1..] && d in DiffsAt(k, source, target);
          assert k in keys;
        }
      }
      if k :| k in keys && d in DiffsAt(k, source, target) {
        assert k == keys[0] || k in keys[1..];
      }
    }
  }

  lemma InDiffs(source: Json, target: Json, d: Diff)
    requires source.Obj? && target.Obj?
    ensures d in Diffs(source, target) <==>
            exists k :: (k in source.fields || k in target.fields) && d in DiffsAt(k, source, target)
  {
    InDiffsOver(SortedKeys(source.fields.Keys + target.fields.Keys), source, target, d);
  }

  lemma DiffAtKey(key: string, source: Json, target: Json, d: Diff)
    requires source.Obj? && target.Obj? && d in DiffsAt(key, source, target)
    ensures d.path != [] && d.path[0] == key
    ensures key in source.fields && key in target.fields ==>
              d.(path := d.path[1..]) in Diffs(source.fields[key], target.fields[key])
    ensures !(key in source.fields && key in target.fields) ==>
              d == Diff([key], Get(source.fields, key), Get(target.fields, key)) && d.source != d.target
  {
    if key in source.fields && key in target.fields {
      InUnder(key, Diffs(source.fields[key], target.fields[key]), d);
    }
  }

  /** The diff as seen from below the key it was found under. */
  lemma DiffBelow(source: Json, target: Json, d: Diff) returns (below: Diff)
    requires source.Obj? && target.Obj? && d in Diffs(source, target)
    ensures d.path != [] && below == d.(path := d.path[1..])
    ensures d.path[0] in source.fields || d.path[0] in target.fields
    ensures d.path[0] in source.fields && d.path[0] in target.fields ==>
              below in Diffs(source.fields[d.path[0]], target.fields[d.path[0]])
    ensures !(d.path[0] in source.fields && d.path[0] in target.fields) ==>
              d == Diff([d.path[0]], Get(source.fields, d.path[0]), Get(target.fields, d.path[0])) &&
              d.source != d.target
  {
    InDiffs(source, target, d);
    var k :| (k in source.fields || k in target.fields) && d in DiffsAt(k, source, target);
    DiffAtKey(k, source, target, d);
    below := d.(path := d.path[1..]);
  }

  lemma InUnder(key: string, diffs: seq<Diff>, d: Diff)
    requires d in Under(key, diffs)
    ensures d.path != [] && d.path[0] == key && d.(path := d.path[1..]) in diffs
  {
    var i :| 0 <= i < |diffs| && Under(key, diffs)[i] == d;
    assert d.path[1..] == diffs[i].path;
    assert d.(path := d.path[1..]) == diffs[i];
  }

  lemma ValueBelow(tree: Json, path: seq<string>)
    requires tree.Obj? && path != []
    ensures path[0] in tree.fields ==> ValueAt(tree, path) == ValueAt(tree.fields[path[0]], path[1..])
    ensures |path| == 1 ==> ValueAt(tree, path) == Get(tree.fields, path[0])
  {
  }

  /** Every diff reports the two values its path reads as; they differ and are not both
      dictionaries, and on both sides everything above the path is a dictionary. */
  lemma {:induction false} DiffIsAccurate(source: Json, target: Json, d: Diff)
    requires d in Diffs(source, target)
    ensures d.source == ValueAt(source, d.path) && d.target == ValueAt(target, d.path)
    ensures d.source != d.target && !(d.source.Obj? && d.target.Obj?)
    ensures !Blocked(source, d.path) && !Blocked(target, d.path)
    ensures source.Obj? && target.Obj? ==> d.path != []
    decreases source
  {
    if source.Obj? && target.Obj? {
      var below := DiffBelow(source, target, d);
      var k := d.path[0];
      ValueBelow(source, d.path);
      ValueBelow(target, d.path);
      if k in source.fields && k in target.fields {
        DiffIsAccurate(source.fields[k], target.fields[k], below);
      }
    }
  }

  lemma {:induction false} DiffPathsArePlain(source: Json, target: Json, d: Diff)
    requires d in Diffs(source, target) && PlainKeys(source) && PlainKeys(target)
    ensures PlainPath(d.path)
    decreases source
  {
    if source.Obj? && target.Obj? {
      var below := DiffBelow(source, target, d);
      var k := d.path[0];
      if k in source.fields && k in target.fields {
        DiffPathsArePlain(source.fields[k], target.fields[k], below);
      }
      PlainFirst(d.path);
    }
  }

  lemma PlainFirst(path: seq<string>)
    requires path != [] && Plain(path[0]) && PlainPath(path[1..])
    ensures PlainPath(path)
  {
    forall s | s in path ensures Plain(s) {
      assert s == path[0] || s in path[1..];
    }
  }

  /** Same configuration: a missing key and a null are not told apart inside dictionaries. */
  predicate SameConfig(a: Json, b: Json)
    decreases a
  {
    if a.Obj? && b.Obj? then
      && (forall k | k in a.fields && k in b.fields :: SameConfig(a.fields[k], b.fields[k]))
      && (forall k | k in a.fields && k !in b.fields :: a.fields[k] == Null)
      && (forall k | k in b.fields && k !in a.fields :: b.fields[k] == Null)
    else a == b
  }

  /** The comparator is silent exactly on the same configuration. */
  lemma {:induction false} NoDiffsIffSame(a: Json, b: Json)
    ensures Diffs(a, b) == [] <==> SameConfig(a, b)
    decreases a
  {
    if a.Obj? && b.Obj? {
      forall k | k in a.fields || k in b.fields
        ensures DiffsAt(k, a, b) == [] <==>
                if k in a.fields && k in b.fields then SameConfig(a.fields[k], b.fields[k])
                else if k in a.fields then a.fields[k] == Null else b.fields[k] == Null
      {
        if k in a.fields && k in b.fields {
          NoDiffsIffSame(a.fields[k], b.fields[k]);
        }
      }
      SilentByKey(a, b);
    }
  }

  lemma SilentByKey(a: Json, b: Json)
    requires a.Obj? && b.Obj?
    ensures Diffs(a, b) == [] <==> forall k | k in a.fields || k in b.fields :: DiffsAt(k, a, b) == []
  {
    if Diffs(a, b) != [] {
      InDiffs(a, b, Diffs(a, b)[0]);
    } else {
      forall k | k in a.fields || k in b.fields ensures DiffsAt(k, a, b) == [] {
        if DiffsAt(k, a, b) != [] {
          InDiffs(a, b, DiffsAt(k, a, b)[0]);
        }
      }
    }
  }

  // ---------- the diffs as an edit script ----------

  function Script(diffs: seq<Diff>): seq<Edit> {
    seq(|diffs|, i requires 0 <= i < |diffs| => Edit(diffs[i].path, diffs[i].target))
  }

  lemma {:induction false} DiffsArePrefixFree(source: Json, target: Json)
    ensures PrefixFree(Script(Diffs(source, target)))
    decreases source, 1, 0
  {
    if source.Obj? && target.Obj? {
      DiffsOverArePrefixFree(SortedKeys(source.fields.Keys + target.fields.Keys), source, target);
    }
  }

  lemma {:induction false} DiffsOverArePrefixFree(keys: seq<string>, source: Json, target: Json)
    requires source.Obj? && target.Obj? && Distinct(keys)
    ensures PrefixFree(Script(DiffsOver(keys, source, target)))
    ensures forall d | d in DiffsOver(keys, source, target) :: d.path != [] && d.path[0] in keys
    decreases source, 0, |keys|
  {
    if keys != [] {
      var key := keys[0];
      var here, rest := DiffsAt(key, source, target), DiffsOver(keys[1..], source, target);
      DiffsOverArePrefixFree(keys[1..], source, target);
      if key in source.fields && key in target.fields {
        var inner := Diffs(source.fields[key], target.fields[key]);
        DiffsArePrefixFree(source.fields[key], target.fields[key]);
        forall i, j | 0 <= i < |here| && 0 <= j < |here| && i != j
          ensures Incomparable(here[i].path, here[j].path)
        {
          assert Incomparable(Script(inner)[i].path, Script(inner)[j].path);
          assert here[i].path[1..] == inner[i].path && here[j].path[1..] == inner[j].path;
          IncomparableTails(here[i].path, here[j].path);
        }
      }
      FirstKeysApart(key, here, rest);
    }
  }

  /** Diffs under one key, then diffs under other keys. */
  lemma FirstKeysApart(key: string, here: seq<Diff>, rest: seq<Diff>)
    requires PrefixFree(Script(here)) && PrefixFree(Script(rest))
    requires forall d | d in here :: d.path != [] && d.path[0] == key
    requires forall d | d in rest :: d.path != [] && d.path[0] != key
    ensures PrefixFree(Script(here + rest))
  {
    var all := here + rest;
    forall i, j | 0 <= i < |all| && 0 <= j < |all| && i != j
      ensures Incomparable(all[i].path, all[j].path)
    {
      if i < |here| && j < |here| {
        assert Incomparable(Script(here)[i].path, Script(here)[j].path);
      } else if i >= |here| && j >= |here| {
        assert Incomparable(Script(rest)[i - |here|].path, Script(rest)[j - |here|].path);
      } else if i >= |here| {
        assert rest[i - |here|] in rest && here[j] in here;
      } else {
        assert rest[j - |here|] in rest && here[i] in here;
      }
    }
  }

  /** Every diff of `source` against `target` carried out on `source`. */
  function Patched(source: Json, target: Json): Json
    decreases source
  {
    if source.Obj? && target.Obj? then
      Obj(map k | k in source.fields.Keys + target.fields.Keys &&
                  (k in source.fields || target.fields[k] != Null) ::
            if k !in source.fields then target.fields[k]
            else if k !in target.fields then Null
            else Patched(source.fields[k], target.fields[k]))
    else target
  }

  lemma {:induction false} PatchedIsTarget(source: Json, target: Json)
    ensures SameConfig(Patched(source, target), target)
    decreases source
  {
    if source.Obj? && target.Obj? {
      forall k | k in source.fields && k in target.fields
        ensures SameConfig(Patched(source.fields[k], target.fields[k]), target.fields[k])
      {
        PatchedIsTarget(source.fields[k], target.fields[k]);
      }
      forall k | k in target.fields && k !in source.fields
        ensures SameConfig(target.fields[k], target.fields[k])
      {
        SameConfigReflexive(target.fields[k]);
      }
    } else {
      SameConfigReflexive(target);
    }
  }

  lemma {:induction false} SameConfigReflexive(a: Json)
    ensures SameConfig(a, a)
  {
    if a.Obj? {
      forall k | k in a.fields ensures SameConfig(a.fields[k], a.fields[k]) {
        SameConfigReflexive(a.fields[k]);
      }
    }
  }

  /** Edits that all start with `key` act on the dictionary under `key`. */
  lemma {:induction false} ApplyUnder(dst: Dict, key: string, diffs: seq<Diff>)
    requires key in dst && dst[key].Obj? && forall d | d in diffs :: d.path != []
    ensures ApplyEdits(dst, Script(Under(key, diffs))) ==
            match ApplyEdits(dst[key].fields, Script(diffs))
            case None => None
            case Some(out) => Some(dst[key := Obj(out)])
    decreases |diffs|
  {
    if diffs == [] {
      assert dst[key := Obj(dst[key].fields)] == dst;
    } else {
      var d := diffs[0];
      assert Script(Under(key, diffs))[1..] == Script(Under(key, diffs[1..]));
      assert Script(diffs)[1..] == Script(diffs[1..]);
      var path := [key] + d.path;
      assert path[1..] == d.path;
      var child := SetNested(dst[key].fields, d.path, d.target);
      if child.Some? {
        var next := dst[key := Obj(child.value)];
        ApplyUnder(next, key, diffs[1..]);
        var out := ApplyEdits(child.value, Script(diffs[1..]));
        if out.Some? {
          assert next[key := Obj(out.value)] == dst[key := Obj(out.value)];
        }
      }
    }
  }

  /** `dst` with the listed keys brought to the target. */
  function PatchedKeys(dst: Dict, keys: seq<string>, target: Dict): Dict {
    map k | k in dst.Keys + target.Keys && (k in dst || (k in keys && target[k] != Null)) ::
      if k !in keys then dst[k]
      else if k !in dst then target[k]
      else if k !in target then Null
      else Patched(dst[k], target[k])
  }

  lemma ApplyOneKey(dst: Dict, key: string, value: Json)
    ensures ApplyEdits(dst, [Edit([key], value)]) == Some(dst[key := value])
  {
    assert [Edit([key], value)][1..] == [];
  }

  lemma ScriptOfOne(d: Diff)
    ensures Script([d]) == [Edit(d.path, d.target)]
  {
  }

  lemma PatchedOneKey(dst: Dict, key: string, target: Dict)
    requires key in dst || key in target
    ensures var value :=
              if key !in dst then target[key] else if key !in target then Null else Patched(dst[key], target[key]);
            PatchedKeys(dst, [key], target) == if key !in dst && value == Null then dst else dst[key := value]
  {
  }

  lemma {:induction false} ApplyAt(dst: Dict, key: string, source: Json, target: Json)
    requires source.Obj? && target.Obj? && (key in source.fields || key in target.fields)
    requires key in dst <==> key in source.fields
    requires key in dst ==> dst[key] == source.fields[key]
    ensures ApplyEdits(dst, Script(DiffsAt(key, source, target))) == Some(PatchedKeys(dst, [key], target.fields))
    decreases source, 0, 0
  {
    PatchedOneKey(dst, key, target.fields);
    if key in source.fields && key in target.fields {
      ApplyBelow(dst, key, source.fields[key], target.fields[key]);
    } else {
      var value := Get(target.fields, key);
      ScriptOfOne(Diff([key], Get(source.fields, key), value));
      ApplyOneKey(dst, key, value);
      if key in dst && value == dst[key] {
        assert dst[key := value] == dst;
      }
    }
  }

  lemma {:induction false} ApplyBelow(dst: Dict, key: string, s: Json, t: Json)
    requires key in dst && dst[key] == s
    ensures ApplyEdits(dst, Script(Under(key, Diffs(s, t)))) == Some(dst[key := Patched(s, t)])
    decreases s, 3, 0
  {
    if s.Obj? && t.Obj? {
      ApplyAll(s.fields, t.fields, s);
      forall d | d in Diffs(s, t) ensures d.path != [] {
        DiffIsAccurate(s, t, d);
      }
      ApplyUnder(dst, key, Diffs(s, t));
    } else if s != t {
      assert [key] + [] == [key];
      assert Under(key, Diffs(s, t)) == [Diff([key], s, t)];
      ScriptOfOne(Diff([key], s, t));
      ApplyOneKey(dst, key, t);
    } else {
      assert dst[key := t] == dst;
    }
  }

  lemma {:induction false} ApplyOver(dst: Dict, keys: seq<string>, source: Json, target: Json)
    requires source.Obj? && target.Obj? && Distinct(keys)
    requires forall k | k in keys ::
      && (k in source.fields || k in target.fields)
      && (k in dst <==> k in source.fields)
      && (k in dst ==> dst[k] == source.fields[k])
    ensures ApplyEdits(dst, Script(DiffsOver(keys, source, target))) == Some(PatchedKeys(dst, keys, target.fields))
    decreases source, 1, |keys|
  {
    if keys == [] {
      assert PatchedKeys(dst, [], target.fields) == dst;
    } else {
      var key, rest := keys[0], keys[1..];
      assert Script(DiffsOver(keys, source, target)) ==
             Script(DiffsAt(key, source, target)) + Script(DiffsOver(rest, source, target));
      ApplyConcat(dst, Script(DiffsAt(key, source, target)), Script(DiffsOver(rest, source, target)));
      ApplyAt(dst, key, source, target);
      var mid := PatchedKeys(dst, [key], target.fields);
      assert key !in rest;
      forall k | k in rest
        ensures (k in mid <==> k in source.fields) && (k in mid ==> mid[k] == source.fields[k])
      {
        assert k in keys && k != key;
      }
      ApplyOver(mid, rest, source, target);
      PatchedInTwoSteps(dst, keys, target.fields);
    }
  }

  lemma PatchedInTwoSteps(dst: Dict, keys: seq<string>, target: Dict)
    requires keys != [] && keys[0] !in keys[1..]
    ensures PatchedKeys(PatchedKeys(dst, [keys[0]], target), keys[1..], target) == PatchedKeys(dst, keys, target)
  {
    assert forall k :: k in keys <==> k == keys[0] || k in keys[1..];
  }

  lemma {:induction false} ApplyAll(source: Dict, target: Dict, whole: Json)
    requires whole == Obj(source)
    ensures ApplyEdits(source, Script(Diffs(Obj(source), Obj(target)))) ==
            Some(Patched(Obj(source), Obj(target)).fields)
    decreases whole, 2, 0
  {
    var keys := SortedKeys(source.Keys + target.Keys);
    ApplyOver(source, keys, whole, Obj(target));
    PatchedEverywhere(source, keys, target);
  }

  lemma PatchedEverywhere(source: Dict, keys: seq<string>, target: Dict)
    requires forall k :: k in keys <==> k in source || k in target
    ensures PatchedKeys(source, keys, target) == Patched(Obj(source), Obj(target)).fields
  {
  }

  /** The diffs are a complete edit script: written with `_set_nested` onto the source in any
      order whatever, they never hit a non-dictionary and always give one and the same tree, in
      which the comparator finds no difference from the target. */
  lemma DiffsAreAnEditScript(source: Dict, target: Dict, shuffled: seq<Edit>)
    requires multiset(shuffled) == multiset(Script(Diffs(Obj(source), Obj(target))))
    ensures ApplyEdits(source, shuffled) == Some(Patched(Obj(source), Obj(target)).fields)
    ensures Diffs(Patched(Obj(source), Obj(target)), Obj(target)) == []
  {
    DiffsArePrefixFree(Obj(source), Obj(target));
    AnyOrder(source, Script(Diffs(Obj(source), Obj(target))), shuffled);
    ApplyAll(source, target, Obj(source));
    PatchedIsTarget(Obj(source), Obj(target));
    NoDiffsIffSame(Patched(Obj(source), Obj(target)), Obj(target));
  }
}

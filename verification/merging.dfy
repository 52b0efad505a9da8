/** The dictionary merge of the patch pipeline. */
module Merging {
  import opened JsonTree

  function Merge(base: Json, over: Json): Json
    decreases over
  {
    if base.Obj? && over.Obj? then
      Obj(map k | k in base.fields.Keys + over.fields.Keys ::
            if k !in over.fields then base.fields[k]
            else if k !in base.fields then over.fields[k]
            else Merge(base.fields[k], over.fields[k]))
    else over
  }

  method MergeDict(base: Dict, over: Dict) returns (out: Dict)
    ensures Obj(out) == Merge(Obj(base), Obj(over))
    decreases Obj(over)
  {
    out := base;
    var todo := over.Keys;
    while todo != {}
      invariant todo <= over.Keys
      invariant out.Keys == base.Keys + (over.Keys - todo)
      invariant forall k | k in base && (k !in over || k in todo) :: out[k] == base[k]
      invariant forall k | k in over && k !in todo ::
        out[k] == if k in base then Merge(base[k], over[k]) else over[k]
    {
      var key :| key in todo;
      todo := todo - {key};
      if key in out && out[key].Obj? && over[key].Obj? {
        var merged := MergeDict(out[key].fields, over[key].fields);
        out := out[key := Obj(merged)];
      } else {
        out := out[key := over[key]];
      }
    }
  }

  // ---------- algebra of the merge ----------

  lemma EmptyPatchIsNeutral(d: Json)
    requires d.Obj?
    ensures Merge(d, Obj(map[])) == d && Merge(Obj(map[]), d) == d
  {
    assert Merge(d, Obj(map[])).fields == d.fields;
    assert Merge(Obj(map[]), d).fields == d.fields;
  }

  /** Applying the same patch a second time changes nothing. */
  lemma {:induction false} ReapplyingIsNoOp(base: Json, patch: Json)
    ensures Merge(Merge(base, patch), patch) == Merge(base, patch)
    ensures Merge(patch, patch) == patch
    decreases patch
  {
    if patch.Obj? {
      forall k | k in patch.fields
        ensures Merge(patch.fields[k], patch.fields[k]) == patch.fields[k]
        ensures base.Obj? && k in base.fields ==>
                  var b, p := base.fields[k], patch.fields[k];
                  Merge(Merge(b, p), p) == Merge(b, p)
      {
        ReapplyingIsNoOp(if base.Obj? && k in base.fields then base.fields[k] else Null, patch.fields[k]);
      }
      assert Merge(patch, patch).fields == patch.fields;
      if base.Obj? {
        assert Merge(Merge(base, patch), patch).fields == Merge(base, patch).fields;
      }
    }
  }

  /** Every key of `a`, at every depth where both sides hold dictionaries, is also a key of `c`. */
  predicate Absorbed(a: Json, c: Json)
    decreases a
  {
    a.Obj? && c.Obj? ==>
      forall k | k in a.fields :: k in c.fields && Absorbed(a.fields[k], c.fields[k])
  }

  /** A patch erases its base exactly when it names everything the base has. */
  lemma {:induction false} AbsorbedIffErased(a: Json, c: Json)
    ensures Absorbed(a, c) <==> Merge(a, c) == c
    decreases a
  {
    if a.Obj? && c.Obj? {
      var m := Merge(a, c);
      forall k | k in a.fields && k in c.fields
        ensures Absorbed(a.fields[k], c.fields[k]) <==> m.fields[k] == c.fields[k]
      {
        AbsorbedIffErased(a.fields[k], c.fields[k]);
      }
      if Absorbed(a, c) {
        assert m.fields == c.fields;
      } else {
        var k :| k in a.fields && !(k in c.fields && Absorbed(a.fields[k], c.fields[k]));
        assert k in m.fields;
        assert m.fields != c.fields;
      }
    }
  }

  /** Wherever a dictionary of `a` is hidden by a non-dictionary of `b` and then covered by a
      dictionary of `c`, that last dictionary must name everything the hidden one had. */
  predicate Staged(a: Json, b: Json, c: Json)
    decreases c
  {
    a.Obj? && c.Obj? ==>
      if b.Obj? then
        forall k | k in a.fields && k in b.fields && k in c.fields ::
          Staged(a.fields[k], b.fields[k], c.fields[k])
      else Absorbed(a, c)
  }

  /** The exact condition under which applying two patches one after the other is the same as
      merging them first and applying the result. */
  lemma {:induction false} AssociativeIffStaged(a: Json, b: Json, c: Json)
    ensures Staged(a, b, c) <==> Merge(Merge(a, b), c) == Merge(a, Merge(b, c))
    decreases c
  {
    if a.Obj? && c.Obj? {
      if !b.Obj? {
        AbsorbedIffErased(a, c);
      } else {
        var l, r := Merge(Merge(a, b), c), Merge(a, Merge(b, c));
        forall k | k in a.fields && k in b.fields && k in c.fields
          ensures Staged(a.fields[k], b.fields[k], c.fields[k]) <==> l.fields[k] == r.fields[k]
        {
          AssociativeIffStaged(a.fields[k], b.fields[k], c.fields[k]);
        }
        if Staged(a, b, c) {
          assert l.fields == r.fields;
        } else {
          var k :| k in a.fields && k in b.fields && k in c.fields && !Staged(a.fields[k], b.fields[k], c.fields[k]);
          assert l.fields[k] != r.fields[k];
        }
      }
    }
  }

  const LORA_HOPS := Obj(map["lora" := Obj(map["hopLimit" := Int(3)])])
  const LORA_NULL := Obj(map["lora" := Null])
  const LORA_POWER := Obj(map["lora" := Obj(map["txPower" := Int(27)])])

  /** A null in the middle patch is enough to break associativity: the hop limit survives one
      grouping and not the other. */
  lemma AssociativityFails()
    ensures Merge(Merge(LORA_HOPS, LORA_NULL), LORA_POWER) != Merge(LORA_HOPS, Merge(LORA_NULL, LORA_POWER))
  {
    var hops, power := LORA_HOPS.fields["lora"], LORA_POWER.fields["lora"];
    assert "hopLimit" in hops.fields && "hopLimit" !in power.fields;
    assert !Absorbed(hops, power);
    assert !Staged(LORA_HOPS, LORA_NULL, LORA_POWER) by {
      assert "lora" in LORA_HOPS.fields && "lora" in LORA_NULL.fields && "lora" in LORA_POWER.fields;
      assert !Staged(hops, Null, power);
    }
    AssociativeIffStaged(LORA_HOPS, LORA_NULL, LORA_POWER);
  }

  // ---------- what a merged tree holds at a path ----------

  lemma {:induction false} LookupMerged(a: Json, b: Json, path: seq<string>)
    ensures Lookup(Merge(a, b), path) ==
            match Lookup(b, path)
            case Some(v) => (match Lookup(a, path) case Some(u) => Some(Merge(u, v)) case None => Some(v))
            case None => if Blocked(b, path) then None else Lookup(a, path)
    ensures Blocked(Merge(a, b), path) ==> Blocked(b, path) || Blocked(a, path)
    ensures Blocked(b, path) ==> Blocked(Merge(a, b), path)
    decreases path
  {
    if path != [] && a.Obj? && b.Obj? && path[0] in a.fields && path[0] in b.fields {
      LookupMerged(a.fields[path[0]], b.fields[path[0]], path[1..]);
    }
  }

  /** The pipeline nests to the right: shadow over-merged by (clone over-merged by (JSON by form)). */
  function Stack(layers: seq<Json>): Json
    requires layers != []
  {
    if |layers| == 1 then layers[0] else Merge(layers[0], Stack(layers[1..]))
  }

  /** `path` is not mentioned by `tree`: neither a value there nor a non-dictionary above it. */
  predicate Silent(tree: Json, path: seq<string>) {
    Lookup(tree, path) == None && !Blocked(tree, path)
  }

  lemma {:induction false} StackIsSilent(layers: seq<Json>, path: seq<string>)
    requires layers != [] && forall i | 0 <= i < |layers| :: Silent(layers[i], path)
    ensures Silent(Stack(layers), path)
  {
    if |layers| > 1 {
      StackIsSilent(layers[1..], path);
      LookupMerged(layers[0], Stack(layers[1..]), path);
    }
  }

  /** The last layer that writes a leaf at a path decides it, whatever the earlier layers hold. */
  lemma {:induction false} LastWriterWins(layers: seq<Json>, i: nat, path: seq<string>)
    requires i < |layers| && Lookup(layers[i], path).Some? && !Lookup(layers[i], path).value.Obj?
    requires forall j | i < j < |layers| :: Silent(layers[j], path)
    ensures Lookup(Stack(layers), path) == Lookup(layers[i], path)
  {
    if |layers| > 1 {
      var rest := layers[1..];
      if i == 0 {
        assert forall j | 0 <= j < |rest| :: Silent(rest[j], path);
        StackIsSilent(rest, path);
      } else {
        LastWriterWins(rest, i - 1, path);
      }
      LookupMerged(layers[0], Stack(rest), path);
    }
  }

  /** Four stages merged inside out give what four separate applications would give. */
  lemma StagedPipeline(shadow: Json, clone: Json, json: Json, form: Json)
    requires Staged(shadow, clone, Merge(json, form))
    requires Staged(Merge(shadow, clone), json, form)
    ensures Merge(shadow, Merge(clone, Merge(json, form))) == Merge(Merge(Merge(shadow, clone), json), form)
  {
    AssociativeIffStaged(shadow, clone, Merge(json, form));
    AssociativeIffStaged(Merge(shadow, clone), json, form);
  }
}

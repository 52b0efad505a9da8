/** Cloning a node's configuration onto others, and aligning others with a node. */
module Cloning {
  import opened JsonTree
  import opened Paths
  import opened Merging
  import opened Comparing
  import opened Shadow

  // ---------- clone ----------

  /** `_sanitize_clone_local_config` */
  function Sanitize(local: Dict, includeRole: bool): Dict {
    var out := local - {"security"};
    if "device" in out && out["device"].Obj? && !includeRole then
      out["device" := Obj(out["device"].fields - {"role"})]
    else out
  }

  /** The local-config patch each target receives when local configuration is cloned from a node
      with metadata `raw`, on top of which the operator's own patch `base` wins. */
  function CloneLocal(raw: Dict, base: Dict, includeRole: bool): Dict {
    var prefs := if "preferences" in raw then raw["preferences"] else Obj(map[]);
    if prefs.Obj? then Merge(Obj(Sanitize(prefs.fields, includeRole)), Obj(base)).fields else base
  }

  /** Paths a clone leaves to the target: key material, and the role unless it was asked for. */
  predicate Protected(path: seq<string>, includeRole: bool) {
    ["security"] <= path || (!includeRole && ["device", "role"] <= path)
  }

  lemma SanitizedLookup(local: Dict, includeRole: bool, path: seq<string>)
    requires path != [] && !Protected(path, includeRole) && Lookup(Obj(local), path).Some?
    ensures var was, now := Lookup(Obj(local), path), Lookup(Obj(Sanitize(local, includeRole)), path);
            now == was || (now.Some? && now.value.Obj? && was.value.Obj?)
  {
    assert path == [path[0]] + path[1..];
    assert path[0] != "security";
    if |path| > 1 {
      assert path[1..] == [path[1]] + path[1..][1..];
    }
  }

  /** A clone converges: once it is merged into the target's shadow, whatever the comparator still
      reports is protected, or is a value the source does not have, or was set by the operator. */
  lemma CloneConverges(raw: Dict, target: Json, base: Dict, includeRole: bool, d: Diff)
    requires "preferences" in raw && raw["preferences"].Obj?
    requires d in Diffs(raw["preferences"],
                        Obj(SafeDict(PatchedSection(target, CloneLocal(raw, base, includeRole)))))
    ensures Protected(d.path, includeRole) || d.source == Null || Lookup(Obj(base), d.path).Some?
  {
    var source := raw["preferences"];
    var kept := Obj(Sanitize(source.fields, includeRole));
    var patch := Obj(CloneLocal(raw, base, includeRole));
    var before := Obj(SafeDict(target));
    var after := Merge(before, patch);
    PatchedSectionReads(target, patch.fields);
    DiffIsAccurate(source, after, d);
    LookupMerged(kept, Obj(base), d.path);
    LookupMerged(before, patch, d.path);
    if !Protected(d.path, includeRole) && d.source != Null && Lookup(Obj(base), d.path).None? {
      SanitizedLookup(source.fields, includeRole, d.path);
    }
  }

  /** The operator's own patch wins over the clone, and is all there is when the source has no preferences. */
  lemma OperatorPatchWins(raw: Dict, base: Dict, includeRole: bool, path: seq<string>)
    ensures Lookup(Obj(base), path).Some? && !Lookup(Obj(base), path).value.Obj? ==>
              Lookup(Obj(CloneLocal(raw, base, includeRole)), path) == Lookup(Obj(base), path)
    ensures !("preferences" in raw && raw["preferences"].Obj?) ==> CloneLocal(raw, base, includeRole) == base
  {
    if "preferences" in raw && raw["preferences"].Obj? {
      LookupMerged(Obj(Sanitize(raw["preferences"].fields, includeRole)), Obj(base), path);
    } else {
      EmptyPatchIsNeutral(Obj(base));
    }
  }

  lemma ProtectedIsLeftOut(source: Dict, includeRole: bool, path: seq<string>)
    requires Protected(path, includeRole)
    ensures Lookup(Obj(Sanitize(source, includeRole)), path) == None
    ensures path[0] == "security" || !Blocked(Obj(source), path) ==> !Blocked(Obj(Sanitize(source, includeRole)), path)
  {
    if path[0] != "security" {
      assert path[0] == "device" && path[1] == "role";
      assert path[1..][0] == "role";
    }
  }

  /** A clone leaves every protected path of a target to the target, unless the operator's patch speaks of
      it: key material always, and the role unless it was asked for. (A source whose `device` is no
      dictionary at all replaces the target's, and its role with it.) */
  lemma ProtectedStays(raw: Dict, target: Json, base: Dict, includeRole: bool, path: seq<string>)
    requires Protected(path, includeRole) && Silent(Obj(base), path)
    requires path[0] == "security" || !("preferences" in raw && Blocked(raw["preferences"], path))
    ensures Lookup(Obj(SafeDict(PatchedSection(target, CloneLocal(raw, base, includeRole)))), path) ==
            Lookup(Obj(SafeDict(target)), path)
  {
    var patch := Obj(CloneLocal(raw, base, includeRole));
    PatchedSectionReads(target, patch.fields);
    OperatorPatchWins(raw, base, includeRole, path);
    if "preferences" in raw && raw["preferences"].Obj? {
      var source := raw["preferences"].fields;
      ProtectedIsLeftOut(source, includeRole, path);
      LookupMerged(Obj(Sanitize(source, includeRole)), Obj(base), path);
    }
    LookupMerged(Obj(SafeDict(target)), patch, path);
  }

  /** Every key of `b` that holds something is also a key of `a`, down through the dictionaries. */
  predicate NoExtras(a: Json, b: Json)
    decreases a
  {
    a.Obj? && b.Obj? ==>
      forall k | k in b.fields ::
        if k in a.fields then NoExtras(a.fields[k], b.fields[k]) else b.fields[k] == Null
  }

  lemma {:induction false} SameAfterMergeIff(a: Json, b: Json)
    ensures SameConfig(a, Merge(b, a)) <==> NoExtras(a, b)
    decreases a
  {
    if a.Obj? && b.Obj? {
      var m := Merge(b, a);
      forall k | k in a.fields
        ensures SameConfig(a.fields[k], m.fields[k]) <==>
                (k in b.fields ==> NoExtras(a.fields[k], b.fields[k]))
      {
        if k in b.fields {
          SameAfterMergeIff(a.fields[k], b.fields[k]);
        } else {
          SameConfigReflexive(a.fields[k]);
        }
      }
    } else {
      SameConfigReflexive(a);
    }
  }

  /** The same with the operator's own patch laid over the source first. */
  lemma {:induction false} SameThroughIff(source: Json, base: Json, target: Json)
    ensures SameConfig(source, Merge(target, Merge(source, base))) <==>
            SameConfig(source, Merge(source, base)) && NoExtras(Merge(source, base), target)
    decreases base
  {
    if source.Obj? && base.Obj? && target.Obj? {
      var p := Merge(source, base);
      var m := Merge(target, p);
      forall k | k in p.fields
        ensures k in source.fields ==>
                (SameConfig(source.fields[k], m.fields[k]) <==>
                 SameConfig(source.fields[k], p.fields[k]) &&
                 (k in target.fields ==> NoExtras(p.fields[k], target.fields[k])))
      {
        SameThroughAt(source, base, target, k);
      }
      assert m.fields.Keys == target.fields.Keys + p.fields.Keys;
    }
  }

  lemma {:induction false} SameThroughAt(source: Json, base: Json, target: Json, k: string)
    requires source.Obj? && base.Obj? && target.Obj?
    ensures var p := Merge(source, base).fields;
            k in source.fields && k in p ==>
            (SameConfig(source.fields[k], Merge(target, Obj(p)).fields[k]) <==>
             SameConfig(source.fields[k], p[k]) && (k in target.fields ==> NoExtras(p[k], target.fields[k])))
    decreases base, 0
  {
    if k in source.fields && k in target.fields {
      if k in base.fields {
        SameThroughIff(source.fields[k], base.fields[k], target.fields[k]);
      } else {
        SameAfterMergeIff(source.fields[k], target.fields[k]);
        SameConfigReflexive(source.fields[k]);
      }
    }
  }

  function Cleaned(section: Json, includeRole: bool): Json {
    if section.Obj? && !includeRole then Obj(section.fields - {"role"}) else section
  }

  lemma SanitizeAt(local: Dict, includeRole: bool, k: string)
    ensures k in Sanitize(local, includeRole) <==> k in local && k != "security"
    ensures k in local && k != "security" ==>
              Sanitize(local, includeRole)[k] == if k == "device" then Cleaned(local[k], includeRole) else local[k]
  {
  }

  lemma CleanedMerges(a: Json, b: Json, includeRole: bool)
    ensures Cleaned(Merge(a, b), includeRole) == Merge(Cleaned(a, includeRole), Cleaned(b, includeRole))
  {
    if a.Obj? && b.Obj? {
      assert Cleaned(Merge(a, b), includeRole).fields == Merge(Cleaned(a, includeRole), Cleaned(b, includeRole)).fields;
    }
  }

  lemma SanitizeOnce(local: Dict, includeRole: bool)
    ensures Sanitize(Sanitize(local, includeRole), includeRole) == Sanitize(local, includeRole)
  {
    var once := Sanitize(local, includeRole);
    var twice := Sanitize(once, includeRole);
    forall k
      ensures k in twice <==> k in once
      ensures k in once ==> twice[k] == once[k]
    {
      SanitizeAt(local, includeRole, k);
      SanitizeAt(once, includeRole, k);
      if k == "device" && k in once && once[k].Obj? && !includeRole {
        assert once[k].fields - {"role"} == once[k].fields;
      }
    }
  }

  /** Protecting paths commutes with merging. */
  lemma SanitizeMerges(a: Dict, b: Dict, includeRole: bool)
    ensures Sanitize(Merge(Obj(a), Obj(b)).fields, includeRole) ==
            Merge(Obj(Sanitize(a, includeRole)), Obj(Sanitize(b, includeRole))).fields
  {
    var merged := Merge(Obj(a), Obj(b)).fields;
    var r := Merge(Obj(Sanitize(a, includeRole)), Obj(Sanitize(b, includeRole))).fields;
    forall k
      ensures k in Sanitize(merged, includeRole) <==> k in r
      ensures k in r ==> Sanitize(merged, includeRole)[k] == r[k]
    {
      SanitizeAt(merged, includeRole, k);
      SanitizeAt(a, includeRole, k);
      SanitizeAt(b, includeRole, k);
      if k in a && k in b {
        CleanedMerges(a[k], b[k], includeRole);
      }
    }
  }

  /** Leaving the protected paths out on both sides, source and target compare equal after a clone
      exactly when the operator's own patch sets nothing new and the target had nothing beyond. */
  lemma CloneIsCompleteIff(source: Dict, target: Dict, base: Dict, includeRole: bool)
    ensures var patch := CloneLocal(map["preferences" := Obj(source)], base, includeRole);
            var after := Merge(Obj(target), Obj(patch)).fields;
            var s, t := Obj(Sanitize(source, includeRole)), Obj(Sanitize(target, includeRole));
            var b := Obj(Sanitize(base, includeRole));
            Diffs(s, Obj(Sanitize(after, includeRole))) == [] <==>
            Diffs(s, Merge(s, b)) == [] && NoExtras(Merge(s, b), t)
  {
    var kept := Sanitize(source, includeRole);
    var s, t, b := Obj(kept), Obj(Sanitize(target, includeRole)), Obj(Sanitize(base, includeRole));
    SanitizeOnce(source, includeRole);
    SanitizeMerges(kept, base, includeRole);
    SanitizeMerges(target, Merge(s, Obj(base)).fields, includeRole);
    SameThroughIff(s, b, t);
    NoDiffsIffSame(s, Merge(s, b));
    NoDiffsIffSame(s, Merge(t, Merge(s, b)));
  }

  // ---------- alignment ----------

  const ALIGNMENT_LOCAL_PATHS: seq<seq<string>> := [
    ["lora", "hopLimit"],
    ["device", "tzdef"],
    ["network", "ntpServer"],
    ["lora", "ignoreMqtt"],
    ["lora", "spreadFactor"],
    ["network", "enabledProtocols"],
    ["position", "broadcastSmartMinimumIntervalSecs"],
    ["device", "rebroadcastMode"],
    ["device", "role"],
    ["lora", "bandwidth"],
    ["lora", "codingRate"],
    ["position", "gpsMode"],
    ["position", "gpsUpdateInterval"],
    ["position", "positionBroadcastSecs"]
  ]

  const ALIGNMENT_MODULE_PATH: seq<string> := ["telemetry", "deviceUpdateInterval"]

  /** The writes of the alignment builder: one for each listed path the source has a value at. */
  function Selected(prefs: Json, paths: seq<seq<string>>): seq<Edit> {
    if paths == [] then []
    else
      var value := ValueAt(prefs, paths[0]);
      (if value != Null then [Edit(paths[0], value)] else []) + Selected(prefs, paths[1..])
  }

  function SelectedTree(prefs: Json, paths: seq<seq<string>>): Dict {
    match ApplyEdits(map[], Selected(prefs, paths)) case Some(d) => d case None => map[]
  }

  function WithoutKeys(tree: Dict): Dict {
    RemoveNestedKey(RemoveNestedKey(tree, ["security", "privateKey"]), ["security", "publicKey"])
  }

  function AlignmentLocalPatch(preferences: Json): Dict {
    if !preferences.Obj? then map[] else WithoutKeys(SelectedTree(preferences, ALIGNMENT_LOCAL_PATHS))
  }

  predicate Apart(paths: seq<seq<string>>) {
    forall i, j | 0 <= i < |paths| && 0 <= j < |paths| && i != j :: Incomparable(paths[i], paths[j])
  }

  function AlignmentModulePatch(modulePreferences: Json): Dict {
    if !modulePreferences.Obj? then map[]
    else
      var once := RemoveNestedKey(modulePreferences.fields, ["ambientLighting", "blue"]);
      RemoveNestedKey(once, ["ambientLighting", "green"])
  }

  lemma {:induction false} SelectedEdits(prefs: Json, paths: seq<seq<string>>)
    requires Apart(paths)
    ensures PrefixFree(Selected(prefs, paths))
    ensures forall e | e in Selected(prefs, paths) :: e.path in paths && e.value == ValueAt(prefs, e.path)
    ensures forall p | p in paths && ValueAt(prefs, p) != Null :: Edit(p, ValueAt(prefs, p)) in Selected(prefs, paths)
  {
    if paths != [] {
      SelectedEdits(prefs, paths[1..]);
      var rest := Selected(prefs, paths[1..]);
      forall i | 0 <= i < |rest| ensures Incomparable(rest[i].path, paths[0]) && Incomparable(paths[0], rest[i].path) {
        assert rest[i] in rest;
        var j :| 0 <= j < |paths[1..]| && paths[1..][j] == rest[i].path;
        assert Incomparable(paths[j + 1], paths[0]) && Incomparable(paths[0], paths[j + 1]);
      }
    }
  }

  /** Two of the paths differ in the length of a segment, or are the two that differ in its first letter. */
  lemma AlignmentPathsDiffer(i: nat, j: nat)
    requires i < |ALIGNMENT_LOCAL_PATHS| && j < |ALIGNMENT_LOCAL_PATHS| && i != j
    ensures var p, q := ALIGNMENT_LOCAL_PATHS[i], ALIGNMENT_LOCAL_PATHS[j];
            |p| == |q| == 2 && p[0] != "security" && (p[0] != q[0] || p[1] != q[1])
  {
    var p, q := ALIGNMENT_LOCAL_PATHS[i], ALIGNMENT_LOCAL_PATHS[j];
    assert "ignoreMqtt"[0] == 'i' && "codingRate"[0] == 'c' && "position"[0] == 'p';
    assert |p[0]| == |q[0]| ==> |p[1]| != |q[1]| || p[1][0] != q[1][0];
  }

  lemma AlignmentPathsApart()
    ensures Apart(ALIGNMENT_LOCAL_PATHS)
    ensures forall p | p in ALIGNMENT_LOCAL_PATHS :: |p| == 2 && p[0] != "security"
  {
    forall i, j | 0 <= i < |ALIGNMENT_LOCAL_PATHS| && 0 <= j < |ALIGNMENT_LOCAL_PATHS| && i != j
      ensures Incomparable(ALIGNMENT_LOCAL_PATHS[i], ALIGNMENT_LOCAL_PATHS[j])
    {
      AlignmentPathsDiffer(i, j);
    }
    forall p | p in ALIGNMENT_LOCAL_PATHS ensures |p| == 2 && p[0] != "security" {
      var i :| 0 <= i < |ALIGNMENT_LOCAL_PATHS| && ALIGNMENT_LOCAL_PATHS[i] == p;
      AlignmentPathsDiffer(i, if i == 0 then 1 else 0);
    }
  }

  /** The builder's loop of guarded writes. */
  method SelectPaths(prefs: Json, paths: seq<seq<string>>) returns (out: Dict)
    requires ApplyEdits(map[], Selected(prefs, paths)).Some?
    ensures Some(out) == ApplyEdits(map[], Selected(prefs, paths))
  {
    out := map[];
    for i := 0 to |paths|
      invariant ApplyEdits(out, Selected(prefs, paths[i..])) == ApplyEdits(map[], Selected(prefs, paths))
    {
      var value := GetNested(prefs, paths[i]);
      assert paths[i..][1..] == paths[i + 1..];
      if value != Null {
        var rest := Selected(prefs, paths[i + 1..]);
        assert Selected(prefs, paths[i..]) == [Edit(paths[i], value)] + rest;
        out := SetNested(out, paths[i], value).value;
        assert ([Edit(paths[i], value)] + rest)[1..] == rest;
      } else {
        assert Selected(prefs, paths[i..]) == Selected(prefs, paths[i + 1..]);
      }
    }
  }

  method SelectAndClean(prefs: Json, paths: seq<seq<string>>) returns (out: Dict)
    requires Apart(paths) && forall p | p in paths :: |p| == 2
    ensures out == WithoutKeys(SelectedTree(prefs, paths))
  {
    SelectionSucceeds(prefs, paths);
    out := SelectPaths(prefs, paths);
    out := RemoveNestedKey(out, ["security", "privateKey"]);
    out := RemoveNestedKey(out, ["security", "publicKey"]);
  }

  /** None of the builder's writes raises: the listed paths never lie above one another. */
  method BuildAlignmentLocalPatch(raw: Dict) returns (out: Dict)
    ensures out == AlignmentLocalPatch(if "preferences" in raw then raw["preferences"] else Obj(map[]))
  {
    var prefs := if "preferences" in raw then raw["preferences"] else Obj(map[]);
    if !prefs.Obj? {
      return map[];
    }
    AlignmentPathsApart();
    out := SelectAndClean(prefs, ALIGNMENT_LOCAL_PATHS);
  }

  lemma SelectionSucceeds(prefs: Json, paths: seq<seq<string>>)
    requires Apart(paths) && forall p | p in paths :: |p| == 2
    ensures ApplyEdits(map[], Selected(prefs, paths)) == Some(SelectedTree(prefs, paths))
  {
    SelectedEdits(prefs, paths);
    var edits := Selected(prefs, paths);
    forall i | 0 <= i < |edits| ensures edits[i].path != [] && !Blocked(Obj(map[]), edits[i].path) {
      assert edits[i] in edits;
    }
    BatchSucceeds(map[], edits);
  }

  lemma SelectionHolds(prefs: Json, paths: seq<seq<string>>, path: seq<string>)
    requires Apart(paths) && (forall p | p in paths :: |p| == 2) && path in paths && ValueAt(prefs, path) != Null
    ensures Lookup(Obj(SelectedTree(prefs, paths)), path) == Some(ValueAt(prefs, path))
  {
    SelectedEdits(prefs, paths);
    SelectionSucceeds(prefs, paths);
    var edits := Selected(prefs, paths);
    var i :| 0 <= i < |edits| && edits[i] == Edit(path, ValueAt(prefs, path));
    BatchIsReadBack(map[], edits, i);
  }

  lemma WithoutKeysReads(tree: Dict, path: seq<string>)
    requires |path| == 2 && path[0] != "security"
    ensures Lookup(Obj(WithoutKeys(tree)), path) == Lookup(Obj(tree), path)
  {
    RemoveNestedRemoves(tree, ["security", "privateKey"], path);
    RemoveNestedRemoves(RemoveNestedKey(tree, ["security", "privateKey"]), ["security", "publicKey"], path);
  }

  lemma LocalPatchHolds(preferences: Json, path: seq<string>)
    requires preferences.Obj? && path in ALIGNMENT_LOCAL_PATHS && ValueAt(preferences, path) != Null
    ensures Lookup(Obj(AlignmentLocalPatch(preferences)), path) == Some(ValueAt(preferences, path))
  {
    AlignmentPathsApart();
    SelectionHolds(preferences, ALIGNMENT_LOCAL_PATHS, path);
    WithoutKeysReads(SelectedTree(preferences, ALIGNMENT_LOCAL_PATHS), path);
  }

  lemma ModulePatchHolds(modulePreferences: Json, path: seq<string>)
    requires modulePreferences.Obj? && path != [] && path[0] != "ambientLighting"
    ensures Lookup(Obj(AlignmentModulePatch(modulePreferences)), path) == Lookup(modulePreferences, path)
  {
    var once := RemoveNestedKey(modulePreferences.fields, ["ambientLighting", "blue"]);
    RemoveNestedRemoves(modulePreferences.fields, ["ambientLighting", "blue"], path);
    RemoveNestedRemoves(once, ["ambientLighting", "green"], path);
  }

  /** The module patch is the section without the two colours: they are gone, and everything that is
      neither above nor below one of them reads as in the section. */
  lemma ModulePatchOmits(section: Dict, path: seq<string>)
    requires path != []
    ensures var patch := Obj(AlignmentModulePatch(Obj(section)));
            var blue, green := ["ambientLighting", "blue"], ["ambientLighting", "green"];
            if blue <= path || green <= path then Lookup(patch, path) == None
            else if path == ["ambientLighting"] then SameUpToKeys(Lookup(Obj(section), path), Lookup(patch, path))
            else Lookup(patch, path) == Lookup(Obj(section), path)
  {
    var blue, green := ["ambientLighting", "blue"], ["ambientLighting", "green"];
    var once := RemoveNestedKey(section, blue);
    assert blue[0] == green[0] && blue[1] != green[1];
    RemoveNestedRemoves(section, blue, path);
    RemoveNestedRemoves(once, green, path);
    assert path < blue ==> path == ["ambientLighting"];
    assert path < green ==> path == ["ambientLighting"];
    assert blue <= path ==> Incomparable(green, path);
  }

  /** A listed path at which the source has a value lies above, at or below this one. */
  predicate NearListed(prefs: Json, paths: seq<seq<string>>, path: seq<string>) {
    exists p :: p in paths && ValueAt(prefs, p) != Null && !Incomparable(p, path)
  }

  lemma SelectionHoldsNothingElse(prefs: Json, paths: seq<seq<string>>, path: seq<string>)
    requires Apart(paths) && (forall p | p in paths :: |p| == 2) && path != []
    requires Lookup(Obj(SelectedTree(prefs, paths)), path).Some?
    ensures NearListed(prefs, paths, path)
  {
    var edits := Selected(prefs, paths);
    SelectedEdits(prefs, paths);
    SelectedHaveValues(prefs, paths);
    SelectionSucceeds(prefs, paths);
    BatchMakesNothingElse(map[], edits, path);
    var i :| 0 <= i < |edits| && !Incomparable(edits[i].path, path);
    assert edits[i] in edits;
  }

  lemma WithoutKeysHoldsLess(tree: Dict, path: seq<string>)
    ensures Lookup(Obj(WithoutKeys(tree)), path).Some? ==> Lookup(Obj(tree), path).Some?
  {
    RemoveNestedRemoves(tree, ["security", "privateKey"], path);
    RemoveNestedRemoves(RemoveNestedKey(tree, ["security", "privateKey"]), ["security", "publicKey"], path);
  }

  /** Nothing else is in the local patch: whatever it holds lies above, at or below a listed path at which
      the source has a value. */
  lemma LocalPatchHoldsNothingElse(preferences: Json, path: seq<string>)
    requires path != [] && Lookup(Obj(AlignmentLocalPatch(preferences)), path).Some?
    ensures preferences.Obj? && NearListed(preferences, ALIGNMENT_LOCAL_PATHS, path)
  {
    AlignmentPathsApart();
    WithoutKeysHoldsLess(SelectedTree(preferences, ALIGNMENT_LOCAL_PATHS), path);
    SelectionHoldsNothingElse(preferences, ALIGNMENT_LOCAL_PATHS, path);
  }

  lemma {:induction false} SelectedHaveValues(prefs: Json, paths: seq<seq<string>>)
    ensures forall e | e in Selected(prefs, paths) :: ValueAt(prefs, e.path) != Null
  {
    if paths != [] {
      SelectedHaveValues(prefs, paths[1..]);
    }
  }

  /** A value the patch carries is, after the merge, no longer a difference at its own path. */
  lemma CarriedIsNoDiff(source: Json, target: Json, patch: Json, d: Diff)
    requires source.Obj? && target.Obj? && patch.Obj?
    requires d in Diffs(source, Merge(target, patch))
    requires d.source != Null
    ensures Lookup(patch, d.path) != Some(d.source)
  {
    DiffIsAccurate(source, Merge(target, patch), d);
    LookupMerged(target, patch, d.path);
  }

  predicate PresenceOnly(d: Diff) {
    (d.source == Null) != (d.target == Null)
  }

  predicate AlignmentPath(path: seq<string>) {
    && path != []
    && (path[0] == "local_config" || path[0] == "module_config")
    && (if path[0] == "local_config" then path[1..] in ALIGNMENT_LOCAL_PATHS else path[1..] == ALIGNMENT_MODULE_PATH)
  }

  /** A target after both alignment patches of the source. */
  function Aligned(source: Sections, target: Sections): Sections {
    target.(preferences := PatchedSection(target.preferences, AlignmentLocalPatch(source.preferences)),
            modulePreferences := PatchedSection(target.modulePreferences,
                                                AlignmentModulePatch(source.modulePreferences)))
  }

  lemma CarriedSection(s: Json, t: Json, patch: Dict, d: Diff)
    requires d in Diffs(Obj(SafeDict(s)), Obj(SafeDict(PatchedSection(t, patch)))) && d.source != Null
    ensures d.source == ValueAt(Obj(SafeDict(s)), d.path) && Lookup(Obj(patch), d.path) != Some(d.source)
  {
    PatchedSectionReads(t, patch);
    CarriedIsNoDiff(Obj(SafeDict(s)), Obj(SafeDict(t)), Obj(patch), d);
    DiffIsAccurate(Obj(SafeDict(s)), Obj(SafeDict(PatchedSection(t, patch))), d);
  }

  lemma AlignedDiff(source: Sections, target: Sections, d: Diff)
    ensures d in Diffs(Snapshot(source), Snapshot(Aligned(source, target))) && AlignmentPath(d.path) ==> PresenceOnly(d)
  {
    if d in Diffs(Snapshot(source), Snapshot(Aligned(source, target))) && AlignmentPath(d.path) {
      SnapshotDiff(source, Aligned(source, target), d);
      DiffIsAccurate(Snapshot(source), Snapshot(Aligned(source, target)), d);
      var below := d.(path := d.path[1..]);
      if d.source != Null {
        if d.path[0] == "local_config" {
          CarriedSection(source.preferences, target.preferences, AlignmentLocalPatch(source.preferences), below);
          LocalPatchHolds(source.preferences, below.path);
        } else {
          var patch := AlignmentModulePatch(source.modulePreferences);
          CarriedSection(source.modulePreferences, target.modulePreferences, patch, below);
          ModulePatchHolds(source.modulePreferences, below.path);
        }
      }
    }
  }

  /** Alignment sync satisfies alignment compare: with both alignment patches merged into the
      target's shadow, all that is left at the profile's paths is presence-only. */
  lemma AlignmentConverges(source: Sections, target: Sections)
    ensures forall d | d in Diffs(Snapshot(source), Snapshot(Aligned(source, target))) && AlignmentPath(d.path) ::
              PresenceOnly(d)
  {
    forall d | d in Diffs(Snapshot(source), Snapshot(Aligned(source, target))) && AlignmentPath(d.path)
      ensures PresenceOnly(d)
    {
      AlignedDiff(source, target, d);
    }
  }

  /** The profile's exact names, as the compare page filters them. */
  predicate AlignmentName(name: string) {
    AlignmentPath(Split(name)) && Join(Split(name)) == name
  }

  /** The same, for the dotted names the comparator reports when keys are plain. */
  lemma AlignmentConvergesByName(source: Sections, target: Sections)
    requires PlainKeys(Snapshot(source)) && PlainKeys(Snapshot(Aligned(source, target)))
    ensures forall nd | nd in CompareValues(Snapshot(source), Snapshot(Aligned(source, target)), "") &&
            AlignmentName(nd.path) ::
              (nd.source == Null) != (nd.target == Null)
  {
    var s, t := Snapshot(source), Snapshot(Aligned(source, target));
    CompareNamesDiffs(s, t, []);
    forall i | 0 <= i < |CompareValues(s, t, "")| && AlignmentName(CompareValues(s, t, "")[i].path)
      ensures (CompareValues(s, t, "")[i].source == Null) != (CompareValues(s, t, "")[i].target == Null)
    {
      ReportedPathsSplit(s, t, i);
      AlignedDiff(source, target, Diffs(s, t)[i]);
    }
  }
}

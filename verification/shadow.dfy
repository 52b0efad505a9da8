/** The metadata shadow: what a node row remembers of a device's configuration. */
module Shadow {
  import opened JsonTree
  import opened Merging
  import opened Comparing

  /** `value if isinstance(value, dict) else {}` */
  function SafeDict(value: Json): Dict {
    if value.Obj? then value.fields else map[]
  }

  /** One section of `raw_metadata` (`preferences` or `modulePreferences`) after a patch. */
  function PatchedSection(section: Json, patch: Dict): Json {
    if patch == map[] then section else Merge(Obj(SafeDict(section)), Obj(patch))
  }

  lemma PatchedSectionReads(section: Json, patch: Dict)
    ensures Obj(SafeDict(PatchedSection(section, patch))) == Merge(Obj(SafeDict(section)), Obj(patch))
    ensures patch == map[] ==> PatchedSection(section, patch) == section
  {
    EmptyPatchIsNeutral(Obj(SafeDict(section)));
  }

  /** What a comparable snapshot of a node is made of. */
  datatype Sections = Sections(preferences: Json, modulePreferences: Json, channels: Dict, location: Dict)

  /** `_build_comparable_snapshot` */
  function Snapshot(s: Sections): Json {
    Obj(map["local_config" := Obj(SafeDict(s.preferences)), "module_config" := Obj(SafeDict(s.modulePreferences)),
            "channels" := Obj(s.channels), "location" := Obj(s.location)])
  }

  predicate SectionName(key: string) {
    key == "local_config" || key == "module_config" || key == "channels" || key == "location"
  }

  function SectionAt(s: Sections, key: string): Json
    requires SectionName(key)
  {
    if key == "local_config" then Obj(SafeDict(s.preferences))
    else if key == "module_config" then Obj(SafeDict(s.modulePreferences))
    else if key == "channels" then Obj(s.channels)
    else Obj(s.location)
  }

  lemma SnapshotFields(s: Sections, key: string)
    ensures key in Snapshot(s).fields <==> SectionName(key)
    ensures key in Snapshot(s).fields ==> Snapshot(s).fields[key] == SectionAt(s, key)
  {
    assert |"local_config"| == 12 && |"module_config"| == 13 && "channels"[0] != "location"[0];
  }

  lemma SnapshotIs(s: Sections)
    ensures "local_config" in Snapshot(s).fields && "module_config" in Snapshot(s).fields &&
            "channels" in Snapshot(s).fields && "location" in Snapshot(s).fields
    ensures Snapshot(s).fields["local_config"] == if s.preferences.Obj? then s.preferences else Obj(map[])
    ensures Snapshot(s).fields["module_config"] == if s.modulePreferences.Obj? then s.modulePreferences else Obj(map[])
    ensures Snapshot(s).fields["channels"] == Obj(s.channels) && Snapshot(s).fields["location"] == Obj(s.location)
  {
    SnapshotFields(s, "local_config");
    SnapshotFields(s, "module_config");
    SnapshotFields(s, "channels");
    SnapshotFields(s, "location");
  }

  /** Every difference of two snapshots is one of a section, below that section's key. */
  lemma SnapshotDiff(s: Sections, t: Sections, d: Diff)
    ensures d in Diffs(Snapshot(s), Snapshot(t)) ==>
              && |d.path| > 1 && SectionName(d.path[0])
              && d.(path := d.path[1..]) in Diffs(SectionAt(s, d.path[0]), SectionAt(t, d.path[0]))
  {
    if d in Diffs(Snapshot(s), Snapshot(t)) {
      var below := DiffBelow(Snapshot(s), Snapshot(t), d);
      SnapshotFields(s, d.path[0]);
      SnapshotFields(t, d.path[0]);
      DiffIsAccurate(SectionAt(s, d.path[0]), SectionAt(t, d.path[0]), below);
    }
  }
}

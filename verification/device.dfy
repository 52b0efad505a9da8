/** Writing a configuration patch to a device, and the shadow that is meant to follow it. */
module Device {
  import opened JsonTree
  import opened Merging
  import opened Shadow
  import opened Channels

  /** `key.replace("-", "_")` */
  function Normalize(key: string): (name: string)
    ensures '-' !in name
    ensures '-' !in key ==> name == key
  {
    if key == "" then "" else [if key[0] == '-' then '_' else key[0]] + Normalize(key[1..])
  }

  lemma {:induction false} NormalizeIs(key: string)
    ensures |Normalize(key)| == |key|
    ensures forall i | 0 <= i < |key| :: Normalize(key)[i] == if key[i] == '-' then '_' else key[i]
  {
    if key != "" {
      NormalizeIs(key[1..]);
    }
  }

  // ---------- what the writer does, on values ----------

  /** No two keys of one dictionary name the same attribute. */
  ghost predicate OneNameEach(values: Json) {
    values.Obj? ==>
      && (forall r, s | r in values.fields && s in values.fields && Normalize(r) == Normalize(s) :: r == s)
      && (forall r | r in values.fields :: OneNameEach(values.fields[r]))
  }

  /** The key of a patch that names attribute `name`, if there is one. */
  ghost predicate Names(values: Dict, r: string, name: string) {
    r in values && Normalize(r) == name
  }

  /** An attribute of a device after a patch value is written to it: a dictionary is written
      field by field, is lost on a leaf, and keys the message lacks are passed over. */
  ghost function Assigned(current: Json, value: Json): Json
    decreases value
  {
    if !value.Obj? then value
    else if !current.Obj? then current
    else Obj(map name | name in current.fields ::
               if exists r :: Names(value.fields, r, name) then
                 var r :| Names(value.fields, r, name);
                 Assigned(current.fields[name], value.fields[r])
               else current.fields[name])
  }

  /** Attribute names are Python identifiers. */
  predicate IsIdentifier(name: string) {
    '-' !in name
  }

  predicate Identifiers(message: Json) {
    message.Obj? ==> forall k | k in message.fields :: IsIdentifier(k) && Identifiers(message.fields[k])
  }

  /** Every dictionary of the patch meets a message that has all its keys. */
  predicate Fits(current: Json, value: Json)
    decreases value
  {
    value.Obj? ==>
      current.Obj? && forall k | k in value.fields :: k in current.fields && Fits(current.fields[k], value.fields[k])
  }

  /** The writer agrees with the shadow's merge exactly on the patches that fit the device. */
  lemma {:induction false} AssignedIsMergeIff(current: Json, value: Json)
    requires Identifiers(current) && OneNameEach(value)
    ensures Fits(current, value) <==> Assigned(current, value) == Merge(current, value)
    decreases value
  {
    if value.Obj? && current.Obj? {
      var a, m := Assigned(current, value), Merge(current, value);
      forall k | k in value.fields && k in current.fields
        ensures a.fields[k] == Assigned(current.fields[k], value.fields[k])
        ensures Fits(current.fields[k], value.fields[k]) <==> a.fields[k] == m.fields[k]
      {
        assert Names(value.fields, k, k);
        AssignedIsMergeIff(current.fields[k], value.fields[k]);
      }
      if Fits(current, value) {
        forall k | k in current.fields && k !in value.fields
          ensures a.fields[k] == m.fields[k]
        {
          assert forall r :: r in value.fields ==> Normalize(r) == r;
          assert !exists r :: Names(value.fields, r, k);
        }
        assert a.fields == m.fields;
      } else {
        var k :| k in value.fields && !(k in current.fields && Fits(current.fields[k], value.fields[k]));
        assert k in m.fields;
        assert a.fields != m.fields;
      }
    }
  }

  // ---------- the device's message objects ----------

  datatype Attr = Leaf(value: Json) | Sub(message: Message)

  class Message {
    var attrs: map<string, Attr>
    ghost var Repr: set<object>

    /** A message made of leaves and of sub-messages of its own, whose objects are all in `owned`. */
    constructor (attrs: map<string, Attr>, ghost owned: set<object>)
      requires forall k | k in attrs :: IsIdentifier(k) && match attrs[k]
                                                           case Leaf(v) => !v.Obj?
                                                           case Sub(m) => m.Valid() && m.Repr <= owned
      requires forall k, l | k in attrs && l in attrs && k != l && attrs[k].Sub? && attrs[l].Sub? ::
                 attrs[k].message.Repr !! attrs[l].message.Repr
      ensures Valid() && this.attrs == attrs && Repr == {this} + owned
    {
      this.attrs, Repr := attrs, {this} + owned;
    }

    ghost predicate Valid()
      reads this, Repr
      ensures Valid() ==> this in Repr
      decreases Repr
    {
      && this in Repr
      && (forall k | k in attrs ::
            && IsIdentifier(k)
            && match attrs[k]
               case Leaf(v) => !v.Obj?
               case Sub(m) => m in Repr && m.Repr <= Repr && this !in m.Repr && m.Valid())
      && (forall k, l | k in attrs && l in attrs && k != l && attrs[k].Sub? && attrs[l].Sub? ::
            attrs[k].message.Repr !! attrs[l].message.Repr)
    }

    ghost function AttrValue(k: string): Json
      requires Valid() && k in attrs
      reads this, Repr
      decreases Repr, 0
    {
      match attrs[k] case Leaf(v) => v case Sub(m) => m.Value()
    }

    ghost function Value(): (v: Json)
      requires Valid()
      reads this, Repr
      ensures v.Obj?
      decreases Repr, 1
    {
      Obj(map k | k in attrs :: AttrValue(k))
    }

    /** `_assign_message_fields` on a plain message object. */
    method Assign(values: Dict)
      requires Valid()
      modifies Repr
      ensures Valid() && Repr == old(Repr)
      ensures OneNameEach(Obj(values)) ==> Value() == Assigned(old(Value()), Obj(values))
      decreases Obj(values), 1
    {
      ghost var before := Value().fields;
      ghost var done := {};
      var todo := values.Keys;
      while todo != {}
        invariant Valid() && Repr == old(Repr)
        invariant done <= values.Keys && todo == values.Keys - done
        invariant OneNameEach(Obj(values)) ==> Progress(before, values, done, Value().fields)
      {
        var rawKey :| rawKey in todo;
        ghost var current := Value().fields;
        AssignOne(rawKey, values[rawKey]);
        if OneNameEach(Obj(values)) {
          ProgressStep(before, values, done, rawKey, current, Value().fields);
        }
        todo, done := todo - {rawKey}, done + {rawKey};
      }
      if OneNameEach(Obj(values)) {
        ProgressDone(before, values, Value().fields);
      }
    }

    /** One turn of the loop over the patch's items. */
    method AssignOne(rawKey: string, value: Json)
      requires Valid()
      modifies Repr
      ensures Valid() && Repr == old(Repr) && attrs.Keys == old(attrs.Keys)
      ensures OneNameEach(value) ==> OneWritten(old(Value().fields), Normalize(rawKey), value, Value().fields)
      decreases value, 2
    {
      var key := Normalize(rawKey);
      if key !in attrs {
        return;
      }
      if value.Obj? {
        match attrs[key] {
          case Sub(m) => m.Assign(value.fields);
          case Leaf(_) =>
        }
        return;
      }
      AssignLeaf(key, value);
    }

    method AssignLeaf(key: string, value: Json)
      requires Valid() && key in attrs && !value.Obj?
      modifies this
      ensures Valid() && Repr == old(Repr) && attrs.Keys == old(attrs.Keys)
      ensures Value() == Obj(old(Value().fields)[key := value])
    {
      ghost var before := Value().fields;
      attrs := attrs[key := Leaf(value)];
      assert Valid();
      assert AttrValue(key) == value;
      forall k | k in before && k != key ensures AttrValue(k) == before[k] {
        assert AttrValue(k) == old(AttrValue(k));
      }
      UpdatedAt(before, Value().fields, key, value);
    }
  }

  ghost predicate OneWritten(before: Dict, name: string, value: Json, after: Dict) {
    after == if name in before then before[name := Assigned(before[name], value)] else before
  }

  /** A message's attributes once the items with keys in `done` have been written. */
  ghost predicate Progress(before: Dict, values: Dict, done: set<string>, now: Dict)
    requires done <= values.Keys
  {
    && now.Keys == before.Keys
    && (forall name, r | name in before && r in done && Normalize(r) == name ::
        now[name] == Assigned(before[name], values[r]))
    && (forall name | name in before && (forall r | r in done :: Normalize(r) != name) :: now[name] == before[name])
  }

  lemma ProgressStep(before: Dict, values: Dict, done: set<string>, rawKey: string, now: Dict, next: Dict)
    requires OneNameEach(Obj(values)) && done <= values.Keys && rawKey in values.Keys - done
    requires Progress(before, values, done, now) && OneWritten(now, Normalize(rawKey), values[rawKey], next)
    ensures Progress(before, values, done + {rawKey}, next)
  {
    var name := Normalize(rawKey);
    assert forall r | r in done :: Normalize(r) != name;
    forall other | other in before && (forall r | r in done + {rawKey} :: Normalize(r) != other)
      ensures next[other] == before[other]
    {
      assert rawKey in done + {rawKey};
    }
  }

  lemma ProgressDone(before: Dict, values: Dict, now: Dict)
    requires OneNameEach(Obj(values)) && Progress(before, values, values.Keys, now)
    ensures Obj(now) == Assigned(Obj(before), Obj(values))
  {
    var after := Assigned(Obj(before), Obj(values)).fields;
    forall name | name in before ensures now[name] == after[name] {
      if r :| Names(values, r, name) {
        assert now[name] == Assigned(before[name], values[r]);
      } else {
        assert forall r | r in values.Keys :: Normalize(r) != name by {
          forall r | r in values.Keys ensures Normalize(r) != name {
            assert !Names(values, r, name);
          }
        }
      }
    }
    assert now == after;
  }

  // ---------- sections ----------

  /** Only dictionary-valued sections are written. */
  function DictSections(patch: Dict): Dict {
    map k | k in patch && patch[k].Obj? :: patch[k]
  }

  lemma DictSectionsOneName(patch: Dict)
    requires OneNameEach(Obj(patch))
    ensures OneNameEach(Obj(DictSections(patch)))
  {
  }

  function Renamed(keys: set<string>): set<string> {
    set r | r in keys :: Normalize(r)
  }

  /** `_apply_local_config_patch` and `_apply_module_config_patch`: the names of the sections written. */
  method ApplySections(config: Message, patch: Dict) returns (written: seq<string>)
    requires config.Valid()
    modifies config.Repr
    ensures config.Valid() && config.Repr == old(config.Repr)
    ensures OneNameEach(Obj(patch)) ==> config.Value() == Assigned(old(config.Value()), Obj(DictSections(patch)))
    ensures Reported(written, patch, old(config.Value().fields))
    ensures OneNameEach(Obj(patch)) ==> Distinct(written)
  {
    written := [];
    ghost var before := config.Value().fields;
    ghost var done := {};
    var todo := set k | k in patch && patch[k].Obj?;
    while todo != {}
      invariant config.Valid() && config.Repr == old(config.Repr)
      invariant done <= DictSections(patch).Keys && todo == DictSections(patch).Keys - done
      invariant Written(patch, before, done, config.Value().fields, written)
    {
      var rawName :| rawName in todo;
      ghost var current, already := config.Value().fields, written;
      var isWritten := WriteSection(config, rawName, patch[rawName]);
      written := if isWritten then written + [Normalize(rawName)] else written;
      WrittenNext(patch, before, done, rawName, current, config.Value().fields, already, written);
      todo, done := todo - {rawName}, done + {rawName};
    }
    WrittenIsReported(patch, before, config.Value().fields, written);
    if OneNameEach(Obj(patch)) {
      DictSectionsOneName(patch);
      ProgressDone(before, DictSections(patch), config.Value().fields);
    }
  }

  /** The names are those of the sections the message has and the patch has a dictionary for. */
  ghost predicate Reported(names: seq<string>, patch: Dict, message: Dict) {
    forall n :: n in names <==> n in message && exists k :: k in patch && patch[k].Obj? && Normalize(k) == n
  }

  lemma WrittenIsReported(patch: Dict, before: Dict, now: Dict, written: seq<string>)
    requires Written(patch, before, DictSections(patch).Keys, now, written)
    ensures Reported(written, patch, before)
  {
    var keys := DictSections(patch).Keys;
    var names := set n | n in written;
    assert names == Renamed(keys) * before.Keys;
    forall n | n in written ensures n in before && exists k :: k in patch && patch[k].Obj? && Normalize(k) == n {
      assert n in names;
      var k :| k in keys && Normalize(k) == n;
      assert k in patch && patch[k].Obj?;
    }
    forall n, k | n in before && k in patch && patch[k].Obj? && Normalize(k) == n ensures n in written {
      assert k in keys && Normalize(k) in Renamed(keys);
      assert n in names;
    }
  }

  /** The message and the list of names once the sections in `done` are written. */
  ghost predicate Written(patch: Dict, before: Dict, done: set<string>, now: Dict, written: seq<string>)
    requires done <= DictSections(patch).Keys
  {
    && now.Keys == before.Keys
    && (set n | n in written) == Renamed(done) * before.Keys
    && (OneNameEach(Obj(patch)) ==> Progress(before, DictSections(patch), done, now) && Distinct(written))
  }

  lemma WrittenNext(patch: Dict, before: Dict, done: set<string>, rawName: string, now: Dict, next: Dict,
                    written: seq<string>, more: seq<string>)
    requires done <= DictSections(patch).Keys && rawName in DictSections(patch).Keys - done
    requires Written(patch, before, done, now, written) && next.Keys == now.Keys
    requires OneNameEach(patch[rawName]) ==> OneWritten(now, Normalize(rawName), patch[rawName], next)
    requires more == if Normalize(rawName) in now then written + [Normalize(rawName)] else written
    ensures Written(patch, before, done + {rawName}, next, more)
  {
    NoteWritten(written, done, rawName, before.Keys, more);
    if OneNameEach(Obj(patch)) {
      DictSectionsOneName(patch);
      ProgressStep(before, DictSections(patch), done, rawName, now, next);
      NoteDistinct(written, done, rawName, before.Keys, more);
    }
  }

  lemma NoteWritten(written: seq<string>, done: set<string>, rawName: string, names: set<string>, next: seq<string>)
    requires (set n | n in written) == Renamed(done) * names
    requires next == if Normalize(rawName) in names then written + [Normalize(rawName)] else written
    ensures (set n | n in next) == Renamed(done + {rawName}) * names
  {
    assert Renamed(done + {rawName}) == Renamed(done) + {Normalize(rawName)};
    var name := Normalize(rawName);
    assert forall n :: n in next <==> n in written || (n == name && name in names);
    var before, after := set n | n in written, set n | n in next;
    forall n ensures n in after <==> n in Renamed(done + {rawName}) * names {
      assert n in before <==> n in Renamed(done) * names;
    }
    assert after == Renamed(done + {rawName}) * names;
  }

  lemma NoteDistinct(written: seq<string>, done: set<string>, rawName: string, names: set<string>, next: seq<string>)
    requires (set n | n in written) == Renamed(done) * names
    requires next == if Normalize(rawName) in names then written + [Normalize(rawName)] else written
    ensures Distinct(written) && (forall r | r in done :: Normalize(r) != Normalize(rawName)) ==> Distinct(next)
  {
    var name, before := Normalize(rawName), set n | n in written;
    if forall r | r in done :: Normalize(r) != name {
      assert name !in Renamed(done);
      assert name in written ==> name in before;
    }
  }

  method WriteSection(config: Message, rawName: string, section: Json) returns (isWritten: bool)
    requires config.Valid()
    modifies config.Repr
    ensures config.Valid() && config.Repr == old(config.Repr)
    ensures isWritten == (Normalize(rawName) in old(config.Value().fields))
    ensures config.Value().fields.Keys == old(config.Value().fields.Keys)
    ensures OneNameEach(section) ==>
              OneWritten(old(config.Value().fields), Normalize(rawName), section, config.Value().fields)
  {
    isWritten := Normalize(rawName) in config.attrs;
    if isWritten {
      config.AssignOne(rawName, section);
    }
  }

  /** Each section of the patch is a dictionary that fits the device, or repeats what is there. */
  predicate SectionsFit(config: Json, patch: Dict)
    requires config.Obj?
  {
    forall k | k in patch :: SectionFits(config.fields, patch, k)
  }

  lemma SectionIsMergedIff(config: Json, patch: Dict, k: string)
    requires config.Obj? && Identifiers(config) && OneNameEach(Obj(patch)) && k in patch && k in config.fields
    ensures SectionFits(config.fields, patch, k) <==>
            Assigned(config, Obj(DictSections(patch))).fields[k] == Merge(config, Obj(patch)).fields[k]
  {
    var values := DictSections(patch);
    AssignedIsMergeIff(config.fields[k], patch[k]);
    forall r | Names(values, r, k) ensures r == k {
      assert Normalize(r) == Normalize(k);
    }
    if patch[k].Obj? {
      assert Names(values, k, k);
    } else {
      assert !Names(values, k, k);
    }
  }

  predicate SectionFits(config: Dict, patch: Dict, k: string)
    requires k in patch
  {
    k in config && if patch[k].Obj? then Fits(config[k], patch[k]) else config[k] == patch[k]
  }

  lemma SectionUnwritten(config: Dict, patch: Dict, k: string)
    requires Identifiers(Obj(config)) && (forall r | r in patch :: IsIdentifier(r)) && k in config && k !in patch
    ensures Assigned(Obj(config), Obj(DictSections(patch))).fields[k] == config[k]
  {
    forall r ensures !Names(DictSections(patch), r, k) {
    }
  }

  lemma FittingSection(config: Json, patch: Dict, k: string)
    requires config.Obj? && Identifiers(config) && OneNameEach(Obj(patch)) && SectionsFit(config, patch) &&
             k in config.fields
    ensures Assigned(config, Obj(DictSections(patch))).fields[k] == Merge(config, Obj(patch)).fields[k]
  {
    if k in patch {
      assert SectionFits(config.fields, patch, k);
      SectionIsMergedIff(config, patch, k);
    } else {
      forall r | r in patch ensures IsIdentifier(r) {
        assert SectionFits(config.fields, patch, r);
      }
      SectionUnwritten(config.fields, patch, k);
    }
  }

  lemma SameSections(a: Json, m: Json, keys: set<string>)
    requires a.Obj? && m.Obj? && a.fields.Keys == keys == m.fields.Keys
    requires forall k | k in keys :: a.fields[k] == m.fields[k]
    ensures a == m
  {
    assert a.fields == m.fields;
  }

  lemma FittingSectionsMerge(config: Json, patch: Dict)
    requires config.Obj? && Identifiers(config) && OneNameEach(Obj(patch)) && SectionsFit(config, patch)
    ensures Assigned(config, Obj(DictSections(patch))) == Merge(config, Obj(patch))
  {
    forall k | k in config.fields
      ensures Assigned(config, Obj(DictSections(patch))).fields[k] == Merge(config, Obj(patch)).fields[k]
    {
      FittingSection(config, patch, k);
    }
    assert patch.Keys <= config.fields.Keys by {
      assert forall k | k in patch :: SectionFits(config.fields, patch, k);
    }
    SameSections(Assigned(config, Obj(DictSections(patch))), Merge(config, Obj(patch)), config.fields.Keys);
  }

  /** The device's section writer agrees with the shadow's merge exactly on fitting patches. */
  lemma SectionsAreMergeIff(config: Json, patch: Dict)
    requires config.Obj? && Identifiers(config) && OneNameEach(Obj(patch))
    ensures SectionsFit(config, patch) <==> Assigned(config, Obj(DictSections(patch))) == Merge(config, Obj(patch))
  {
    if SectionsFit(config, patch) {
      FittingSectionsMerge(config, patch);
    } else {
      var k :| k in patch && !SectionFits(config.fields, patch, k);
      assert k in Merge(config, Obj(patch)).fields;
      if k in config.fields {
        SectionIsMergedIff(config, patch, k);
      }
    }
  }

  // ---------- one patch operation ----------

  datatype ConfigPatch = ConfigPatch(
    shortName: Option<string>, longName: Option<string>, role: Option<string>, favorite: Option<bool>,
    latitude: Option<real>, longitude: Option<real>, altitude: Option<real>,
    local: Dict, modules: Dict, channels: seq<Item>)

  predicate RemoteRequested(patch: ConfigPatch) {
    || patch.shortName.Some? || patch.longName.Some? || patch.role.Some?
    || (patch.latitude.Some? && patch.longitude.Some?)
    || patch.local != map[] || patch.modules != map[] || patch.channels != []
  }

  /** `raw_metadata` after one configuration part of a patch. */
  function WithSection(raw: Dict, key: string, patch: Dict): Dict {
    if patch == map[] then raw else raw[key := PatchedSection(Get(raw, key), patch)]
  }

  function WithChannels(raw: Dict, patch: seq<Item>): Dict {
    var channels := Get(raw, "channels");
    if patch == [] then raw
    else raw["channels" := List(MergedChannels(if channels.List? then channels.items else [], patch))]
  }

  /** `raw_metadata` after the patch. */
  function PatchedMetadata(raw: Json, patch: ConfigPatch): Dict {
    var sections := WithSection(SafeDict(raw), "preferences", patch.local);
    WithChannels(WithSection(sections, "modulePreferences", patch.modules), patch.channels)
  }

  datatype Outcome =
    | LocalOnly
    | DryRun
    | Applied(localSections: seq<string>, moduleSections: seq<string>)
    | Raised(reason: string)

  datatype Configs = Configs(local: Json, modules: Json)

  ghost predicate DeviceWritten(patch: ConfigPatch, before: Configs, after: Configs) {
    && (OneNameEach(Obj(patch.local)) ==> after.local == Assigned(before.local, Obj(DictSections(patch.local))))
    && (OneNameEach(Obj(patch.modules)) ==> after.modules == Assigned(before.modules, Obj(DictSections(patch.modules))))
  }

  class LocalNode {
    const localConfig: Message
    const moduleConfig: Message

    constructor (localConfig: Message, moduleConfig: Message)
      ensures this.localConfig == localConfig && this.moduleConfig == moduleConfig
    {
      this.localConfig, this.moduleConfig := localConfig, moduleConfig;
    }

    ghost predicate Valid()
      reads localConfig, localConfig.Repr, moduleConfig, moduleConfig.Repr
    {
      localConfig.Valid() && moduleConfig.Valid() && localConfig.Repr !! moduleConfig.Repr
    }

    ghost function Footprint(): set<object>
      reads localConfig, moduleConfig
    {
      localConfig.Repr + moduleConfig.Repr
    }

    ghost function Settings(): (s: Configs)
      requires Valid()
      reads localConfig, localConfig.Repr, moduleConfig, moduleConfig.Repr
      ensures s.local.Obj? && s.modules.Obj?
    {
      Configs(localConfig.Value(), moduleConfig.Value())
    }

    /** The configuration part of the provider's `apply_config_patch`. */
    method Write(patch: ConfigPatch) returns (outcome: Outcome)
      requires Valid()
      modifies Footprint()
      ensures Valid() && Footprint() == old(Footprint())
      ensures outcome.Applied? && DeviceWritten(patch, old(Settings()), Settings())
      ensures Reported(outcome.localSections, patch.local, old(Settings().local.fields))
      ensures Reported(outcome.moduleSections, patch.modules, old(Settings().modules.fields))
    {
      var locals: seq<string>, modules: seq<string> := [], [];
      NothingAssigned(localConfig.Value());
      if patch.local != map[] {
        locals := ApplySections(localConfig, patch.local);
      }
      NothingAssigned(moduleConfig.Value());
      if patch.modules != map[] {
        modules := ApplySections(moduleConfig, patch.modules);
      }
      outcome := Applied(locals, modules);
    }
  }

  datatype Link = Down | Up(device: LocalNode)

  /** The columns of a node row that a patch can touch. */
  datatype Row = Row(
    shortName: Option<string>, longName: Option<string>, role: Option<string>, favorite: bool,
    latitude: Option<real>, longitude: Option<real>, altitude: Option<real>, rawMetadata: Json)

  function Or<T>(wanted: Option<T>, present: Option<T>): Option<T> {
    if wanted.Some? then wanted else present
  }

  /** The columns that only a live patch writes. */
  function WithColumns(row: Row, patch: ConfigPatch): Row {
    row.(
      shortName := Or(patch.shortName, row.shortName), longName := Or(patch.longName, row.longName),
      role := Or(patch.role, row.role), favorite := if patch.favorite.Some? then patch.favorite.value else row.favorite,
      latitude := Or(patch.latitude, row.latitude), longitude := Or(patch.longitude, row.longitude))
  }

  /** The columns that a dry run writes too. */
  function WithShadow(row: Row, patch: ConfigPatch): Row {
    row.(altitude := Or(patch.altitude, row.altitude), rawMetadata := Obj(PatchedMetadata(row.rawMetadata, patch)))
  }

  /** The row after a patch. */
  function PatchedRow(row: Row, patch: ConfigPatch, dryRun: bool, outcome: Outcome): Row {
    if outcome.Raised? then row
    else if outcome.LocalOnly? then
      if !dryRun && patch.favorite.Some? then row.(favorite := patch.favorite.value) else row
    else WithShadow(if dryRun then row else WithColumns(row, patch), patch)
  }

  /** The key holds the same in both, or in neither. */
  predicate SameAt(before: Dict, after: Dict, key: string) {
    (key in after <==> key in before) && (key in before ==> after[key] == before[key])
  }

  /** `key` is `before`'s section, or an empty one, overlaid with what the patch asks for. */
  predicate SectionMerged(before: Dict, wanted: Dict, after: Dict, key: string) {
    if wanted == map[] then SameAt(before, after, key)
    else
      && key in after
      && after[key] == Merge(if key in before && before[key].Obj? then before[key] else Obj(map[]), Obj(wanted))
  }

  ghost predicate ChannelsMerged(before: Dict, wanted: seq<Item>, after: Dict) {
    if wanted == [] then SameAt(before, after, "channels")
    else
      var held := if "channels" in before && before["channels"].List? then before["channels"].items else [];
      "channels" in after && after["channels"] == List(MergedChannels(held, wanted))
  }

  lemma SectionTakes(raw: Dict, key: string, patch: Dict)
    ensures SectionMerged(raw, patch, WithSection(raw, key, patch), key)
    ensures forall k | k != key :: SameAt(raw, WithSection(raw, key, patch), k)
  {
  }

  lemma ChannelsTake(raw: Dict, patch: seq<Item>)
    ensures ChannelsMerged(raw, patch, WithChannels(raw, patch))
    ensures forall k | k != "channels" :: SameAt(raw, WithChannels(raw, patch), k)
  {
  }

  /** Every part of the patch has reached the metadata, and nothing else has changed in it. */
  ghost predicate MetadataTakes(before: Dict, patch: ConfigPatch, after: Dict) {
    && SectionMerged(before, patch.local, after, "preferences")
    && SectionMerged(before, patch.modules, after, "modulePreferences")
    && ChannelsMerged(before, patch.channels, after)
    && forall k | k != "preferences" && k != "modulePreferences" && k != "channels" :: SameAt(before, after, k)
  }

  lemma MetadataTakesPatch(raw: Json, patch: ConfigPatch)
    ensures MetadataTakes(if raw.Obj? then raw.fields else map[], patch, PatchedMetadata(raw, patch))
  {
    var r0 := SafeDict(raw);
    var r1 := WithSection(r0, "preferences", patch.local);
    var r2 := WithSection(r1, "modulePreferences", patch.modules);
    SectionTakes(r0, "preferences", patch.local);
    SectionTakes(r1, "modulePreferences", patch.modules);
    ChannelsTake(r2, patch.channels);
    StagesTake(r0, r1, r2, WithChannels(r2, patch.channels), patch);
  }

  lemma StagesTake(r0: Dict, r1: Dict, r2: Dict, r3: Dict, patch: ConfigPatch)
    requires SectionMerged(r0, patch.local, r1, "preferences") && forall k | k != "preferences" :: SameAt(r0, r1, k)
    requires SectionMerged(r1, patch.modules, r2, "modulePreferences")
    requires forall k | k != "modulePreferences" :: SameAt(r1, r2, k)
    requires ChannelsMerged(r2, patch.channels, r3) && forall k | k != "channels" :: SameAt(r2, r3, k)
    ensures MetadataTakes(r0, patch, r3)
  {
    assert SameAt(r1, r2, "preferences") && SameAt(r2, r3, "preferences");
    assert SameAt(r0, r1, "modulePreferences") && SameAt(r2, r3, "modulePreferences");
    assert SameAt(r0, r1, "channels") && SameAt(r1, r2, "channels");
    forall k | k != "preferences" && k != "modulePreferences" && k != "channels" ensures SameAt(r0, r3, k) {
      assert SameAt(r0, r1, k) && SameAt(r1, r2, k) && SameAt(r2, r3, k);
    }
  }

  class NodeRow {
    var row: Row

    constructor (row: Row)
      ensures this.row == row
    {
      this.row := row;
    }

    /** `OperationsService.apply_patch`, for a node with or without an endpoint and a device that
        can or cannot be reached. */
    method ApplyPatch(patch: ConfigPatch, dryRun: bool, hasEndpoint: bool, link: Link) returns (outcome: Outcome)
      requires link.Up? ==> link.device.Valid() && this !in link.device.Footprint()
      modifies this, if link.Up? then link.device.Footprint() else {}
      ensures outcome.LocalOnly? <==>
              patch.shortName.None? && patch.longName.None? && patch.role.None? &&
              (patch.latitude.None? || patch.longitude.None?) &&
              patch.local == map[] && patch.modules == map[] && patch.channels == []
      ensures outcome.Raised? <==> !outcome.LocalOnly? && (!hasEndpoint || link.Down?)
      ensures outcome.DryRun? <==> !outcome.LocalOnly? && hasEndpoint && link.Up? && dryRun
      ensures row == PatchedRow(old(row), patch, dryRun, outcome)
      ensures outcome.Raised? ==> row == old(row)
      ensures outcome.LocalOnly? ==> row == old(row).(favorite := row.favorite)
      ensures outcome.DryRun? ==> row == old(row).(altitude := row.altitude, rawMetadata := row.rawMetadata)
      ensures outcome.Applied? ==>
                && row.shortName == (if patch.shortName.Some? then patch.shortName else old(row.shortName))
                && row.longName == (if patch.longName.Some? then patch.longName else old(row.longName))
                && row.role == (if patch.role.Some? then patch.role else old(row.role))
                && row.latitude == (if patch.latitude.Some? then patch.latitude else old(row.latitude))
                && row.longitude == (if patch.longitude.Some? then patch.longitude else old(row.longitude))
      ensures row.favorite == if patch.favorite.Some? && !dryRun && !outcome.Raised? then patch.favorite.value
                              else old(row.favorite)
      ensures outcome.Applied? || outcome.DryRun? ==>
                && row.altitude == (if patch.altitude.Some? then patch.altitude else old(row.altitude))
                && row.rawMetadata.Obj?
                && MetadataTakes(if old(row.rawMetadata).Obj? then old(row.rawMetadata).fields else map[], patch,
                                 row.rawMetadata.fields)
      ensures link.Up? ==> link.device.Valid() && link.device.Footprint() == old(link.device.Footprint())
      ensures link.Up? && !outcome.Applied? ==> link.device.Settings() == old(link.device.Settings())
      ensures outcome.Applied? ==> DeviceWritten(patch, old(link.device.Settings()), link.device.Settings())
    {
      MetadataTakesPatch(row.rawMetadata, patch);
      if !RemoteRequested(patch) {
        if !dryRun && patch.favorite.Some? {
          row := row.(favorite := patch.favorite.value);
        }
        return LocalOnly;
      }
      if !hasEndpoint {
        return Raised("Node has no TCP endpoint");
      }
      if link.Down? {
        return Raised("Failed to connect");
      }
      outcome := PatchRemote(patch, dryRun, link.device);
    }

    /** With the device connected. */
    method PatchRemote(patch: ConfigPatch, dryRun: bool, device: LocalNode) returns (outcome: Outcome)
      requires device.Valid() && this !in device.Footprint()
      modifies this, device.Footprint()
      ensures if dryRun then outcome.DryRun? else outcome.Applied?
      ensures row == PatchedRow(old(row), patch, dryRun, outcome)
      ensures device.Valid() && device.Footprint() == old(device.Footprint())
      ensures dryRun ==> device.Settings() == old(device.Settings())
      ensures !dryRun ==> DeviceWritten(patch, old(device.Settings()), device.Settings())
    {
      outcome := DryRun;
      if !dryRun {
        outcome := device.Write(patch);
        row := WithColumns(row, patch);
      }
      row := WithShadow(row, patch);
    }
  }

  lemma NothingAssigned(current: Json)
    requires current.Obj?
    ensures Assigned(current, Obj(DictSections(map[]))) == current
  {
    assert forall r, n :: !Names(DictSections(map[]), r, n);
    assert Assigned(current, Obj(DictSections(map[]))).fields == current.fields;
  }

  // ---------- runs: does the shadow still say what the device holds? ----------

  /** A device's configuration and the metadata of its node row. */
  datatype Mirror = Mirror(device: Configs, metadata: Json)

  function ShadowOf(metadata: Json): Configs {
    var raw := SafeDict(metadata);
    Configs(Obj(SafeDict(Get(raw, "preferences"))), Obj(SafeDict(Get(raw, "modulePreferences"))))
  }

  predicate Coherent(m: Mirror) {
    ShadowOf(m.metadata) == m.device
  }

  predicate WellShaped(device: Configs) {
    && device.local.Obj? && Identifiers(device.local)
    && device.modules.Obj? && Identifiers(device.modules)
  }

  datatype Operation = Operation(patch: ConfigPatch, dryRun: bool)

  ghost predicate Unambiguous(patch: ConfigPatch) {
    OneNameEach(Obj(patch.local)) && OneNameEach(Obj(patch.modules))
  }

  ghost function Step(m: Mirror, op: Operation): Mirror {
    Mirror(
      if op.dryRun then m.device
      else Configs(Assigned(m.device.local, Obj(DictSections(op.patch.local))),
                   Assigned(m.device.modules, Obj(DictSections(op.patch.modules)))),
      Obj(PatchedMetadata(m.metadata, op.patch)))
  }

  /** What `ApplyPatch` does to a reachable node is this step. */
  lemma OperationIsStep(before: Configs, after: Configs, row: Row, patch: ConfigPatch, outcome: Outcome)
    requires Unambiguous(patch) && (outcome.Applied? || outcome.DryRun?)
    requires if outcome.Applied? then DeviceWritten(patch, before, after) else after == before
    ensures Mirror(after, PatchedRow(row, patch, outcome.DryRun?, outcome).rawMetadata) ==
            Step(Mirror(before, row.rawMetadata), Operation(patch, outcome.DryRun?))
  {
  }

  lemma MetadataFollows(metadata: Json, patch: ConfigPatch)
    ensures ShadowOf(Obj(PatchedMetadata(metadata, patch))) ==
            Configs(Merge(ShadowOf(metadata).local, Obj(patch.local)),
                Merge(ShadowOf(metadata).modules, Obj(patch.modules)))
  {
    var raw := SafeDict(metadata);
    PatchedSectionReads(Get(raw, "preferences"), patch.local);
    PatchedSectionReads(Get(raw, "modulePreferences"), patch.modules);
  }

  /** The patch asks only for what the device already holds. */
  predicate Holds(current: Json, value: Json)
    decreases value
  {
    if value.Obj? then
      current.Obj? && forall k | k in value.fields :: k in current.fields && Holds(current.fields[k], value.fields[k])
    else current == value
  }

  lemma {:induction false} HoldsIffMergeIsIdle(current: Json, value: Json)
    ensures Holds(current, value) <==> Merge(current, value) == current
    decreases value
  {
    if value.Obj? && current.Obj? {
      var m := Merge(current, value);
      forall k | k in value.fields && k in current.fields
        ensures Holds(current.fields[k], value.fields[k]) <==> m.fields[k] == current.fields[k]
      {
        HoldsIffMergeIsIdle(current.fields[k], value.fields[k]);
      }
      if Holds(current, value) {
        assert m.fields == current.fields;
      } else {
        var k :| k in value.fields && !(k in current.fields && Holds(current.fields[k], value.fields[k]));
        assert k in m.fields;
        assert m.fields != current.fields;
      }
    }
  }

  /** A live operation must fit the device; a dry run, which moves only the shadow, must ask for
      nothing new. */
  predicate Keeps(device: Configs, op: Operation)
    requires WellShaped(device)
  {
    if op.dryRun then Holds(device.local, Obj(op.patch.local)) && Holds(device.modules, Obj(op.patch.modules))
    else SectionsFit(device.local, op.patch.local) && SectionsFit(device.modules, op.patch.modules)
  }

  lemma CoherentStepIff(m: Mirror, op: Operation)
    requires WellShaped(m.device) && Unambiguous(op.patch) && Coherent(m)
    ensures Coherent(Step(m, op)) <==> Keeps(m.device, op)
  {
    MetadataFollows(m.metadata, op.patch);
    SectionsAreMergeIff(m.device.local, op.patch.local);
    SectionsAreMergeIff(m.device.modules, op.patch.modules);
    HoldsIffMergeIsIdle(m.device.local, Obj(op.patch.local));
    HoldsIffMergeIsIdle(m.device.modules, Obj(op.patch.modules));
  }

  lemma {:induction false} AssignedHasIdentifiers(current: Json, value: Json)
    requires Identifiers(current)
    ensures value.Obj? ==> Identifiers(Assigned(current, value))
    ensures current.Obj? && value.Obj? ==> Assigned(current, value).Obj?
    decreases value
  {
    if value.Obj? && current.Obj? {
      var a := Assigned(current, value);
      forall k | k in a.fields ensures Identifiers(a.fields[k]) {
        if r :| Names(value.fields, r, k) && a.fields[k] == Assigned(current.fields[k], value.fields[r]) {
          AssignedHasIdentifiers(current.fields[k], value.fields[r]);
        }
      }
    }
  }

  ghost predicate AlwaysCoherent(m: Mirror, ops: seq<Operation>)
    decreases |ops|
  {
    Coherent(m) && (ops != [] ==> AlwaysCoherent(Step(m, ops[0]), ops[1..]))
  }

  ghost predicate AlwaysKeeps(m: Mirror, ops: seq<Operation>)
    decreases |ops|
  {
    ops != [] ==> WellShaped(m.device) && Keeps(m.device, ops[0]) && AlwaysKeeps(Step(m, ops[0]), ops[1..])
  }

  /** Over any run of operations on a node, the shadow equals the device after every step exactly
      when each operation, judged against the device as it then is, keeps it. */
  lemma {:induction false} CoherentRunIff(m: Mirror, ops: seq<Operation>)
    requires WellShaped(m.device) && Coherent(m)
    requires forall i | 0 <= i < |ops| :: Unambiguous(ops[i].patch)
    ensures AlwaysCoherent(m, ops) <==> AlwaysKeeps(m, ops)
    decreases |ops|
  {
    if ops != [] {
      CoherentStepIff(m, ops[0]);
      var next := Step(m, ops[0]);
      AssignedHasIdentifiers(m.device.local, Obj(DictSections(ops[0].patch.local)));
      AssignedHasIdentifiers(m.device.modules, Obj(DictSections(ops[0].patch.modules)));
      if Coherent(next) {
        CoherentRunIff(next, ops[1..]);
      }
    }
  }

  /** The patch follows the device's schema: its keys exist, dictionaries meet messages and leaves meet leaves. */
  predicate Matches(current: Json, value: Json)
    decreases value
  {
    if value.Obj? then
      current.Obj? && forall k | k in value.fields :: k in current.fields && Matches(current.fields[k], value.fields[k])
    else !current.Obj?
  }

  lemma {:induction false} MatchingFits(current: Json, value: Json)
    requires Matches(current, value)
    ensures Fits(current, value)
    decreases value
  {
    if value.Obj? {
      forall k | k in value.fields ensures k in current.fields && Fits(current.fields[k], value.fields[k]) {
        MatchingFits(current.fields[k], value.fields[k]);
      }
    }
  }

  /** A matching write keeps the schema: the same patches match before and after. */
  lemma {:induction false} WritesKeepSchema(current: Json, written: Json, value: Json)
    requires Matches(current, written)
    ensures Matches(Merge(current, written), value) <==> Matches(current, value)
    decreases value
  {
    if value.Obj? && current.Obj? {
      forall k | k in value.fields && k in current.fields && k in written.fields
        ensures Matches(Merge(current.fields[k], written.fields[k]), value.fields[k]) <==>
                Matches(current.fields[k], value.fields[k])
      {
        WritesKeepSchema(current.fields[k], written.fields[k], value.fields[k]);
      }
      assert Merge(current, written).fields.Keys == current.fields.Keys;
    }
  }

  predicate MatchingSections(config: Json, patch: Dict) {
    Matches(config, Obj(patch)) && forall k | k in patch :: patch[k].Obj?
  }

  /** A live patch written to the device's schema. */
  predicate Matching(device: Configs, op: Operation) {
    !op.dryRun && MatchingSections(device.local, op.patch.local) && MatchingSections(device.modules, op.patch.modules)
  }

  lemma MatchingSectionsWrite(config: Json, patch: Dict)
    requires config.Obj? && Identifiers(config) && OneNameEach(Obj(patch)) && MatchingSections(config, patch)
    ensures SectionsFit(config, patch)
    ensures Assigned(config, Obj(DictSections(patch))) == Merge(config, Obj(patch))
  {
    MatchingFits(config, Obj(patch));
    SectionsAreMergeIff(config, patch);
  }

  lemma MatchingStep(m: Mirror, op: Operation, later: Operation)
    requires WellShaped(m.device) && Unambiguous(op.patch) && Matching(m.device, op)
    ensures Keeps(m.device, op) && WellShaped(Step(m, op).device)
    ensures Matching(m.device, later) ==> Matching(Step(m, op).device, later)
  {
    MatchingSectionsWrite(m.device.local, op.patch.local);
    MatchingSectionsWrite(m.device.modules, op.patch.modules);
    WritesKeepSchema(m.device.local, Obj(op.patch.local), Obj(later.patch.local));
    WritesKeepSchema(m.device.modules, Obj(op.patch.modules), Obj(later.patch.modules));
    AssignedHasIdentifiers(m.device.local, Obj(DictSections(op.patch.local)));
    AssignedHasIdentifiers(m.device.modules, Obj(DictSections(op.patch.modules)));
  }

  lemma {:induction false} MatchingRunKeeps(m: Mirror, ops: seq<Operation>)
    requires WellShaped(m.device) && forall i | 0 <= i < |ops| ::
             Unambiguous(ops[i].patch) && Matching(m.device, ops[i])
    ensures AlwaysKeeps(m, ops)
    decreases |ops|
  {
    if ops != [] {
      var rest := ops[1..];
      forall i | 0 <= i < |rest| ensures Matching(Step(m, ops[0]).device, rest[i]) {
        assert rest[i] == ops[i + 1];
        MatchingStep(m, ops[0], rest[i]);
      }
      MatchingStep(m, ops[0], ops[0]);
      MatchingRunKeeps(Step(m, ops[0]), rest);
    }
  }

  /** Live patches written to the schema of the device as it is at the start keep the shadow equal to
      the device over the whole run. */
  lemma SchemaRunsStayCoherent(m: Mirror, ops: seq<Operation>)
    requires WellShaped(m.device) && Coherent(m)
    requires forall i | 0 <= i < |ops| :: Unambiguous(ops[i].patch) && Matching(m.device, ops[i])
    ensures AlwaysCoherent(m, ops)
  {
    MatchingRunKeeps(m, ops);
    CoherentRunIff(m, ops);
  }

  /** A valid message really has the shape the run theorem asks for. */
  lemma {:induction false} ValidIsWellShaped(message: Message)
    requires message.Valid()
    ensures Identifiers(message.Value())
    decreases message.Repr
  {
    forall k | k in message.attrs
      ensures Identifiers(message.AttrValue(k))
    {
      match message.attrs[k] {
        case Leaf(_) =>
        case Sub(m) => ValidIsWellShaped(m);
      }
    }
  }
}

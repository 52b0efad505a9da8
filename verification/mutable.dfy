/** Nested dictionaries as objects that are written in place. */
module Mutable {
  import opened JsonTree
  import opened Paths

  datatype Slot = Leaf(value: Json) | Sub(dict: PyDict)

  class PyDict {
    var items: map<string, Slot>
    ghost var Repr: set<object>

    constructor ()
      ensures Valid() && fresh(Repr) && Value() == Obj(map[])
    {
      items, Repr := map[], {this};
      new;
      assert Value().fields == map[];
    }

    /** A tree: no dictionary object is reached in two ways. */
    ghost predicate Valid()
      reads this, Repr
      ensures Valid() ==> this in Repr
      decreases Repr
    {
      && this in Repr
      && (forall k | k in items ::
            match items[k]
            case Leaf(v) => !v.Obj?
            case Sub(d) => d in Repr && d.Repr <= Repr && this !in d.Repr && d.Valid())
      && (forall k, l | k in items && l in items && k != l && items[k].Sub? && items[l].Sub? ::
            items[k].dict.Repr !! items[l].dict.Repr)
    }

    ghost function ItemValue(k: string): Json
      requires Valid() && k in items
      reads this, Repr
      decreases Repr, 0
    {
      match items[k] case Leaf(v) => v case Sub(d) => d.Value()
    }

    ghost function Value(): (v: Json)
      requires Valid()
      reads this, Repr
      ensures v.Obj?
      decreases Repr, 1
    {
      Obj(map k | k in items :: ItemValue(k))
    }

    method PutLeaf(key: string, value: Json)
      requires Valid() && !value.Obj?
      modifies this
      ensures Valid() && Repr == old(Repr)
      ensures Value() == Obj(old(Value().fields)[key := value])
    {
      ghost var before := Value().fields;
      items := items[key := Leaf(value)];
      assert Valid();
      assert ItemValue(key) == value;
      forall k | k in before && k != key ensures ItemValue(k) == before[k] {
        assert ItemValue(k) == old(ItemValue(k));
      }
      UpdatedAt(before, Value().fields, key, value);
    }

    method PutDict(key: string, d: PyDict)
      requires Valid() && d.Valid() && d.Repr !! Repr
      modifies this
      ensures Valid() && Repr == old(Repr) + d.Repr
      ensures items == old(items)[key := Sub(d)]
      ensures Value() == Obj(old(Value().fields)[key := d.Value()])
    {
      ghost var before := Value().fields;
      items := items[key := Sub(d)];
      Repr := Repr + d.Repr;
      assert Valid();
      assert ItemValue(key) == d.Value();
      forall k | k in before && k != key ensures ItemValue(k) == before[k] {
        assert ItemValue(k) == old(ItemValue(k));
      }
      UpdatedAt(before, Value().fields, key, d.Value());
    }

    method Put(key: string, slot: Slot)
      requires Valid() && Loose(slot) && SlotRepr(slot) !! Repr
      modifies this
      ensures Valid() && Repr == old(Repr) + SlotRepr(slot)
      ensures Value() == Obj(old(Value().fields)[key := SlotValue(slot)])
    {
      match slot {
        case Leaf(value) => PutLeaf(key, value);
        case Sub(d) => PutDict(key, d);
      }
    }

    /** `cursor.setdefault(segment, {})`, where what is there must be a dictionary to go on. */
    method Descend(key: string) returns (child: Option<PyDict>)
      requires Valid()
      modifies this
      ensures Valid() && old(Repr) <= Repr && fresh(Repr - old(Repr))
      ensures child.Some? ==> key in items && items[key] == Sub(child.value)
      ensures child.Some? ==> Value().fields[key] == child.value.Value()
      ensures child.None? ==> key in items && items[key].Leaf? && !Value().fields[key].Obj?
      ensures Value() == if key in old(items) then old(Value()) else Obj(old(Value().fields)[key := Obj(map[])])
    {
      assert key in items ==> Value().fields[key] == ItemValue(key);
      if key !in items {
        var d := new PyDict();
        PutDict(key, d);
      }
      match items[key] {
        case Leaf(_) => child := None;
        case Sub(d) => child := Some(d);
      }
      assert Value().fields[key] == ItemValue(key);
    }

    /** `_set_nested`; `ok` is false where the call raises, and then nothing has changed. */
    method SetNestedKey(path: seq<string>, slot: Slot) returns (ok: bool)
      requires Valid() && Loose(slot) && SlotRepr(slot) !! Repr
      modifies Repr
      ensures Valid() && old(Repr) <= Repr && fresh(Repr - old(Repr) - SlotRepr(slot))
      ensures ok == SetNested(old(Value().fields), path, old(SlotValue(slot))).Some?
      ensures Value() ==
              if ok then Obj(SetNested(old(Value().fields), path, old(SlotValue(slot))).value) else old(Value())
      decreases |path|, 0
    {
      if path == [] {
        return false;
      }
      if |path| == 1 {
        Put(path[0], slot);
        return true;
      }
      ghost var before := Value().fields;
      var child := Descend(path[0]);
      if child.None? {
        return false;
      }
      ghost var mid := Value().fields;
      SetThrough(before, mid, path, SlotValue(slot));
      ok := SetBelow(path[0], child.value, path[1..], slot);
    }

    /** The rest of the walk, inside the child under `key`. */
    method SetBelow(key: string, child: PyDict, path: seq<string>, slot: Slot) returns (ok: bool)
      requires Valid() && key in items && items[key] == Sub(child)
      requires Loose(slot) && SlotRepr(slot) !! Repr
      modifies Repr
      ensures Valid() && old(Repr) <= Repr && fresh(Repr - old(Repr) - SlotRepr(slot))
      ensures ok == SetNested(old(child.Value().fields), path, old(SlotValue(slot))).Some?
      ensures ok ==>
                var below := SetNested(old(child.Value().fields), path, old(SlotValue(slot))).value;
                Value() == Obj(old(Value().fields)[key := Obj(below)])
      ensures !ok ==> Value() == old(Value())
      decreases |path|, 1
    {
      ok := child.SetNestedKey(path, slot);
      Repr := Repr + child.Repr;
      assert Valid();
      forall k | k in items && k != key ensures ItemValue(k) == old(ItemValue(k)) {
      }
      assert Value().fields == old(Value().fields)[key := child.Value()];
    }

    method Drop(key: string)
      requires Valid()
      modifies this
      ensures Valid() && Repr == old(Repr)
      ensures Value() == Obj(old(Value().fields) - {key})
    {
      items := items - {key};
      assert Value().fields == old(Value().fields) - {key};
    }

    /** `_remove_nested_key` */
    method RemoveKey(path: seq<string>)
      requires Valid()
      modifies Repr
      ensures Valid() && Repr == old(Repr)
      ensures Value() == Obj(RemoveNestedKey(old(Value().fields), path))
      decreases |path|, 0
    {
      if path == [] {
        return;
      }
      if |path| == 1 {
        Drop(path[0]);
        return;
      }
      assert path[0] in items ==> Value().fields[path[0]] == ItemValue(path[0]);
      if path[0] in items && items[path[0]].Sub? {
        RemoveBelow(path[0], items[path[0]].dict, path[1..]);
      }
    }

    method RemoveBelow(key: string, child: PyDict, path: seq<string>)
      requires Valid() && key in items && items[key] == Sub(child)
      modifies Repr
      ensures Valid() && Repr == old(Repr)
      ensures Value() == Obj(old(Value().fields)[key := Obj(RemoveNestedKey(old(child.Value().fields), path))])
      decreases |path|, 1
    {
      child.RemoveKey(path);
      assert Valid();
      forall k | k in items && k != key ensures ItemValue(k) == old(ItemValue(k)) {
      }
      assert Value().fields == old(Value().fields)[key := child.Value()];
    }

    /** `_set_nested` for each edit in turn; `done` is how many were carried out before one raised. */
    method SetAll(edits: seq<Edit>) returns (done: nat)
      requires Valid()
      modifies Repr
      ensures Valid() && fresh(Repr - old(Repr))
      ensures done <= |edits| && ApplyEdits(old(Value().fields), edits[..done]) == Some(Value().fields)
      ensures done < |edits| ==> SetNested(Value().fields, edits[done].path, edits[done].value).None?
    {
      done := 0;
      ghost var start := Value().fields;
      while done < |edits|
        invariant done <= |edits| && Valid() && fresh(Repr - old(Repr))
        invariant ApplyEdits(start, edits[..done]) == Some(Value().fields)
      {
        ghost var now := Value().fields;
        var slot := Stored(edits[done].value);
        var ok := SetNestedKey(edits[done].path, slot);
        if !ok {
          return;
        }
        OneMoreEdit(start, edits, done, now);
        done := done + 1;
      }
    }
  }

  lemma OneMoreEdit(start: Dict, edits: seq<Edit>, n: nat, now: Dict)
    requires n < |edits| && ApplyEdits(start, edits[..n]) == Some(now)
    ensures ApplyEdits(start, edits[..n + 1]) == SetNested(now, edits[n].path, edits[n].value)
  {
    assert edits[..n + 1] == edits[..n] + [edits[n]];
    ApplyConcat(start, edits[..n], [edits[n]]);
    assert [edits[n]][1..] == [];
  }

  /** The entries of a dictionary outside `todo`. */
  ghost function Part(fields: Dict, todo: set<string>): Dict {
    map k | k in fields && k !in todo :: fields[k]
  }

  lemma PartGrows(fields: Dict, todo: set<string>, key: string)
    requires key in todo && todo <= fields.Keys
    ensures Part(fields, todo - {key}) == Part(fields, todo)[key := fields[key]]
  {
  }

  lemma Parts(fields: Dict)
    ensures Part(fields, fields.Keys) == map[] && Part(fields, {}) == fields
  {
  }

  /** The dictionary objects that stand for a value. */
  method Stored(value: Json) returns (slot: Slot)
    ensures Loose(slot) && SlotValue(slot) == value && fresh(SlotRepr(slot))
    decreases value
  {
    if !value.Obj? {
      return Leaf(value);
    }
    var d := new PyDict();
    var todo := value.fields.Keys;
    Parts(value.fields);
    while todo != {}
      invariant d.Valid() && fresh(d.Repr)
      invariant todo <= value.fields.Keys
      invariant d.Value() == Obj(Part(value.fields, todo))
    {
      var key :| key in todo;
      var inner := Stored(value.fields[key]);
      PartGrows(value.fields, todo, key);
      d.Put(key, inner);
      todo := todo - {key};
    }
    slot := Sub(d);
  }

  ghost function SlotRepr(slot: Slot): set<object>
    reads if slot.Sub? then {slot.dict} else {}
  {
    if slot.Sub? then slot.dict.Repr else {}
  }

  /** A value that can be stored: a leaf, or a dictionary object of its own. */
  ghost predicate Loose(slot: Slot)
    reads if slot.Sub? then {slot.dict} + slot.dict.Repr else {}
  {
    match slot case Leaf(v) => !v.Obj? case Sub(d) => d.Valid()
  }

  ghost function SlotValue(slot: Slot): Json
    requires Loose(slot)
    reads if slot.Sub? then {slot.dict} + slot.dict.Repr else {}
  {
    match slot case Leaf(v) => v case Sub(d) => d.Value()
  }

  lemma SetThrough(before: Dict, mid: Dict, path: seq<string>, value: Json)
    requires |path| > 1 && path[0] in mid && mid[path[0]].Obj?
    requires mid == if path[0] in before then before else before[path[0] := Obj(map[])]
    ensures SetNested(before, path, value) ==
            match SetNested(mid[path[0]].fields, path[1..], value)
            case None => None
            case Some(updated) => Some(mid[path[0] := Obj(updated)])
    ensures SetNested(before, path, value).None? ==> mid == before
  {
    if path[0] !in before {
      SetNestedWrites(map[], path[1..], value);
      var updated := SetNested(map[], path[1..], value).value;
      assert mid[path[0] := Obj(updated)] == before[path[0] := Obj(updated)];
    }
  }
}

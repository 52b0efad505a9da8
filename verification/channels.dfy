/** Merging channel patches into the channel list of the shadow. */
module Channels {
  import Orders
  import opened JsonTree
  import opened Merging
  import opened Shadow

  // ---------- one row ----------

  predicate SettingsKey(key: string) {
    key == "settings" || key == "moduleSettings" || key == "module_settings"
  }

  /** One turn of the loop over an item's keys. */
  function WriteKey(row: Dict, key: string, value: Json): Dict {
    if SettingsKey(key) && value.Obj? then
      var targetKey := if key == "settings" then "settings" else "moduleSettings";
      row[targetKey := Merge(Obj(SafeDict(Get(row, targetKey))), value)]
    else row[key := value]
  }

  /** What a settings slot holds after one value is written to it. */
  function Slot(before: Option<Json>, value: Json): Json {
    if value.Obj? then Merge(Obj(if before.Some? then SafeDict(before.value) else map[]), value) else value
  }

  function At(row: Dict, key: string): Option<Json> {
    if key in row then Some(row[key]) else None
  }

  function Camel(before: Option<Json>, item: Dict): Option<Json> {
    if "moduleSettings" in item then Some(Slot(before, item["moduleSettings"])) else before
  }

  function Snake(before: Option<Json>, item: Dict): Option<Json> {
    if "module_settings" in item && item["module_settings"].Obj? then Some(Slot(before, item["module_settings"]))
    else before
  }

  /** A row after a whole item, key by key: the two spellings of the module settings share one
      slot, and the item's own order says which is written first. */
  function MergedAt(row: Dict, item: Dict, snakeFirst: bool, key: string): Option<Json> {
    if key == "moduleSettings" then
      if snakeFirst then Camel(Snake(At(row, key), item), item) else Snake(Camel(At(row, key), item), item)
    else if key == "settings" then
      if key in item then Some(Slot(At(row, key), item[key])) else At(row, key)
    else if key == "module_settings" then
      if key in item && !item[key].Obj? then Some(item[key]) else At(row, key)
    else if key in item then Some(item[key])
    else At(row, key)
  }

  function MergedRow(row: Dict, item: Dict, snakeFirst: bool): Dict {
    map key | key in row.Keys + item.Keys + {"moduleSettings"} && MergedAt(row, item, snakeFirst, key).Some? ::
      MergedAt(row, item, snakeFirst, key).value
  }

  lemma MergedRowAt(row: Dict, item: Dict, snakeFirst: bool, key: string)
    ensures At(MergedRow(row, item, snakeFirst), key) == MergedAt(row, item, snakeFirst, key)
  {
  }

  lemma SameEverywhere(a: Dict, b: Dict)
    requires forall k :: At(a, k) == At(b, k)
    ensures a == b
  {
    forall k
      ensures k in a <==> k in b
      ensures k in a ==> a[k] == b[k]
    {
      assert At(a, k) == At(b, k);
    }
  }

  /** The next key of an item comes in the order the flag says. */
  predicate Follows(item: Dict, snakeFirst: bool, key: string) {
    && key !in item
    && (key == "moduleSettings" && "module_settings" in item ==> snakeFirst)
    && (key == "module_settings" && "moduleSettings" in item ==> !snakeFirst)
  }

  lemma ModuleSettingsMerge(row: Dict, item: Dict, snakeFirst: bool, key: string, value: Json)
    requires Follows(item, snakeFirst, key)
    ensures MergedAt(row, item[key := value], snakeFirst, "moduleSettings") ==
            At(WriteKey(MergedRow(row, item, snakeFirst), key, value), "moduleSettings")
  {
    MergedRowAt(row, item, snakeFirst, "moduleSettings");
  }

  lemma WriteKeyMergesAt(row: Dict, item: Dict, snakeFirst: bool, key: string, value: Json, k: string)
    requires Follows(item, snakeFirst, key)
    ensures MergedAt(row, item[key := value], snakeFirst, k) ==
            At(WriteKey(MergedRow(row, item, snakeFirst), key, value), k)
  {
    if k == "moduleSettings" {
      ModuleSettingsMerge(row, item, snakeFirst, key, value);
    } else {
      MergedRowAt(row, item, snakeFirst, k);
    }
  }

  lemma WriteKeyMerges(row: Dict, item: Dict, snakeFirst: bool, key: string, value: Json)
    requires Follows(item, snakeFirst, key)
    ensures MergedRow(row, item[key := value], snakeFirst) == WriteKey(MergedRow(row, item, snakeFirst), key, value)
  {
    var merged := MergedRow(row, item[key := value], snakeFirst);
    var written := WriteKey(MergedRow(row, item, snakeFirst), key, value);
    forall k ensures At(merged, k) == At(written, k) {
      MergedRowAt(row, item[key := value], snakeFirst, k);
      WriteKeyMergesAt(row, item, snakeFirst, key, value, k);
    }
    SameEverywhere(merged, written);
  }

  predicate SnakeFirst(keys: seq<string>) {
    exists i, j :: 0 <= i < j < |keys| && keys[i] == "module_settings" && keys[j] == "moduleSettings"
  }

  lemma PrefixFollows(item: Dict, keys: seq<string>, i: nat)
    requires i < |keys| && Distinct(keys)
    ensures Follows(Prefix(item, keys, i), SnakeFirst(keys), keys[i])
  {
  }

  /** The part of an item that the first `i` turns have written. */
  ghost function Prefix(item: Dict, keys: seq<string>, i: nat): Dict
    requires i <= |keys|
  {
    map k | k in item && k in keys[..i] :: item[k]
  }

  /** The row once the first `i` keys are written. */
  ghost function RowAfter(row: Dict, item: Dict, keys: seq<string>, i: nat): Dict
    requires i <= |keys|
  {
    MergedRow(row, Prefix(item, keys, i), SnakeFirst(keys))
  }

  lemma RowAfterNext(row: Dict, item: Dict, keys: seq<string>, i: nat)
    requires i < |keys| && Distinct(keys) && keys[i] in item
    ensures RowAfter(row, item, keys, i + 1) == WriteKey(RowAfter(row, item, keys, i), keys[i], item[keys[i]])
  {
    NextPrefix(item, keys, i);
    PrefixFollows(item, keys, i);
    WriteKeyMerges(row, Prefix(item, keys, i), SnakeFirst(keys), keys[i], item[keys[i]]);
  }

  lemma RowAfterAll(row: Dict, item: Dict, keys: seq<string>)
    requires forall k :: k in keys <==> k in item
    ensures RowAfter(row, item, keys, 0) == row &&
            RowAfter(row, item, keys, |keys|) == MergedRow(row, item, SnakeFirst(keys))
  {
    SameEverywhere(RowAfter(row, item, keys, 0), row);
    assert Prefix(item, keys, |keys|) == item;
  }

  /** The loop over an item's keys, in the item's own order. */
  method MergeRow(row: Dict, item: Dict, keys: seq<string>) returns (out: Dict)
    requires Distinct(keys) && forall k :: k in keys <==> k in item
    ensures out == MergedRow(row, item, SnakeFirst(keys))
  {
    out := row;
    RowAfterAll(row, item, keys);
    for i := 0 to |keys|
      invariant out == RowAfter(row, item, keys, i)
    {
      RowAfterNext(row, item, keys, i);
      out := WriteKey(out, keys[i], item[keys[i]]);
    }
  }

  lemma NextPrefix(item: Dict, keys: seq<string>, i: nat)
    requires i < |keys| && Distinct(keys) && keys[i] in item
    ensures keys[i] !in Prefix(item, keys, i)
    ensures Prefix(item, keys, i + 1) == Prefix(item, keys, i)[keys[i] := item[keys[i]]]
  {
    assert keys[..i + 1] == keys[..i] + [keys[i]];
  }

  // ---------- the list ----------

  function LeastInt(s: set<int>): (m: int)
    requires s != {}
    ensures m in s && forall k | k in s :: m <= k
  {
    Orders.LeastExists(s, (a: int, b: int) => a <= b);
    var m :| m in s && forall k | k in s :: m <= k;
    m
  }

  function SortedInts(s: set<int>): (out: seq<int>)
    ensures forall i :: i in out <==> i in s
    ensures forall a, b | 0 <= a < b < |out| :: out[a] < out[b]
    decreases |s|
  {
    if s == {} then [] else [LeastInt(s)] + SortedInts(s - {LeastInt(s)})
  }

  type Rows = map<int, Dict>

  /** The index a row answers to: its own, or else its position. */
  function EffectiveIndex(row: Dict, position: int): int {
    if "index" in row && row["index"].Int? then row["index"].i else position
  }

  /** The rows of a list by effective index; a later row replaces an earlier one. */
  function ByIndex(list: seq<Json>): Rows {
    if list == [] then map[]
    else
      var n := |list| - 1;
      var before := ByIndex(list[..n]);
      if list[n].Obj? then before[EffectiveIndex(list[n].fields, n) := list[n].fields] else before
  }

  /** An entry of a patch list, with its keys in their own order when it is a dictionary. */
  datatype Item = Item(value: Json, keys: seq<string>)

  ghost predicate InOwnOrder(item: Item) {
    item.value.Obj? ==> Distinct(item.keys) && forall k :: k in item.keys <==> k in item.value.fields
  }

  /** Patch items that name no integer index are passed over. */
  predicate Addressed(item: Item) {
    item.value.Obj? && "index" in item.value.fields && item.value.fields["index"].Int?
  }

  function IndexOf(item: Item): int
    requires Addressed(item)
  {
    item.value.fields["index"].i
  }

  predicate Addresses(patch: seq<Item>, index: int) {
    exists item :: item in patch && Addressed(item) && IndexOf(item) == index
  }

  function PatchRow(rows: Rows, item: Item): Rows {
    if !Addressed(item) then rows
    else
      var index := IndexOf(item);
      var row := if index in rows then rows[index] else map["index" := Int(index)];
      rows[index := MergedRow(row, item.value.fields, SnakeFirst(item.keys))]
  }

  function PatchRows(rows: Rows, patch: seq<Item>): Rows {
    if patch == [] then rows else PatchRow(PatchRows(rows, patch[..|patch| - 1]), patch[|patch| - 1])
  }

  function InOrder(rows: Rows): seq<Json> {
    var order := SortedInts(rows.Keys);
    seq(|order|, p requires 0 <= p < |order| => Obj(rows[order[p]]))
  }

  function MergedChannels(current: seq<Json>, patch: seq<Item>): seq<Json> {
    InOrder(PatchRows(ByIndex(current), patch))
  }

  method MergeChannels(current: seq<Json>, patch: seq<Item>) returns (out: seq<Json>)
    requires forall item | item in patch :: InOwnOrder(item)
    ensures out == MergedChannels(current, patch)
  {
    var byIndex: Rows := map[];
    for idx := 0 to |current|
      invariant byIndex == ByIndex(current[..idx])
    {
      assert current[..idx + 1][..idx] == current[..idx];
      if current[idx].Obj? {
        byIndex := byIndex[EffectiveIndex(current[idx].fields, idx) := current[idx].fields];
      }
    }
    assert current[..|current|] == current;
    for n := 0 to |patch|
      invariant byIndex == PatchRows(ByIndex(current), patch[..n])
    {
      assert patch[..n + 1][..n] == patch[..n] && InOwnOrder(patch[n]);
      if Addressed(patch[n]) {
        var index := IndexOf(patch[n]);
        var row := if index in byIndex then byIndex[index] else map["index" := Int(index)];
        row := MergeRow(row, patch[n].value.fields, patch[n].keys);
        byIndex := byIndex[index := row];
      }
    }
    assert patch[..|patch|] == patch;
    out := InOrder(byIndex);
  }

  // ---------- indexes are stable ----------

  /** Every row is a dictionary and the effective indexes strictly increase. */
  predicate Increasing(list: seq<Json>) {
    && (forall p | 0 <= p < |list| :: list[p].Obj?)
    && (forall p, q | 0 <= p < q < |list| :: EffectiveIndex(list[p].fields, p) < EffectiveIndex(list[q].fields, q))
  }

  predicate Ordered(list: seq<Json>) {
    Increasing(list) && forall p | 0 <= p < |list| :: 0 <= EffectiveIndex(list[p].fields, p)
  }

  predicate NonNegative(patch: seq<Item>) {
    forall item | item in patch && Addressed(item) :: 0 <= IndexOf(item)
  }

  predicate OwnIndex(row: Dict) {
    "index" in row && row["index"].Int?
  }

  /** Every row is filed under the index it answers to, and below a row that has no index of its
      own there is no gap. */
  predicate Dense(rows: Rows) {
    && (forall i | i in rows :: 0 <= i && EffectiveIndex(rows[i], i) == i)
    && (forall i, j | i in rows && !OwnIndex(rows[i]) && 0 <= j < i :: j in rows)
  }

  lemma {:induction false} FiledUnder(list: seq<Json>, i: int) returns (p: nat)
    requires i in ByIndex(list)
    ensures p < |list| && list[p].Obj? && EffectiveIndex(list[p].fields, p) == i
  {
    var n := |list| - 1;
    if list[n].Obj? && i == EffectiveIndex(list[n].fields, n) {
      p := n;
    } else {
      p := FiledUnder(list[..n], i);
    }
  }

  /** In any list, the last dictionary that answers to an index is the one filed under it. */
  lemma {:induction false} LastIsFiled(list: seq<Json>, p: nat)
    requires p < |list| && list[p].Obj?
    requires forall q | p < q < |list| && list[q].Obj? ::
               EffectiveIndex(list[q].fields, q) != EffectiveIndex(list[p].fields, p)
    ensures var i := EffectiveIndex(list[p].fields, p); i in ByIndex(list) && ByIndex(list)[i] == list[p].fields
    decreases |list|
  {
    var n := |list| - 1;
    if p < n {
      assert forall q | 0 <= q < n :: list[..n][q] == list[q];
      LastIsFiled(list[..n], p);
    }
  }

  lemma KeptAt(list: seq<Json>, p: nat)
    requires Increasing(list) && p < |list|
    ensures var i := EffectiveIndex(list[p].fields, p); i in ByIndex(list) && ByIndex(list)[i] == list[p].fields
  {
    LastIsFiled(list, p);
  }

  lemma OrderedIsDense(list: seq<Json>)
    requires Ordered(list)
    ensures Dense(ByIndex(list))
  {
    var rows := ByIndex(list);
    forall i | i in rows
      ensures 0 <= i && EffectiveIndex(rows[i], i) == i
      ensures !OwnIndex(rows[i]) ==> forall j | 0 <= j < i :: j in rows
    {
      var p := FiledUnder(list, i);
      KeptAt(list, p);
      AtLeastPosition(list, p);
      if !OwnIndex(rows[i]) {
        IncreasingBelow(list, p);
        forall j | 0 <= j < i ensures j in rows {
          KeptAt(list, j);
        }
      }
    }
  }

  /** Before a row that answers to its position every row answers to its position. */
  lemma {:induction false} IncreasingBelow(list: seq<Json>, n: nat)
    requires Ordered(list) && n < |list| && EffectiveIndex(list[n].fields, n) == n
    ensures forall p | 0 <= p <= n :: EffectiveIndex(list[p].fields, p) == p
  {
    if n > 0 {
      AtLeastPosition(list, n - 1);
      assert EffectiveIndex(list[n - 1].fields, n - 1) < n;
      IncreasingBelow(list, n - 1);
    }
  }

  lemma {:induction false} AtLeastPosition(list: seq<Json>, p: nat)
    requires Ordered(list) && p < |list|
    ensures p <= EffectiveIndex(list[p].fields, p)
  {
    if p > 0 {
      AtLeastPosition(list, p - 1);
      assert EffectiveIndex(list[p - 1].fields, p - 1) < EffectiveIndex(list[p].fields, p);
    }
  }

  lemma {:induction false} PatchKeepsDense(rows: Rows, patch: seq<Item>)
    requires Dense(rows) && NonNegative(patch)
    ensures Dense(PatchRows(rows, patch))
  {
    if patch != [] {
      var n := |patch| - 1;
      PatchKeepsDense(rows, patch[..n]);
      if Addressed(patch[n]) {
        var index := IndexOf(patch[n]);
        assert patch[n] in patch;
        var after := PatchRows(rows, patch);
        assert after[index]["index"] == Int(index);
      }
    }
  }

  /** Each row of the written list answers to the index it was filed under. */
  predicate Faithful(rows: Rows) {
    forall p | 0 <= p < |InOrder(rows)| :: EffectiveIndex(InOrder(rows)[p].fields, p) == SortedInts(rows.Keys)[p]
  }

  lemma DenseIsFaithful(rows: Rows)
    requires Dense(rows)
    ensures Faithful(rows) && Ordered(InOrder(rows))
  {
    var order, list := SortedInts(rows.Keys), InOrder(rows);
    forall p | 0 <= p < |order|
      ensures EffectiveIndex(list[p].fields, p) == order[p] >= 0
    {
      var i := order[p];
      assert i in order && order[0] in order;
      if !OwnIndex(rows[i]) {
        forall j | 0 <= j < i ensures j in order {
        }
        PositionIsCount(order, p);
      }
    }
  }

  /** Reading back the list that the rows are written out to gives the rows again. */
  lemma FaithfulReadsBack(rows: Rows)
    requires Faithful(rows)
    ensures ByIndex(InOrder(rows)) == rows
  {
    var back := ByIndex(InOrder(rows));
    forall i
      ensures i in back <==> i in rows
      ensures i in rows ==> back[i] == rows[i]
    {
      if i in rows {
        WrittenRow(rows, i);
      } else if i in back {
        ReadRow(rows, i);
      }
    }
  }

  lemma ReadRow(rows: Rows, i: int)
    requires Faithful(rows) && i in ByIndex(InOrder(rows))
    ensures i in rows
  {
    var order, list := SortedInts(rows.Keys), InOrder(rows);
    var p := FiledUnder(list, i);
    assert order[p] in order;
  }

  lemma FaithfulIncreases(rows: Rows)
    requires Faithful(rows)
    ensures Increasing(InOrder(rows))
  {
  }

  lemma WrittenRow(rows: Rows, i: int)
    requires Faithful(rows) && i in rows
    ensures i in ByIndex(InOrder(rows)) && ByIndex(InOrder(rows))[i] == rows[i]
  {
    var order, list := SortedInts(rows.Keys), InOrder(rows);
    assert i in order;
    var p :| 0 <= p < |order| && order[p] == i;
    FaithfulIncreases(rows);
    KeptAt(list, p);
  }

  /** In a strictly increasing list of naturals that has everything below its entry `i`, that
      entry stands at position `i`. */
  lemma {:induction false} PositionIsCount(order: seq<int>, p: nat)
    requires p < |order| && 0 <= order[0]
    requires forall a, b | 0 <= a < b < |order| :: order[a] < order[b]
    requires forall j | 0 <= j < order[p] :: j in order
    ensures order[p] == p
  {
    assert 0 < order[p] ==> 0 in order;
    if p > 0 {
      assert order[p - 1] < order[p];
      PositionIsCount(order, p - 1);
      assert p < order[p] ==> p in order;
    }
  }

  /** A channel patch is a map update at the indexes it names: every other row keeps its effective
      index and its contents, also the rows that have no index of their own, and the list stays
      fit for the next patch. */
  lemma ChannelIndexesAreStable(current: seq<Json>, patch: seq<Item>)
    requires Ordered(current) && NonNegative(patch)
    ensures Ordered(MergedChannels(current, patch))
    ensures ByIndex(MergedChannels(current, patch)) == PatchRows(ByIndex(current), patch)
    ensures forall i | i in ByIndex(current) && !Addresses(patch, i) ::
              i in ByIndex(MergedChannels(current, patch)) &&
              ByIndex(MergedChannels(current, patch))[i] == ByIndex(current)[i]
  {
    OrderedIsDense(current);
    PatchKeepsDense(ByIndex(current), patch);
    DenseIsFaithful(PatchRows(ByIndex(current), patch));
    FaithfulReadsBack(PatchRows(ByIndex(current), patch));
    forall i | i in ByIndex(current) && !Addresses(patch, i)
      ensures i in PatchRows(ByIndex(current), patch) && PatchRows(ByIndex(current), patch)[i] == ByIndex(current)[i]
    {
      UnpatchedKept(ByIndex(current), patch, i);
    }
  }

  lemma {:induction false} UnpatchedKept(rows: Rows, patch: seq<Item>, i: int)
    requires i in rows && !Addresses(patch, i)
    ensures i in PatchRows(rows, patch) && PatchRows(rows, patch)[i] == rows[i]
  {
    if patch != [] {
      assert patch[|patch| - 1] in patch;
      assert forall item | item in patch[..|patch| - 1] :: item in patch;
      UnpatchedKept(rows, patch[..|patch| - 1], i);
    }
  }

  /** Effective indexes are kept exactly when no index of the patch is negative, or when every row
      that has no index of its own is addressed by the patch and so receives one. */
  lemma IndexesKeptIff(current: seq<Json>, patch: seq<Item>)
    requires Ordered(current)
    ensures ByIndex(MergedChannels(current, patch)) == PatchRows(ByIndex(current), patch) <==>
            NonNegative(patch) ||
            forall i | i in ByIndex(current) && !OwnIndex(ByIndex(current)[i]) :: Addresses(patch, i)
  {
    var rows := PatchRows(ByIndex(current), patch);
    OrderedIsDense(current);
    forall i
      ensures i in rows <==> i in ByIndex(current) || Addresses(patch, i)
      ensures i in rows ==> EffectiveIndex(rows[i], i) == i
      ensures i in rows ==> if Addresses(patch, i) then OwnIndex(rows[i]) else rows[i] == ByIndex(current)[i]
    {
      PatchedRowIs(ByIndex(current), patch, i);
    }
    if NonNegative(patch) {
      ChannelIndexesAreStable(current, patch);
    } else if forall i | i in rows :: OwnIndex(rows[i]) {
      assert forall p | 0 <= p < |SortedInts(rows.Keys)| :: SortedInts(rows.Keys)[p] in SortedInts(rows.Keys);
      FaithfulReadsBack(rows);
    } else {
      var bad :| bad in patch && Addressed(bad) && IndexOf(bad) < 0;
      assert Addresses(patch, IndexOf(bad));
      var i :| i in rows && !OwnIndex(rows[i]);
      var least := LeastWithout(rows, i);
      LeastIsLost(rows, least, IndexOf(bad));
    }
  }

  lemma AddressesSplit(init: seq<Item>, last: Item, i: int)
    ensures Addresses(init + [last], i) <==> Addresses(init, i) || (Addressed(last) && IndexOf(last) == i)
  {
    var patch := init + [last];
    if item :| item in init && Addressed(item) && IndexOf(item) == i {
      assert item in patch;
    }
    if Addressed(last) && IndexOf(last) == i {
      assert last in patch;
    }
  }

  lemma {:induction false} PatchedRowIs(rows: Rows, patch: seq<Item>, i: int)
    requires Dense(rows)
    ensures i in PatchRows(rows, patch) <==> i in rows || Addresses(patch, i)
    ensures i in PatchRows(rows, patch) ==>
              var row := PatchRows(rows, patch)[i];
              && EffectiveIndex(row, i) == i
              && (if Addresses(patch, i) then OwnIndex(row) else row == rows[i])
  {
    if patch != [] {
      var n := |patch| - 1;
      var init, last := patch[..n], patch[n];
      assert patch == init + [last];
      PatchedRowIs(rows, init, i);
      AddressesSplit(init, last, i);
      if Addressed(last) && IndexOf(last) == i {
        assert PatchRows(rows, patch)[i]["index"] == Int(i);
      }
    }
  }

  lemma {:induction false} LeastWithout(rows: Rows, i: int) returns (least: int)
    requires 0 <= i && i in rows && !OwnIndex(rows[i])
    ensures 0 <= least && least in rows && !OwnIndex(rows[least])
    ensures forall j | j in rows && 0 <= j < least :: OwnIndex(rows[j])
    decreases i
  {
    if j :| j in rows && 0 <= j < i && !OwnIndex(rows[j]) {
      least := LeastWithout(rows, j);
    } else {
      least := i;
    }
  }

  /** Pushed to the right by a negative index, the first row without an index is lost to its place. */
  lemma LeastIsLost(rows: Rows, least: int, negative: int)
    requires forall i | i in rows :: EffectiveIndex(rows[i], i) == i && (i < 0 ==> OwnIndex(rows[i]))
    requires 0 <= least && least in rows && !OwnIndex(rows[least]) && negative < 0 && negative in rows
    requires forall j | 0 <= j < least :: j in rows && OwnIndex(rows[j])
    ensures least !in ByIndex(InOrder(rows))
  {
    var order, list := SortedInts(rows.Keys), InOrder(rows);
    assert negative in order;
    var start :| 0 <= start < |order| && order[start] == negative;
    assert order[0] <= negative;
    forall j | 0 <= j <= least ensures j in order {
    }
    var place := PushedRight(order, least);
    assert order[least] < order[place];
    forall q | 0 <= q < |list| ensures EffectiveIndex(list[q].fields, q) != least {
      assert order[q] in order && list[q] == Obj(rows[order[q]]);
    }
    if least in ByIndex(list) {
      var q := FiledUnder(list, least);
    }
  }

  lemma {:induction false} PushedRight(order: seq<int>, j: nat) returns (place: nat)
    requires order != [] && order[0] < 0 && forall m | 0 <= m <= j :: m in order
    requires forall a, b | 0 <= a < b < |order| :: order[a] < order[b]
    ensures j < place < |order| && order[place] == j
  {
    assert j in order;
    place :| 0 <= place < |order| && order[place] == j;
    if j > 0 {
      var before := PushedRight(order, j - 1);
      assert place < before ==> order[place] < order[before];
    }
  }

  /** The list after a run of patches. */
  function AfterPatches(current: seq<Json>, patches: seq<seq<Item>>): seq<Json> {
    if patches == [] then current
    else MergedChannels(AfterPatches(current, patches[..|patches| - 1]), patches[|patches| - 1])
  }

  function Flat(patches: seq<seq<Item>>): seq<Item> {
    if patches == [] then [] else Flat(patches[..|patches| - 1]) + patches[|patches| - 1]
  }

  /** Over any run of patches without negative indexes the list stays ordered, and it is the first
      list with all their items applied as one map update. */
  lemma {:induction false} RunOfPatches(current: seq<Json>, patches: seq<seq<Item>>)
    requires Ordered(current) && forall patch | patch in patches :: NonNegative(patch)
    ensures Ordered(AfterPatches(current, patches))
    ensures ByIndex(AfterPatches(current, patches)) == PatchRows(ByIndex(current), Flat(patches))
    decreases |patches|
  {
    if patches != [] {
      var n := |patches| - 1;
      RunOfPatches(current, patches[..n]);
      ChannelIndexesAreStable(AfterPatches(current, patches[..n]), patches[n]);
      PatchRowsConcat(ByIndex(current), Flat(patches[..n]), patches[n]);
    }
  }

  /** So a row that no patch of the run addresses keeps its effective index and its contents, also
      when it has no index of its own. */
  lemma UntouchedOverRuns(current: seq<Json>, patches: seq<seq<Item>>, i: int)
    requires Ordered(current) && (forall patch | patch in patches :: NonNegative(patch) && !Addresses(patch, i))
    requires i in ByIndex(current)
    ensures i in ByIndex(AfterPatches(current, patches)) &&
            ByIndex(AfterPatches(current, patches))[i] == ByIndex(current)[i]
  {
    RunOfPatches(current, patches);
    FlatAddresses(patches, i);
    UnpatchedKept(ByIndex(current), Flat(patches), i);
  }

  lemma {:induction false} FlatAddresses(patches: seq<seq<Item>>, i: int)
    requires forall patch | patch in patches :: !Addresses(patch, i)
    ensures !Addresses(Flat(patches), i)
    decreases |patches|
  {
    if patches != [] {
      FlatAddresses(patches[..|patches| - 1], i);
      assert patches[|patches| - 1] in patches;
    }
  }

  lemma {:induction false} PatchRowsConcat(rows: Rows, a: seq<Item>, b: seq<Item>)
    ensures PatchRows(rows, a + b) == PatchRows(PatchRows(rows, a), b)
    decreases |b|
  {
    if b == [] {
      assert a + b == a;
    } else {
      var n := |b| - 1;
      assert (a + b)[..|a + b| - 1] == a + b[..n];
      PatchRowsConcat(rows, a, b[..n]);
    }
  }

  // ---------- what a patched row holds ----------

  lemma SlotIsMerge(before: Option<Json>, value: Json)
    ensures Slot(before, value) == Merge(if before.Some? then before.value else Obj(map[]), value)
  {
    if value.Obj? {
      EmptyPatchIsNeutral(value);
    }
  }

  /** A row before an item addressed to index `i`: one that is not there yet is nothing but its index. */
  function RowBefore(rows: Rows, i: int): Dict {
    if i in rows then rows[i] else map["index" := Int(i)]
  }

  lemma OneItemPatched(current: seq<Json>, item: Item)
    requires Ordered(current) && Addressed(item) && 0 <= IndexOf(item)
    ensures var i, rows := IndexOf(item), ByIndex(MergedChannels(current, [item]));
            i in rows && rows[i] == MergedRow(RowBefore(ByIndex(current), i), item.value.fields, SnakeFirst(item.keys))
  {
    ChannelIndexesAreStable(current, [item]);
    OneItem(ByIndex(current), item);
  }

  /** The item names the key, under the one spelling or the other. */
  predicate NamesKey(item: Dict, key: string) {
    || (key in item && !(key == "module_settings" && item[key].Obj?))
    || (key == "moduleSettings" && "module_settings" in item && item["module_settings"].Obj?)
  }

  lemma UnnamedAt(row: Dict, item: Dict, snakeFirst: bool, key: string)
    requires !NamesKey(item, key)
    ensures At(MergedRow(row, item, snakeFirst), key) == At(row, key)
  {
    MergedRowAt(row, item, snakeFirst, key);
  }

  /** An item changes no key of its row that it does not name. */
  lemma UnnamedKeysStay(current: seq<Json>, i: nat, item: Item, key: string)
    requires Ordered(current) && item.value.Obj? && Get(item.value.fields, "index") == Int(i)
    requires !NamesKey(item.value.fields, key)
    ensures var before := RowBefore(ByIndex(current), i);
            && i in ByIndex(MergedChannels(current, [item]))
            && var after := ByIndex(MergedChannels(current, [item]))[i];
               (key in after <==> key in before) && (key in before ==> after[key] == before[key])
  {
    OneItemPatched(current, item);
    UnnamedAt(RowBefore(ByIndex(current), i), item.value.fields, SnakeFirst(item.keys), key);
  }

  /** A named key takes the item's value; settings are merged into the settings that are there, and when
      an item has both spellings of the module settings, both are, in the item's own order. */
  lemma NamedKeysAreWritten(current: seq<Json>, i: nat, item: Item, key: string)
    requires Ordered(current) && item.value.Obj? && Get(item.value.fields, "index") == Int(i)
    requires NamesKey(item.value.fields, key)
    ensures var before, d := RowBefore(ByIndex(current), i), item.value.fields;
            && i in ByIndex(MergedChannels(current, [item]))
            && var after := ByIndex(MergedChannels(current, [item]))[i];
               && key in after
               && (key != "settings" && key != "moduleSettings" ==> after[key] == d[key])
               && var held := if key in before then before[key] else Obj(map[]);
                  && (key == "settings" ==> after[key] == Merge(held, d[key]))
                  && (key == "moduleSettings" ==>
                      after[key] ==
                      if !("module_settings" in d && d["module_settings"].Obj?) then Merge(held, d[key])
                      else if key !in d then Merge(held, d["module_settings"])
                      else if SnakeFirst(item.keys) then Merge(Merge(held, d["module_settings"]), d[key])
                      else Merge(Merge(held, d[key]), d["module_settings"]))
  {
    var before, d := RowBefore(ByIndex(current), i), item.value.fields;
    OneItemPatched(current, item);
    MergedRowAt(before, d, SnakeFirst(item.keys), key);
    var held := if key in before then before[key] else Obj(map[]);
    if key == "settings" {
      SlotIsMerge(At(before, key), d[key]);
    } else if key == "moduleSettings" {
      ModuleSlots(At(before, key), held, d);
    }
  }

  lemma ModuleSlots(before: Option<Json>, held: Json, item: Dict)
    requires held == (if before.Some? then before.value else Obj(map[]))
    ensures "moduleSettings" in item ==>
              && Camel(before, item) == Some(Merge(held, item["moduleSettings"]))
              && Snake(Camel(before, item), item) ==
                 if "module_settings" in item && item["module_settings"].Obj?
                 then Some(Merge(Merge(held, item["moduleSettings"]), item["module_settings"]))
                 else Some(Merge(held, item["moduleSettings"]))
    ensures "module_settings" in item && item["module_settings"].Obj? ==>
              && Snake(before, item) == Some(Merge(held, item["module_settings"]))
              && Camel(Snake(before, item), item) ==
                 if "moduleSettings" in item
                 then Some(Merge(Merge(held, item["module_settings"]), item["moduleSettings"]))
                 else Some(Merge(held, item["module_settings"]))
  {
    if "moduleSettings" in item {
      SlotIsMerge(before, item["moduleSettings"]);
      SlotIsMerge(Snake(before, item), item["moduleSettings"]);
    }
    if "module_settings" in item {
      SlotIsMerge(before, item["module_settings"]);
      SlotIsMerge(Camel(before, item), item["module_settings"]);
    }
  }

  // ---------- leaf by leaf over runs ----------

  /** The item's entry `spelling` goes to the key `key` of its row. */
  predicate GoesTo(item: Dict, spelling: string, key: string) {
    && spelling in item
    && key == if spelling == "module_settings" && item[spelling].Obj? then "moduleSettings" else spelling
  }

  /** The item says nothing at a path of its row: the path's key is not named, or it is a settings key and
      what is merged in mentions nothing at the rest of the path. */
  ghost predicate SaysNothing(item: Dict, path: seq<string>)
    requires path != []
  {
    forall spelling | GoesTo(item, spelling, path[0]) ::
      (path[0] == "settings" || path[0] == "moduleSettings") && Silent(item[spelling], path[1..])
  }

  /** The item writes the value at a path of its row, and says nothing else there. */
  ghost predicate Says(item: Dict, spelling: string, path: seq<string>, value: Json)
    requires path != []
  {
    && GoesTo(item, spelling, path[0]) && Lookup(item[spelling], path[1..]) == Some(value)
    && (path[0] == "settings" || path[0] == "moduleSettings" ==> !value.Obj?)
    && forall other | other != spelling && GoesTo(item, other, path[0]) :: Silent(item[other], path[1..])
  }

  /** What a slot reads as at a path. */
  function SlotAt(slot: Option<Json>, rest: seq<string>): Option<Json> {
    match slot case Some(v) => Lookup(v, rest) case None => None
  }

  lemma SlotReads(before: Option<Json>, value: Json, rest: seq<string>)
    ensures Silent(value, rest) ==> SlotAt(Some(Slot(before, value)), rest) == SlotAt(before, rest)
    ensures Lookup(value, rest).Some? && !Lookup(value, rest).value.Obj? ==>
              SlotAt(Some(Slot(before, value)), rest) == Lookup(value, rest)
  {
    SlotIsMerge(before, value);
    LookupMerged(if before.Some? then before.value else Obj(map[]), value, rest);
  }

  lemma RowReads(row: Dict, path: seq<string>)
    requires path != []
    ensures Lookup(Obj(row), path) == SlotAt(At(row, path[0]), path[1..])
  {
  }

  lemma QuietItem(row: Dict, item: Dict, snakeFirst: bool, path: seq<string>)
    requires path != [] && SaysNothing(item, path)
    ensures Lookup(Obj(MergedRow(row, item, snakeFirst)), path) == Lookup(Obj(row), path)
  {
    var key, rest := path[0], path[1..];
    RowReads(row, path);
    RowReads(MergedRow(row, item, snakeFirst), path);
    MergedRowAt(row, item, snakeFirst, key);
    assert key in item && !(key == "module_settings" && item[key].Obj?) ==> GoesTo(item, key, key);
    if key == "settings" && key in item {
      SlotReads(At(row, key), item[key], rest);
    } else if key == "moduleSettings" {
      QuietModuleSettings(At(row, key), item, rest);
    }
  }

  lemma QuietModuleSettings(before: Option<Json>, item: Dict, rest: seq<string>)
    requires SaysNothing(item, ["moduleSettings"] + rest)
    ensures SlotAt(Camel(before, item), rest) == SlotAt(Snake(before, item), rest) == SlotAt(before, rest)
    ensures SlotAt(Camel(Snake(before, item), item), rest) == SlotAt(before, rest)
    ensures SlotAt(Snake(Camel(before, item), item), rest) == SlotAt(before, rest)
  {
    var path := ["moduleSettings"] + rest;
    assert path[1..] == rest;
    if "moduleSettings" in item {
      assert GoesTo(item, "moduleSettings", path[0]);
      SlotReads(before, item["moduleSettings"], rest);
      SlotReads(Snake(before, item), item["moduleSettings"], rest);
    }
    if "module_settings" in item && item["module_settings"].Obj? {
      assert GoesTo(item, "module_settings", path[0]);
      SlotReads(before, item["module_settings"], rest);
      SlotReads(Camel(before, item), item["module_settings"], rest);
    }
  }

  lemma SayingItem(row: Dict, item: Dict, snakeFirst: bool, spelling: string, path: seq<string>, value: Json)
    requires path != [] && Says(item, spelling, path, value)
    ensures Lookup(Obj(MergedRow(row, item, snakeFirst)), path) == Some(value)
  {
    var key, rest := path[0], path[1..];
    RowReads(MergedRow(row, item, snakeFirst), path);
    MergedRowAt(row, item, snakeFirst, key);
    if key == "settings" {
      SlotReads(At(row, key), item[key], rest);
    } else if key == "moduleSettings" {
      SayingModuleSettings(At(row, key), item, spelling, rest, value);
    }
  }

  lemma SayingModuleSettings(before: Option<Json>, item: Dict, spelling: string, rest: seq<string>, value: Json)
    requires Says(item, spelling, ["moduleSettings"] + rest, value)
    ensures SlotAt(Camel(Snake(before, item), item), rest) == Some(value)
    ensures SlotAt(Snake(Camel(before, item), item), rest) == Some(value)
  {
    var path := ["moduleSettings"] + rest;
    assert path[1..] == rest;
    assert "moduleSettings" in item ==> GoesTo(item, "moduleSettings", path[0]);
    assert "module_settings" in item && item["module_settings"].Obj? ==> GoesTo(item, "module_settings", path[0]);
    if "moduleSettings" in item {
      SlotReads(before, item["moduleSettings"], rest);
      SlotReads(Snake(before, item), item["moduleSettings"], rest);
    }
    if "module_settings" in item && item["module_settings"].Obj? {
      SlotReads(before, item["module_settings"], rest);
      SlotReads(Camel(before, item), item["module_settings"], rest);
    }
  }

  lemma {:induction false} QuietItems(rows: Rows, items: seq<Item>, i: int, path: seq<string>)
    requires path != [] && i in rows
    requires forall item | item in items && Addressed(item) && IndexOf(item) == i ::
               SaysNothing(item.value.fields, path)
    ensures i in PatchRows(rows, items) && Lookup(Obj(PatchRows(rows, items)[i]), path) == Lookup(Obj(rows[i]), path)
    decreases |items|
  {
    if items != [] {
      var n := |items| - 1;
      var init, last := items[..n], items[n];
      QuietItems(rows, init, i, path);
      if Addressed(last) && IndexOf(last) == i {
        assert last in items;
        QuietItem(PatchRows(rows, init)[i], last.value.fields, SnakeFirst(last.keys), path);
      }
    }
  }

  /** Over a run of patches a row keeps every value that no item addressed to it speaks of. */
  lemma UnspokenValuesStay(current: seq<Json>, patches: seq<seq<Item>>, i: int, path: seq<string>)
    requires Ordered(current) && (forall patch | patch in patches :: NonNegative(patch))
    requires path != [] && i in ByIndex(current)
    requires forall item | item in Flat(patches) && Addressed(item) && IndexOf(item) == i ::
               SaysNothing(item.value.fields, path)
    ensures i in ByIndex(AfterPatches(current, patches))
    ensures Lookup(Obj(ByIndex(AfterPatches(current, patches))[i]), path) == Lookup(Obj(ByIndex(current)[i]), path)
  {
    RunOfPatches(current, patches);
    QuietItems(ByIndex(current), Flat(patches), i, path);
  }

  /** And where items speak, the last one decides: also for a row that the run itself has added. */
  lemma LastItemDecides(current: seq<Json>, patches: seq<seq<Item>>, n: nat, spelling: string, path: seq<string>,
                        value: Json)
    requires Ordered(current) && forall patch | patch in patches :: NonNegative(patch)
    requires n < |Flat(patches)| && Addressed(Flat(patches)[n]) && path != []
    requires Says(Flat(patches)[n].value.fields, spelling, path, value)
    requires forall m | n < m < |Flat(patches)| && Addressed(Flat(patches)[m]) &&
                        IndexOf(Flat(patches)[m]) == IndexOf(Flat(patches)[n]) ::
               SaysNothing(Flat(patches)[m].value.fields, path)
    ensures var i, rows := IndexOf(Flat(patches)[n]), ByIndex(AfterPatches(current, patches));
            i in rows && Lookup(Obj(rows[i]), path) == Some(value)
  {
    var items, rows := Flat(patches), ByIndex(current);
    var item := items[n];
    RunOfPatches(current, patches);
    assert items == items[..n + 1] + items[n + 1..] && items[..n + 1][..n] == items[..n];
    PatchRowsConcat(rows, items[..n + 1], items[n + 1..]);
    var before := PatchRows(rows, items[..n]);
    SayingItem(RowBefore(before, IndexOf(item)), item.value.fields, SnakeFirst(item.keys), spelling, path, value);
    QuietItems(PatchRows(rows, items[..n + 1]), items[n + 1..], IndexOf(item), path);
  }

  const PLAIN_ROW: Dict := map["role" := Str("PRIMARY")]
  const NEGATIVE_ITEM: Item := Item(Obj(map["index" := Int(-1)]), ["index"])

  /** With a negative index in the patch the promise fails: a row that relied on its position moves. */
  lemma NegativeIndexShifts()
    ensures Ordered([Obj(PLAIN_ROW)])
    ensures 0 in PatchRows(ByIndex([Obj(PLAIN_ROW)]), [NEGATIVE_ITEM])
    ensures 0 !in ByIndex(MergedChannels([Obj(PLAIN_ROW)], [NEGATIVE_ITEM]))
  {
    assert !OwnIndex(PLAIN_ROW);
    OneRow(PLAIN_ROW);
    OneItem(map[0 := PLAIN_ROW], NEGATIVE_ITEM);
    var after := PatchRow(map[0 := PLAIN_ROW], NEGATIVE_ITEM);
    NegativeRowAdded(PLAIN_ROW, after);
    LeastIsLost(after, 0, -1);
  }

  lemma NegativeRowAdded(row: Dict, after: Rows)
    requires !OwnIndex(row) && after == PatchRow(map[0 := row], NEGATIVE_ITEM)
    ensures after.Keys == {0, -1} && after[0] == row && OwnIndex(after[-1])
    ensures forall i | i in after :: EffectiveIndex(after[i], i) == i
  {
    MergedRowAt(map["index" := Int(-1)], NEGATIVE_ITEM.value.fields, SnakeFirst(NEGATIVE_ITEM.keys), "index");
  }

  lemma OneRow(row: Dict)
    requires !OwnIndex(row)
    ensures ByIndex([Obj(row)]) == map[0 := row]
  {
    assert [Obj(row)][..0] == [];
  }

  lemma OneItem(rows: Rows, item: Item)
    ensures PatchRows(rows, [item]) == PatchRow(rows, item)
  {
    assert [item][..0] == [];
  }
}

/** The favorite refresh: which targets it sets and removes, and where its two jobs lead. */
module Favorites {
  import opened JsonTree
  import opened Text
  import Runners

  /** An entry of `nodesInMesh`; `userId` is empty when the entry has none. */
  datatype Entry = Entry(key: string, userId: string, role: Option<string>, favorite: bool, hops: Option<int>)

  datatype Station = Station(id: string, mesh: seq<Entry>)

  datatype Criteria = Criteria(roles: set<string>, maxHops: int)

  function Id(e: Entry): string {
    Strip(if e.userId != "" then e.userId else e.key)
  }

  /** A direct neighbour with an allowed role; its role is not trimmed. */
  predicate IsSeen(e: Entry, c: Criteria) {
    && e.hops.Some? && e.hops.value <= c.maxHops && Id(e) != ""
    && (c.roles == {} || Upper(if e.role.Some? then e.role.value else "None") in c.roles)
  }

  /** A favorite with an allowed role, trimmed. */
  predicate IsCurrent(e: Entry, c: Criteria) {
    && e.favorite && Id(e) != ""
    && (c.roles == {} || Strip(Upper(if e.role.Some? then e.role.value else "")) in c.roles)
  }

  // ---------- what the handler collects ----------

  /** What the page counts as a direct neighbour, and under which id: from the entry's own fields. */
  predicate SeenAs(e: Entry, t: string, c: Criteria) {
    && t == Strip(if e.userId == "" then e.key else e.userId) && t != ""
    && e.hops.Some? && e.hops.value <= c.maxHops
    && (c.roles == {} || (if e.role.Some? then Upper(e.role.value) else "NONE") in c.roles)
  }

  predicate CurrentAs(e: Entry, t: string, c: Criteria) {
    && t == Strip(if e.userId == "" then e.key else e.userId) && t != "" && e.favorite
    && (c.roles == {} || (if e.role.Some? then Strip(Upper(e.role.value)) else "") in c.roles)
  }

  lemma FieldsDecide(e: Entry, t: string, c: Criteria)
    ensures SeenAs(e, t, c) <==> IsSeen(e, c) && t == Id(e)
    ensures CurrentAs(e, t, c) <==> IsCurrent(e, c) && t == Id(e)
  {
    assert Upper("None") == "NONE" && Upper("") == "";
  }

  lemma FieldsDecideAll(sources: seq<Station>, c: Criteria)
    ensures forall t :: t in SeenTargets(sources, c) <==>
                        exists s, e :: s in sources && e in s.mesh && SeenAs(e, t, c)
    ensures forall t :: t in CurrentTargets(sources, c) <==>
                        exists s, e :: s in sources && e in s.mesh && CurrentAs(e, t, c)
  {
    forall t
      ensures t in SeenTargets(sources, c) <==> exists s, e :: s in sources && e in s.mesh && SeenAs(e, t, c)
      ensures t in CurrentTargets(sources, c) <==> exists s, e :: s in sources && e in s.mesh && CurrentAs(e, t, c)
    {
      SeenTargetIs(sources, c, t);
      CurrentTargetIs(sources, c, t);
    }
  }

  lemma SeenTargetIs(sources: seq<Station>, c: Criteria, t: string)
    ensures t in SeenTargets(sources, c) <==> exists s, e :: s in sources && e in s.mesh && SeenAs(e, t, c)
  {
    if t in SeenTargets(sources, c) {
      var s, e :| s in sources && e in s.mesh && IsSeen(e, c) && Id(e) == t;
      FieldsDecide(e, t, c);
    }
    if s, e :| s in sources && e in s.mesh && SeenAs(e, t, c) {
      FieldsDecide(e, t, c);
      assert Id(e) in SeenTargets(sources, c);
    }
  }

  lemma CurrentTargetIs(sources: seq<Station>, c: Criteria, t: string)
    ensures t in CurrentTargets(sources, c) <==> exists s, e :: s in sources && e in s.mesh && CurrentAs(e, t, c)
  {
    if t in CurrentTargets(sources, c) {
      var s, e :| s in sources && e in s.mesh && IsCurrent(e, c) && Id(e) == t;
      FieldsDecide(e, t, c);
    }
    if s, e :| s in sources && e in s.mesh && CurrentAs(e, t, c) {
      FieldsDecide(e, t, c);
      assert Id(e) in CurrentTargets(sources, c);
    }
  }

  function SeenTargets(sources: seq<Station>, c: Criteria): set<string> {
    set s, e | s in sources && e in s.mesh && IsSeen(e, c) :: Id(e)
  }

  function CurrentTargets(sources: seq<Station>, c: Criteria): set<string> {
    set s, e | s in sources && e in s.mesh && IsCurrent(e, c) :: Id(e)
  }

  function StaleTargets(sources: seq<Station>, c: Criteria): set<string> {
    CurrentTargets(sources, c) - SeenTargets(sources, c)
  }

  method CollectSeen(sources: seq<Station>, c: Criteria) returns (targets: seq<string>)
    ensures targets == SortedKeys(SeenTargets(sources, c))
  {
    var ids: set<string> := {};
    for i := 0 to |sources|
      invariant ids == SeenTargets(sources[..i], c)
    {
      ghost var before := ids;
      for j := 0 to |sources[i].mesh|
        invariant ids == before + set e | e in sources[i].mesh[..j] && IsSeen(e, c) :: Id(e)
      {
        if IsSeen(sources[i].mesh[j], c) {
          ids := ids + {Id(sources[i].mesh[j])};
        }
      }
      assert sources[..i + 1] == sources[..i] + [sources[i]];
    }
    assert sources[..|sources|] == sources;
    targets := SortedKeys(ids);
  }

  method CollectCurrent(sources: seq<Station>, c: Criteria) returns (targets: seq<string>)
    ensures targets == SortedKeys(CurrentTargets(sources, c))
  {
    var ids: set<string> := {};
    for i := 0 to |sources|
      invariant ids == CurrentTargets(sources[..i], c)
    {
      ghost var before := ids;
      for j := 0 to |sources[i].mesh|
        invariant ids == before + set e | e in sources[i].mesh[..j] && IsCurrent(e, c) :: Id(e)
      {
        if IsCurrent(sources[i].mesh[j], c) {
          ids := ids + {Id(sources[i].mesh[j])};
        }
      }
      assert sources[..i + 1] == sources[..i] + [sources[i]];
    }
    assert sources[..|sources|] == sources;
    targets := SortedKeys(ids);
  }

  /** The target lists of the two jobs the handler queues; an empty list queues no job. */
  method Refresh(sources: seq<Station>, c: Criteria, removeUnseen: bool)
    returns (toSet: seq<string>, toRemove: seq<string>)
    ensures toSet == SortedKeys(SeenTargets(sources, c))
    ensures toRemove == if removeUnseen then SortedKeys(StaleTargets(sources, c)) else []
    ensures forall t :: t in toSet <==> exists s, e :: s in sources && e in s.mesh && SeenAs(e, t, c)
    ensures forall t :: t in toRemove <==>
                        removeUnseen && t !in toSet && exists s, e :: s in sources && e in s.mesh && CurrentAs(e, t, c)
  {
    FieldsDecideAll(sources, c);
    toSet := CollectSeen(sources, c);
    var current := CollectCurrent(sources, c);
    toRemove := [];
    if removeUnseen {
      var stale := (set t | t in current) - (set t | t in toSet);
      assert stale == StaleTargets(sources, c);
      toRemove := SortedKeys(stale);
    }
  }

  // ---------- what the two jobs write ----------

  /** `set_favorite` or `remove_favorite` on the device of source `dest`. */
  datatype Write = Write(dest: nat, target: string, on: bool)

  function Effect(favorites: seq<set<string>>, writes: seq<Write>): (f: seq<set<string>>)
    ensures |f| == |favorites|
  {
    if writes == [] then favorites
    else
      var before := Effect(favorites, writes[..|writes| - 1]);
      var w := writes[|writes| - 1];
      if w.dest >= |before| then before
      else before[w.dest := if w.on then before[w.dest] + {w.target} else before[w.dest] - {w.target}]
  }

  function WritesTo(dest: nat, targets: seq<string>, on: bool): (ws: seq<Write>)
    ensures forall w :: w in ws <==> w.dest == dest && w.target in targets && w.on == on
  {
    if targets == [] then [] else [Write(dest, targets[0], on)] + WritesTo(dest, targets[1..], on)
  }

  /** A bulk job over the first `n` sources, no device being told about itself. */
  function JobWrites(sources: seq<Station>, n: nat, targets: seq<string>, on: bool): (ws: seq<Write>)
    requires n <= |sources|
    ensures forall w :: w in ws <==> w.dest < n && w.target in targets && w.target != sources[w.dest].id && w.on == on
  {
    if n == 0 then []
    else JobWrites(sources, n - 1, targets, on) + WritesTo(n - 1, Runners.Except(targets, sources[n - 1].id), on)
  }

  /** Writes that set and writes that remove, about different targets, commute: in any interleaving
      a target is a favorite exactly when it was one or is set, and is not removed. */
  lemma {:induction false} DisjointWritesCommute(favorites: seq<set<string>>, a: seq<Write>, b: seq<Write>,
                                                whole: seq<Write>, d: nat, t: string)
    requires Runners.Interleaves(a, b, whole) && d < |favorites|
    requires forall x | x in a :: x.on
    requires forall y | y in b :: !y.on
    requires forall x, y | x in a && y in b :: x.target != y.target
    ensures t in Effect(favorites, whole)[d] <==>
            (t in favorites[d] || Write(d, t, true) in a) && Write(d, t, false) !in b
    decreases |whole|
  {
    if whole != [] {
      var n := |whole| - 1;
      if a != [] && a[|a| - 1] == whole[n] && Runners.Interleaves(a[..|a| - 1], b, whole[..n]) {
        assert a == a[..|a| - 1] + [whole[n]];
        DisjointWritesCommute(favorites, a[..|a| - 1], b, whole[..n], d, t);
      } else {
        assert b == b[..|b| - 1] + [whole[n]];
        DisjointWritesCommute(favorites, a, b[..|b| - 1], whole[..n], d, t);
      }
    }
  }

  /** `whole` is the writes of the two jobs of a refresh with `remove_unseen`, in any interleaving. */
  predicate RefreshRun(sources: seq<Station>, c: Criteria, whole: seq<Write>) {
    Runners.Interleaves(JobWrites(sources, |sources|, SortedKeys(SeenTargets(sources, c)), true),
                        JobWrites(sources, |sources|, SortedKeys(StaleTargets(sources, c)), false), whole)
  }

  /** Whatever the interleaving, each device ends with its favorites plus the seen targets minus the
      stale ones, itself left alone. */
  lemma RefreshOutcome(sources: seq<Station>, c: Criteria, favorites: seq<set<string>>, whole: seq<Write>, d: nat,
                       t: string)
    requires |favorites| == |sources| && RefreshRun(sources, c, whole) && d < |sources|
    ensures t in Effect(favorites, whole)[d] <==>
            if t == sources[d].id then t in favorites[d]
            else t in SeenTargets(sources, c) || (t in favorites[d] && t !in CurrentTargets(sources, c))
  {
    var a := JobWrites(sources, |sources|, SortedKeys(SeenTargets(sources, c)), true);
    var b := JobWrites(sources, |sources|, SortedKeys(StaleTargets(sources, c)), false);
    DisjointWritesCommute(favorites, a, b, whole, d, t);
  }

  // ---------- convergence ----------

  /** The cached mesh shows the device's favorites. */
  predicate Mirrors(sources: seq<Station>, favorites: seq<set<string>>) {
    |favorites| == |sources| &&
    forall i, e | 0 <= i < |sources| && e in sources[i].mesh :: e.favorite <==> Id(e) in favorites[i]
  }

  function Synced(s: Station, favorites: set<string>): Station {
    s.(mesh := seq(|s.mesh|, j requires 0 <= j < |s.mesh| => s.mesh[j].(favorite := Id(s.mesh[j]) in favorites)))
  }

  /** The cached meshes after a sync that finds nothing changed but the favorites. */
  function AfterSync(sources: seq<Station>, favorites: seq<set<string>>): (after: seq<Station>)
    requires |favorites| == |sources|
    ensures |after| == |sources|
  {
    seq(|sources|, i requires 0 <= i < |sources| => Synced(sources[i], favorites[i]))
  }

  lemma SyncKeepsSeen(sources: seq<Station>, favorites: seq<set<string>>, c: Criteria)
    requires |favorites| == |sources|
    ensures SeenTargets(AfterSync(sources, favorites), c) == SeenTargets(sources, c)
  {
    var after := AfterSync(sources, favorites);
    forall s, e | s in sources && e in s.mesh && IsSeen(e, c) ensures Id(e) in SeenTargets(after, c) {
      var i :| 0 <= i < |sources| && sources[i] == s;
      var j :| 0 <= j < |s.mesh| && s.mesh[j] == e;
      assert after[i] in after && after[i].mesh[j] in after[i].mesh && IsSeen(after[i].mesh[j], c);
    }
    forall s, e | s in after && e in s.mesh && IsSeen(e, c) ensures Id(e) in SeenTargets(sources, c) {
      var i :| 0 <= i < |after| && after[i] == s;
      var j :| 0 <= j < |s.mesh| && s.mesh[j] == e;
      assert sources[i] in sources && sources[i].mesh[j] in sources[i].mesh && IsSeen(sources[i].mesh[j], c);
    }
  }

  /** Some source lists itself as a favorite that the refresh would remove. */
  predicate SelfFavorite(sources: seq<Station>, c: Criteria, t: string) {
    && t !in SeenTargets(sources, c)
    && exists i, j :: 0 <= i < |sources| && 0 <= j < |sources[i].mesh| && IsCurrent(sources[i].mesh[j], c)
                      && Id(sources[i].mesh[j]) == sources[i].id == t
  }

  /** A favorite that is current again after the refresh, but not seen, is the station itself. */
  lemma CurrentAgainIsSelf(sources: seq<Station>, c: Criteria, favorites: seq<set<string>>, whole: seq<Write>,
                           i: nat, j: nat)
    requires Mirrors(sources, favorites) && RefreshRun(sources, c, whole) && i < |sources| && j < |sources[i].mesh|
    requires IsCurrent(AfterSync(sources, Effect(favorites, whole))[i].mesh[j], c)
    requires Id(sources[i].mesh[j]) !in SeenTargets(sources, c)
    ensures IsCurrent(sources[i].mesh[j], c) && Id(sources[i].mesh[j]) == sources[i].id
  {
    var e := sources[i].mesh[j];
    RefreshOutcome(sources, c, favorites, whole, i, Id(e));
    assert sources[i] in sources && e in sources[i].mesh;
  }

  lemma CurrentEntry(sources: seq<Station>, c: Criteria, t: string) returns (i: nat, j: nat)
    requires t in CurrentTargets(sources, c)
    ensures i < |sources| && j < |sources[i].mesh| && IsCurrent(sources[i].mesh[j], c) && Id(sources[i].mesh[j]) == t
  {
    var s, e :| s in sources && e in s.mesh && IsCurrent(e, c) && Id(e) == t;
    i :| 0 <= i < |sources| && sources[i] == s;
    j :| 0 <= j < |s.mesh| && s.mesh[j] == e;
  }

  lemma StaleAgainIsSelf(sources: seq<Station>, c: Criteria, favorites: seq<set<string>>, whole: seq<Write>, t: string)
    requires Mirrors(sources, favorites) && RefreshRun(sources, c, whole)
    requires t in CurrentTargets(AfterSync(sources, Effect(favorites, whole)), c) && t !in SeenTargets(sources, c)
    ensures SelfFavorite(sources, c, t)
  {
    var i, j := CurrentEntry(AfterSync(sources, Effect(favorites, whole)), c, t);
    CurrentAgainIsSelf(sources, c, favorites, whole, i, j);
  }

  lemma SelfStaysFavorite(sources: seq<Station>, c: Criteria, favorites: seq<set<string>>, whole: seq<Write>, t: string)
    requires Mirrors(sources, favorites) && RefreshRun(sources, c, whole) && SelfFavorite(sources, c, t)
    ensures t in CurrentTargets(AfterSync(sources, Effect(favorites, whole)), c) && t in CurrentTargets(sources, c)
  {
    var after := AfterSync(sources, Effect(favorites, whole));
    var i, j :| 0 <= i < |sources| && 0 <= j < |sources[i].mesh| && IsCurrent(sources[i].mesh[j], c)
                && Id(sources[i].mesh[j]) == sources[i].id == t;
    RefreshOutcome(sources, c, favorites, whole, i, t);
    assert sources[i] in sources && sources[i].mesh[j] in sources[i].mesh;
    assert after[i] in after && after[i].mesh[j] in after[i].mesh && IsCurrent(after[i].mesh[j], c);
  }

  /** After the two jobs and a sync, a target is still stale exactly when some source favorites
      itself under that id: nothing else survives a refresh. */
  lemma OnlySelfFavoritesStayStale(sources: seq<Station>, c: Criteria, favorites: seq<set<string>>,
                                   whole: seq<Write>, t: string)
    requires Mirrors(sources, favorites) && RefreshRun(sources, c, whole)
    ensures t in StaleTargets(AfterSync(sources, Effect(favorites, whole)), c) <==> SelfFavorite(sources, c, t)
  {
    SyncKeepsSeen(sources, Effect(favorites, whole), c);
    if t in StaleTargets(AfterSync(sources, Effect(favorites, whole)), c) {
      StaleAgainIsSelf(sources, c, favorites, whole, t);
    }
    if SelfFavorite(sources, c, t) {
      SelfStaysFavorite(sources, c, favorites, whole, t);
    }
  }

  /** A second refresh finds nothing to remove exactly when no source favorites itself unseen. */
  lemma RefreshConvergesIff(sources: seq<Station>, c: Criteria, favorites: seq<set<string>>, whole: seq<Write>)
    requires Mirrors(sources, favorites) && RefreshRun(sources, c, whole)
    ensures StaleTargets(AfterSync(sources, Effect(favorites, whole)), c) == {} <==>
            forall t :: !SelfFavorite(sources, c, t)
  {
    forall t
      ensures t in StaleTargets(AfterSync(sources, Effect(favorites, whole)), c) <==> SelfFavorite(sources, c, t) {
      OnlySelfFavoritesStayStale(sources, c, favorites, whole, t);
    }
  }

  lemma SecondRefreshKeeps(sources: seq<Station>, c: Criteria, favorites: seq<set<string>>,
                           whole: seq<Write>, again: seq<Write>, d: nat, t: string)
    requires Mirrors(sources, favorites) && RefreshRun(sources, c, whole) && d < |sources|
    requires RefreshRun(AfterSync(sources, Effect(favorites, whole)), c, again)
    ensures t in Effect(Effect(favorites, whole), again)[d] <==> t in Effect(favorites, whole)[d]
  {
    var favorites' := Effect(favorites, whole);
    var after := AfterSync(sources, favorites');
    SyncKeepsSeen(sources, favorites', c);
    RefreshOutcome(sources, c, favorites, whole, d, t);
    RefreshOutcome(after, c, favorites', again, d, t);
    if t in CurrentTargets(after, c) && t !in SeenTargets(sources, c) {
      StaleAgainIsSelf(sources, c, favorites, whole, t);
      SelfStaysFavorite(sources, c, favorites, whole, t);
    }
  }

  /** Even then a second refresh changes no device. */
  lemma SecondRefreshIsIdle(sources: seq<Station>, c: Criteria, favorites: seq<set<string>>, whole: seq<Write>,
                            again: seq<Write>)
    requires Mirrors(sources, favorites) && RefreshRun(sources, c, whole)
    requires RefreshRun(AfterSync(sources, Effect(favorites, whole)), c, again)
    ensures Effect(Effect(favorites, whole), again) == Effect(favorites, whole)
  {
    forall d | 0 <= d < |sources| ensures Effect(Effect(favorites, whole), again)[d] == Effect(favorites, whole)[d] {
      forall t ensures t in Effect(Effect(favorites, whole), again)[d] <==> t in Effect(favorites, whole)[d] {
        SecondRefreshKeeps(sources, c, favorites, whole, again, d, t);
      }
    }
  }
}

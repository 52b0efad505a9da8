/** The visibility graph: who sees whom directly, and which sightings are returned. */
module Visibility {
  import opened JsonTree
  import opened Text

  /** A zero-hop neighbour as a node reports it; its id may be missing. */
  datatype Candidate = Candidate(id: Option<string>, favorite: bool)

  datatype Station = Station(id: string, candidates: seq<Candidate>)

  datatype Peer = Peer(id: string, favorite: bool)

  /** A station with the neighbours that are themselves managed, and the others. */
  datatype SourceRow = SourceRow(id: string, managed: seq<Peer>, unmanaged: seq<Peer>)

  datatype Edge = Edge(source: string, target: string)

  // ---------- first pass ----------

  /** `managed_by_provider_id` */
  function ManagedIds(stations: seq<Station>): (ids: set<string>)
    ensures forall t :: t in ids <==> t != "" && IsStation(stations, t)
  {
    set s | s in stations && s.id != "" :: s.id
  }

  predicate IsStation(stations: seq<Station>, t: string) {
    exists k :: 0 <= k < |stations| && stations[k].id == t
  }

  /** The neighbours a row counts: named, not the station itself, managed or not as asked. */
  function Peers(self: string, candidates: seq<Candidate>, managed: set<string>, wanted: bool): seq<Peer> {
    if candidates == [] then []
    else
      var n := |candidates| - 1;
      var c := candidates[n];
      var before := Peers(self, candidates[..n], managed, wanted);
      var counts :=
        c.id.Some? && Strip(c.id.value) != "" && Strip(c.id.value) != self && (Strip(c.id.value) in managed) == wanted;
      if !counts then before
      else before + [Peer(Strip(c.id.value), c.favorite)]
  }

  function RowOf(station: Station, managed: set<string>): SourceRow {
    SourceRow(station.id, Peers(station.id, station.candidates, managed, true),
              Peers(station.id, station.candidates, managed, false))
  }

  function RowsOf(stations: seq<Station>, managed: set<string>): seq<SourceRow> {
    seq(|stations|, i requires 0 <= i < |stations| => RowOf(stations[i], managed))
  }

  function Ids(peers: seq<Peer>): set<string> {
    set p | p in peers :: p.id
  }

  /** `seen_by_source`: a repeated source id keeps the later entry. */
  function Seen(rows: seq<SourceRow>): map<string, set<string>> {
    if rows == [] then map[]
    else Seen(rows[..|rows| - 1])[rows[|rows| - 1].id := Ids(rows[|rows| - 1].managed)]
  }

  method CollectRow(station: Station, managed: set<string>) returns (row: SourceRow, visible: set<string>)
    ensures row == RowOf(station, managed) && visible == Ids(row.managed)
  {
    var managedPeers, unmanagedPeers: seq<Peer> := [], [];
    visible := {};
    for i := 0 to |station.candidates|
      invariant managedPeers == Peers(station.id, station.candidates[..i], managed, true)
      invariant unmanagedPeers == Peers(station.id, station.candidates[..i], managed, false)
      invariant visible == Ids(managedPeers)
    {
      var c := station.candidates[i];
      assert station.candidates[..i + 1][..i] == station.candidates[..i];
      if c.id.None? || Strip(c.id.value) == "" {
        continue;
      }
      var target := Strip(c.id.value);
      if target == station.id {
        continue;
      }
      var peer := Peer(target, c.favorite);
      if target !in managed {
        unmanagedPeers := unmanagedPeers + [peer];
        continue;
      }
      visible := visible + {target};
      IdsMore(managedPeers, peer);
      managedPeers := managedPeers + [peer];
    }
    assert station.candidates[..|station.candidates|] == station.candidates;
    row := SourceRow(station.id, managedPeers, unmanagedPeers);
  }

  lemma IdsMore(peers: seq<Peer>, p: Peer)
    ensures Ids(peers + [p]) == Ids(peers) + {p.id}
  {
    assert forall q :: q in peers + [p] <==> q in peers || q == p;
  }

  // ---------- edges ----------

  function RowEdges(row: SourceRow, n: nat): seq<Edge>
    requires n <= |row.managed|
  {
    if n == 0 then [] else RowEdges(row, n - 1) + [Edge(row.id, row.managed[n - 1].id)]
  }

  /** Every managed sighting, row by row. */
  function Edges(rows: seq<SourceRow>): seq<Edge> {
    if rows == [] then []
    else Edges(rows[..|rows| - 1]) + RowEdges(rows[|rows| - 1], |rows[|rows| - 1].managed|)
  }

  /** `source_id in seen_by_source.get(target_id, set())` */
  predicate Returned(e: Edge, seen: map<string, set<string>>) {
    e.target in seen && e.source in seen[e.target]
  }

  function Filtered(edges: seq<Edge>, seen: map<string, set<string>>, wanted: bool): seq<Edge> {
    if edges == [] then []
    else
      var n := |edges| - 1;
      var before := Filtered(edges[..n], seen, wanted);
      if Returned(edges[n], seen) == wanted then before + [edges[n]] else before
  }

  lemma FilteredMore(edges: seq<Edge>, e: Edge, seen: map<string, set<string>>, wanted: bool)
    ensures Filtered(edges + [e], seen, wanted) ==
            if Returned(e, seen) == wanted then Filtered(edges, seen, wanted) + [e] else Filtered(edges, seen, wanted)
  {
    assert (edges + [e])[..|edges|] == edges;
  }

  lemma {:induction false} FilteredConcat(a: seq<Edge>, b: seq<Edge>, seen: map<string, set<string>>, wanted: bool)
    ensures Filtered(a + b, seen, wanted) == Filtered(a, seen, wanted) + Filtered(b, seen, wanted)
    decreases |b|
  {
    if b == [] {
      assert a + b == a;
    } else {
      var n := |b| - 1;
      assert (a + b)[..|a + b| - 1] == a + b[..n];
      FilteredConcat(a, b[..n], seen, wanted);
    }
  }

  lemma {:induction false} FilteredIs(edges: seq<Edge>, seen: map<string, set<string>>, wanted: bool, e: Edge)
    ensures e in Filtered(edges, seen, wanted) <==> e in edges && Returned(e, seen) == wanted
    decreases |edges|
  {
    if edges != [] {
      var n := |edges| - 1;
      FilteredIs(edges[..n], seen, wanted, e);
      assert e in edges <==> e in edges[..n] || e == edges[n];
    }
  }

  lemma {:induction false} FilteredPartition(edges: seq<Edge>, seen: map<string, set<string>>)
    ensures |Filtered(edges, seen, true)| + |Filtered(edges, seen, false)| == |edges|
    decreases |edges|
  {
    if edges != [] {
      FilteredPartition(edges[..|edges| - 1], seen);
    }
  }

  // ---------- unordered pairs ----------

  /** `tuple(sorted((source_id, target_id)))` */
  function Key(e: Edge): Edge {
    if AtMost(e.source, e.target) then e else Edge(e.target, e.source)
  }

  lemma KeyIsUnordered(a: Edge, b: Edge)
    ensures Key(a) == Key(b) <==> a == b || a == Edge(b.target, b.source)
  {
    AtMostTotal(a.source, a.target);
    AtMostTotal(b.source, b.target);
  }

  function Keys(edges: seq<Edge>): set<Edge> {
    set e | e in edges :: Key(e)
  }

  /** The first edge of each unordered pair. */
  function Firsts(edges: seq<Edge>): seq<Edge> {
    if edges == [] then []
    else
      var n := |edges| - 1;
      var before := Firsts(edges[..n]);
      if Key(edges[n]) in Keys(before) then before else before + [edges[n]]
  }

  lemma FirstsMore(edges: seq<Edge>, e: Edge)
    ensures Firsts(edges + [e]) == if Key(e) in Keys(Firsts(edges)) then Firsts(edges) else Firsts(edges) + [e]
  {
    assert (edges + [e])[..|edges|] == edges;
  }

  lemma KeysMore(edges: seq<Edge>, e: Edge)
    ensures Keys(edges + [e]) == Keys(edges) + {Key(e)}
  {
    assert forall x :: x in edges + [e] <==> x in edges || x == e;
  }

  predicate DistinctKeys(edges: seq<Edge>) {
    forall i, j | 0 <= i < j < |edges| :: Key(edges[i]) != Key(edges[j])
  }

  lemma {:induction false} FirstsAre(edges: seq<Edge>)
    ensures DistinctKeys(Firsts(edges))
    ensures forall e | e in Firsts(edges) :: e in edges
    ensures forall e | e in edges :: Key(e) in Keys(Firsts(edges))
    decreases |edges|
  {
    if edges != [] {
      var n := |edges| - 1;
      var before := Firsts(edges[..n]);
      FirstsAre(edges[..n]);
      assert edges == edges[..n] + [edges[n]];
      KeysMore(before, edges[n]);
      if Key(edges[n]) !in Keys(before) {
        forall i | 0 <= i < |before| ensures Key(before[i]) != Key(edges[n]) {
          assert before[i] in before;
        }
      }
    }
  }

  // ---------- counting ----------

  function EdgeSet(edges: seq<Edge>): set<Edge> {
    set e | e in edges
  }

  lemma {:induction false} SetNoLarger(edges: seq<Edge>)
    ensures |EdgeSet(edges)| <= |edges|
    ensures |EdgeSet(edges)| == |edges| <==> Distinct(edges)
    decreases |edges|
  {
    if edges != [] {
      var n := |edges| - 1;
      var init, last := edges[..n], edges[n];
      SetNoLarger(init);
      assert edges == init + [last];
      assert EdgeSet(edges) == EdgeSet(init) + {last};
      if last in init {
        var i :| 0 <= i < n && init[i] == last;
        assert edges[i] == edges[n];
        assert EdgeSet(edges) == EdgeSet(init);
      } else {
        assert Distinct(init) ==> Distinct(edges);
        assert Distinct(edges) ==> Distinct(init);
      }
    }
  }

  function BothWays(pairs: seq<Edge>): set<Edge> {
    if pairs == [] then {}
    else
      var n := |pairs| - 1;
      BothWays(pairs[..n]) + {pairs[n], Edge(pairs[n].target, pairs[n].source)}
  }

  lemma {:induction false} BothWaysAre(pairs: seq<Edge>)
    requires DistinctKeys(pairs) && forall e | e in pairs :: e.source != e.target
    ensures forall e :: e in BothWays(pairs) <==> e in pairs || Edge(e.target, e.source) in pairs
    ensures |BothWays(pairs)| == 2 * |pairs|
    decreases |pairs|
  {
    if pairs != [] {
      var n := |pairs| - 1;
      var init, last := pairs[..n], pairs[n];
      assert pairs == init + [last];
      BothWaysAre(init);
      var back := Edge(last.target, last.source);
      KeyIsUnordered(last, back);
      assert last !in BothWays(init) && back !in BothWays(init) by {
        forall i | 0 <= i < n ensures init[i] != last && init[i] != back {
          assert Key(pairs[i]) != Key(pairs[n]);
          KeyIsUnordered(init[i], last);
        }
      }
      assert last != back;
      assert |BothWays(pairs)| == |BothWays(init)| + |{last, back}|;
    }
  }

  lemma FirstsGoBothWays(edges: seq<Edge>, e: Edge)
    requires forall x | x in edges :: x.source != x.target && Edge(x.target, x.source) in edges
    ensures e in edges <==> e in BothWays(Firsts(edges))
  {
    FirstsAre(edges);
    BothWaysAre(Firsts(edges));
    if e in edges {
      var p :| p in Firsts(edges) && Key(p) == Key(e);
      KeyIsUnordered(p, e);
    }
  }

  /** A symmetric collection of edges has twice as many members as unordered pairs, and exactly
      that many entries when no edge is repeated. */
  lemma PairsAreHalf(edges: seq<Edge>)
    requires forall e | e in edges :: e.source != e.target && Edge(e.target, e.source) in edges
    ensures 2 * |Firsts(edges)| <= |edges|
    ensures 2 * |Firsts(edges)| == |edges| <==> Distinct(edges)
  {
    assert |BothWays(Firsts(edges))| == 2 * |Firsts(edges)| by {
      FirstsAre(edges);
      BothWaysAre(Firsts(edges));
    }
    assert EdgeSet(edges) == BothWays(Firsts(edges)) by {
      forall e ensures e in edges <==> e in BothWays(Firsts(edges)) {
        FirstsGoBothWays(edges, e);
      }
    }
    SetNoLarger(edges);
  }

  // ---------- second pass ----------

  datatype Summary = Summary(id: string, managedPeers: nat, favoritePeers: nat, unmanagedPeers: nat, mutualPeers: nat)

  datatype Snapshot = Snapshot(rows: seq<Summary>, mutualPairs: seq<Edge>, oneWayPairs: seq<Edge>)

  function Favorites(peers: seq<Peer>): nat {
    if peers == [] then 0 else Favorites(peers[..|peers| - 1]) + if peers[|peers| - 1].favorite then 1 else 0
  }

  function SummaryOf(row: SourceRow, seen: map<string, set<string>>): Summary {
    Summary(row.id, |row.managed|, Favorites(row.managed), |row.unmanaged|,
            |Filtered(RowEdges(row, |row.managed|), seen, true)|)
  }

  /** The two lists after the edges `now`. */
  predicate Listed(now: seq<Edge>, seen: map<string, set<string>>, mutual: seq<Edge>, keys: set<Edge>,
                   oneWay: seq<Edge>) {
    && mutual == Firsts(Filtered(now, seen, true)) && keys == Keys(mutual)
    && oneWay == Filtered(now, seen, false)
  }

  /** One sighting put on the list it belongs to. */
  method Classify(e: Edge, seen: map<string, set<string>>, ghost now: seq<Edge>, mutual: seq<Edge>, keys: set<Edge>,
                  oneWay: seq<Edge>)
    returns (mutual': seq<Edge>, keys': set<Edge>, oneWay': seq<Edge>)
    requires Listed(now, seen, mutual, keys, oneWay)
    ensures Listed(now + [e], seen, mutual', keys', oneWay')
  {
    mutual', keys', oneWay' := mutual, keys, oneWay;
    FilteredMore(now, e, seen, true);
    FilteredMore(now, e, seen, false);
    if Returned(e, seen) {
      FirstsMore(Filtered(now, seen, true), e);
      if Key(e) !in keys {
        KeysMore(mutual, e);
        keys' := keys + {Key(e)};
        mutual' := mutual + [e];
      }
    } else {
      oneWay' := oneWay + [e];
    }
  }

  method CountFavorites(peers: seq<Peer>) returns (count: nat)
    ensures count == Favorites(peers)
  {
    count := 0;
    for i := 0 to |peers|
      invariant count == Favorites(peers[..i])
    {
      assert peers[..i + 1][..i] == peers[..i];
      count := count + if peers[i].favorite then 1 else 0;
    }
    assert peers[..|peers|] == peers;
  }

  /** One row's peers: `before` is every edge of the earlier rows. */
  method ClassifyRow(row: SourceRow, seen: map<string, set<string>>, ghost before: seq<Edge>,
                     mutual: seq<Edge>, keys: set<Edge>, oneWay: seq<Edge>)
    returns (mutual': seq<Edge>, keys': set<Edge>, oneWay': seq<Edge>, summary: Summary)
    requires Listed(before, seen, mutual, keys, oneWay)
    ensures Listed(before + RowEdges(row, |row.managed|), seen, mutual', keys', oneWay')
    ensures summary == SummaryOf(row, seen)
  {
    mutual', keys', oneWay' := mutual, keys, oneWay;
    var count := 0;
    ghost var now := before;
    assert before + RowEdges(row, 0) == before;
    for i := 0 to |row.managed|
      invariant now == before + RowEdges(row, i) && Listed(now, seen, mutual', keys', oneWay')
      invariant count == |Filtered(RowEdges(row, i), seen, true)|
    {
      var e := Edge(row.id, row.managed[i].id);
      mutual', keys', oneWay' := Classify(e, seen, now, mutual', keys', oneWay');
      OneMore(row, i, seen, before);
      now := now + [e];
      count := count + if Returned(e, seen) then 1 else 0;
    }
    var favorites := CountFavorites(row.managed);
    summary := Summary(row.id, |row.managed|, favorites, |row.unmanaged|, count);
  }

  lemma OneMore(row: SourceRow, i: nat, seen: map<string, set<string>>, before: seq<Edge>)
    requires i < |row.managed|
    ensures var e := Edge(row.id, row.managed[i].id);
            && before + RowEdges(row, i + 1) == before + RowEdges(row, i) + [e]
            && |Filtered(RowEdges(row, i + 1), seen, true)| ==
               |Filtered(RowEdges(row, i), seen, true)| + (if Returned(e, seen) then 1 else 0)
  {
    FilteredMore(RowEdges(row, i), Edge(row.id, row.managed[i].id), seen, true);
  }

  function Summaries(rows: seq<SourceRow>, seen: map<string, set<string>>): seq<Summary> {
    if rows == [] then []
    else Summaries(rows[..|rows| - 1], seen) + [SummaryOf(rows[|rows| - 1], seen)]
  }

  function SnapshotOf(stations: seq<Station>): Snapshot {
    var rows := RowsOf(stations, ManagedIds(stations));
    var seen := Seen(rows);
    Snapshot(Summaries(rows, seen), Firsts(Filtered(Edges(rows), seen, true)), Filtered(Edges(rows), seen, false))
  }

  /** The first pass: a row for every station, and who is seen from where. */
  method CollectRows(stations: seq<Station>) returns (rows: seq<SourceRow>, seen: map<string, set<string>>)
    ensures rows == RowsOf(stations, ManagedIds(stations)) && seen == Seen(rows)
  {
    var managed := ManagedIds(stations);
    rows, seen := [], map[];
    for i := 0 to |stations|
      invariant |rows| == i && forall j | 0 <= j < i :: rows[j] == RowOf(stations[j], managed)
      invariant seen == Seen(rows)
    {
      var row, visible := CollectRow(stations[i], managed);
      assert (rows + [row])[..i] == rows;
      rows := rows + [row];
      seen := seen[row.id := visible];
    }
    assert rows == RowsOf(stations, managed);
  }

  lemma UpTo(rows: seq<SourceRow>, i: nat, seen: map<string, set<string>>)
    requires i < |rows|
    ensures Edges(rows[..i + 1]) == Edges(rows[..i]) + RowEdges(rows[i], |rows[i].managed|)
    ensures Summaries(rows[..i + 1], seen) == Summaries(rows[..i], seen) + [SummaryOf(rows[i], seen)]
  {
    assert rows[..i + 1][..i] == rows[..i];
  }

  /** `_build_visibility_snapshot`, stations in the order given. */
  method BuildSnapshot(stations: seq<Station>) returns (snapshot: Snapshot)
    ensures snapshot == SnapshotOf(stations)
  {
    var rows, seen := CollectRows(stations);
    var summaries: seq<Summary>, mutual: seq<Edge>, keys: set<Edge>, oneWay: seq<Edge> := [], [], {}, [];
    for i := 0 to |rows|
      invariant Listed(Edges(rows[..i]), seen, mutual, keys, oneWay)
      invariant summaries == Summaries(rows[..i], seen)
    {
      UpTo(rows, i, seen);
      var summary;
      mutual, keys, oneWay, summary := ClassifyRow(rows[i], seen, Edges(rows[..i]), mutual, keys, oneWay);
      summaries := summaries + [summary];
    }
    assert rows[..|rows|] == rows;
    snapshot := Snapshot(summaries, mutual, oneWay);
  }

  // ---------- what the snapshot says ----------

  /** The station reports the managed station `t`, other than itself, as a direct neighbour. */
  predicate Reports(station: Station, candidates: seq<Candidate>, t: string, managed: set<string>) {
    && t != "" && t != station.id && t in managed
    && exists j :: 0 <= j < |candidates| && candidates[j].id.Some? && Strip(candidates[j].id.value) == t
  }

  predicate Sees(stations: seq<Station>, s: string, t: string) {
    exists i :: 0 <= i < |stations| && stations[i].id == s &&
        Reports(stations[i], stations[i].candidates, t, ManagedIds(stations))
  }

  predicate DistinctIds(stations: seq<Station>) {
    forall i, j | 0 <= i < j < |stations| :: stations[i].id != stations[j].id
  }

  lemma {:induction false} PeersAre(station: Station, candidates: seq<Candidate>, managed: set<string>, t: string)
    ensures t in Ids(Peers(station.id, candidates, managed, true)) <==> Reports(station, candidates, t, managed)
    decreases |candidates|
  {
    if candidates != [] {
      var n := |candidates| - 1;
      PeersAre(station, candidates[..n], managed, t);
      IdsMore(Peers(station.id, candidates[..n], managed, true), Peer(t, candidates[n].favorite));
      if j :| 0 <= j < |candidates| && candidates[j].id.Some? && Strip(candidates[j].id.value) == t {
        if j < n {
          assert candidates[..n][j] == candidates[j];
        }
      }
      if j :| 0 <= j < n && candidates[..n][j].id.Some? && Strip(candidates[..n][j].id.value) == t {
        assert candidates[j] == candidates[..n][j];
      }
    }
  }

  lemma {:induction false} RowEdgesAre(row: SourceRow, n: nat)
    requires n <= |row.managed|
    ensures |RowEdges(row, n)| == n && forall j | 0 <= j < n :: RowEdges(row, n)[j] == Edge(row.id, row.managed[j].id)
  {
    if n > 0 {
      RowEdgesAre(row, n - 1);
    }
  }

  lemma RowEdgesName(row: SourceRow, e: Edge)
    ensures e in RowEdges(row, |row.managed|) <==> e.source == row.id && e.target in Ids(row.managed)
  {
    RowEdgesAre(row, |row.managed|);
    if e.source == row.id && e.target in Ids(row.managed) {
      var p :| p in row.managed && p.id == e.target;
      var j :| 0 <= j < |row.managed| && row.managed[j] == p;
      assert RowEdges(row, |row.managed|)[j] == e;
    }
    if e in RowEdges(row, |row.managed|) {
      var j :| 0 <= j < |row.managed| && RowEdges(row, |row.managed|)[j] == e;
      assert row.managed[j] in row.managed;
    }
  }

  predicate Sighting(row: SourceRow, e: Edge) {
    row.id == e.source && e.target in Ids(row.managed)
  }

  predicate Sighted(rows: seq<SourceRow>, e: Edge) {
    exists i :: 0 <= i < |rows| && Sighting(rows[i], e)
  }

  lemma SightedMore(rows: seq<SourceRow>, row: SourceRow, e: Edge)
    ensures Sighted(rows + [row], e) <==> Sighted(rows, e) || Sighting(row, e)
  {
    var more := rows + [row];
    assert more[|rows|] == row;
    if i :| 0 <= i < |rows| && Sighting(rows[i], e) {
      assert Sighting(more[i], e);
    }
  }

  lemma {:induction false} EdgesAre(rows: seq<SourceRow>, e: Edge)
    ensures e in Edges(rows) <==> Sighted(rows, e)
    decreases |rows|
  {
    if rows != [] {
      var n := |rows| - 1;
      EdgesAre(rows[..n], e);
      RowEdgesName(rows[n], e);
      SightedMore(rows[..n], rows[n], e);
      assert rows == rows[..n] + [rows[n]];
    }
  }

  lemma {:induction false} SeenIs(rows: seq<SourceRow>, i: nat)
    requires i < |rows| && forall a, b | 0 <= a < b < |rows| :: rows[a].id != rows[b].id
    ensures rows[i].id in Seen(rows) && Seen(rows)[rows[i].id] == Ids(rows[i].managed)
    decreases |rows|
  {
    var n := |rows| - 1;
    if i < n {
      assert rows[..n][i] == rows[i];
      SeenIs(rows[..n], i);
    }
  }

  lemma {:induction false} SeenOnlyRows(rows: seq<SourceRow>, id: string)
    requires id in Seen(rows)
    ensures exists i :: 0 <= i < |rows| && rows[i].id == id
    decreases |rows|
  {
    var n := |rows| - 1;
    if rows[n].id != id {
      SeenOnlyRows(rows[..n], id);
      var i :| 0 <= i < n && rows[..n][i].id == id;
      assert rows[i].id == id;
    }
  }

  /** With distinct station ids, edges and returned edges are exactly sightings and mutual sightings. */
  lemma EdgesAreSightings(stations: seq<Station>, e: Edge)
    requires DistinctIds(stations)
    ensures var rows := RowsOf(stations, ManagedIds(stations));
            && (e in Edges(rows) <==> Sees(stations, e.source, e.target))
            && (e in Edges(rows) ==> e.source != e.target)
            && (Returned(e, Seen(rows)) <==> Sees(stations, e.target, e.source))
  {
    var rows := RowsOf(stations, ManagedIds(stations));
    var seen := Seen(rows);
    EdgesAre(rows, e);
    assert forall i | 0 <= i < |rows| ::
        rows[i] == RowOf(stations[i], ManagedIds(stations)) && rows[i].id == stations[i].id;
    if i :| 0 <= i < |rows| && Sighting(rows[i], e) {
      PeersAre(stations[i], stations[i].candidates, ManagedIds(stations), e.target);
      assert stations[i].id == e.source;
    }
    if i :| 0 <= i < |stations| && stations[i].id == e.source &&
            Reports(stations[i], stations[i].candidates, e.target, ManagedIds(stations)) {
      PeersAre(stations[i], stations[i].candidates, ManagedIds(stations), e.target);
      assert Sighting(rows[i], e);
    }
    if Returned(e, seen) {
      SeenOnlyRows(rows, e.target);
      var i :| 0 <= i < |rows| && rows[i].id == e.target;
      SeenIs(rows, i);
      PeersAre(stations[i], stations[i].candidates, ManagedIds(stations), e.source);
      assert stations[i].id == e.target;
    }
    if i :| 0 <= i < |stations| && stations[i].id == e.target &&
            Reports(stations[i], stations[i].candidates, e.source, ManagedIds(stations)) {
      PeersAre(stations[i], stations[i].candidates, ManagedIds(stations), e.source);
      SeenIs(rows, i);
    }
  }

  /** `mutual_pairs` names every pair of stations that see each other, in one direction only and
      once; `one_way_pairs` is exactly the sightings that are not returned. */
  lemma PairsAreExact(stations: seq<Station>, s: string, t: string)
    requires DistinctIds(stations)
    ensures var snap := SnapshotOf(stations);
            && ((Edge(s, t) in snap.mutualPairs || Edge(t, s) in snap.mutualPairs) <==>
                Sees(stations, s, t) && Sees(stations, t, s))
            && (Edge(s, t) in snap.oneWayPairs <==> Sees(stations, s, t) && !Sees(stations, t, s))
            && DistinctKeys(snap.mutualPairs)
  {
    var rows := RowsOf(stations, ManagedIds(stations));
    var seen := Seen(rows);
    var returned := Filtered(Edges(rows), seen, true);
    EdgesAreSightings(stations, Edge(s, t));
    EdgesAreSightings(stations, Edge(t, s));
    FilteredIs(Edges(rows), seen, true, Edge(s, t));
    FilteredIs(Edges(rows), seen, true, Edge(t, s));
    FilteredIs(Edges(rows), seen, false, Edge(s, t));
    FirstsAre(returned);
    if Edge(s, t) in returned {
      var p :| p in Firsts(returned) && Key(p) == Key(Edge(s, t));
      KeyIsUnordered(p, Edge(s, t));
    }
  }

  // ---------- what a row counts ----------

  /** The places among the first `n` candidates that name another station, managed or not as asked. */
  ghost function Places(self: string, candidates: seq<Candidate>, n: nat, managed: set<string>, wanted: bool): set<int>
    requires n <= |candidates|
  {
    set j | 0 <= j < n && candidates[j].id.Some? && Strip(candidates[j].id.value) != "" &&
            Strip(candidates[j].id.value) != self && (Strip(candidates[j].id.value) in managed) == wanted
  }

  lemma PlacesNext(self: string, candidates: seq<Candidate>, n: nat, managed: set<string>, wanted: bool)
    requires n < |candidates|
    ensures var before, after := Places(self, candidates, n, managed, wanted),
                                 Places(self, candidates, n + 1, managed, wanted);
            && n !in before
            && after == before + (if n in after then {n} else {})
            && var peers := Peers(self, candidates[..n], managed, wanted);
               Peers(self, candidates[..n + 1], managed, wanted) ==
               if n in after then peers + [Peer(Strip(candidates[n].id.value), candidates[n].favorite)] else peers
  {
    assert candidates[..n + 1][..n] == candidates[..n];
  }

  lemma {:induction false} PeersCounted(self: string, candidates: seq<Candidate>, n: nat, managed: set<string>,
                                       wanted: bool)
    requires n <= |candidates|
    ensures |Peers(self, candidates[..n], managed, wanted)| == |Places(self, candidates, n, managed, wanted)|
  {
    if n == 0 {
      assert Places(self, candidates, n, managed, wanted) == {};
    } else {
      PlacesNext(self, candidates, n - 1, managed, wanted);
      PeersCounted(self, candidates, n - 1, managed, wanted);
    }
  }

  ghost function FavoritePlaces(self: string, candidates: seq<Candidate>, n: nat, managed: set<string>): set<int>
    requires n <= |candidates|
  {
    set j | j in Places(self, candidates, n, managed, true) && candidates[j].favorite
  }

  lemma FavoritePlacesNext(self: string, candidates: seq<Candidate>, n: nat, managed: set<string>)
    requires n < |candidates|
    ensures var before, after := FavoritePlaces(self, candidates, n, managed),
                                 FavoritePlaces(self, candidates, n + 1, managed);
            && n !in before && after == before + (if n in after then {n} else {})
            && (n in after <==> n in Places(self, candidates, n + 1, managed, true) && candidates[n].favorite)
  {
    PlacesNext(self, candidates, n, managed, true);
  }

  lemma FavoritesMore(peers: seq<Peer>, p: Peer)
    ensures Favorites(peers + [p]) == Favorites(peers) + if p.favorite then 1 else 0
  {
    assert (peers + [p])[..|peers|] == peers;
  }

  lemma {:induction false} FavoritesCounted(self: string, candidates: seq<Candidate>, n: nat, managed: set<string>)
    requires n <= |candidates|
    ensures Favorites(Peers(self, candidates[..n], managed, true)) == |FavoritePlaces(self, candidates, n, managed)|
  {
    if n == 0 {
      assert FavoritePlaces(self, candidates, n, managed) == {};
    } else {
      var m := n - 1;
      PlacesNext(self, candidates, m, managed, true);
      FavoritePlacesNext(self, candidates, m, managed);
      FavoritesCounted(self, candidates, m, managed);
      if m in Places(self, candidates, n, managed, true) {
        FavoritesMore(Peers(self, candidates[..m], managed, true),
                      Peer(Strip(candidates[m].id.value), candidates[m].favorite));
      }
    }
  }

  lemma {:induction false} RowEdgesPrefix(row: SourceRow, p: Peer, n: nat)
    requires n <= |row.managed|
    ensures RowEdges(row.(managed := row.managed + [p]), n) == RowEdges(row, n)
  {
    if n > 0 {
      RowEdgesPrefix(row, p, n - 1);
    }
  }

  ghost function MutualPlaces(self: string, candidates: seq<Candidate>, n: nat, managed: set<string>,
                              seen: map<string, set<string>>): set<int>
    requires n <= |candidates|
  {
    set j | j in Places(self, candidates, n, managed, true) &&
            Returned(Edge(self, Strip(candidates[j].id.value)), seen)
  }

  lemma MutualPlacesNext(self: string, candidates: seq<Candidate>, n: nat, managed: set<string>,
                         seen: map<string, set<string>>)
    requires n < |candidates|
    ensures var before, after := MutualPlaces(self, candidates, n, managed, seen),
                                 MutualPlaces(self, candidates, n + 1, managed, seen);
            && n !in before && after == before + (if n in after then {n} else {})
            && (n in after <==>
                n in Places(self, candidates, n + 1, managed, true) &&
                Returned(Edge(self, Strip(candidates[n].id.value)), seen))
  {
    PlacesNext(self, candidates, n, managed, true);
  }

  lemma MutualMore(self: string, peers: seq<Peer>, p: Peer, seen: map<string, set<string>>)
    ensures var row, more := SourceRow(self, peers, []), SourceRow(self, peers + [p], []);
            |Filtered(RowEdges(more, |peers| + 1), seen, true)| ==
            |Filtered(RowEdges(row, |peers|), seen, true)| + if Returned(Edge(self, p.id), seen) then 1 else 0
  {
    var row := SourceRow(self, peers, []);
    RowEdgesPrefix(row, p, |peers|);
    FilteredMore(RowEdges(row, |peers|), Edge(self, p.id), seen, true);
  }

  lemma {:induction false} MutualCounted(self: string, candidates: seq<Candidate>, n: nat, managed: set<string>,
                                        seen: map<string, set<string>>)
    requires n <= |candidates|
    ensures var peers := Peers(self, candidates[..n], managed, true);
            |Filtered(RowEdges(SourceRow(self, peers, []), |peers|), seen, true)| ==
            |MutualPlaces(self, candidates, n, managed, seen)|
  {
    if n == 0 {
      assert MutualPlaces(self, candidates, n, managed, seen) == {};
    } else {
      var m := n - 1;
      PlacesNext(self, candidates, m, managed, true);
      MutualPlacesNext(self, candidates, m, managed, seen);
      MutualCounted(self, candidates, m, managed, seen);
      if m in Places(self, candidates, n, managed, true) {
        MutualMore(self, Peers(self, candidates[..m], managed, true),
                   Peer(Strip(candidates[m].id.value), candidates[m].favorite), seen);
      }
    }
  }

  lemma {:induction false} SummaryAt(rows: seq<SourceRow>, seen: map<string, set<string>>, i: nat)
    requires i < |rows|
    ensures |Summaries(rows, seen)| == |rows| && Summaries(rows, seen)[i] == SummaryOf(rows[i], seen)
    decreases |rows|
  {
    var n := |rows| - 1;
    SummariesCounted(rows[..n], seen);
    if i < n {
      SummaryAt(rows[..n], seen, i);
    }
  }

  lemma {:induction false} SummariesCounted(rows: seq<SourceRow>, seen: map<string, set<string>>)
    ensures |Summaries(rows, seen)| == |rows|
  {
    if rows != [] {
      SummariesCounted(rows[..|rows| - 1], seen);
    }
  }

  /** The candidates of a station that name another station of the list, or none of it. */
  ghost function Counted(stations: seq<Station>, i: nat, wanted: bool): set<int>
    requires i < |stations|
  {
    var candidates := stations[i].candidates;
    set j | 0 <= j < |candidates| && candidates[j].id.Some? && Strip(candidates[j].id.value) != "" &&
            Strip(candidates[j].id.value) != stations[i].id &&
            IsStation(stations, Strip(candidates[j].id.value)) == wanted
  }

  lemma RowEdgesOnlyManaged(row: SourceRow, n: nat, unmanaged: seq<Peer>)
    requires n <= |row.managed|
    ensures RowEdges(row.(unmanaged := unmanaged), n) == RowEdges(row, n)
  {
  }

  /** The counted candidate's own station reports this one. */
  ghost predicate SeesBack(stations: seq<Station>, i: nat, j: int)
    requires i < |stations| && 0 <= j < |stations[i].candidates| && stations[i].candidates[j].id.Some?
  {
    Sees(stations, Strip(stations[i].candidates[j].id.value), stations[i].id)
  }

  lemma SeesBackIsReturned(stations: seq<Station>, i: nat)
    requires DistinctIds(stations) && i < |stations|
    ensures var managed := ManagedIds(stations);
            MutualPlaces(stations[i].id, stations[i].candidates, |stations[i].candidates|, managed,
                         Seen(RowsOf(stations, managed))) ==
            set j | j in Counted(stations, i, true) && SeesBack(stations, i, j)
  {
    var candidates, managed := stations[i].candidates, ManagedIds(stations);
    assert Places(stations[i].id, candidates, |candidates|, managed, true) == Counted(stations, i, true);
    forall j | j in Counted(stations, i, true)
      ensures SeesBack(stations, i, j) <==>
              Returned(Edge(stations[i].id, Strip(candidates[j].id.value)), Seen(RowsOf(stations, managed)))
    {
      EdgesAreSightings(stations, Edge(stations[i].id, Strip(candidates[j].id.value)));
    }
  }

  /** Each row counts its candidates one by one: those that name a managed station, the favorites among
      them, those that name none, and those whose station sees this one back. */
  lemma RowsCountCandidates(stations: seq<Station>, i: nat)
    requires DistinctIds(stations) && i < |stations|
    ensures |SnapshotOf(stations).rows| == |stations|
    ensures var row := SnapshotOf(stations).rows[i];
            && row.id == stations[i].id
            && row.managedPeers == |Counted(stations, i, true)|
            && row.favoritePeers == |set j | j in Counted(stations, i, true) && stations[i].candidates[j].favorite|
            && row.unmanagedPeers == |Counted(stations, i, false)|
            && row.mutualPeers == |set j | j in Counted(stations, i, true) && SeesBack(stations, i, j)|
  {
    var managed := ManagedIds(stations);
    var rows := RowsOf(stations, managed);
    var self, candidates, n := stations[i].id, stations[i].candidates, |stations[i].candidates|;
    SummaryAt(rows, Seen(rows), i);
    assert candidates[..n] == candidates;
    assert Places(self, candidates, n, managed, true) == Counted(stations, i, true);
    assert Places(self, candidates, n, managed, false) == Counted(stations, i, false);
    PeersCounted(self, candidates, n, managed, true);
    PeersCounted(self, candidates, n, managed, false);
    FavoritesCounted(self, candidates, n, managed);
    assert FavoritePlaces(self, candidates, n, managed) ==
           set j | j in Counted(stations, i, true) && stations[i].candidates[j].favorite;
    MutualCounted(self, candidates, n, managed, Seen(rows));
    SeesBackIsReturned(stations, i);
    RowEdgesOnlyManaged(SourceRow(self, Peers(self, candidates, managed, true), []),
                        |Peers(self, candidates, managed, true)|, Peers(self, candidates, managed, false));
  }

  // ---------- the handshake count ----------

  function MutualPeers(rows: seq<Summary>): nat {
    if rows == [] then 0 else MutualPeers(rows[..|rows| - 1]) + rows[|rows| - 1].mutualPeers
  }

  /** `managed_directional_links` */
  function DirectionalLinks(rows: seq<Summary>): nat {
    if rows == [] then 0 else DirectionalLinks(rows[..|rows| - 1]) + rows[|rows| - 1].managedPeers
  }

  lemma {:induction false} SumsAreEdgeCounts(rows: seq<SourceRow>, seen: map<string, set<string>>)
    ensures MutualPeers(Summaries(rows, seen)) == |Filtered(Edges(rows), seen, true)|
    ensures DirectionalLinks(Summaries(rows, seen)) == |Edges(rows)|
    decreases |rows|
  {
    if rows != [] {
      var n := |rows| - 1;
      SumsAreEdgeCounts(rows[..n], seen);
      SumsMore(Summaries(rows[..n], seen), SummaryOf(rows[n], seen));
      RowEdgesAre(rows[n], |rows[n].managed|);
      FilteredConcat(Edges(rows[..n]), RowEdges(rows[n], |rows[n].managed|), seen, true);
    }
  }

  lemma SumsMore(rows: seq<Summary>, row: Summary)
    ensures MutualPeers(rows + [row]) == MutualPeers(rows) + row.mutualPeers
    ensures DirectionalLinks(rows + [row]) == DirectionalLinks(rows) + row.managedPeers
  {
    assert (rows + [row])[..|rows|] == rows;
  }

  /** The handshake theorem: every directed link is mutual or one-way, and the mutual counts of the
      rows add up to twice the number of mutual pairs exactly when no row lists a mutual peer twice. */
  lemma Handshake(stations: seq<Station>)
    requires DistinctIds(stations)
    ensures var snap := SnapshotOf(stations);
            var rows := RowsOf(stations, ManagedIds(stations));
            && DirectionalLinks(snap.rows) == MutualPeers(snap.rows) + |snap.oneWayPairs|
            && 2 * |snap.mutualPairs| <= MutualPeers(snap.rows)
            && (2 * |snap.mutualPairs| == MutualPeers(snap.rows) <==> Distinct(Filtered(Edges(rows), Seen(rows), true)))
  {
    var rows := RowsOf(stations, ManagedIds(stations));
    var seen := Seen(rows);
    var returned := Filtered(Edges(rows), seen, true);
    SumsAreEdgeCounts(rows, seen);
    FilteredPartition(Edges(rows), seen);
    forall e | e in returned
      ensures e.source != e.target && Edge(e.target, e.source) in returned
    {
      FilteredIs(Edges(rows), seen, true, e);
      FilteredIs(Edges(rows), seen, true, Edge(e.target, e.source));
      EdgesAreSightings(stations, e);
      EdgesAreSightings(stations, Edge(e.target, e.source));
    }
    PairsAreHalf(returned);
  }

  /** The first `n` peers of the row repeat no peer that sees the row's station back. */
  predicate NoMutualRepeats(row: SourceRow, n: nat, seen: map<string, set<string>>)
    requires n <= |row.managed|
  {
    forall i, j | 0 <= i < j < n && row.managed[i].id == row.managed[j].id ::
        !Returned(Edge(row.id, row.managed[i].id), seen)
  }

  lemma DistinctMore(edges: seq<Edge>, e: Edge)
    ensures Distinct(edges + [e]) <==> Distinct(edges) && e !in edges
  {
    if Distinct(edges + [e]) {
      assert forall i | 0 <= i < |edges| :: (edges + [e])[i] == edges[i] && (edges + [e])[i] != (edges + [e])[|edges|];
    }
  }

  lemma DistinctConcat(a: seq<Edge>, b: seq<Edge>)
    requires forall e | e in a :: e !in b
    ensures Distinct(a + b) <==> Distinct(a) && Distinct(b)
  {
    if Distinct(a + b) {
      forall i, j | 0 <= i < j < |b| ensures b[i] != b[j] {
        assert (a + b)[|a| + i] != (a + b)[|a| + j];
      }
      forall i, j | 0 <= i < j < |a| ensures a[i] != a[j] {
        assert (a + b)[i] != (a + b)[j];
      }
    }
    if Distinct(a) && Distinct(b) {
      forall i, j | 0 <= i < j < |a + b| ensures (a + b)[i] != (a + b)[j] {
        if i < |a| {
          assert a[i] in a;
        }
      }
    }
  }

  lemma NamedBefore(row: SourceRow, n: nat, target: string)
    requires n <= |row.managed|
    ensures Edge(row.id, target) in RowEdges(row, n) <==> exists i :: 0 <= i < n && row.managed[i].id == target
  {
    RowEdgesAre(row, n);
    if i :| 0 <= i < n && row.managed[i].id == target {
      assert RowEdges(row, n)[i] == Edge(row.id, target);
    }
  }

  lemma {:induction false} RowRepeats(row: SourceRow, n: nat, seen: map<string, set<string>>)
    requires n <= |row.managed|
    ensures Distinct(Filtered(RowEdges(row, n), seen, true)) <==> NoMutualRepeats(row, n, seen)
  {
    if n > 0 {
      var e := Edge(row.id, row.managed[n - 1].id);
      RowRepeats(row, n - 1, seen);
      FilteredMore(RowEdges(row, n - 1), e, seen, true);
      if Returned(e, seen) {
        DistinctMore(Filtered(RowEdges(row, n - 1), seen, true), e);
        FilteredIs(RowEdges(row, n - 1), seen, true, e);
        NamedBefore(row, n - 1, e.target);
      }
    }
  }

  lemma {:induction false} Repeats(rows: seq<SourceRow>, seen: map<string, set<string>>)
    requires forall i, j | 0 <= i < j < |rows| :: rows[i].id != rows[j].id
    ensures Distinct(Filtered(Edges(rows), seen, true)) <==>
            forall row | row in rows :: NoMutualRepeats(row, |row.managed|, seen)
    decreases |rows|
  {
    if rows != [] {
      var init, last := rows[..|rows| - 1], rows[|rows| - 1];
      var a, b := Edges(init), RowEdges(last, |last.managed|);
      Repeats(init, seen);
      RowRepeats(last, |last.managed|, seen);
      FilteredConcat(a, b, seen, true);
      forall e | e in Filtered(a, seen, true) ensures e !in Filtered(b, seen, true) {
        FilteredIs(a, seen, true, e);
        FilteredIs(b, seen, true, e);
        RowEdgesName(last, e);
        EdgesAre(init, e);
      }
      DistinctConcat(Filtered(a, seen, true), Filtered(b, seen, true));
      assert rows == init + [last];
    }
  }

  /** `managed_directional_links` is twice the mutual pairs plus the one-way pairs exactly when no
      row lists the same mutual peer twice. */
  lemma LinksAddUpIff(stations: seq<Station>)
    requires DistinctIds(stations)
    ensures var snap := SnapshotOf(stations);
            var rows := RowsOf(stations, ManagedIds(stations));
            DirectionalLinks(snap.rows) == 2 * |snap.mutualPairs| + |snap.oneWayPairs|
            <==> forall row | row in rows :: NoMutualRepeats(row, |row.managed|, Seen(rows))
  {
    var rows := RowsOf(stations, ManagedIds(stations));
    Handshake(stations);
    Repeats(rows, Seen(rows));
  }
}

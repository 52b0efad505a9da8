/** The node table: upserting reported nodes, upgrading rows stored under a provisional id, and what
    the session's unflushed changes do to lists of nodes. */
module Inventory {
  import opened JsonTree

  type Time = int

  const UNKNOWN := "local-unknown"

  /** `like("local-%")` */
  predicate IsLegacy(id: string) {
    "local-" <= id
  }

  /** A row of `managed_nodes`: `facts` are the columns every report overwrites. */
  datatype Row = Row(provider: string, id: string, firstSeen: Time, facts: Json)

  datatype Place = Place(host: string, port: int, source: string)

  /** A row of `node_endpoints`: `node` is the node row's primary key, its place in the table. */
  datatype Link = Link(node: nat, endpoint: string, place: Place, lastSeen: Time)

  datatype Tables = Tables(nodes: seq<Row>, links: seq<Link>)

  datatype Report = Report(id: string, firstSeen: Option<Time>, facts: Json)

  /** Where a list of nodes was fetched from. */
  datatype Origin = Origin(provider: string, endpoint: string, place: Place, now: Time)

  // ---------- queries ----------

  predicate Named(row: Row, provider: string, id: string) {
    row.provider == provider && row.id == id
  }

  predicate Linked(links: seq<Link>, node: nat, endpoint: string) {
    exists j :: 0 <= j < |links| && links[j].node == node && links[j].endpoint == endpoint
  }

  /** The row can be taken over by a node reported from this origin. */
  predicate Usable(t: Tables, i: nat, from: Origin, exact: bool)
    requires i < |t.nodes|
  {
    && t.nodes[i].provider == from.provider
    && (if exact then t.nodes[i].id == UNKNOWN else IsLegacy(t.nodes[i].id))
    && Linked(t.links, i, from.endpoint)
  }

  /** First row with the id, or the table's length. */
  function FindOwn(nodes: seq<Row>, provider: string, id: string, i: nat := 0): (k: nat)
    requires i <= |nodes|
    ensures i <= k <= |nodes| && (k < |nodes| ==> Named(nodes[k], provider, id))
    ensures forall j | i <= j < k :: !Named(nodes[j], provider, id)
    decreases |nodes| - i
  {
    if i == |nodes| || Named(nodes[i], provider, id) then i else FindOwn(nodes, provider, id, i + 1)
  }

  function FindUsable(t: Tables, from: Origin, exact: bool, i: nat := 0): (k: nat)
    requires i <= |t.nodes|
    ensures i <= k <= |t.nodes| && (k < |t.nodes| ==> Usable(t, k, from, exact))
    ensures forall j | i <= j < k :: !Usable(t, j, from, exact)
    decreases |t.nodes| - i
  {
    if i == |t.nodes| || Usable(t, i, from, exact) then i else FindUsable(t, from, exact, i + 1)
  }

  function FindLink(links: seq<Link>, node: nat, endpoint: string, i: nat := 0): (k: nat)
    requires i <= |links|
    ensures i <= k <= |links| && (k < |links| ==> links[k].node == node && links[k].endpoint == endpoint)
    ensures forall j | i <= j < k :: !(links[j].node == node && links[j].endpoint == endpoint)
    decreases |links| - i
  {
    if i == |links| || (links[i].node == node && links[i].endpoint == endpoint) then i
    else FindLink(links, node, endpoint, i + 1)
  }

  /** The legacy row a node without a row of its own takes over: `local-unknown` comes first. */
  function Heir(t: Tables, from: Origin): (k: nat)
    ensures k <= |t.nodes| && (k < |t.nodes| ==> Usable(t, k, from, false))
    ensures k == |t.nodes| ==> forall j | 0 <= j < |t.nodes| :: !Usable(t, j, from, false)
  {
    if FindUsable(t, from, true) < |t.nodes| then FindUsable(t, from, true) else FindUsable(t, from, false)
  }

  predicate HasRow(t: Tables, provider: string, id: string) {
    exists i :: 0 <= i < |t.nodes| && Named(t.nodes[i], provider, id)
  }

  // ---------- one report ----------

  /** `stored` is what queries see: the session does not flush by itself. */
  datatype Work = Work(stored: Tables, session: Tables, out: seq<nat>)

  predicate Consistent(stored: Tables, session: Tables) {
    && |stored.nodes| == |session.nodes| && |stored.links| <= |session.links|
  }

  function Written(row: Row, r: Report, rename: bool): Row {
    row.(id := if rename then r.id else row.id, facts := r.facts)
  }

  /** The row that takes the report, created and flushed when the queries find none. */
  function Placed(stored: Tables, session: Tables, r: Report, from: Origin): (Tables, Tables, nat)
    requires Consistent(stored, session)
  {
    var own := FindOwn(stored.nodes, from.provider, r.id);
    var n := |stored.nodes|;
    if own < n then (stored, session.(nodes := session.nodes[own := Written(session.nodes[own], r, false)]), own)
    else if r.id != UNKNOWN && Heir(stored, from) < n then
      var heir := Heir(stored, from);
      (stored, session.(nodes := session.nodes[heir := Written(session.nodes[heir], r, true)]), heir)
    else
      var row := Row(from.provider, r.id, if r.firstSeen.Some? then r.firstSeen.value else from.now, Null);
      var flushed := session.(nodes := session.nodes + [row]);
      (flushed, flushed.(nodes := session.nodes + [row.(facts := r.facts)]), n)
  }

  function LinkKept(stored: Tables, session: Tables, node: nat, from: Origin): Tables
    requires Consistent(stored, session)
  {
    var j := FindLink(stored.links, node, from.endpoint);
    if j < |stored.links| then
      session.(links := session.links[j := session.links[j].(place := from.place, lastSeen := from.now)])
    else session.(links := session.links + [Link(node, from.endpoint, from.place, from.now)])
  }

  function UpsertedOne(w: Work, r: Report, from: Origin): (w': Work)
    requires Consistent(w.stored, w.session)
    ensures Consistent(w'.stored, w'.session)
  {
    var (stored, session, node) := Placed(w.stored, w.session, r, from);
    Work(stored, LinkKept(stored, session, node, from), w.out + [node])
  }

  /** The session after the first `n` reports. */
  function UpsertTo(t: Tables, reports: seq<Report>, n: nat, from: Origin): (w: Work)
    requires n <= |reports|
    ensures Consistent(w.stored, w.session)
  {
    if n == 0 then Work(t, t, []) else UpsertedOne(UpsertTo(t, reports, n - 1, from), reports[n - 1], from)
  }

  /** The tables after one committed call. */
  function Upserted(t: Tables, reports: seq<Report>, from: Origin): Tables {
    UpsertTo(t, reports, |reports|, from).session
  }

  class InventoryService {
    var stored: Tables
    var session: Tables

    constructor (tables: Tables)
      ensures stored == tables && session == tables
    {
      stored, session := tables, tables;
    }

    /** `upsert_nodes` on a session with nothing pending. */
    method UpsertNodes(reports: seq<Report>, from: Origin) returns (out: seq<nat>)
      requires stored == session
      modifies this
      ensures session == stored == Upserted(old(stored), reports, from)
      ensures out == UpsertTo(old(stored), reports, |reports|, from).out
    {
      out := [];
      for i := 0 to |reports|
        invariant Work(stored, session, out) == UpsertTo(old(stored), reports, i, from)
      {
        var node := UpsertOne(reports[i], from, out);
        out := out + [node];
      }
      stored := session;
    }

    /** One turn of the loop. */
    method UpsertOne(r: Report, from: Origin, ghost out: seq<nat>) returns (node: nat)
      requires Consistent(stored, session)
      modifies this
      ensures Work(stored, session, out + [node]) == UpsertedOne(Work(old(stored), old(session), out), r, from)
    {
      node := PlaceReport(r, from);
      LinkNode(node, from);
    }

    method PlaceReport(r: Report, from: Origin) returns (node: nat)
      requires Consistent(stored, session)
      modifies this
      ensures (stored, session, node) == Placed(old(stored), old(session), r, from)
    {
      var n := |stored.nodes|;
      node := FindOwn(stored.nodes, from.provider, r.id);
      var rename := false;
      if node == n && r.id != UNKNOWN {
        node := FindUsable(stored, from, true);
        if node == n {
          node := FindUsable(stored, from, false);
        }
        rename := node < n;
      }
      if node == n {
        var first := if r.firstSeen.Some? then r.firstSeen.value else from.now;
        session := session.(nodes := session.nodes + [Row(from.provider, r.id, first, Null)]);
        stored := session;
      }
      session := session.(nodes := session.nodes[node := Written(session.nodes[node], r, rename)]);
      assert node == n ==> session.nodes == old(session).nodes + [session.nodes[n]];
    }

    method LinkNode(node: nat, from: Origin)
      requires Consistent(stored, session)
      modifies this`session
      ensures session == LinkKept(stored, old(session), node, from)
    {
      var j := FindLink(stored.links, node, from.endpoint);
      if j == |stored.links| {
        session := session.(links := session.links + [Link(node, from.endpoint, from.place, from.now)]);
      } else {
        session := session.(links := session.links[j := session.links[j].(place := from.place, lastSeen := from.now)]);
      }
    }
  }

  // ---------- one reported node at a time ----------

  /** The unique key of the node table. */
  predicate UniqueIds(nodes: seq<Row>) {
    forall i, j | 0 <= i < j < |nodes| :: nodes[i].provider != nodes[j].provider || nodes[i].id != nodes[j].id
  }

  /** One link per node and endpoint: what the upsert looks for, and no constraint of the schema. */
  predicate UniqueLinks(links: seq<Link>) {
    forall i, j | 0 <= i < j < |links| :: links[i].node != links[j].node || links[i].endpoint != links[j].endpoint
  }

  /** Every link belongs to a row. */
  predicate Anchored(t: Tables) {
    forall i | 0 <= i < |t.links| :: t.links[i].node < |t.nodes|
  }

  predicate Sound(t: Tables) {
    UniqueIds(t.nodes) && Anchored(t) && UniqueLinks(t.links)
  }

  /** The node row that takes the report. */
  function Taker(t: Tables, r: Report, from: Origin): nat {
    Placed(t, t, r, from).2
  }

  lemma OneIsOne(t: Tables, r: Report, from: Origin)
    ensures Upserted(t, [r], from) == UpsertedOne(Work(t, t, []), r, from).session
  {
    assert UpsertTo(t, [r], 0, from) == Work(t, t, []);
  }

  predicate CanTakeOver(t: Tables, r: Report, from: Origin) {
    r.id != UNKNOWN && exists i :: 0 <= i < |t.nodes| && Usable(t, i, from, false)
  }

  /** A reported node ends in exactly one row: its own, else a legacy row of its endpoint that
      changes its id and nothing that identifies it, else a new one; no other row is touched. */
  lemma OneReportOneRow(t: Tables, r: Report, from: Origin)
    requires UniqueIds(t.nodes)
    ensures var t' := Upserted(t, [r], from);
            var k := Taker(t, r, from);
            && UniqueIds(t'.nodes) && k < |t'.nodes|
            && Named(t'.nodes[k], from.provider, r.id) && t'.nodes[k].facts == r.facts
            && |t'.nodes| == |t.nodes| + (if HasRow(t, from.provider, r.id) || CanTakeOver(t, r, from) then 0 else 1)
            && (forall i | 0 <= i < |t.nodes| && i != k :: t'.nodes[i] == t.nodes[i])
            && (k < |t.nodes| ==>
                && t'.nodes[k].firstSeen == t.nodes[k].firstSeen && t.nodes[k].provider == from.provider
                && (t.nodes[k].id != r.id ==> IsLegacy(t.nodes[k].id) && Linked(t.links, k, from.endpoint)))
  {
    OneIsOne(t, r, from);
  }

  /** Which row that is: its own if it has one; else, unless it is provisional itself, a row named
      `local-unknown` before any other legacy row; else a row of its own, first seen when it says so. */
  lemma TakerIs(t: Tables, r: Report, from: Origin)
    ensures var k := Taker(t, r, from);
            && (HasRow(t, from.provider, r.id) ==> k < |t.nodes| && Named(t.nodes[k], from.provider, r.id))
            && (k < |t.nodes| && !HasRow(t, from.provider, r.id) &&
                (exists i :: 0 <= i < |t.nodes| && Named(t.nodes[i], from.provider, "local-unknown") &&
                             Linked(t.links, i, from.endpoint)) ==>
                t.nodes[k].id == "local-unknown")
            && (k < |t.nodes| <==>
                HasRow(t, from.provider, r.id) ||
                (r.id != "local-unknown" &&
                 exists i :: 0 <= i < |t.nodes| && t.nodes[i].provider == from.provider && "local-" <= t.nodes[i].id &&
                             Linked(t.links, i, from.endpoint)))
            && (k < |t.nodes| && t.nodes[k].id != r.id ==> "local-" <= t.nodes[k].id)
            && (k == |t.nodes| ==>
                k < |Upserted(t, [r], from).nodes| &&
                Upserted(t, [r], from).nodes[k] ==
                Row(from.provider, r.id, if r.firstSeen.Some? then r.firstSeen.value else from.now, r.facts))
  {
    OneIsOne(t, r, from);
    if i :| 0 <= i < |t.nodes| && Named(t.nodes[i], from.provider, "local-unknown") &&
            Linked(t.links, i, from.endpoint) {
      assert Usable(t, i, from, true);
    }
    if i :| 0 <= i < |t.nodes| && t.nodes[i].provider == from.provider && "local-" <= t.nodes[i].id &&
            Linked(t.links, i, from.endpoint) {
      assert Usable(t, i, from, false);
    }
  }

  /** After the call that row is linked to the endpoint, by one row when links were single before. */
  lemma OneReportOneLink(t: Tables, r: Report, from: Origin)
    requires Sound(t)
    ensures var t' := Upserted(t, [r], from);
            var k := Taker(t, r, from);
            && Sound(t')
            && |t'.links| == |t.links| + (if Linked(t.links, k, from.endpoint) then 0 else 1)
            && exists j :: 0 <= j < |t'.links| && t'.links[j] == Link(k, from.endpoint, from.place, from.now)
  {
    OneReportOneRow(t, r, from);
    OneIsOne(t, r, from);
    var k := Taker(t, r, from);
    var j := FindLink(t.links, k, from.endpoint);
    assert Placed(t, t, r, from).0.links == t.links;
    assert Upserted(t, [r], from).links[j] == Link(k, from.endpoint, from.place, from.now);
  }

  /** And no other link changes. */
  lemma OtherLinksStay(t: Tables, r: Report, from: Origin)
    ensures forall j | 0 <= j < |t.links| &&
            (t.links[j].node != Taker(t, r, from) || t.links[j].endpoint != from.endpoint) ::
              j < |Upserted(t, [r], from).links| && Upserted(t, [r], from).links[j] == t.links[j]
  {
    OneIsOne(t, r, from);
    assert Placed(t, t, r, from).0.links == t.links;
  }

  // ---------- lists of nodes ----------

  predicate RealIds(reports: seq<Report>) {
    forall i | 0 <= i < |reports| :: !IsLegacy(reports[i].id)
  }

  /** One of the first `n` reports has the id. */
  predicate Occurs(reports: seq<Report>, n: nat, id: string)
    requires n <= |reports|
  {
    exists i :: 0 <= i < n && reports[i].id == id
  }

  /** Ids among the first `n` reports that have no row yet, each once, in order. */
  function Missing(t: Tables, reports: seq<Report>, n: nat, provider: string): seq<string>
    requires n <= |reports|
  {
    if n == 0 then []
    else
      var before := Missing(t, reports, n - 1, provider);
      var id := reports[n - 1].id;
      if HasRow(t, provider, id) || id in before then before else before + [id]
  }

  /** The id of the last of the first `n` reports that had no row. */
  function LastMissing(t: Tables, reports: seq<Report>, n: nat, provider: string): Option<string>
    requires n <= |reports|
  {
    if n == 0 then None
    else if HasRow(t, provider, reports[n - 1].id) then LastMissing(t, reports, n - 1, provider)
    else Some(reports[n - 1].id)
  }

  lemma {:induction false} MissingAre(t: Tables, reports: seq<Report>, n: nat, provider: string, id: string)
    requires n <= |reports|
    ensures id in Missing(t, reports, n, provider) <==> !HasRow(t, provider, id) && Occurs(reports, n, id)
  {
    if n > 0 {
      MissingAre(t, reports, n - 1, provider, id);
      MissingAre(t, reports, n - 1, provider, reports[n - 1].id);
      OccursNext(reports, n - 1, id);
    }
  }

  lemma OccursNext(reports: seq<Report>, n: nat, id: string)
    requires n < |reports|
    ensures Occurs(reports, n + 1, id) <==> Occurs(reports, n, id) || reports[n].id == id
  {
    if i :| 0 <= i < n && reports[i].id == id {
      assert 0 <= i < n + 1 && reports[i].id == id;
    }
  }

  lemma {:induction false} MissingDistinct(t: Tables, reports: seq<Report>, n: nat, provider: string)
    requires n <= |reports|
    ensures Distinct(Missing(t, reports, n, provider))
  {
    if n > 0 {
      MissingDistinct(t, reports, n - 1, provider);
    }
  }

  lemma {:induction false} LastIsMissing(t: Tables, reports: seq<Report>, n: nat, provider: string)
    requires n <= |reports|
    ensures match LastMissing(t, reports, n, provider)
            case None => Missing(t, reports, n, provider) == []
            case Some(id) => id in Missing(t, reports, n, provider)
  {
    if n > 0 {
      LastIsMissing(t, reports, n - 1, provider);
    }
  }

  /** Only `heir` has another id than in `t`: the last missing one. */
  predicate HeirTaken(t: Tables, w: Work, heir: nat, last: Option<string>) {
    && w.stored == t && Consistent(w.stored, w.session)
    && forall i | 0 <= i < |t.nodes| :: SameBut(t.nodes[i], w.session.nodes[i], if i == heir then last else None)
  }

  predicate SameBut(before: Row, after: Row, id: Option<string>) {
    && after.provider == before.provider && after.firstSeen == before.firstSeen
    && after.id == if id.Some? then id.value else before.id
  }

  lemma OwnOrMissing(nodes: seq<Row>, provider: string, id: string)
    ensures FindOwn(nodes, provider, id) < |nodes| <==> exists i :: 0 <= i < |nodes| && Named(nodes[i], provider, id)
  {
  }

  lemma HeirTakenAgain(t: Tables, w: Work, last: Option<string>, r: Report, from: Origin)
    requires HeirTaken(t, w, Heir(t, from), last) && Heir(t, from) < |t.nodes| && !IsLegacy(r.id)
    ensures HeirTaken(t, UpsertedOne(w, r, from), Heir(t, from),
                      if HasRow(t, from.provider, r.id) then last else Some(r.id))
  {
    OwnOrMissing(t.nodes, from.provider, r.id);
    assert r.id != UNKNOWN;
  }

  lemma {:induction false} Always(holds: seq<bool>, n: nat)
    requires n < |holds| && holds[0] && forall i | 0 <= i < |holds| - 1 && holds[i] :: holds[i + 1]
    ensures holds[n]
  {
    if n > 0 {
      Always(holds, n - 1);
    }
  }

  ghost predicate HeirHolds(t: Tables, reports: seq<Report>, n: nat, from: Origin) {
    n <= |reports| &&
    HeirTaken(t, UpsertTo(t, reports, n, from), Heir(t, from), LastMissing(t, reports, n, from.provider))
  }

  lemma HeirHoldsNext(t: Tables, reports: seq<Report>, n: nat, from: Origin)
    requires n < |reports| && RealIds(reports) && Heir(t, from) < |t.nodes| && HeirHolds(t, reports, n, from)
    ensures HeirHolds(t, reports, n + 1, from)
  {
    HeirTakenAgain(t, UpsertTo(t, reports, n, from), LastMissing(t, reports, n, from.provider), reports[n], from);
  }

  /** With a legacy row at the endpoint, every node without a row is written over that same row:
      the rename stays unflushed, so each query still finds it. */
  lemma OneHeirForAll(t: Tables, reports: seq<Report>, n: nat, from: Origin)
    requires n <= |reports| && RealIds(reports) && Heir(t, from) < |t.nodes|
    ensures HeirTaken(t, UpsertTo(t, reports, n, from), Heir(t, from), LastMissing(t, reports, n, from.provider))
  {
    var holds := seq(|reports| + 1, i requires 0 <= i <= |reports| => HeirHolds(t, reports, i, from));
    forall i | 0 <= i < |holds| - 1 && holds[i] ensures holds[i + 1] {
      HeirHoldsNext(t, reports, i, from);
    }
    Always(holds, n);
    assert holds[n];
  }

  predicate NoHeirs(links: seq<Link>, nodes: seq<Row>, from: Origin) {
    forall j | 0 <= j < |links| && links[j].endpoint == from.endpoint && links[j].node < |nodes| ::
      nodes[links[j].node].provider == from.provider ==> !IsLegacy(nodes[links[j].node].id)
  }

  /** The rows of `t`, then one for each missing id. */
  predicate RowsAdded(t: Tables, nodes: seq<Row>, provider: string, missing: seq<string>) {
    && |nodes| == |t.nodes| + |missing|
    && (forall i | 0 <= i < |t.nodes| ::
          nodes[i].provider == t.nodes[i].provider && nodes[i].id == t.nodes[i].id &&
              nodes[i].firstSeen == t.nodes[i].firstSeen)
    && forall i | |t.nodes| <= i < |nodes| :: nodes[i].provider == provider && nodes[i].id == missing[i - |t.nodes|]
  }

  predicate RowsCreated(t: Tables, w: Work, from: Origin, missing: seq<string>) {
    && Consistent(w.stored, w.session)
    && RowsAdded(t, w.stored.nodes, from.provider, missing) && RowsAdded(t, w.session.nodes, from.provider, missing)
    && NoHeirs(w.stored.links, w.stored.nodes, from) && NoHeirs(w.session.links, w.session.nodes, from)
  }

  lemma NoHeirFound(t: Tables, from: Origin)
    ensures Heir(t, from) == |t.nodes| <==> NoHeirs(t.links, t.nodes, from)
  {
    if Heir(t, from) == |t.nodes| {
      forall j | 0 <= j < |t.links| && t.links[j].endpoint == from.endpoint && t.links[j].node < |t.nodes|
        ensures t.nodes[t.links[j].node].provider == from.provider ==> !IsLegacy(t.nodes[t.links[j].node].id)
      {
        assert !Usable(t, t.links[j].node, from, false);
      }
    }
  }

  lemma AddedHave(t: Tables, t': Tables, provider: string, missing: seq<string>, id: string)
    requires RowsAdded(t, t'.nodes, provider, missing)
    ensures HasRow(t', provider, id) <==> HasRow(t, provider, id) || id in missing
  {
    if i :| 0 <= i < |t.nodes| && Named(t.nodes[i], provider, id) {
      assert Named(t'.nodes[i], provider, id);
    }
    if i :| 0 <= i < |missing| && missing[i] == id {
      assert Named(t'.nodes[|t.nodes| + i], provider, id);
    }
    if i :| 0 <= i < |t'.nodes| && Named(t'.nodes[i], provider, id) {
      assert i < |t.nodes| ==> Named(t.nodes[i], provider, id);
    }
  }

  lemma OwnAmongAdded(t: Tables, w: Work, missing: seq<string>, r: Report, from: Origin)
    requires RowsCreated(t, w, from, missing)
    ensures FindOwn(w.stored.nodes, from.provider, r.id) < |w.stored.nodes| <==>
            HasRow(t, from.provider, r.id) || r.id in missing
    ensures Heir(w.stored, from) == |w.stored.nodes|
  {
    OwnOrMissing(w.stored.nodes, from.provider, r.id);
    AddedHave(t, w.stored, from.provider, missing, r.id);
    NoHeirFound(w.stored, from);
  }

  lemma PlacedAmongAdded(t: Tables, w: Work, missing: seq<string>, r: Report, from: Origin)
    requires RowsCreated(t, w, from, missing)
    ensures var (stored, session, node) := Placed(w.stored, w.session, r, from);
            var known := HasRow(t, from.provider, r.id) || r.id in missing;
            && node < |stored.nodes| && Named(stored.nodes[node], from.provider, r.id)
            && (known ==> stored == w.stored && session.links == w.session.links)
            && (!known ==> node == |w.stored.nodes| && stored.links == session.links == w.session.links)
  {
    OwnAmongAdded(t, w, missing, r, from);
  }

  lemma PlacedKeepsRows(t: Tables, w: Work, missing: seq<string>, r: Report, from: Origin)
    requires RowsCreated(t, w, from, missing) && !IsLegacy(r.id)
    ensures var (stored, session, node) := Placed(w.stored, w.session, r, from);
            RowsCreated(t, Work(stored, session, []), from,
                        if HasRow(t, from.provider, r.id) || r.id in missing then missing else missing + [r.id])
  {
    OwnAmongAdded(t, w, missing, r, from);
  }

  lemma RowCreatedAgain(t: Tables, w: Work, missing: seq<string>, r: Report, from: Origin)
    requires RowsCreated(t, w, from, missing) && !IsLegacy(r.id)
    ensures RowsCreated(t, UpsertedOne(w, r, from), from,
                        if HasRow(t, from.provider, r.id) || r.id in missing then missing else missing + [r.id])
  {
    var (stored, session, node) := Placed(w.stored, w.session, r, from);
    PlacedAmongAdded(t, w, missing, r, from);
    PlacedKeepsRows(t, w, missing, r, from);
    LinkKeepsRows(t, stored, session, node,
                  if HasRow(t, from.provider, r.id) || r.id in missing then missing else missing + [r.id], r.id, from);
  }

  lemma LinkKeepsRows(t: Tables, stored: Tables, session: Tables, node: nat, missing: seq<string>, id: string,
                      from: Origin)
    requires RowsCreated(t, Work(stored, session, []), from, missing) && !IsLegacy(id)
    requires node < |stored.nodes| && Named(stored.nodes[node], from.provider, id)
    ensures forall out :: RowsCreated(t, Work(stored, LinkKept(stored, session, node, from), out), from, missing)
  {
  }

  /** With none, every missing id gets one new row. */
  lemma {:induction false} OneRowForEach(t: Tables, reports: seq<Report>, n: nat, from: Origin)
    requires n <= |reports| && RealIds(reports) && Heir(t, from) == |t.nodes|
    ensures RowsCreated(t, UpsertTo(t, reports, n, from), from, Missing(t, reports, n, from.provider))
  {
    if n == 0 {
      NoHeirFound(t, from);
    } else {
      OneRowForEach(t, reports, n - 1, from);
      var missing := Missing(t, reports, n - 1, from.provider);
      RowCreatedAgain(t, UpsertTo(t, reports, n - 1, from), missing, reports[n - 1], from);
    }
  }

  /** Each listed row carries the id of its report. */
  predicate Carry(out: seq<nat>, nodes: seq<Row>, reports: seq<Report>, provider: string) {
    |out| <= |reports| &&
    forall i | 0 <= i < |out| :: out[i] < |nodes| && Named(nodes[out[i]], provider, reports[i].id)
  }

  lemma CarryOn(t: Tables, out: seq<nat>, before: seq<Row>, after: seq<Row>, reports: seq<Report>, provider: string,
                missing: seq<string>, more: seq<string>)
    requires RowsAdded(t, before, provider, missing) && RowsAdded(t, after, provider, missing + more)
    requires Carry(out, before, reports, provider)
    ensures Carry(out, after, reports, provider)
  {
    forall j | 0 <= j < |before| ensures after[j].provider == before[j].provider && after[j].id == before[j].id {
    }
  }

  lemma OutNext(t: Tables, reports: seq<Report>, n: nat, from: Origin)
    requires n < |reports|
    ensures var w := UpsertTo(t, reports, n, from);
            UpsertTo(t, reports, n + 1, from).out == w.out + [Placed(w.stored, w.session, reports[n], from).2]
  {
  }

  ghost predicate CarryHolds(t: Tables, reports: seq<Report>, n: nat, from: Origin) {
    && n <= |reports| && |UpsertTo(t, reports, n, from).out| == n
    && Carry(UpsertTo(t, reports, n, from).out, UpsertTo(t, reports, n, from).session.nodes, reports, from.provider)
  }

  lemma CarryStep(t: Tables, reports: seq<Report>, w: Work, w': Work, node: nat, missing: seq<string>,
                  next: seq<string>, from: Origin)
    requires |w.out| < |reports| && Carry(w.out, w.session.nodes, reports, from.provider)
    requires RowsAdded(t, w.session.nodes, from.provider, missing) && missing <= next
    requires RowsAdded(t, w'.session.nodes, from.provider, next) && w'.out == w.out + [node]
    requires node < |w'.session.nodes| && Named(w'.session.nodes[node], from.provider, reports[|w.out|].id)
    ensures Carry(w'.out, w'.session.nodes, reports, from.provider)
  {
    assert next == missing + next[|missing|..];
    CarryOn(t, w.out, w.session.nodes, w'.session.nodes, reports, from.provider, missing, next[|missing|..]);
  }

  lemma NextIsNamed(t: Tables, reports: seq<Report>, n: nat, from: Origin)
    requires n < |reports| && RealIds(reports) && Heir(t, from) == |t.nodes|
    ensures var w, w' := UpsertTo(t, reports, n, from), UpsertTo(t, reports, n + 1, from);
            var node := Placed(w.stored, w.session, reports[n], from).2;
            node < |w'.session.nodes| && Named(w'.session.nodes[node], from.provider, reports[n].id)
  {
    var w := UpsertTo(t, reports, n, from);
    OneRowForEach(t, reports, n, from);
    OneRowForEach(t, reports, n + 1, from);
    PlacedIsNamed(t, w, UpsertTo(t, reports, n + 1, from), Missing(t, reports, n, from.provider),
                  Missing(t, reports, n + 1, from.provider), reports[n],
                  Placed(w.stored, w.session, reports[n], from).2, from);
  }

  lemma RowsAfter(t: Tables, reports: seq<Report>, n: nat, from: Origin)
    requires n <= |reports| && RealIds(reports) && Heir(t, from) == |t.nodes|
    ensures RowsAdded(t, UpsertTo(t, reports, n, from).session.nodes, from.provider,
                      Missing(t, reports, n, from.provider))
  {
    OneRowForEach(t, reports, n, from);
  }

  lemma NextWork(t: Tables, reports: seq<Report>, n: nat, from: Origin)
    returns (w: Work, w': Work, node: nat, missing: seq<string>, next: seq<string>)
    requires n < |reports| && RealIds(reports) && Heir(t, from) == |t.nodes|
    ensures w == UpsertTo(t, reports, n, from) && w' == UpsertTo(t, reports, n + 1, from)
    ensures RowsAdded(t, w.session.nodes, from.provider, missing) && missing <= next
    ensures RowsAdded(t, w'.session.nodes, from.provider, next) && w'.out == w.out + [node]
    ensures node < |w'.session.nodes| && Named(w'.session.nodes[node], from.provider, reports[n].id)
  {
    w, w' := UpsertTo(t, reports, n, from), UpsertTo(t, reports, n + 1, from);
    node := Placed(w.stored, w.session, reports[n], from).2;
    missing, next := Missing(t, reports, n, from.provider), Missing(t, reports, n + 1, from.provider);
    RowsAfter(t, reports, n, from);
    RowsAfter(t, reports, n + 1, from);
    OutNext(t, reports, n, from);
    NextIsNamed(t, reports, n, from);
  }

  lemma CarryNext(t: Tables, reports: seq<Report>, n: nat, from: Origin)
    requires n < |reports| && RealIds(reports) && Heir(t, from) == |t.nodes| && CarryHolds(t, reports, n, from)
    ensures CarryHolds(t, reports, n + 1, from)
  {
    var w, w', node, missing, next := NextWork(t, reports, n, from);
    CarryStep(t, reports, w, w', node, missing, next, from);
  }

  lemma PlacedIsNamed(t: Tables, w: Work, w': Work, missing: seq<string>, next: seq<string>, r: Report, node: nat,
                      from: Origin)
    requires RowsCreated(t, w, from, missing) && node == Placed(w.stored, w.session, r, from).2
    requires w'.stored.nodes == Placed(w.stored, w.session, r, from).0.nodes && RowsCreated(t, w', from, next)
    ensures node < |w'.session.nodes| && Named(w'.session.nodes[node], from.provider, r.id)
  {
    PlacedAmongAdded(t, w, missing, r, from);
    CarryOn(t, [node], w'.stored.nodes, w'.session.nodes, [r], from.provider, next, []);
  }

  function OwnOrHeir(t: Tables, r: Report, from: Origin): nat {
    var own := FindOwn(t.nodes, from.provider, r.id);
    if own < |t.nodes| then own else Heir(t, from)
  }

  lemma PlacedAtOwnOrHeir(t: Tables, session: Tables, r: Report, from: Origin)
    requires Consistent(t, session) && Heir(t, from) < |t.nodes| && !IsLegacy(r.id)
    ensures Placed(t, session, r, from).2 == OwnOrHeir(t, r, from)
  {
    assert r.id != UNKNOWN;
  }

  lemma StoredStays(t: Tables, reports: seq<Report>, n: nat, from: Origin)
    requires n <= |reports| && RealIds(reports) && Heir(t, from) < |t.nodes|
    ensures UpsertTo(t, reports, n, from).stored == t
  {
    OneHeirForAll(t, reports, n, from);
  }

  lemma OutByHeir(t: Tables, reports: seq<Report>, n: nat, from: Origin)
    requires n < |reports| && RealIds(reports) && Heir(t, from) < |t.nodes|
    ensures UpsertTo(t, reports, n + 1, from).out ==
            UpsertTo(t, reports, n, from).out + [OwnOrHeir(t, reports[n], from)]
  {
    StoredStays(t, reports, n, from);
    OutNext(t, reports, n, from);
    PlacedAtOwnOrHeir(t, UpsertTo(t, reports, n, from).session, reports[n], from);
  }

  predicate TakenBy(out: seq<nat>, t: Tables, reports: seq<Report>, from: Origin) {
    |out| <= |reports| && forall i | 0 <= i < |out| :: out[i] == OwnOrHeir(t, reports[i], from)
  }

  lemma TakenByNext(out: seq<nat>, t: Tables, reports: seq<Report>, from: Origin)
    requires TakenBy(out, t, reports, from) && |out| < |reports|
    ensures TakenBy(out + [OwnOrHeir(t, reports[|out|], from)], t, reports, from)
  {
  }

  ghost predicate OutHolds(t: Tables, reports: seq<Report>, n: nat, from: Origin) {
    && n <= |reports| && |UpsertTo(t, reports, n, from).out| == n
    && TakenBy(UpsertTo(t, reports, n, from).out, t, reports, from)
  }

  lemma OutHoldsNext(t: Tables, reports: seq<Report>, n: nat, from: Origin)
    requires n < |reports| && RealIds(reports) && Heir(t, from) < |t.nodes| && OutHolds(t, reports, n, from)
    ensures OutHolds(t, reports, n + 1, from)
  {
    OutByHeir(t, reports, n, from);
    TakenByNext(UpsertTo(t, reports, n, from).out, t, reports, from);
  }

  lemma ReturnedByHeir(t: Tables, reports: seq<Report>, from: Origin)
    requires RealIds(reports) && Heir(t, from) < |t.nodes|
    ensures OutHolds(t, reports, |reports|, from)
  {
    var holds := seq(|reports| + 1, i requires 0 <= i <= |reports| => OutHolds(t, reports, i, from));
    forall i | 0 <= i < |holds| - 1 && holds[i] ensures holds[i + 1] {
      OutHoldsNext(t, reports, i, from);
    }
    Always(holds, |reports|);
    assert holds[|reports|];
  }

  lemma ReturnedByName(t: Tables, reports: seq<Report>, from: Origin)
    requires RealIds(reports) && Heir(t, from) == |t.nodes|
    ensures CarryHolds(t, reports, |reports|, from)
  {
    var holds := seq(|reports| + 1, i requires 0 <= i <= |reports| => CarryHolds(t, reports, i, from));
    forall i | 0 <= i < |holds| - 1 && holds[i] ensures holds[i + 1] {
      CarryNext(t, reports, i, from);
    }
    Always(holds, |reports|);
    assert holds[|reports|];
  }

  /** The call returns, for each report in turn, the row that carries its id; with a legacy row to take,
      the report's own row or that one. */
  lemma ReturnedRows(t: Tables, reports: seq<Report>, from: Origin)
    requires RealIds(reports)
    ensures var w := UpsertTo(t, reports, |reports|, from);
            && |w.out| == |reports|
            && (Heir(t, from) == |t.nodes| ==> Carry(w.out, w.session.nodes, reports, from.provider))
            && (Heir(t, from) < |t.nodes| ==> forall i | 0 <= i < |w.out| :: w.out[i] == OwnOrHeir(t, reports[i], from))
  {
    if Heir(t, from) == |t.nodes| {
      ReturnedByName(t, reports, from);
    } else {
      ReturnedByHeir(t, reports, from);
    }
  }

  lemma HeirKeeps(t: Tables, w: Work, heir: nat, last: Option<string>, provider: string, id: string)
    requires HeirTaken(t, w, heir, last) && heir < |t.nodes|
    requires t.nodes[heir].provider == provider && IsLegacy(t.nodes[heir].id) && !IsLegacy(id)
    ensures HasRow(w.session, provider, id) <==> HasRow(t, provider, id) || last == Some(id)
  {
    if i :| 0 <= i < |t.nodes| && Named(t.nodes[i], provider, id) {
      assert Named(w.session.nodes[i], provider, id);
    }
    if i :| 0 <= i < |t.nodes| && Named(w.session.nodes[i], provider, id) {
      assert i != heir ==> Named(t.nodes[i], provider, id);
    }
    if last == Some(id) {
      assert Named(w.session.nodes[heir], provider, id);
    }
  }

  /** A list of real ids ends with a row for every one of them exactly when no legacy row of the
      endpoint is there to be taken over, or at most one of the ids is without a row. */
  lemma ListKeptIff(t: Tables, reports: seq<Report>, from: Origin)
    requires RealIds(reports)
    ensures (forall i | 0 <= i < |reports| :: HasRow(Upserted(t, reports, from), from.provider, reports[i].id))
            <==> Heir(t, from) == |t.nodes| || |Missing(t, reports, |reports|, from.provider)| <= 1
  {
    var n := |reports|;
    var missing, last := Missing(t, reports, n, from.provider), LastMissing(t, reports, n, from.provider);
    var w := UpsertTo(t, reports, n, from);
    MissingDistinct(t, reports, n, from.provider);
    LastIsMissing(t, reports, n, from.provider);
    if Heir(t, from) == |t.nodes| {
      OneRowForEach(t, reports, n, from);
      forall i | 0 <= i < n ensures HasRow(w.session, from.provider, reports[i].id) {
        MissingAre(t, reports, n, from.provider, reports[i].id);
        AddedHave(t, w.session, from.provider, missing, reports[i].id);
      }
    } else {
      OneHeirForAll(t, reports, n, from);
      forall i | 0 <= i < n
        ensures HasRow(w.session, from.provider, reports[i].id) <==>
                reports[i].id !in missing || last == Some(reports[i].id)
      {
        MissingAre(t, reports, n, from.provider, reports[i].id);
        HeirKeeps(t, w, Heir(t, from), last, from.provider, reports[i].id);
      }
      OneLeftOver(t, reports, missing, last, from.provider);
    }
  }

  /** Of several missing ids at least one is not the last. */
  lemma OneLeftOver(t: Tables, reports: seq<Report>, missing: seq<string>, last: Option<string>, provider: string)
    requires missing == Missing(t, reports, |reports|, provider) && Distinct(missing)
    requires match last case None => missing == [] case Some(id) => id in missing
    ensures (forall i | 0 <= i < |reports| :: reports[i].id !in missing || last == Some(reports[i].id)) <==>
            |missing| <= 1
  {
    if |missing| > 1 {
      var other := if last == Some(missing[0]) then missing[1] else missing[0];
      MissingAre(t, reports, |reports|, provider, other);
      var i :| 0 <= i < |reports| && reports[i].id == other;
      assert reports[i].id in missing;
    }
  }

  /** Two new nodes behind an endpoint known only by a provisional row: the first one is lost. */
  lemma SecondOverwritesFirst(from: Origin)
    ensures var t := Tables([Row(from.provider, UNKNOWN, 0, Null)], [Link(0, from.endpoint, from.place, 0)]);
            var t' := Upserted(t, [Report("!a", None, Null), Report("!b", None, Null)], from);
            |t'.nodes| == 1 && t'.nodes[0].id == "!b"
  {
    var t := Tables([Row(from.provider, UNKNOWN, 0, Null)], [Link(0, from.endpoint, from.place, 0)]);
    var reports := [Report("!a", None, Null), Report("!b", None, Null)];
    assert t.links[0].endpoint == from.endpoint;
    assert Usable(t, 0, from, false);
    OneHeirForAll(t, reports, 2, from);
    assert LastMissing(t, reports, 2, from.provider) == Some("!b");
  }

  // ---------- identities over lists and runs ----------

  predicate KeepsIdentities(before: seq<Row>, after: seq<Row>) {
    && |before| <= |after|
    && forall i | 0 <= i < |before| && !IsLegacy(before[i].id) ::
         after[i].provider == before[i].provider && after[i].id == before[i].id &&
             after[i].firstSeen == before[i].firstSeen
  }

  lemma HeirKeepsUnique(t: Tables, w: Work, heir: nat, last: Option<string>, provider: string)
    requires UniqueIds(t.nodes) && HeirTaken(t, w, heir, last) && heir < |t.nodes| && t.nodes[heir].provider == provider
    requires last.Some? ==> !HasRow(t, provider, last.value)
    ensures UniqueIds(w.session.nodes)
  {
    if last.Some? {
      forall i | 0 <= i < |t.nodes| ensures !Named(t.nodes[i], provider, last.value) {
      }
    }
  }

  lemma AddedUnique(t: Tables, nodes: seq<Row>, provider: string, missing: seq<string>)
    requires UniqueIds(t.nodes) && RowsAdded(t, nodes, provider, missing) && Distinct(missing)
    requires forall id | id in missing :: !HasRow(t, provider, id)
    ensures UniqueIds(nodes)
  {
    forall i, j | 0 <= i < j < |nodes| && |t.nodes| <= j
      ensures nodes[i].provider != nodes[j].provider || nodes[i].id != nodes[j].id
    {
      assert missing[j - |t.nodes|] in missing;
      assert i < |t.nodes| ==> !Named(t.nodes[i], provider, missing[j - |t.nodes|]);
    }
  }

  /** Whatever a list of real ids loses, the key of the node table holds afterwards, rows with real
      ids keep what identifies them, and rows are created for exactly the missing ids or not at all. */
  lemma ListsKeepIdentities(t: Tables, reports: seq<Report>, from: Origin)
    requires UniqueIds(t.nodes) && RealIds(reports)
    ensures var t' := Upserted(t, reports, from);
            && UniqueIds(t'.nodes) && KeepsIdentities(t.nodes, t'.nodes)
            && |t'.nodes| == |t.nodes| +
               (if Heir(t, from) < |t.nodes| then 0 else |Missing(t, reports, |reports|, from.provider)|)
  {
    var n := |reports|;
    var missing, last := Missing(t, reports, n, from.provider), LastMissing(t, reports, n, from.provider);
    MissingDistinct(t, reports, n, from.provider);
    LastIsMissing(t, reports, n, from.provider);
    forall id | id in missing ensures !HasRow(t, from.provider, id) {
      MissingAre(t, reports, n, from.provider, id);
    }
    if Heir(t, from) < |t.nodes| {
      OneHeirForAll(t, reports, n, from);
      HeirKeepsUnique(t, UpsertTo(t, reports, n, from), Heir(t, from), last, from.provider);
    } else {
      OneRowForEach(t, reports, n, from);
      AddedUnique(t, Upserted(t, reports, from).nodes, from.provider, missing);
    }
  }

  datatype Call = Call(reports: seq<Report>, from: Origin)

  /** One node under any id, or a list of real ids. */
  predicate Tame(call: Call) {
    |call.reports| == 1 || RealIds(call.reports)
  }

  function AfterCalls(t: Tables, calls: seq<Call>): Tables {
    if calls == [] then t
    else
      var n := |calls| - 1;
      Upserted(AfterCalls(t, calls[..n]), calls[n].reports, calls[n].from)
  }

  lemma CallKeepsIdentities(t: Tables, call: Call)
    requires UniqueIds(t.nodes) && Tame(call)
    ensures UniqueIds(Upserted(t, call.reports, call.from).nodes)
    ensures KeepsIdentities(t.nodes, Upserted(t, call.reports, call.from).nodes)
  {
    if |call.reports| == 1 {
      assert call.reports == [call.reports[0]];
      OneReportOneRow(t, call.reports[0], call.from);
    } else {
      ListsKeepIdentities(t, call.reports, call.from);
    }
  }

  lemma IdentitiesChain(a: seq<Row>, b: seq<Row>, c: seq<Row>)
    requires KeepsIdentities(a, b) && KeepsIdentities(b, c)
    ensures KeepsIdentities(a, c)
  {
  }

  /** Over any run of calls the key holds and a row with a real id keeps its identity. */
  lemma {:induction false} IdentitiesLast(t: Tables, calls: seq<Call>)
    requires UniqueIds(t.nodes) && forall call | call in calls :: Tame(call)
    ensures UniqueIds(AfterCalls(t, calls).nodes) && KeepsIdentities(t.nodes, AfterCalls(t, calls).nodes)
    decreases |calls|
  {
    if calls != [] {
      var n := |calls| - 1;
      var before := AfterCalls(t, calls[..n]);
      IdentitiesLast(t, calls[..n]);
      CallKeepsIdentities(before, calls[n]);
      IdentitiesChain(t.nodes, before.nodes, AfterCalls(t, calls).nodes);
    }
  }

  lemma RowKept(t: Tables, t': Tables, provider: string, id: string)
    requires KeepsIdentities(t.nodes, t'.nodes) && !IsLegacy(id) && HasRow(t, provider, id)
    ensures HasRow(t', provider, id)
  {
    var i :| 0 <= i < |t.nodes| && Named(t.nodes[i], provider, id);
    assert Named(t'.nodes[i], provider, id);
  }

  /** A node that one call left in the table under a real id, as a call for a single node always
      does, is there after any further calls. */
  lemma ReportedNodesStay(t: Tables, first: Call, rest: seq<Call>, r: Report)
    requires UniqueIds(t.nodes) && Tame(first) && (forall call | call in rest :: Tame(call)) && !IsLegacy(r.id)
    requires first.reports == [r] || HasRow(Upserted(t, first.reports, first.from), first.from.provider, r.id)
    ensures HasRow(AfterCalls(Upserted(t, first.reports, first.from), rest), first.from.provider, r.id)
  {
    var t' := Upserted(t, first.reports, first.from);
    if first.reports == [r] {
      OneReportOneRow(t, r, first.from);
    }
    CallKeepsIdentities(t, first);
    IdentitiesLast(t', rest);
    RowKept(t', AfterCalls(t', rest), first.from.provider, r.id);
  }

  // ---------- one link per node and endpoint ----------

  /** The i-th report creates a row, which is the only thing that flushes the session. */
  predicate Opens(t: Tables, reports: seq<Report>, i: nat, from: Origin)
    requires i < |reports|
  {
    Heir(t, from) == |t.nodes| && !HasRow(t, from.provider, reports[i].id) && !Occurs(reports, i, reports[i].id)
  }

  /** Among the first `n` reports a row was created after one with this id. */
  predicate Flushed(t: Tables, reports: seq<Report>, n: nat, id: string, from: Origin)
    requires n <= |reports|
  {
    exists i, m :: 0 <= i < m < n && reports[i].id == id && Opens(t, reports, m, from)
  }

  /** The row that takes this id is not linked to the endpoint before the call. */
  predicate NeedsLink(t: Tables, id: string, from: Origin) {
    && (HasRow(t, from.provider, id) || Heir(t, from) == |t.nodes|)
    && forall k | 0 <= k < |t.nodes| && Named(t.nodes[k], from.provider, id) :: !Linked(t.links, k, from.endpoint)
  }

  /** The j-th report repeats the id first reported at `i`, whose new link is still unflushed. */
  predicate LinksAgain(t: Tables, reports: seq<Report>, i: nat, j: nat, from: Origin)
    requires i < j < |reports|
  {
    && reports[i].id == reports[j].id && !Occurs(reports, i, reports[i].id)
    && NeedsLink(t, reports[i].id, from)
    && forall m | i < m < j :: !Opens(t, reports, m, from)
  }

  predicate LinkedTwice(t: Tables, reports: seq<Report>, n: nat, from: Origin)
    requires n <= |reports|
  {
    exists i, j :: 0 <= i < j < n && LinksAgain(t, reports, i, j, from)
  }

  lemma {:induction false} FirstOccurrence(reports: seq<Report>, n: nat, id: string) returns (i: nat)
    requires n <= |reports| && Occurs(reports, n, id)
    ensures i < n && reports[i].id == id && !Occurs(reports, i, id)
  {
    i :| 0 <= i < n && reports[i].id == id;
    if Occurs(reports, i, id) {
      i := FirstOccurrence(reports, i, id);
    }
  }

  /** A report adds a second link exactly when its id occurred, needed a link, and was not flushed. */
  lemma LinkedTwiceNext(t: Tables, reports: seq<Report>, n: nat, from: Origin)
    requires n < |reports|
    ensures var id := reports[n].id;
            LinkedTwice(t, reports, n + 1, from) ==
            (LinkedTwice(t, reports, n, from) ||
             (Occurs(reports, n, id) && NeedsLink(t, id, from) && !Flushed(t, reports, n, id, from)))
  {
    var id := reports[n].id;
    if Occurs(reports, n, id) && NeedsLink(t, id, from) && !Flushed(t, reports, n, id, from) {
      var i := FirstOccurrence(reports, n, id);
      assert LinksAgain(t, reports, i, n, from);
    }
    if i, j :| 0 <= i < j < n && LinksAgain(t, reports, i, j, from) {
      assert 0 <= i < j < n + 1;
    }
  }

  lemma FlushedNext(t: Tables, reports: seq<Report>, n: nat, id: string, from: Origin)
    requires n < |reports|
    ensures Flushed(t, reports, n + 1, id, from) <==>
            Flushed(t, reports, n, id, from) || (Opens(t, reports, n, from) && Occurs(reports, n, id))
  {
    if i, m :| 0 <= i < m < n && reports[i].id == id && Opens(t, reports, m, from) {
      assert 0 <= i < m < n + 1;
    }
  }

  /** Whether row `k` is linked to the endpoint, in the session and as queries see it, once the first
      `seen` reports are linked and the first `placed` are placed. */
  predicate RowLinks(t: Tables, reports: seq<Report>, seen: nat, placed: nat, stored: Tables, session: Tables,
                     k: nat, from: Origin)
    requires seen <= |reports| && placed <= |reports| && k < |stored.nodes|
  {
    var mine := stored.nodes[k].provider == from.provider;
    && (Linked(session.links, k, from.endpoint) <==>
        Linked(t.links, k, from.endpoint) || (mine && Occurs(reports, seen, stored.nodes[k].id)))
    && (Linked(stored.links, k, from.endpoint) <==>
        Linked(t.links, k, from.endpoint) || (mine && Flushed(t, reports, placed, stored.nodes[k].id, from)))
  }

  predicate SameKeys(stored: seq<Link>, session: seq<Link>) {
    |stored| <= |session| &&
    forall j | 0 <= j < |stored| :: session[j].node == stored[j].node && session[j].endpoint == stored[j].endpoint
  }

  predicate LinksAre(t: Tables, reports: seq<Report>, n: nat, stored: Tables, session: Tables, from: Origin)
    requires n <= |reports|
  {
    && Consistent(stored, session) && Anchored(session) && SameKeys(stored.links, session.links)
    && forall k | 0 <= k < |stored.nodes| :: RowLinks(t, reports, n, n, stored, session, k, from)
  }

  /** Where the next report is placed, after the first `n`. */
  predicate PlacedWell(t: Tables, reports: seq<Report>, n: nat, before: Tables, stored: Tables, node: nat, from: Origin)
    requires n < |reports|
  {
    var id := reports[n].id;
    && |t.nodes| <= |before.nodes| <= |stored.nodes| && node < |stored.nodes|
    && (forall k | 0 <= k < |before.nodes| ::
          stored.nodes[k].provider == before.nodes[k].provider && stored.nodes[k].id == before.nodes[k].id)
    && (forall k | 0 <= k < |t.nodes| ::
        stored.nodes[k].provider == t.nodes[k].provider && stored.nodes[k].id == t.nodes[k].id)
    && UniqueIds(stored.nodes)
    && |stored.nodes| == |before.nodes| + (if Opens(t, reports, n, from) then 1 else 0)
    && (Opens(t, reports, n, from) ==> node == |before.nodes|)
    && if Named(stored.nodes[node], from.provider, id) then
         |t.nodes| <= node ==> Heir(t, from) == |t.nodes| && !HasRow(t, from.provider, id)
       else node == Heir(t, from) < |t.nodes| == |stored.nodes| && !HasRow(t, from.provider, id)
  }

  lemma HeirIsPlacedWell(t: Tables, reports: seq<Report>, n: nat, from: Origin)
    requires UniqueIds(t.nodes) && n < |reports| && Heir(t, from) < |t.nodes|
    ensures var own := FindOwn(t.nodes, from.provider, reports[n].id);
            PlacedWell(t, reports, n, t, t, if own < |t.nodes| then own else Heir(t, from), from)
  {
    OwnOrMissing(t.nodes, from.provider, reports[n].id);
  }

  lemma PlacedByHeir(t: Tables, reports: seq<Report>, n: nat, from: Origin)
    requires UniqueIds(t.nodes) && RealIds(reports) && n < |reports| && Heir(t, from) < |t.nodes|
    ensures var w := UpsertTo(t, reports, n, from);
            var (stored, session, node) := Placed(w.stored, w.session, reports[n], from);
            && PlacedWell(t, reports, n, w.stored, stored, node, from)
            && stored == w.stored && session.links == w.session.links
  {
    OneHeirForAll(t, reports, n, from);
    assert !IsLegacy(reports[n].id) && reports[n].id != UNKNOWN;
    HeirIsPlacedWell(t, reports, n, from);
  }

  lemma PlacedByName(t: Tables, reports: seq<Report>, n: nat, from: Origin)
    requires UniqueIds(t.nodes) && RealIds(reports) && n < |reports| && Heir(t, from) == |t.nodes|
    ensures var w := UpsertTo(t, reports, n, from);
            var (stored, session, node) := Placed(w.stored, w.session, reports[n], from);
            && PlacedWell(t, reports, n, w.stored, stored, node, from)
            && session.links == w.session.links
            && (if Opens(t, reports, n, from) then stored.links == w.session.links else stored == w.stored)
  {
    var w := UpsertTo(t, reports, n, from);
    var missing := Missing(t, reports, n, from.provider);
    var (stored, session, node) := Placed(w.stored, w.session, reports[n], from);
    OneRowForEach(t, reports, n, from);
    PlacedAmongAdded(t, w, missing, reports[n], from);
    PlacedKeepsRows(t, w, missing, reports[n], from);
    MissingAre(t, reports, n, from.provider, reports[n].id);
    AddedIsPlacedWell(t, reports, n, w.stored, stored, node, from);
  }

  lemma AddedIsPlacedWell(t: Tables, reports: seq<Report>, n: nat, before: Tables, stored: Tables, node: nat,
                          from: Origin)
    requires n < |reports| && UniqueIds(t.nodes) && Heir(t, from) == |t.nodes|
    requires RowsAdded(t, before.nodes, from.provider, Missing(t, reports, n, from.provider))
    requires RowsAdded(t, stored.nodes, from.provider, Missing(t, reports, n + 1, from.provider))
    requires node < |stored.nodes| && Named(stored.nodes[node], from.provider, reports[n].id)
    requires Opens(t, reports, n, from) ==> node == |before.nodes|
    ensures PlacedWell(t, reports, n, before, stored, node, from)
  {
    MissingAre(t, reports, n, from.provider, reports[n].id);
    AddedMissingUnique(t, stored.nodes, reports, n + 1, from.provider, node);
    assert Missing(t, reports, n, from.provider) <= Missing(t, reports, n + 1, from.provider);
  }

  lemma AddedMissingUnique(t: Tables, nodes: seq<Row>, reports: seq<Report>, n: nat, provider: string, node: nat)
    requires n <= |reports| && UniqueIds(t.nodes) && RowsAdded(t, nodes, provider, Missing(t, reports, n, provider))
    ensures UniqueIds(nodes)
    ensures |t.nodes| <= node < |nodes| ==> !HasRow(t, provider, nodes[node].id)
  {
    var missing := Missing(t, reports, n, provider);
    MissingDistinct(t, reports, n, provider);
    forall id | id in missing ensures !HasRow(t, provider, id) {
      MissingAre(t, reports, n, provider, id);
    }
    AddedUnique(t, nodes, provider, missing);
  }

  lemma RowAfterPlaced(t: Tables, reports: seq<Report>, n: nat, w: Work, stored: Tables, session: Tables, node: nat,
                       k: nat, from: Origin)
    requires n < |reports| && Anchored(t) && LinksAre(t, reports, n, w.stored, w.session, from) && k < |stored.nodes|
    requires PlacedWell(t, reports, n, w.stored, stored, node, from) && session.links == w.session.links
    requires if Opens(t, reports, n, from) then stored.links == w.session.links else stored == w.stored
    ensures RowLinks(t, reports, n, n + 1, stored, session, k, from)
  {
    FlushedNext(t, reports, n, stored.nodes[k].id, from);
    if k < |w.stored.nodes| {
      assert RowLinks(t, reports, n, n, w.stored, w.session, k, from);
    }
  }

  lemma SameKeysSameLinks(a: seq<Link>, b: seq<Link>)
    requires |a| == |b| && forall j | 0 <= j < |a| :: a[j].node == b[j].node && a[j].endpoint == b[j].endpoint
    ensures forall k: nat, e: string :: Linked(a, k, e) <==> Linked(b, k, e)
    ensures UniqueLinks(a) <==> UniqueLinks(b)
  {
    forall k: nat, e: string ensures Linked(a, k, e) <==> Linked(b, k, e) {
      if j :| 0 <= j < |a| && a[j].node == k && a[j].endpoint == e {
        assert b[j].node == k && b[j].endpoint == e;
      }
      if j :| 0 <= j < |b| && b[j].node == k && b[j].endpoint == e {
        assert a[j].node == k && a[j].endpoint == e;
      }
    }
  }

  lemma LinkAdded(links: seq<Link>, l: Link)
    ensures forall k: nat, e: string :: Linked(links + [l], k, e) <==>
            Linked(links, k, e) || (l.node == k && l.endpoint == e)
    ensures UniqueLinks(links + [l]) <==> UniqueLinks(links) && !Linked(links, l.node, l.endpoint)
  {
    var more := links + [l];
    assert more[|links|] == l && forall j | 0 <= j < |links| :: more[j] == links[j];
    forall k: nat, e: string ensures Linked(more, k, e) <==> Linked(links, k, e) || (l.node == k && l.endpoint == e) {
      if j :| 0 <= j < |links| && links[j].node == k && links[j].endpoint == e {
        assert more[j].node == k && more[j].endpoint == e;
      }
      if j :| 0 <= j < |more| && more[j].node == k && more[j].endpoint == e && j < |links| {
        assert links[j].node == k && links[j].endpoint == e;
      }
    }
    if UniqueLinks(more) {
      forall i, j | 0 <= i < j < |links|
        ensures links[i].node != links[j].node || links[i].endpoint != links[j].endpoint {
        assert more[i].node != more[j].node || more[i].endpoint != more[j].endpoint;
      }
    }
  }

  lemma LinkKeptIs(stored: Tables, session: Tables, node: nat, from: Origin)
    requires Consistent(stored, session) && Anchored(session) && node < |session.nodes| &&
             SameKeys(stored.links, session.links)
    ensures var session' := LinkKept(stored, session, node, from);
            && Consistent(stored, session') && Anchored(session') && SameKeys(stored.links, session'.links)
            && (forall k: nat :: Linked(session'.links, k, from.endpoint) <==>
                Linked(session.links, k, from.endpoint) || k == node)
            && (UniqueLinks(session'.links) <==>
                UniqueLinks(session.links) && (Linked(stored.links, node, from.endpoint) ||
                    !Linked(session.links, node, from.endpoint)))
  {
    var j := FindLink(stored.links, node, from.endpoint);
    if j < |stored.links| {
      var l := session.links[j].(place := from.place, lastSeen := from.now);
      SameKeysSameLinks(session.links, session.links[j := l]);
      assert session.links[j].node == node && session.links[j].endpoint == from.endpoint;
    } else {
      LinkAdded(session.links, Link(node, from.endpoint, from.place, from.now));
    }
  }

  lemma PlacedSomehow(t: Tables, reports: seq<Report>, n: nat, from: Origin)
    requires UniqueIds(t.nodes) && RealIds(reports) && n < |reports|
    ensures var w := UpsertTo(t, reports, n, from);
            var (stored, session, node) := Placed(w.stored, w.session, reports[n], from);
            && PlacedWell(t, reports, n, w.stored, stored, node, from)
            && session.links == w.session.links && |stored.nodes| == |session.nodes| >= |w.session.nodes|
            && (if Opens(t, reports, n, from) then stored.links == w.session.links else stored == w.stored)
  {
    if Heir(t, from) < |t.nodes| {
      PlacedByHeir(t, reports, n, from);
    } else {
      PlacedByName(t, reports, n, from);
    }
  }

  /** Whether the row that takes the n-th report gets a second link. */
  lemma SecondLinkIff(t: Tables, reports: seq<Report>, n: nat, before: Tables, stored: Tables, session: Tables,
                      node: nat, from: Origin)
    requires n < |reports| && UniqueIds(t.nodes) && Anchored(t) && PlacedWell(t, reports, n, before, stored, node, from)
    requires RowLinks(t, reports, n, n + 1, stored, session, node, from)
    ensures var id := reports[n].id;
            !Linked(stored.links, node, from.endpoint) && Linked(session.links, node, from.endpoint) <==>
            Occurs(reports, n, id) && NeedsLink(t, id, from) && !Flushed(t, reports, n, id, from)
  {
    var id := reports[n].id;
    FlushedNext(t, reports, n, id, from);
    if Named(stored.nodes[node], from.provider, id) {
      if node < |t.nodes| {
        assert Named(t.nodes[node], from.provider, id);
      }
      assert NeedsLink(t, id, from) <==> !Linked(t.links, node, from.endpoint);
    } else {
      assert Usable(t, node, from, false);
    }
  }

  lemma RowAfterLink(t: Tables, reports: seq<Report>, n: nat, before: Tables, stored: Tables, session: Tables,
                     session': Tables, node: nat, k: nat, from: Origin)
    requires n < |reports| && PlacedWell(t, reports, n, before, stored, node, from) && k < |stored.nodes|
    requires Linked(session'.links, k, from.endpoint) <==> Linked(session.links, k, from.endpoint) || k == node
    requires RowLinks(t, reports, n, n + 1, stored, session, k, from)
    ensures RowLinks(t, reports, n + 1, n + 1, stored, session', k, from)
  {
    OccursNext(reports, n, stored.nodes[k].id);
    if !Named(stored.nodes[node], from.provider, reports[n].id) {
      assert Usable(t, node, from, false);
      assert !Named(t.nodes[k], from.provider, reports[n].id);
    }
  }

  lemma LinksStep(t: Tables, reports: seq<Report>, n: nat, w: Work, stored: Tables, session: Tables, node: nat,
                  session': Tables, from: Origin)
    requires n < |reports| && UniqueIds(t.nodes) && Anchored(t) && LinksAre(t, reports, n, w.stored, w.session, from)
    requires PlacedWell(t, reports, n, w.stored, stored, node, from)
    requires session.links == w.session.links && |stored.nodes| == |session.nodes| >= |w.session.nodes|
    requires if Opens(t, reports, n, from) then stored.links == w.session.links else stored == w.stored
    requires session' == LinkKept(stored, session, node, from)
    ensures LinksAre(t, reports, n + 1, stored, session', from)
    ensures UniqueLinks(session'.links) ==
            (UniqueLinks(w.session.links) &&
             !(Occurs(reports, n, reports[n].id) && NeedsLink(t, reports[n].id, from) &&
                 !Flushed(t, reports, n, reports[n].id, from)))
  {
    LinkKeptIs(stored, session, node, from);
    var next := n + 1;
    forall k | 0 <= k < |stored.nodes|
      ensures RowLinks(t, reports, n, next, stored, session, k, from) &&
              RowLinks(t, reports, next, next, stored, session', k, from)
    {
      RowAfterPlaced(t, reports, n, w, stored, session, node, k, from);
      RowAfterLink(t, reports, n, w.stored, stored, session, session', node, k, from);
    }
    SecondLinkIff(t, reports, n, w.stored, stored, session, node, from);
  }

  lemma LinksTurn(t: Tables, reports: seq<Report>, n: nat, w: Work, from: Origin) returns (w': Work)
    requires n < |reports| && UniqueIds(t.nodes) && Anchored(t) && RealIds(reports) &&
             w == UpsertTo(t, reports, n, from)
    requires LinksAre(t, reports, n, w.stored, w.session, from)
    ensures w' == UpsertTo(t, reports, n + 1, from) && LinksAre(t, reports, n + 1, w'.stored, w'.session, from)
    ensures UniqueLinks(w'.session.links) ==
            (UniqueLinks(w.session.links) &&
             !(Occurs(reports, n, reports[n].id) && NeedsLink(t, reports[n].id, from) &&
                 !Flushed(t, reports, n, reports[n].id, from)))
  {
    var (stored, session, node) := Placed(w.stored, w.session, reports[n], from);
    PlacedSomehow(t, reports, n, from);
    w' := UpsertedOne(w, reports[n], from);
    LinksStep(t, reports, n, w, stored, session, node, w'.session, from);
  }

  lemma LinksBefore(t: Tables, reports: seq<Report>, from: Origin)
    requires Sound(t)
    ensures LinksAre(t, reports, 0, t, t, from)
  {
    forall k | 0 <= k < |t.nodes| ensures RowLinks(t, reports, 0, 0, t, t, k, from) {
    }
  }

  ghost predicate LinksHold(t: Tables, reports: seq<Report>, n: nat, from: Origin) {
    n <= |reports| && var w := UpsertTo(t, reports, n, from); LinksAre(t, reports, n, w.stored, w.session, from)
  }

  lemma LinksHoldNext(t: Tables, reports: seq<Report>, n: nat, from: Origin)
    requires n < |reports| && UniqueIds(t.nodes) && Anchored(t) && RealIds(reports)
    requires LinksHold(t, reports, n, from)
    ensures LinksHold(t, reports, n + 1, from)
  {
    var _ := LinksTurn(t, reports, n, UpsertTo(t, reports, n, from), from);
  }

  lemma LinksHoldBefore(t: Tables, reports: seq<Report>, from: Origin)
    requires Sound(t)
    ensures LinksHold(t, reports, 0, from)
  {
    LinksBefore(t, reports, from);
  }

  lemma LinksAlwaysHold(t: Tables, reports: seq<Report>, from: Origin)
    requires Sound(t) && RealIds(reports)
    ensures forall i | 0 <= i <= |reports| :: LinksHold(t, reports, i, from)
  {
    var holds := seq(|reports| + 1, i requires 0 <= i <= |reports| => LinksHold(t, reports, i, from));
    LinksHoldBefore(t, reports, from);
    assert holds[0];
    forall i | 0 <= i < |holds| - 1 && holds[i] ensures holds[i + 1] {
      LinksHoldNext(t, reports, i, from);
    }
    forall i | 0 <= i <= |reports| ensures LinksHold(t, reports, i, from) {
      Always(holds, i);
      assert holds[i];
    }
  }

  lemma UniqueTurn(t: Tables, reports: seq<Report>, n: nat, from: Origin)
    requires n < |reports| && Sound(t) && RealIds(reports)
    ensures var id := reports[n].id;
            UniqueLinks(UpsertTo(t, reports, n + 1, from).session.links) ==
            (UniqueLinks(UpsertTo(t, reports, n, from).session.links) &&
             !(Occurs(reports, n, id) && NeedsLink(t, id, from) && !Flushed(t, reports, n, id, from)))
  {
    LinksAlwaysHold(t, reports, from);
    assert LinksHold(t, reports, n, from);
    var _ := LinksTurn(t, reports, n, UpsertTo(t, reports, n, from), from);
  }

  /** After the first `n` reports the links are single, unless one was added twice. */
  ghost predicate SingleUnlessTwice(t: Tables, reports: seq<Report>, n: nat, from: Origin) {
    n <= |reports| && UniqueLinks(UpsertTo(t, reports, n, from).session.links) == !LinkedTwice(t, reports, n, from)
  }

  lemma SingleNext(t: Tables, reports: seq<Report>, n: nat, from: Origin)
    requires n < |reports| && Sound(t) && RealIds(reports) && SingleUnlessTwice(t, reports, n, from)
    ensures SingleUnlessTwice(t, reports, n + 1, from)
  {
    UniqueTurn(t, reports, n, from);
    LinkedTwiceNext(t, reports, n, from);
  }

  lemma SingleBefore(t: Tables, reports: seq<Report>, from: Origin)
    requires Sound(t)
    ensures SingleUnlessTwice(t, reports, 0, from)
  {
  }

  lemma UniqueAfter(t: Tables, reports: seq<Report>, from: Origin)
    requires Sound(t) && RealIds(reports)
    ensures SingleUnlessTwice(t, reports, |reports|, from)
  {
    var holds := seq(|reports| + 1, i requires 0 <= i <= |reports| => SingleUnlessTwice(t, reports, i, from));
    SingleBefore(t, reports, from);
    forall i | 0 <= i < |holds| - 1 && holds[i] ensures holds[i + 1] {
      SingleNext(t, reports, i, from);
    }
    Always(holds, |reports|);
    assert holds[|reports|];
  }

  /** A list of real ids leaves sound tables exactly when no report repeats an id whose row was not
      linked to the endpoint, with no row created since the id was first reported. */
  lemma ListSoundIff(t: Tables, reports: seq<Report>, from: Origin)
    requires Sound(t) && RealIds(reports)
    ensures Sound(Upserted(t, reports, from)) <==> !LinkedTwice(t, reports, |reports|, from)
  {
    UniqueAfter(t, reports, from);
    LinksAlwaysHold(t, reports, from);
    assert LinksHold(t, reports, |reports|, from);
    ListsKeepIdentities(t, reports, from);
  }

  /** Two contacts without an id, from an empty table: one row, linked twice to one endpoint. */
  lemma RepeatedIdLinksTwice(from: Origin)
    ensures var t := Upserted(Tables([], []), [Report("unknown", None, Null), Report("unknown", None, Null)], from);
            var link := Link(0, from.endpoint, from.place, from.now);
            |t.nodes| == 1 && t.links == [link, link]
  {
    var t, r := Tables([], []), Report("unknown", None, Null);
    var one := UpsertTo(t, [r, r], 1, from);
    assert UpsertTo(t, [r, r], 0, from) == Work(t, t, []);
    assert one.stored.links == [] && one.session.links == [Link(0, from.endpoint, from.place, from.now)];
    assert |one.stored.nodes| == 1 && Named(one.stored.nodes[0], from.provider, r.id);
  }

  /** Over runs of calls for one node or for lists without repeated ids the tables stay sound. */
  lemma {:induction false} SoundOverRuns(t: Tables, calls: seq<Call>)
    requires Sound(t)
    requires forall call | call in calls ::
               |call.reports| == 1 ||
               (RealIds(call.reports) && forall i, j | 0 <= i < j < |call.reports| ::
                   call.reports[i].id != call.reports[j].id)
    ensures Sound(AfterCalls(t, calls))
    decreases |calls|
  {
    if calls != [] {
      var n := |calls| - 1;
      var before, call := AfterCalls(t, calls[..n]), calls[n];
      SoundOverRuns(t, calls[..n]);
      if |call.reports| == 1 {
        assert call.reports == [call.reports[0]];
        OneReportOneLink(before, call.reports[0], call.from);
      } else {
        ListSoundIff(before, call.reports, call.from);
      }
    }
  }
}

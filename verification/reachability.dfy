/** Transport reachability: probes with failure hysteresis, discovery, and the refresh of all rows. */
module Reachability {
  import opened JsonTree

  type Time = int

  // ---------- one endpoint ----------

  datatype Health = Health(reachable: bool, failures: int)

  function Limit(threshold: int): int {
    if threshold > 1 then threshold else 1
  }

  function Probed(h: Health, isOpen: bool, threshold: int): Health {
    if isOpen then Health(true, 0)
    else Health(h.reachable && h.failures + 1 < Limit(threshold), h.failures + 1)
  }

  /** Discovery marks an endpoint reachable and leaves its failure counter alone. */
  function Discovered(h: Health): Health {
    h.(reachable := true)
  }

  datatype Event = Probe(isOpen: bool) | Discovery

  function After(h: Health, events: seq<Event>, threshold: int): Health {
    if events == [] then h
    else
      var n := |events| - 1;
      var before := After(h, events[..n], threshold);
      match events[n] case Probe(isOpen) => Probed(before, isOpen, threshold) case Discovery => Discovered(before)
  }

  /** Failed probes since the last successful one. */
  function FailedInARow(events: seq<Event>): nat {
    if events == [] || events[|events| - 1] == Probe(true) then 0
    else FailedInARow(events[..|events| - 1]) + if events[|events| - 1] == Probe(false) then 1 else 0
  }

  /** The failure counter forgets everything before the last success, and discovery is no success. */
  lemma {:induction false} CounterIsFailedInARow(h: Health, events: seq<Event>, threshold: int)
    ensures After(h, events, threshold).failures ==
            FailedInARow(events) + if Probe(true) in events then 0 else h.failures
  {
    if events != [] {
      var n := |events| - 1;
      CounterIsFailedInARow(h, events[..n], threshold);
      assert events == events[..n] + [events[n]];
    }
  }

  /** Right after a probe an endpoint is online exactly when it was ever put online, by its initial
      state, a success or a discovery, and its counter is below the threshold, or below one. */
  lemma {:induction false} OnlineAfterProbe(h: Health, events: seq<Event>, threshold: int)
    requires events != [] && events[|events| - 1].Probe?
    ensures After(h, events, threshold).reachable <==>
            (h.reachable || Probe(true) in events || Discovery in events) &&
            (After(h, events, threshold).failures < threshold || After(h, events, threshold).failures < 1)
  {
    var n := |events| - 1;
    var before := events[..n];
    assert events == before + [events[n]];
    if before != [] {
      if before[n - 1].Probe? {
        OnlineAfterProbe(h, before, threshold);
      } else {
        assert Discovery in before;
      }
    }
  }

  /** After a success an endpoint survives the failures below the threshold and no more; the first
      failure takes it down when the threshold is one or less. */
  lemma DropsAtTheLimit(h: Health, events: seq<Event>, failures: nat, threshold: int)
    requires events != [] && events[|events| - 1] == Probe(true)
    ensures After(h, events + seq(failures, _ => Probe(false)), threshold).reachable <==>
            failures == 0 || failures < threshold
  {
    var all := events + seq(failures, _ => Probe(false));
    CounterIsFailedInARow(h, all, threshold);
    assert Probe(true) in all by {
      assert all[|events| - 1] == Probe(true);
    }
    TrailingFailures(events, failures);
    OnlineAfterProbe(h, all, threshold);
  }

  lemma {:induction false} TrailingFailures(events: seq<Event>, failures: nat)
    requires events != [] && events[|events| - 1] == Probe(true)
    ensures FailedInARow(events + seq(failures, _ => Probe(false))) == failures
  {
    var all := events + seq(failures, _ => Probe(false));
    if failures > 0 {
      assert all[..|all| - 1] == events + seq(failures - 1, _ => Probe(false));
      TrailingFailures(events, failures - 1);
    } else {
      assert all == events;
    }
  }

  // ---------- rows ----------

  /** What a probe can change of an endpoint row. */
  datatype Row = Row(health: Health, lastSeen: Option<Time>)

  function ProbedRow(row: Row, isOpen: bool, threshold: int, now: Time): Row {
    Row(Probed(row.health, isOpen, threshold), if isOpen then Some(now) else row.lastSeen)
  }

  /** One probe of a row: a success clears the counter and puts the row online, a failure counts and
      leaves an online row online while the counter stays below the threshold, or below one. */
  predicate Probes(before: Row, isOpen: bool, threshold: int, now: Time, after: Row) {
    && after.health.failures == (if isOpen then 0 else before.health.failures + 1)
    && (after.health.reachable <==>
        isOpen || (before.health.reachable && (after.health.failures < threshold || after.health.failures < 1)))
    && after.lastSeen == if isOpen then Some(now) else before.lastSeen
  }

  class Endpoint {
    const name: string
    var row: Row

    constructor (name: string, row: Row)
      ensures this.name == name && this.row == row
    {
      this.name, this.row := name, row;
    }

    /** The counter, flag and time stamp for one probe. */
    method Record(isOpen: bool, threshold: int, now: Time) returns (effective: bool)
      modifies this
      ensures row == ProbedRow(old(row), isOpen, threshold, now)
      ensures Probes(old(row), isOpen, threshold, now, row)
      ensures effective == row.health.reachable
    {
      var failures := row.health.failures;
      if isOpen {
        failures := 0;
        effective := true;
      } else {
        failures := failures + 1;
        effective := row.health.reachable && failures < Limit(threshold);
      }
      row := row.(health := Health(effective, failures));
      if isOpen {
        row := row.(lastSeen := Some(now));
      }
    }
  }

  class Node {
    const endpoints: seq<string>
    var reachable: bool

    constructor (endpoints: seq<string>, reachable: bool)
      ensures this.endpoints == endpoints && this.reachable == reachable
    {
      this.endpoints, this.reachable := endpoints, reachable;
    }
  }

  datatype Summary = Summary(
    endpointsTotal: nat, endpointsOnline: nat, endpointsOffline: nat,
    nodesTotal: nat, nodesOnline: nat, nodesOffline: nat, nodeChanges: nat)

  function CountTo(flags: seq<bool>, n: nat): nat
    requires n <= |flags|
  {
    if n == 0 then 0 else CountTo(flags, n - 1) + if flags[n - 1] then 1 else 0
  }

  function Count(flags: seq<bool>): nat {
    CountTo(flags, |flags|)
  }

  lemma {:induction false} CountIs(flags: seq<bool>, n: nat, indices: set<int>)
    requires n <= |flags| && forall i :: i in indices <==> 0 <= i < n && flags[i]
    ensures CountTo(flags, n) == |indices|
  {
    if n == 0 {
      forall i ensures i !in indices {
      }
    } else {
      CountIs(flags, n - 1, indices - {n - 1});
      assert flags[n - 1] ==> indices == (indices - {n - 1}) + {n - 1};
      assert !flags[n - 1] ==> indices == indices - {n - 1};
    }
  }

  /** The places of the rows that are online. */
  ghost function OnlineRows(endpoints: seq<Endpoint>): set<int>
    reads endpoints
  {
    set i | 0 <= i < |endpoints| && endpoints[i].row.health.reachable
  }

  ghost function OnlineNodes(nodes: seq<Node>): set<int>
    reads nodes
  {
    set i | 0 <= i < |nodes| && nodes[i].reachable
  }

  ghost function EndpointFlags(endpoints: seq<Endpoint>): seq<bool>
    reads endpoints
  {
    seq(|endpoints|, i requires 0 <= i < |endpoints| reads endpoints => endpoints[i].row.health.reachable)
  }

  /** The names of the endpoints that are up. */
  ghost function Up(endpoints: seq<Endpoint>): set<string>
    reads endpoints
  {
    set i | 0 <= i < |endpoints| && endpoints[i].row.health.reachable :: endpoints[i].name
  }

  function NamesOf(endpoints: seq<Endpoint>): (names: seq<string>)
    ensures |names| == |endpoints|
  {
    seq(|endpoints|, i requires 0 <= i < |endpoints| => endpoints[i].name)
  }

  /** `endpoint_state` after the first `n` endpoints. */
  function StateOf(names: seq<string>, flags: seq<bool>, n: nat): map<string, bool>
    requires n <= |names| && n <= |flags|
  {
    if n == 0 then map[] else StateOf(names, flags, n - 1)[names[n - 1] := flags[n - 1]]
  }

  lemma {:induction false} StateOfHolds(names: seq<string>, flags: seq<bool>, n: nat)
    requires n <= |names| && n <= |flags| && Distinct(names)
    ensures forall x :: (x in StateOf(names, flags, n) && StateOf(names, flags, n)[x]) <==>
                        exists i :: 0 <= i < n && names[i] == x && flags[i]
  {
    if n > 0 {
      StateOfHolds(names, flags, n - 1);
    }
  }

  predicate DistinctRows(endpoints: seq<Endpoint>) {
    forall i, j | 0 <= i < j < |endpoints| :: endpoints[i] != endpoints[j] && endpoints[i].name != endpoints[j].name
  }

  ghost function RowsOf(endpoints: seq<Endpoint>): seq<Row>
    reads endpoints
  {
    seq(|endpoints|, i requires 0 <= i < |endpoints| reads endpoints => endpoints[i].row)
  }

  function ProbedRows(rows: seq<Row>, probes: seq<bool>, threshold: int, now: Time): (after: seq<Row>)
    requires |probes| == |rows|
    ensures |after| == |rows|
  {
    seq(|rows|, i requires 0 <= i < |rows| => ProbedRow(rows[i], probes[i], threshold, now))
  }

  function FlagsOf(rows: seq<Row>): (flags: seq<bool>)
    ensures |flags| == |rows|
  {
    seq(|rows|, i requires 0 <= i < |rows| => rows[i].health.reachable)
  }

  /** The first `i` rows have had their probe. */
  ghost predicate ProbedTo(endpoints: seq<Endpoint>, before: seq<Row>, after: seq<Row>, i: nat)
    requires |before| == |after| == |endpoints| && i <= |endpoints|
    reads endpoints
  {
    && (forall j | 0 <= j < i :: endpoints[j].row == after[j])
    && (forall j | i <= j < |endpoints| :: endpoints[j].row == before[j])
  }

  method ProbeNext(endpoints: seq<Endpoint>, i: nat, isOpen: bool, threshold: int, now: Time, ghost before: seq<Row>,
                   ghost after: seq<Row>)
    returns (effective: bool)
    requires DistinctRows(endpoints) && |before| == |after| == |endpoints| && i < |endpoints|
    requires ProbedTo(endpoints, before, after, i) && after[i] == ProbedRow(before[i], isOpen, threshold, now)
    modifies endpoints
    ensures ProbedTo(endpoints, before, after, i + 1)
    ensures effective == after[i].health.reachable && (isOpen ==> effective)
  {
    effective := endpoints[i].Record(isOpen, threshold, now);
  }

  /** The probing loop over the rows as they are and as they will be. */
  method ProbeLoop(endpoints: seq<Endpoint>, probes: seq<bool>, threshold: int, now: Time, ghost names: seq<string>,
                   ghost before: seq<Row>, ghost after: seq<Row>, ghost flags: seq<bool>)
    returns (state: map<string, bool>, online: nat, offline: nat)
    requires |probes| == |endpoints| && DistinctRows(endpoints)
    requires |names| == |flags| == |endpoints| && forall i | 0 <= i < |endpoints| :: names[i] == endpoints[i].name
    requires |before| == |after| == |endpoints| && ProbedTo(endpoints, before, after, 0)
    requires forall i | 0 <= i < |after| :: after[i] == ProbedRow(before[i], probes[i], threshold, now)
    requires forall i | 0 <= i < |after| :: flags[i] == after[i].health.reachable
    modifies endpoints
    ensures ProbedTo(endpoints, before, after, |endpoints|)
    ensures state == StateOf(names, flags, |names|)
    ensures online + offline == |endpoints| && online == Count(flags)
  {
    state, online, offline := map[], 0, 0;
    for i := 0 to |endpoints|
      invariant ProbedTo(endpoints, before, after, i)
      invariant state == StateOf(names, flags, i)
      invariant online + offline == i && online == CountTo(flags, i)
    {
      var effective := ProbeNext(endpoints, i, probes[i], threshold, now, before, after);
      state := state[endpoints[i].name := effective];
      if probes[i] || effective {
        online := online + 1;
      } else {
        offline := offline + 1;
      }
    }
  }

  /** `probes` is what each row's probe reports. */
  method ProbeRows(endpoints: seq<Endpoint>, probes: seq<bool>, threshold: int, now: Time)
    returns (state: map<string, bool>, online: nat, offline: nat)
    requires |probes| == |endpoints| && DistinctRows(endpoints)
    modifies endpoints
    ensures RowsOf(endpoints) == ProbedRows(old(RowsOf(endpoints)), probes, threshold, now)
    ensures var flags := FlagsOf(RowsOf(endpoints));
            state == StateOf(NamesOf(endpoints), flags, |flags|) && online + offline == |endpoints| &&
            online == Count(flags)
  {
    ghost var before := RowsOf(endpoints);
    ghost var after := ProbedRows(before, probes, threshold, now);
    state, online, offline := ProbeLoop(endpoints, probes, threshold, now, NamesOf(endpoints), before, after,
                                          FlagsOf(after));
    RowsAre(endpoints, before, after);
  }

  lemma RowsAre(endpoints: seq<Endpoint>, before: seq<Row>, after: seq<Row>)
    requires |before| == |after| == |endpoints| && ProbedTo(endpoints, before, after, |endpoints|)
    ensures RowsOf(endpoints) == after
  {
  }

  method ProbeAll(endpoints: seq<Endpoint>, probes: seq<bool>, threshold: int, now: Time)
    returns (state: map<string, bool>, online: nat, offline: nat)
    requires |probes| == |endpoints| && DistinctRows(endpoints)
    modifies endpoints
    ensures forall i | 0 <= i < |endpoints| ::
              Probes(old(endpoints[i].row), probes[i], threshold, now, endpoints[i].row)
    ensures (set n | n in state && state[n]) == Up(endpoints)
    ensures online + offline == |endpoints| && online == |OnlineRows(endpoints)|
  {
    state, online, offline := ProbeRows(endpoints, probes, threshold, now);
    assert FlagsOf(RowsOf(endpoints)) == EndpointFlags(endpoints);
    forall i | 0 <= i < |endpoints|
      ensures Probes(old(endpoints[i].row), probes[i], threshold, now, endpoints[i].row) {
      assert RowsOf(endpoints)[i] == endpoints[i].row && old(RowsOf(endpoints)[i]) == old(endpoints[i].row);
    }
    CountIs(EndpointFlags(endpoints), |endpoints|, OnlineRows(endpoints));
    UpIs(endpoints, NamesOf(endpoints), EndpointFlags(endpoints), state);
  }

  lemma UpIs(endpoints: seq<Endpoint>, names: seq<string>, flags: seq<bool>, state: map<string, bool>)
    requires names == NamesOf(endpoints) && flags == EndpointFlags(endpoints) && Distinct(names)
    requires state == StateOf(names, flags, |names|)
    ensures (set n | n in state && state[n]) == Up(endpoints)
  {
    StateOfHolds(names, flags, |names|);
    var on := set n | n in state && state[n];
    forall x ensures x in on <==> x in Up(endpoints) {
      assert x in on <==> exists i :: 0 <= i < |names| && names[i] == x && flags[i];
      if i :| 0 <= i < |names| && names[i] == x && flags[i] {
        assert endpoints[i].row.health.reachable && endpoints[i].name == x;
      }
      if i :| 0 <= i < |endpoints| && endpoints[i].row.health.reachable && endpoints[i].name == x {
        assert names[i] == x && flags[i];
      }
    }
  }

  ghost function NodeFlags(nodes: seq<Node>): seq<bool>
    reads nodes
  {
    seq(|nodes|, i requires 0 <= i < |nodes| reads nodes => nodes[i].reachable)
  }

  function Differences(a: seq<bool>, b: seq<bool>): seq<bool>
    requires |a| == |b|
  {
    seq(|a|, i requires 0 <= i < |a| => a[i] != b[i])
  }

  /** `any(endpoint_state.get(e, False) for e in endpoints)` */
  predicate AnyOnline(endpoints: seq<string>, state: map<string, bool>) {
    exists e :: e in endpoints && e in state && state[e]
  }

  ghost predicate ReachedBy(names: seq<string>, endpoints: seq<Endpoint>)
    reads endpoints
  {
    exists j :: 0 <= j < |endpoints| && endpoints[j].row.health.reachable && endpoints[j].name in names
  }

  lemma AnyOnlineIsReached(names: seq<string>, state: map<string, bool>, endpoints: seq<Endpoint>)
    requires (set n | n in state && state[n]) == Up(endpoints)
    ensures AnyOnline(names, state) == ReachedBy(names, endpoints)
  {
    var up := set n | n in state && state[n];
    assert forall e | e in names :: e in up <==> e in state && state[e];
    assert forall e | e in names :: e in up <==>
        exists j :: 0 <= j < |endpoints| && endpoints[j].row.health.reachable && endpoints[j].name == e;
  }


  function EndpointsOf(nodes: seq<Node>): seq<seq<string>> {
    seq(|nodes|, i requires 0 <= i < |nodes| => nodes[i].endpoints)
  }

  function OnlineFlags(endpoints: seq<seq<string>>, state: map<string, bool>): (flags: seq<bool>)
    ensures |flags| == |endpoints|
  {
    seq(|endpoints|, i requires 0 <= i < |endpoints| => AnyOnline(endpoints[i], state))
  }

  lemma NodesCounted(before: seq<bool>, after: seq<bool>, on: set<int>, on': set<int>)
    requires |before| == |after|
    requires forall i :: i in on <==> 0 <= i < |before| && before[i]
    requires forall i :: i in on' <==> 0 <= i < |after| && after[i]
    ensures Count(after) == |on'| && Count(Differences(before, after)) == |(on' - on) + (on - on')|
  {
    CountIs(after, |after|, on');
    CountIs(Differences(before, after), |after|, (on' - on) + (on - on'));
  }

  /** The first `i` nodes have their new flag. */
  ghost predicate FlaggedTo(nodes: seq<Node>, before: seq<bool>, after: seq<bool>, i: nat)
    requires |before| == |after| == |nodes| && i <= |nodes|
    reads nodes
  {
    && (forall j | 0 <= j < i :: nodes[j].reachable == after[j])
    && (forall j | i <= j < |nodes| :: nodes[j].reachable == before[j])
  }

  method FlagNext(nodes: seq<Node>, i: nat, isReachable: bool, ghost before: seq<bool>, ghost after: seq<bool>)
    returns (changed: bool)
    requires forall a, b | 0 <= a < b < |nodes| :: nodes[a] != nodes[b]
    requires |before| == |after| == |nodes| && i < |nodes| && FlaggedTo(nodes, before, after, i)
    requires after[i] == isReachable
    modifies nodes
    ensures FlaggedTo(nodes, before, after, i + 1) && changed == (before[i] != after[i])
  {
    changed := nodes[i].reachable != isReachable;
    if changed {
      nodes[i].reachable := isReachable;
    }
  }

  lemma FlagsAre(nodes: seq<Node>, before: seq<bool>, after: seq<bool>)
    requires |before| == |after| == |nodes| && FlaggedTo(nodes, before, after, |nodes|)
    ensures NodeFlags(nodes) == after
  {
  }

  /** The node loop over the flags as they are and as they will be. */
  method FlagLoop(nodes: seq<Node>, state: map<string, bool>, ghost before: seq<bool>, ghost after: seq<bool>,
                  ghost diffs: seq<bool>)
    returns (online: nat, offline: nat, changes: nat)
    requires forall i, j | 0 <= i < j < |nodes| :: nodes[i] != nodes[j]
    requires |before| == |after| == |diffs| == |nodes| && FlaggedTo(nodes, before, after, 0)
    requires forall i | 0 <= i < |nodes| :: after[i] == AnyOnline(nodes[i].endpoints, state)
    requires forall i | 0 <= i < |nodes| :: diffs[i] == (before[i] != after[i])
    modifies nodes
    ensures FlaggedTo(nodes, before, after, |nodes|)
    ensures online + offline == |nodes| && online == Count(after) && changes == Count(diffs)
  {
    online, offline, changes := 0, 0, 0;
    for i := 0 to |nodes|
      invariant FlaggedTo(nodes, before, after, i)
      invariant online + offline == i && online == CountTo(after, i) && changes == CountTo(diffs, i)
    {
      var isReachable := AnyOnline(nodes[i].endpoints, state);
      var changed := FlagNext(nodes, i, isReachable, before, after);
      changes := if changed then changes + 1 else changes;
      if isReachable {
        online := online + 1;
      } else {
        offline := offline + 1;
      }
    }
  }

  method UpdateNodes(nodes: seq<Node>, state: map<string, bool>) returns (online: nat, offline: nat, changes: nat)
    requires forall i, j | 0 <= i < j < |nodes| :: nodes[i] != nodes[j]
    modifies nodes
    ensures NodeFlags(nodes) == OnlineFlags(EndpointsOf(nodes), state)
    ensures online + offline == |nodes| && online == Count(NodeFlags(nodes))
    ensures changes == Count(Differences(old(NodeFlags(nodes)), NodeFlags(nodes)))
  {
    ghost var before, after := NodeFlags(nodes), OnlineFlags(EndpointsOf(nodes), state);
    online, offline, changes := FlagLoop(nodes, state, before, after, Differences(before, after));
    FlagsAre(nodes, before, after);
  }

  method RefreshNodes(nodes: seq<Node>, state: map<string, bool>, ghost endpoints: seq<Endpoint>)
    returns (online: nat, offline: nat, changes: nat)
    requires forall i, j | 0 <= i < j < |nodes| :: nodes[i] != nodes[j]
    requires (set n | n in state && state[n]) == Up(endpoints)
    modifies nodes
    ensures forall i | 0 <= i < |nodes| :: nodes[i].reachable == ReachedBy(nodes[i].endpoints, endpoints)
    ensures online + offline == |nodes| && online == |OnlineNodes(nodes)|
    ensures changes == |(OnlineNodes(nodes) - old(OnlineNodes(nodes))) + (old(OnlineNodes(nodes)) - OnlineNodes(nodes))|
  {
    forall i | 0 <= i < |nodes|
      ensures OnlineFlags(EndpointsOf(nodes), state)[i] == ReachedBy(nodes[i].endpoints, endpoints)
    {
      AnyOnlineIsReached(nodes[i].endpoints, state, endpoints);
    }
    online, offline, changes := UpdateNodes(nodes, state);
    forall i | 0 <= i < |nodes| ensures nodes[i].reachable == OnlineFlags(EndpointsOf(nodes), state)[i] {
      assert nodes[i].reachable == NodeFlags(nodes)[i];
    }
    NodesCounted(old(NodeFlags(nodes)), NodeFlags(nodes), old(OnlineNodes(nodes)), OnlineNodes(nodes));
  }

  /** `refresh_transport_reachability`: the summary counts exactly what the rows say afterwards, and a
      node is reachable exactly when one of its endpoints is. */
  method Refresh(endpoints: seq<Endpoint>, nodes: seq<Node>, probes: seq<bool>, threshold: int, now: Time)
    returns (s: Summary)
    requires |probes| == |endpoints| && DistinctRows(endpoints)
    requires forall i, j | 0 <= i < j < |nodes| :: nodes[i] != nodes[j]
    modifies endpoints, nodes
    ensures forall i | 0 <= i < |endpoints| ::
              Probes(old(endpoints[i].row), probes[i], threshold, now, endpoints[i].row)
    ensures forall i | 0 <= i < |nodes| :: nodes[i].reachable == ReachedBy(nodes[i].endpoints, endpoints)
    ensures s.endpointsTotal == |endpoints| == s.endpointsOnline + s.endpointsOffline
    ensures s.endpointsOnline == |OnlineRows(endpoints)|
    ensures s.nodesTotal == |nodes| == s.nodesOnline + s.nodesOffline
    ensures s.nodesOnline == |OnlineNodes(nodes)|
    ensures s.nodeChanges ==
            |(OnlineNodes(nodes) - old(OnlineNodes(nodes))) + (old(OnlineNodes(nodes)) - OnlineNodes(nodes))|
  {
    ghost var before := OnlineNodes(nodes);
    var state, endpointsOnline, endpointsOffline := ProbeAll(endpoints, probes, threshold, now);
    assert unchanged(nodes);
    assert OnlineNodes(nodes) == before;
    label probed:
    ghost var up := OnlineRows(endpoints);
    var nodesOnline, nodesOffline, nodeChanges := RefreshNodes(nodes, state, endpoints);
    assert unchanged@probed(endpoints);
    assert OnlineRows(endpoints) == up;
    s := Summary(|endpoints|, endpointsOnline, endpointsOffline, |nodes|, nodesOnline, nodesOffline, nodeChanges);
  }

  // ---------- discovery ----------

  /** The endpoint has no row yet and is found again. */
  predicate FoundTwice(table: map<string, Row>, found: seq<string>, n: nat)
    requires n <= |found|
  {
    exists i, j :: 0 <= i < j < n && found[i] == found[j] && found[i] !in table
  }

  /** `DiscoveryService.scan` over the endpoints found: a known row is marked reachable and keeps its
      failure counter, an unknown one is added with a clean counter. Queries do not see rows that are
      added but not flushed, so an unknown endpoint found twice is added twice, and the unique
      endpoint column then refuses the commit of everything. */
  method Scan(table: map<string, Row>, found: seq<string>, now: Time) returns (ok: bool, out: map<string, Row>)
    ensures ok == !FoundTwice(table, found, |found|)
    ensures !ok ==> out == table
    ensures ok ==> forall n :: n in out <==> n in table || n in found
    ensures ok ==> forall n | n in table ::
              out[n] == if n in found then Row(Health(true, table[n].health.failures), Some(now)) else table[n]
    ensures ok ==> forall n | n in found && n !in table :: out[n] == Row(Health(true, 0), Some(now))
  {
    var session, added: seq<string> := table, [];
    for i := 0 to |found|
      invariant forall n :: n in session <==> n in table
      invariant forall n | n in table ::
        session[n] == if n in found[..i] then Row(Discovered(table[n].health), Some(now)) else table[n]
      invariant forall n :: n in added <==> n in found[..i] && n !in table
      invariant Distinct(added) == !FoundTwice(table, found, i)
    {
      var name := found[i];
      assert found[..i + 1] == found[..i] + [name];
      FoundTwiceNext(table, found, i);
      if name !in table {
        AddedAgain(added, name);
        added := added + [name];
      } else {
        session := session[name := Row(Discovered(session[name].health), Some(now))];
      }
    }
    assert found[..|found|] == found;
    ok := Distinct(added);
    out := if ok then session + (map n | n in added :: Row(Health(true, 0), Some(now))) else table;
  }

  lemma FoundTwiceNext(table: map<string, Row>, found: seq<string>, n: nat)
    requires n < |found|
    ensures FoundTwice(table, found, n + 1) ==
            (FoundTwice(table, found, n) || (found[n] in found[..n] && found[n] !in table))
  {
    if i, j :| 0 <= i < j < n && found[i] == found[j] && found[i] !in table {
      assert 0 <= i < j < n + 1;
    }
    if found[n] in found[..n] && found[n] !in table {
      var i :| 0 <= i < n && found[..n][i] == found[n];
      assert found[i] == found[n];
    }
  }

  lemma AddedAgain(added: seq<string>, name: string)
    ensures Distinct(added + [name]) <==> Distinct(added) && name !in added
  {
    if Distinct(added + [name]) {
      assert forall i | 0 <= i < |added| ::
          (added + [name])[i] == added[i] && (added + [name])[i] != (added + [name])[|added|];
    }
  }
}

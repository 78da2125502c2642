// The super-cluster topology: a random topology among validators, one among non-validators, and a
// round-robin bridge from every non-validator to one validator.
module SuperCluster {
  import opened Arithmetic
  import opened Graph
  import opened Wrappers
  import opened RandomTopology
  import Ring
  import Runner

  const CONNECTIONS_NUMBER := 1000000

  function Select(agents: seq<Agent>, validators: bool): seq<Agent> {
    if agents == [] then []
    else
      var a := agents[|agents| - 1];
      var rest := Select(agents[..|agents| - 1], validators);
      if a.isValidator == validators then rest + [a] else rest
  }

  function Bridges(nonValidators: seq<Agent>, validators: seq<Agent>, m: nat): seq<Connection>
    requires |validators| > 0 && m <= |nonValidators|
  {
    seq(m, i requires 0 <= i < m => Connection(nonValidators[i], validators[i % |validators|]))
  }

  function RingTopology(peering: nat): Topology {
    Topology(peering, CONNECTIONS_NUMBER, true)
  }

  datatype Plan = Plan(inner: seq<Connection>, outer: seq<Connection>, bridges: seq<Connection>) {
    function All(): seq<Connection> { inner + outer + bridges }
  }

  ghost predicate Valid(t: SuperClusterTopology, agents: seq<Agent>, plan: Plan) {
    var v, n := Select(agents, true), Select(agents, false);
    && |v| > 0
    && Planned(RingTopology(t.validatorPeering), v, plan.inner)
    && Planned(RingTopology(t.nonValidatorPeering), n, plan.outer)
    && plan.bridges == Bridges(n, v, |n|)
  }

  datatype SuperClusterTopology = SuperClusterTopology(validatorPeering: nat, nonValidatorPeering: nat) {

    // `agents` in the order the map iteration yields them. None is the division by zero that connecting an
    // empty list runs into.
    method MakeConnections(agents: seq<Agent>) returns (r: Option<Plan>)
      requires DistinctPorts(agents)
      ensures r.None? <==> |Select(agents, true)| < 2 || |Select(agents, false)| == 1
      ensures r.Some? ==> Valid(this, agents, r.value)
    {
      var validators, nonValidators := SplitAgents(agents);
      SelectDistinct(agents, true);
      SelectDistinct(agents, false);

      var inner := PlanGroup(validatorPeering, validators);
      var connected := Runner.Partition(|inner|, ITEMS_PER_ROUTINE, MAX_ROUTINES);
      if connected.None? {
        return None;
      }
      if |nonValidators| == 0 {
        return Some(Plan(inner, [], []));
      }
      var outer := PlanGroup(nonValidatorPeering, nonValidators);
      connected := Runner.Partition(|outer|, ITEMS_PER_ROUTINE, MAX_ROUTINES);
      if connected.None? {
        return None;
      }
      var bridges := Bridge(nonValidators, validators);
      return Some(Plan(inner, outer, bridges));
    }
  }

  // Lines 18-26.
  method SplitAgents(agents: seq<Agent>) returns (validators: seq<Agent>, nonValidators: seq<Agent>)
    ensures validators == Select(agents, true) && nonValidators == Select(agents, false)
  {
    validators, nonValidators := [], [];
    for i := 0 to |agents|
      invariant validators == Select(agents[..i], true) && nonValidators == Select(agents[..i], false)
    {
      assert agents[..i + 1][..i] == agents[..i];
      if agents[i].isValidator {
        validators := validators + [agents[i]];
      } else {
        nonValidators := nonValidators + [agents[i]];
      }
    }
    assert agents[..|agents|] == agents;
  }

  // Lines 46-50.
  method Bridge(nonValidators: seq<Agent>, validators: seq<Agent>) returns (cs: seq<Connection>)
    requires |validators| > 0
    ensures cs == Bridges(nonValidators, validators, |nonValidators|)
  {
    var bridges := new ConnectionList();
    for i := 0 to |nonValidators|
      invariant bridges.list == Bridges(nonValidators, validators, i)
    {
      var j := i % |validators|;
      bridges.Add(nonValidators[i], validators[j]);
    }
    cs := bridges.list;
  }

  method PlanGroup(peering: nat, group: seq<Agent>) returns (cs: seq<Connection>)
    requires DistinctPorts(group)
    ensures Planned(RingTopology(peering), group, cs)
    ensures cs == [] <==> |group| < 2
  {
    var connections := new ConnectionList();
    ghost var planned, rounds := RingTopology(peering).Populate(connections, group);
    cs := connections.list;
    assert cs == planned;
    EmptyPlanIff(RingTopology(peering), group, cs);
  }

  lemma {:induction false} SelectDistinct(agents: seq<Agent>, validators: bool)
    requires DistinctPorts(agents)
    ensures DistinctPorts(Select(agents, validators))
    ensures forall a :: a in Select(agents, validators) <==> a in agents && a.isValidator == validators
  {
    if agents != [] {
      var init, a := agents[..|agents| - 1], agents[|agents| - 1];
      SelectDistinct(init, validators);
      assert agents == init + [a];
    }
  }

  lemma SelectPartitions(agents: seq<Agent>)
    requires DistinctPorts(agents)
    ensures Ports(agents) == Ports(Select(agents, true)) + Ports(Select(agents, false))
    ensures Ports(Select(agents, true)) !! Ports(Select(agents, false))
  {
  }

  // ---- the bridges ----

  lemma BridgeSnoc(n: seq<Agent>, v: seq<Agent>, m: nat)
    requires |v| > 0 && m < |n|
    ensures Bridges(n, v, m + 1) == Bridges(n, v, m) + [Connection(n[m], v[m % |v|])]
  {
  }

  // Adding one moves to the next residue, or to zero and the next quotient.
  lemma NextResidue(m: nat, k: nat)
    requires k > 0
    ensures if m % k == k - 1 then (m + 1) % k == 0 && (m + 1) / k == m / k + 1
            else (m + 1) % k == m % k + 1 && (m + 1) / k == m / k
  {
    var q, r := m / k, m % k;
    assert m == k * q + r;
    if r == k - 1 {
      assert m + 1 == k * (q + 1);
      QuotientIs(m + 1, k, q + 1);
    } else {
      QuotientIs(m + 1, k, q);
    }
  }

  // How many of 0 .. m-1 leave the remainder j.
  function Share(m: nat, k: nat, j: nat): nat
    requires k > 0
  {
    m / k + if j < m % k then 1 else 0
  }

  lemma ShareNext(m: nat, k: nat, j: nat)
    requires k > 0 && j < k
    ensures Share(m + 1, k, j) == Share(m, k, j) + if m % k == j then 1 else 0
  {
    NextResidue(m, k);
  }

  // A bridge to validator r counts for validator r alone.
  lemma BridgeEnds(a: Agent, n: seq<Agent>, v: seq<Agent>, r: nat, j: nat)
    requires DistinctPorts(v) && r < |v| && j < |v| && a in n && v[j].port !in Ports(n)
    ensures Ends(Connection(a, v[r]), v[j].port) == if r == j then 1 else 0
  {
    assert a.port in Ports(n);
  }

  // Validator j carries the m-th part of the bridges, rounded up for the first m mod k validators.
  lemma {:induction false} BridgeLoad(n: seq<Agent>, v: seq<Agent>, m: nat, j: nat)
    requires DistinctPorts(v) && j < |v| && m <= |n| && v[j].port !in Ports(n)
    ensures Degree(Bridges(n, v, m), v[j].port) == Share(m, |v|, j)
  {
    if m == 0 {
      assert Bridges(n, v, 0) == [];
    } else {
      var r := (m - 1) % |v|;
      BridgeLoad(n, v, m - 1, j);
      BridgeSnoc(n, v, m - 1);
      BridgeEnds(n[m - 1], n, v, r, j);
      DegreeSnoc(Bridges(n, v, m - 1), Connection(n[m - 1], v[r]), v[j].port);
      ShareNext(m - 1, |v|, j);
    }
  }

  // Every non-validator with a bridge has exactly one.
  lemma {:induction false} BridgedOnce(n: seq<Agent>, v: seq<Agent>, m: nat, i: nat)
    requires DistinctPorts(n) && |v| > 0 && m <= |n| && i < |n| && n[i].port !in Ports(v)
    ensures Degree(Bridges(n, v, m), n[i].port) == if i < m then 1 else 0
  {
    if m == 0 {
      assert Bridges(n, v, 0) == [];
    } else {
      BridgedOnce(n, v, m - 1, i);
      BridgeSnoc(n, v, m - 1);
      var r := (m - 1) % |v|;
      BridgeEnds(v[r], v, n, m - 1, i);
      DegreeSnoc(Bridges(n, v, m - 1), Connection(n[m - 1], v[r]), n[i].port);
    }
  }

  lemma BridgingIsBalanced(t: SuperClusterTopology, agents: seq<Agent>, plan: Plan, i: nat, j: nat)
    requires DistinctPorts(agents) && Valid(t, agents, plan)
    ensures var v, n := Select(agents, true), Select(agents, false);
            && (i < |n| ==> Degree(plan.bridges, n[i].port) == 1)
            && (i < |v| && j < |v| ==> Degree(plan.bridges, v[i].port) <= Degree(plan.bridges, v[j].port) + 1)
  {
    var v, n := Select(agents, true), Select(agents, false);
    SelectPartitions(agents);
    SelectDistinct(agents, true);
    SelectDistinct(agents, false);
    if i < |n| {
      assert n[i].port in Ports(n);
      BridgedOnce(n, v, |n|, i);
    }
    if i < |v| && j < |v| {
      assert v[i].port in Ports(v) && v[j].port in Ports(v);
      BridgeLoad(n, v, |n|, i);
      BridgeLoad(n, v, |n|, j);
    }
  }

  // ---- the whole plan ----

  lemma SimpleWiden(cs: seq<Connection>, ports: set<int>, wide: set<int>)
    requires Simple(cs, ports) && ports <= wide
    ensures Simple(cs, wide)
  {
    forall i | 0 <= i < |cs| ensures Proper(cs[i], wide) {
      assert Proper(cs[i], ports);
    }
  }

  lemma SimpleConcat(cs: seq<Connection>, ds: seq<Connection>, ports: set<int>)
    requires Simple(cs, ports) && Simple(ds, ports)
    requires forall i, j :: 0 <= i < |cs| && 0 <= j < |ds| ==> !Joins(ds[j], cs[i].src.port, cs[i].dest.port)
    ensures Simple(cs + ds, ports)
  {
  }

  lemma BridgesSimple(n: seq<Agent>, v: seq<Agent>)
    requires DistinctPorts(n) && |v| > 0 && Ports(v) !! Ports(n)
    ensures Simple(Bridges(n, v, |n|), Ports(v) + Ports(n))
  {
    var bs := Bridges(n, v, |n|);
    forall i | 0 <= i < |bs| ensures Proper(bs[i], Ports(v) + Ports(n)) {
      assert n[i] in n && v[i % |v|] in v;
    }
    forall i, j | 0 <= i < j < |bs| ensures !Joins(bs[j], bs[i].src.port, bs[i].dest.port) {
      assert n[j] in n && v[i % |v|] in v;
      assert n[j].port in Ports(n) && v[i % |v|].port in Ports(v);
    }
  }

  // The three phases together plan a simple graph: in particular no bridge repeats an inner connection.
  lemma PlanIsSimple(t: SuperClusterTopology, agents: seq<Agent>, plan: Plan)
    requires DistinctPorts(agents) && Valid(t, agents, plan)
    ensures Simple(plan.All(), Ports(agents))
  {
    var v, n := Select(agents, true), Select(agents, false);
    var ports := Ports(agents);
    SelectPartitions(agents);
    SelectDistinct(agents, false);
    BridgesSimple(n, v);
    SimpleWiden(plan.inner, Ports(v), ports);
    SimpleWiden(plan.outer, Ports(n), ports);
    forall i, j | 0 <= i < |plan.inner| && 0 <= j < |plan.outer|
      ensures !Joins(plan.outer[j], plan.inner[i].src.port, plan.inner[i].dest.port)
    {
      assert Proper(plan.inner[i], Ports(v)) && Proper(plan.outer[j], Ports(n));
    }
    SimpleConcat(plan.inner, plan.outer, ports);
    var groups := plan.inner + plan.outer;
    forall i, j | 0 <= i < |groups| && 0 <= j < |plan.bridges|
      ensures !Joins(plan.bridges[j], groups[i].src.port, groups[i].dest.port)
    {
      if i < |plan.inner| {
        assert Proper(plan.inner[i], Ports(v));
      } else {
        assert Proper(plan.outer[i - |plan.inner|], Ports(n));
      }
      assert n[j] in n && v[j % |v|] in v;
      assert n[j].port in Ports(n) && v[j % |v|].port in Ports(v);
    }
    SimpleConcat(groups, plan.bridges, ports);
  }

  // What the peering number means for one group: no more than it, or the ring's two; and unless a million
  // connections were planned, no pair is left that could still be joined.
  ghost predicate Peered(peering: nat, group: seq<Agent>, cs: seq<Connection>) {
    && |cs| <= 1_000_000
    && (forall i {:trigger group[i]} :: 0 <= i < |group| ==>
          Degree(cs, group[i].port) <= (if peering < 2 then 2 else peering))
    && (|cs| < 1_000_000 ==>
          forall i, j {:trigger group[i], group[j]} :: 0 <= i < |group| && 0 <= j < |group| && i != j ==>
            || Adjacent(cs, group[i].port, group[j].port)
            || Degree(cs, group[i].port) >= peering || Degree(cs, group[j].port) >= peering)
  }

  lemma GroupIsPeered(peering: nat, group: seq<Agent>, cs: seq<Connection>)
    requires DistinctPorts(group) && Planned(RingTopology(peering), group, cs)
    ensures Peered(peering, group, cs)
  {
    forall i | 0 <= i < |group| ensures Degree(cs, group[i].port) <= if peering < 2 then 2 else peering {
      DegreeAtMost(RingTopology(peering), group, cs, i);
    }
    if |cs| < 1_000_000 {
      forall i, j | 0 <= i < |group| && 0 <= j < |group| && i != j
        ensures || Adjacent(cs, group[i].port, group[j].port)
                || Degree(cs, group[i].port) >= peering || Degree(cs, group[j].port) >= peering
      {
        ShortPlanIsMaximal(RingTopology(peering), group, cs, i, j);
      }
    }
  }

  // Both peering numbers reach the plan.
  lemma PeeringIsMet(t: SuperClusterTopology, agents: seq<Agent>, plan: Plan)
    requires DistinctPorts(agents) && Valid(t, agents, plan)
    ensures Peered(t.validatorPeering, Select(agents, true), plan.inner)
    ensures Peered(t.nonValidatorPeering, Select(agents, false), plan.outer)
  {
    SelectDistinct(agents, true);
    SelectDistinct(agents, false);
    GroupIsPeered(t.validatorPeering, Select(agents, true), plan.inner);
    GroupIsPeered(t.nonValidatorPeering, Select(agents, false), plan.outer);
  }

  // Everybody is connected as soon as the validators' ring is complete but for one connection.
  lemma PlanConnects(t: SuperClusterTopology, agents: seq<Agent>, plan: Plan)
    requires DistinctPorts(agents) && Valid(t, agents, plan)
    requires |Select(agents, true)| <= 1_000_001
    ensures Connected(plan.All(), Ports(agents))
  {
    var v, n := Select(agents, true), Select(agents, false);
    var all, hub := plan.All(), v[0].port;
    SelectPartitions(agents);
    SelectDistinct(agents, true);
    RingConnectsIff(RingTopology(t.validatorPeering), v, plan.inner);
    assert v[0] in v && hub in Ports(v);
    forall p | p in Ports(v) ensures Linked(all, p, hub) {
      LinkedMono(plan.inner, all, p, hub);
    }
    forall p | p in Ports(n) ensures Linked(all, p, hub) {
      var i :| 0 <= i < |n| && n[i].port == p;
      var q := v[i % |v|].port;
      assert v[i % |v|] in v;
      assert plan.bridges[i] == all[|plan.inner| + |plan.outer| + i];
      assert Joins(all[|plan.inner| + |plan.outer| + i], p, q);
      LinkedStep(all, p, q);
      LinkedTrans(all, p, q, hub);
    }
    HubConnects(all, Ports(agents), hub);
  }
}

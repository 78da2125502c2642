// The random topology builder: a ring (if asked for) and then random pairs of peers below their cap.
module RandomTopology {
  import opened Collections
  import opened Graph
  import opened TopologyInvariant
  import opened Wrappers
  import Ring
  import Runner

  const ITEMS_PER_ROUTINE := 5
  const MAX_ROUTINES := 50

  // The list of planned connections, extended through a pointer.
  class ConnectionList {
    var list: seq<Connection>

    constructor ()
      ensures list == []
    {
      list := [];
    }

    method Add(src: Agent, dest: Agent)
      modifies this
      ensures list == old(list) + [Connection(src, dest)]
    {
      list := list + [Connection(src, dest)];
    }
  }

  // The ports of all agents but the one on `port`.
  function Others(agents: seq<Agent>, port: int): seq<int> {
    if agents == [] then []
    else
      var a := agents[|agents| - 1];
      var others := Others(agents[..|agents| - 1], port);
      if a.port != port then others + [a.port] else others
  }

  lemma {:induction false} OthersListsTheRest(agents: seq<Agent>, port: int)
    requires DistinctPorts(agents)
    ensures NoDuplicates(Others(agents, port))
    ensures forall q :: q in Others(agents, port) <==> q in Ports(agents) && q != port
    ensures |Others(agents, port)| == |agents| - Member(port, Ports(agents))
  {
    if agents != [] {
      var init, a := agents[..|agents| - 1], agents[|agents| - 1];
      OthersListsTheRest(init, port);
      PortsSnoc(agents);
    }
  }

  class Peer {
    var connCount: nat
    const portID: int
    const agent: Agent
    var possibleConns: seq<int>

    ghost function View(): PeerView
      reads this
    {
      PeerView(connCount, possibleConns)
    }

    constructor (portID: int, agent: Agent, agents: seq<Agent>)
      ensures this.portID == portID && this.agent == agent
      ensures View() == PeerView(0, Others(agents, portID))
    {
      var possible := [];
      for i := 0 to |agents|
        invariant possible == Others(agents[..i], portID)
      {
        assert agents[..i + 1][..i] == agents[..i];
        if agents[i].port != portID {
          possible := possible + [agents[i].port];
        }
      }
      assert agents[..|agents|] == agents;
      this.connCount, this.portID, this.agent, this.possibleConns := 0, portID, agent, possible;
    }

    method IncConnCount()
      modifies this`connCount
      ensures connCount == old(connCount) + 1
    {
      connCount := connCount + 1;
    }

    method RemoveIndex(index: int)
      requires 0 <= index < |possibleConns|
      modifies this`possibleConns
      ensures possibleConns == SwapRemove(old(possibleConns), index)
      ensures NoDuplicates(old(possibleConns)) ==>
                Removed(old(possibleConns), old(possibleConns)[index], possibleConns)
    {
      var size := |possibleConns|;
      if NoDuplicates(possibleConns) {
        SwapRemoveRemoves(possibleConns, index);
      }
      possibleConns := possibleConns[index := possibleConns[size - 1]];
      possibleConns := possibleConns[..size - 1];
    }

    // Removes the first occurrence of `portID`, if there is one.
    method RemovePortId(portID: int)
      modifies this`possibleConns
      ensures portID !in old(possibleConns) ==> possibleConns == old(possibleConns)
      ensures portID in old(possibleConns) ==>
                exists i :: 0 <= i < |old(possibleConns)| && old(possibleConns)[i] == portID
                            && portID !in old(possibleConns)[..i]
                            && possibleConns == SwapRemove(old(possibleConns), i)
      ensures NoDuplicates(old(possibleConns)) && portID in old(possibleConns) ==>
                Removed(old(possibleConns), portID, possibleConns)
    {
      var i := 0;
      while i < |possibleConns|
        invariant i <= |possibleConns| && possibleConns == old(possibleConns)
        invariant portID !in possibleConns[..i]
      {
        if possibleConns[i] == portID {
          RemoveIndex(i);
          break;
        }
        i := i + 1;
      }
    }

    // The index is any in range; -1 stands for an empty list.
    method PopRandomPortID() returns (port: int)
      modifies this`possibleConns
      ensures old(possibleConns) == [] ==> port == -1 && possibleConns == []
      ensures old(possibleConns) != [] ==>
                exists i :: 0 <= i < |old(possibleConns)| && old(possibleConns)[i] == port
                            && possibleConns == SwapRemove(old(possibleConns), i)
      ensures old(possibleConns) != [] && NoDuplicates(old(possibleConns)) ==>
                Removed(old(possibleConns), port, possibleConns)
    {
      if |possibleConns| == 0 {
        return -1;
      }
      var index :| 0 <= index < |possibleConns|;
      port := possibleConns[index];
      RemoveIndex(index);
    }

    predicate CanBeUsed(max: nat)
      reads this
    {
      |possibleConns| > 0 && connCount < max
    }
  }

  type PeerMap = map<int, Peer>

  ghost function ViewOf(m: PeerMap): View
    reads m.Values
  {
    map p | p in m :: m[p].View()
  }

  // `m'` keeps some of the peers of `m`.
  ghost predicate Within(m': PeerMap, m: PeerMap) {
    forall p :: p in m' ==> p in m && m'[p] == m[p]
  }

  // All peers of `m` are among the objects `objs` allocated for this run.
  ghost predicate Backed(m: PeerMap, objs: set<Peer>) {
    forall p :: p in m ==> m[p] in objs
  }

  // A connection between two of the given agents.
  ghost predicate Joined(agents: seq<Agent>, c: Connection) {
    c.src in agents && c.dest in agents
  }

  ghost predicate AllJoined(agents: seq<Agent>, cs: seq<Connection>) {
    forall i {:trigger Joined(agents, cs[i])} :: 0 <= i < |cs| ==> Joined(agents, cs[i])
  }

  // All peers of `m` stand for one of the given agents.
  ghost predicate Staffed(agents: seq<Agent>, m: PeerMap) {
    forall p {:trigger m[p].agent} :: p in m ==> m[p].agent in agents
  }

  // The live slice and the map describe the same peers, one object per port.
  ghost predicate InStep(slice: seq<Agent>, m: PeerMap) {
    && DistinctPorts(slice)
    && Ports(slice) == m.Keys
    && (forall p :: p in m ==> m[p].portID == p && m[p].agent.port == p)
    && (forall a :: a in slice ==> m[a.port].agent == a)
  }

  // ---- set-up (lines 33-41) ----

  lemma InStepSnoc(slice: seq<Agent>, m: PeerMap, peer: Peer)
    requires InStep(slice, m) && peer.agent.port == peer.portID && peer.portID !in m
    ensures InStep(slice + [peer.agent], m[peer.portID := peer])
  {
  }

  method AddPeer(peers: seq<Agent>, i: nat, m: PeerMap, ghost objs: set<Peer>)
    returns (m': PeerMap, ghost objs': set<Peer>)
    requires DistinctPorts(peers) && i < |peers| && InStep(peers[..i], m) && Backed(m, objs)
    requires forall p :: p in m ==> m[p].View() == PeerView(0, Others(peers, p))
    ensures fresh(objs' - objs) && Backed(m', objs') && InStep(peers[..i + 1], m')
    ensures forall p :: p in m' ==> m'[p].View() == PeerView(0, Others(peers, p))
  {
    var peer := new Peer(peers[i].port, peers[i], peers);
    assert peers[..i + 1] == peers[..i] + [peers[i]];
    assert peers[i].port !in Ports(peers[..i]);
    InStepSnoc(peers[..i], m, peer);
    m', objs' := m[peers[i].port := peer], objs + {peer};
  }

  method NewPeers(peers: seq<Agent>) returns (m: PeerMap, ghost objs: set<Peer>)
    requires DistinctPorts(peers)
    ensures fresh(objs) && Backed(m, objs) && InStep(peers, m)
    ensures ViewOf(m) == map p | p in Ports(peers) :: PeerView(0, Others(peers, p))
  {
    m, objs := map[], {};
    for i := 0 to |peers|
      invariant fresh(objs) && Backed(m, objs)
      invariant InStep(peers[..i], m)
      invariant forall p :: p in m ==> m[p].View() == PeerView(0, Others(peers, p))
    {
      m, objs := AddPeer(peers, i, m, objs);
    }
    assert peers[..|peers|] == peers;
  }

  // Every port in `m` names its own object, so updating peers changes the view only there.
  ghost predicate Owned(m: PeerMap) {
    forall p :: p in m ==> m[p].portID == p
  }

  // The four updates made for a pair of peers (lines 52-55).
  method ConnectPeers(m: PeerMap, src: Agent, dst: Agent)
    requires Owned(m) && src.port in m && dst.port in m && src.port != dst.port
    requires NoDuplicates(m[src.port].possibleConns) && dst.port in m[src.port].possibleConns
    requires NoDuplicates(m[dst.port].possibleConns) && src.port in m[dst.port].possibleConns
    modifies m[src.port], m[dst.port]
    ensures ConnectStep(old(ViewOf(m)), src, dst, ViewOf(m))
  {
    assert m[src.port] != m[dst.port];
    m[src.port].RemovePortId(dst.port);
    m[src.port].IncConnCount();
    m[dst.port].RemovePortId(src.port);
    m[dst.port].IncConnCount();
  }

  // ---- the ring (lines 44-59) ----

  ghost predicate RingState(peers: seq<Agent>, v: View, k: nat)
    requires k <= Ring.Size(|peers|)
  {
    var cs := Ring.Prefix(peers, k);
    && v.Keys == Ports(peers)
    && Consistent(Ports(peers), v, cs)
    && (forall p, q {:trigger Adjacent(cs, p, q)} ::
          p in v && q in v && p != q ==> Adjacent(cs, p, q) || q in v[p].possible)
    && (forall p {:trigger v[p].possible} :: p in v ==> v[p].connCount + |v[p].possible| + 1 == |peers|)
  }

  lemma RingStart(peers: seq<Agent>, v: View)
    requires DistinctPorts(peers)
    requires v == map p | p in Ports(peers) :: PeerView(0, Others(peers, p))
    ensures RingState(peers, v, 0)
  {
    forall p | p in v
      ensures PeerConsistent(Ports(peers), p, v[p], []) && |v[p].possible| + 1 == |peers|
      ensures forall q :: q in v && q != p ==> q in v[p].possible
    {
      OthersListsTheRest(peers, p);
    }
    assert Ring.Prefix(peers, 0) == [];
  }

  lemma RingAdvance(peers: seq<Agent>, v: View, k: nat, v': View)
    requires DistinctPorts(peers) && k < Ring.Size(|peers|)
    requires RingState(peers, v, k)
    requires ConnectStep(v, peers[k], peers[Ring.Successor(k, |peers|)], v')
    ensures RingState(peers, v', k + 1)
  {
    var a, b := peers[k], peers[Ring.Successor(k, |peers|)];
    var cs := Ring.Prefix(peers, k);
    Ring.PrefixSnoc(peers, k);
    ConnectConsistent(Ports(peers), v, cs, a, b, v');
    forall p, q | p in v' && q in v' && p != q
      ensures Adjacent(cs + [Connection(a, b)], p, q) || q in v'[p].possible
    {
      AdjacentSnoc(cs, Connection(a, b), p, q);
    }
  }

  // Once the ring is complete all peers look alike, so all of them can be used or none.
  lemma RingIsUniform(peers: seq<Agent>, v: View, k: nat, max: nat)
    requires DistinctPorts(peers) && k <= Ring.Size(|peers|) && RingState(peers, v, k)
    requires k == 0 || k == Ring.Size(|peers|)
    ensures Uniform(v, max)
    ensures Covered(Ports(peers), v, Ring.Prefix(peers, k), max)
  {
    forall p | p in v
      ensures v[p].connCount == if k == 0 then 0 else if |peers| == 2 then 1 else 2
    {
      var j :| 0 <= j < |peers| && peers[j].port == p;
      Ring.PrefixDegree(peers, k, j);
      assert PeerConsistent(Ports(peers), p, v[p], Ring.Prefix(peers, k));
    }
  }

  method RingConnection(connections: ConnectionList, peers: seq<Agent>, m: PeerMap, i: nat,
                        ghost objs: set<Peer>, ghost base: seq<Connection>, ghost v: View)
    returns (ghost v': View, ghost k: nat)
    requires DistinctPorts(peers) && Owned(m) && Backed(m, objs) && m.Keys == Ports(peers)
    requires i < Ring.Size(|peers|) && v == ViewOf(m) && RingState(peers, v, i)
    requires connections.list == base + Ring.Prefix(peers, i)
    modifies connections, objs
    ensures k == i + 1 <= Ring.Size(|peers|)
    ensures v' == ViewOf(m) && RingState(peers, v', k)
    ensures connections.list == base + Ring.Prefix(peers, k)
  {
    k := i + 1;
    Ring.PrefixSnoc(peers, i);
    Ring.SuccessorIsMod(i, |peers|);
    var j := (i + 1) % |peers|;
    var src, dst := peers[i], peers[j];
    RingCandidates(peers, v, i);
    ConnectPeers(m, src, dst);
    v' := ViewOf(m);
    RingAdvance(peers, v, i, v');
    connections.Add(src, dst);
    Join3(base, Ring.Prefix(peers, i), [Connection(src, dst)]);
  }

  method CreateRing(connections: ConnectionList, peers: seq<Agent>, m: PeerMap, count: nat,
                    ghost objs: set<Peer>)
    returns (count': nat, ghost k: nat)
    requires DistinctPorts(peers) && Owned(m) && Backed(m, objs) && m.Keys == Ports(peers)
    requires RingState(peers, ViewOf(m), 0)
    modifies connections, objs
    ensures k <= Ring.Size(|peers|) && RingState(peers, ViewOf(m), k)
    ensures connections.list == old(connections.list) + Ring.Prefix(peers, k)
    ensures count' + k == count
    ensures count' == 0 || k == Ring.Size(|peers|)
  {
    count', k := count, 0;
    var end: int := |peers|;
    if end <= 2 {
      end := end - 1;
    }
    assert end == if peers == [] then -1 else Ring.Size(|peers|);
    ghost var base, v := connections.list, ViewOf(m);
    assert Ring.Prefix(peers, 0) == [];
    var i := 0;
    while i < end && count' > 0
      invariant 0 <= i <= Ring.Size(|peers|) && count' + i == count
      invariant k == i && v == ViewOf(m) && RingState(peers, v, k)
      invariant connections.list == base + Ring.Prefix(peers, k)
    {
      v, k := RingConnection(connections, peers, m, i, objs, base, v);
      count', i := count' - 1, i + 1;
    }
  }

  lemma RingCandidates(peers: seq<Agent>, v: View, k: nat)
    requires DistinctPorts(peers) && k < Ring.Size(|peers|) && RingState(peers, v, k)
    ensures var a, b := peers[k].port, peers[Ring.Successor(k, |peers|)].port;
            && a in v && b in v && a != b
            && NoDuplicates(v[a].possible) && NoDuplicates(v[b].possible)
            && b in v[a].possible && a in v[b].possible
  {
    var a, b := peers[k].port, peers[Ring.Successor(k, |peers|)].port;
    Ring.PrefixFresh(peers, k);
    AdjacentSym(Ring.Prefix(peers, k), a, b);
    assert PeerConsistent(Ports(peers), a, v[a], Ring.Prefix(peers, k));
    assert PeerConsistent(Ports(peers), b, v[b], Ring.Prefix(peers, k));
  }

  // ---- the random phase (lines 62-109) ----

  ghost predicate Ready(ports: set<int>, v: View, cs: seq<Connection>, max: nat) {
    Consistent(ports, v, cs) && Covered(ports, v, cs, max) && Uniform(v, max)
  }

  // What popping a candidate does to the source.
  ghost predicate Popped(peer: PeerView, d: int, peer': PeerView) {
    && peer'.connCount == peer.connCount
    && (peer.possible == [] ==> peer'.possible == [])
    && (peer.possible != [] ==> Removed(peer.possible, d, peer'.possible))
  }

  // The view after a round that found no usable destination.
  function AfterDeadEnd(v: View, s: int, peer: PeerView, max: nat): View {
    if peer.CanBeUsed(max) then v[s := peer] else v - {s}
  }

  lemma DeadEndKeepsReady(ports: set<int>, v: View, cs: seq<Connection>, max: nat, s: int, d: int, peer: PeerView)
    requires Ready(ports, v, cs, max) && s in v && Popped(v[s], d, peer)
    requires d !in v || !v[s := peer][d].CanBeUsed(max)
    ensures Ready(ports, AfterDeadEnd(v, s, peer, max), cs, max)
    ensures Fuel(AfterDeadEnd(v, s, peer, max)) < Fuel(v)
  {
    assert PeerConsistent(ports, s, v[s], cs);
    var v1 := v[s := peer];
    if v[s].CanBeUsed(max) {
      assert d in v[s].possible && d != s;
      PopDeadKeeps(ports, v, cs, s, d, peer, max);
      if peer.CanBeUsed(max) {
        FuelFalls(v, v1);
      } else {
        DeleteUnusableKeeps(ports, v1, cs, {s}, max);
        assert v1 - {s} == v - {s};
        FuelFalls(v, v - {s});
      }
    } else {
      DeleteUnusableKeeps(ports, v, cs, {s}, max);
      FuelFalls(v, v - {s});
    }
  }

  // A usable destination is another peer, below its cap and listing the source; so is the source,
  // although the code tests only the destination.
  lemma UsableDestination(ports: set<int>, v: View, cs: seq<Connection>, max: nat, s: int, d: int, peer: PeerView)
    requires Ready(ports, v, cs, max) && s in v && Popped(v[s], d, peer)
    requires d in v && v[s := peer][d].CanBeUsed(max)
    ensures s != d && d in v[s].possible && s in v[d].possible
    ensures NoDuplicates(v[s].possible) && NoDuplicates(v[d].possible)
    ensures Degree(cs, s) < max && Degree(cs, d) < max
    ensures forall p :: p in v ==> v[p].CanBeUsed(max)
  {
    assert PeerConsistent(ports, s, v[s], cs) && PeerConsistent(ports, d, v[d], cs);
    assert v[d].CanBeUsed(max) && v[s].CanBeUsed(max);
    CandidatesAreMutual(ports, v, cs, s, d, max);
  }

  lemma ConnectKeepsReady(ports: set<int>, v: View, cs: seq<Connection>, max: nat, a: Agent, b: Agent,
                          v': View)
    requires Ready(ports, v, cs, max) && ConnectStep(v, a, b, v')
    requires forall p :: p in v ==> v[p].CanBeUsed(max)
    ensures var live := v' - (v'.Keys - Usable(v', max));
            Ready(ports, live, cs + [Connection(a, b)], max) && Fuel(live) < Fuel(v)
  {
    var dead := v'.Keys - Usable(v', max);
    ConnectConsistent(ports, v, cs, a, b, v');
    ConnectCovered(ports, v, cs, a, b, v', max);
    DeleteUnusableKeeps(ports, v', cs + [Connection(a, b)], dead, max);
    if dead == {} {
      assert a.port in v' - dead && b.port in v[a.port].possible && b.port !in (v' - dead)[a.port].possible;
    }
    FuelFalls(v, v' - dead);
  }

  // The agents whose port is in `usable`, in order.
  function Kept(agents: seq<Agent>, usable: set<int>): seq<Agent> {
    if agents == [] then []
    else
      var a := agents[|agents| - 1];
      var kept := Kept(agents[..|agents| - 1], usable);
      if a.port in usable then kept + [a] else kept
  }

  // The ports left out by Kept.
  ghost function Dropped(agents: seq<Agent>, usable: set<int>): set<int> {
    if agents == [] then {}
    else
      var a := agents[|agents| - 1];
      var dropped := Dropped(agents[..|agents| - 1], usable);
      if a.port in usable then dropped else dropped + {a.port}
  }

  lemma {:induction false} KeptStaysInStep(agents: seq<Agent>, usable: set<int>)
    requires DistinctPorts(agents)
    ensures DistinctPorts(Kept(agents, usable))
    ensures forall a :: a in Kept(agents, usable) <==> a in agents && a.port in usable
    ensures Ports(Kept(agents, usable)) == Ports(agents) * usable
    ensures Dropped(agents, usable) == Ports(agents) - usable
  {
    if agents != [] {
      var init, a := agents[..|agents| - 1], agents[|agents| - 1];
      KeptStaysInStep(init, usable);
      PortsSnoc(agents);
      assert agents == init + [a];
      assert a.port in usable ==> Ports(Kept(agents, usable)) == Ports(Kept(init, usable)) + {a.port};
    }
  }

  ghost function Usable(v: View, max: nat): set<int> {
    set p | p in v && v[p].CanBeUsed(max)
  }

  lemma DropKeepsInStep(peers: seq<Agent>, m: PeerMap, usable: set<int>)
    requires InStep(peers, m)
    ensures InStep(Kept(peers, usable), m - Dropped(peers, usable))
    ensures Dropped(peers, usable) == m.Keys - usable
  {
    KeptStaysInStep(peers, usable);
  }

  // A peer that has not been visited yet is still in the map.
  lemma {:induction false} NotYetDropped(peers: seq<Agent>, usable: set<int>, i: nat, k: nat)
    requires DistinctPorts(peers) && i <= k < |peers|
    ensures peers[k].port !in Dropped(peers[..i], usable)
  {
    if i > 0 {
      assert peers[..i][..i - 1] == peers[..i - 1];
      NotYetDropped(peers, usable, i - 1, k);
    }
  }

  // The compaction of the live slice (lines 96-107).
  method DropUnusable(peers: seq<Agent>, m: PeerMap, max: nat, ghost usable: set<int>)
    returns (peers': seq<Agent>, m': PeerMap)
    requires DistinctPorts(peers)
    requires forall a :: a in peers ==> a.port in m && (m[a.port].CanBeUsed(max) <==> a.port in usable)
    ensures peers' == Kept(peers, usable)
    ensures m' == m - Dropped(peers, usable)
  {
    peers', m' := peers, m;
    var newLength, oldLength := 0, |peers|;
    for i := 0 to oldLength
      invariant 0 <= newLength <= i
      invariant |peers'| == oldLength && (forall k :: i <= k < oldLength ==> peers'[k] == peers[k])
      invariant peers'[..newLength] == Kept(peers[..i], usable)
      invariant m' == m - Dropped(peers[..i], usable)
    {
      assert peers[..i + 1][..i] == peers[..i];
      NotYetDropped(peers, usable, i, i);
      var agentCont := peers'[i];
      assert agentCont in peers;
      var peer := m'[agentCont.port];
      if peer.CanBeUsed(max) {
        peers' := peers'[newLength := agentCont];
        assert peers'[..newLength + 1] == peers'[..newLength] + [agentCont];
        newLength := newLength + 1;
      } else {
        m' := m' - {agentCont.port};
      }
    }
    assert peers[..oldLength] == peers;
    peers' := peers'[..newLength];
  }

  // Lines 82-90: the source has already given up the destination's port.
  method Attach(connections: ConnectionList, m: PeerMap, srcPeer: Peer, dstPeer: Peer, ghost v: View)
    requires Owned(m) && srcPeer.portID in m && m[srcPeer.portID] == srcPeer
    requires dstPeer.portID in m && m[dstPeer.portID] == dstPeer && srcPeer.portID != dstPeer.portID
    requires srcPeer.agent.port == srcPeer.portID && dstPeer.agent.port == dstPeer.portID
    requires v.Keys == m.Keys && (forall p :: p in m && p != srcPeer.portID ==> m[p].View() == v[p])
    requires srcPeer.connCount == v[srcPeer.portID].connCount
    requires Removed(v[srcPeer.portID].possible, dstPeer.portID, srcPeer.possibleConns)
    requires NoDuplicates(dstPeer.possibleConns) && srcPeer.portID in dstPeer.possibleConns
    modifies connections, srcPeer, dstPeer
    ensures connections.list == old(connections.list) + [Connection(srcPeer.agent, dstPeer.agent)]
    ensures ConnectStep(v, srcPeer.agent, dstPeer.agent, ViewOf(m))
  {
    dstPeer.RemovePortId(srcPeer.portID);
    srcPeer.IncConnCount();
    dstPeer.IncConnCount();
    connections.Add(srcPeer.agent, dstPeer.agent);
  }

  ghost predicate OthersUsable(v: View, s: int, d: int, max: nat) {
    forall p {:trigger v[p].CanBeUsed(max)} :: p in v && p != s && p != d ==> v[p].CanBeUsed(max)
  }

  lemma AllUsable(v: View, s: int, d: int, max: nat)
    requires s in v && d in v && OthersUsable(v, s, d, max) && v[s].CanBeUsed(max) && v[d].CanBeUsed(max)
    ensures v - (v.Keys - Usable(v, max)) == v
  {
    forall p | p in v ensures p in Usable(v, max) {
      assert p == s || p == d || v[p].CanBeUsed(max);
    }
    assert v.Keys - Usable(v, max) == {};
  }

  // Lines 92-108: only the two peers just connected can have become unusable.
  method Prune(max: nat, peers: seq<Agent>, m: PeerMap, srcPeer: Peer, dstPeer: Peer)
    returns (peers': seq<Agent>, m': PeerMap)
    requires InStep(peers, m)
    requires srcPeer.portID in m && m[srcPeer.portID] == srcPeer && dstPeer.portID in m && m[dstPeer.portID] == dstPeer
    requires OthersUsable(ViewOf(m), srcPeer.portID, dstPeer.portID, max)
    ensures InStep(peers', m') && Within(m', m)
    ensures ViewOf(m') == ViewOf(m) - (m.Keys - Usable(ViewOf(m), max))
  {
    ghost var usable := Usable(ViewOf(m), max);
    peers', m' := peers, m;
    if !srcPeer.CanBeUsed(max) || !dstPeer.CanBeUsed(max) {
      peers', m' := DropUnusable(peers, m, max, usable);
      DropKeepsInStep(peers, m, usable);
    } else {
      AllUsable(ViewOf(m), srcPeer.portID, dstPeer.portID, max);
    }
  }

  // Lines 74-79: the source goes if it can not be used; `v` is the view before the pop.
  method DeadEnd(max: nat, peers: seq<Agent>, m: PeerMap, srcPeerIndex: nat, ghost v: View)
    returns (peers': seq<Agent>, m': PeerMap)
    requires InStep(peers, m) && srcPeerIndex < |peers| && peers[srcPeerIndex].port in m
    requires ViewOf(m) == v[peers[srcPeerIndex].port := m[peers[srcPeerIndex].port].View()]
    ensures InStep(peers', m') && Within(m', m)
    ensures ViewOf(m') == AfterDeadEnd(v, peers[srcPeerIndex].port, m[peers[srcPeerIndex].port].View(), max)
  {
    peers', m' := peers, m;
    var srcPortID := peers[srcPeerIndex].port;
    if !m[srcPortID].CanBeUsed(max) {
      DropSource(peers, m, srcPeerIndex);
      m' := m - {srcPortID};
      peers' := peers[srcPeerIndex := peers[|peers| - 1]];
      peers' := peers'[..|peers| - 1];
      assert ViewOf(m') == ViewOf(m) - {srcPortID};
      assert v[srcPortID := m[srcPortID].View()] - {srcPortID} == v - {srcPortID};
    }
  }

  // Lines 63-69: any live source, any of its candidates.
  method Draw(peers: seq<Agent>, m: PeerMap, ghost objs: set<Peer>)
    returns (srcPeerIndex: nat, srcPeer: Peer, dstPortID: int)
    requires |peers| > 0 && InStep(peers, m) && Backed(m, objs)
    requires forall p :: p in m ==> NoDuplicates(m[p].possibleConns)
    modifies objs
    ensures srcPeerIndex < |peers| && srcPeer.portID == peers[srcPeerIndex].port
    ensures srcPeer.portID in m && m[srcPeer.portID] == srcPeer
    ensures Popped(old(srcPeer.View()), dstPortID, srcPeer.View())
    ensures ViewOf(m) == old(ViewOf(m))[srcPeer.portID := srcPeer.View()]
  {
    srcPeerIndex :| 0 <= srcPeerIndex < |peers|;
    assert peers[srcPeerIndex] in peers;
    srcPeer := m[peers[srcPeerIndex].port];
    dstPortID := srcPeer.PopRandomPortID();
  }

  // Lines 63-73: draws a source and a destination and tests the destination.
  method Choose(max: nat, peers: seq<Agent>, m: PeerMap,
                ghost objs: set<Peer>, ghost ports: set<int>, ghost cs: seq<Connection>)
    returns (srcPeerIndex: nat, srcPeer: Peer, dstPortID: int, usable: bool)
    requires |peers| > 0 && InStep(peers, m) && Backed(m, objs) && Ready(ports, ViewOf(m), cs, max)
    modifies objs
    ensures srcPeerIndex < |peers| && srcPeer.portID == peers[srcPeerIndex].port
    ensures srcPeer.portID in m && m[srcPeer.portID] == srcPeer
    ensures ViewOf(m) == old(ViewOf(m))[srcPeer.portID := srcPeer.View()]
    ensures usable <==> dstPortID in m && m[dstPortID].CanBeUsed(max)
    ensures !usable ==>
      var v := AfterDeadEnd(old(ViewOf(m)), srcPeer.portID, srcPeer.View(), max);
      Ready(ports, v, cs, max) && Fuel(v) < Fuel(old(ViewOf(m)))
    ensures usable ==>
      && srcPeer.portID != dstPortID
      && srcPeer.connCount == old(srcPeer.connCount)
      && Removed(old(srcPeer.possibleConns), dstPortID, srcPeer.possibleConns)
      && NoDuplicates(m[dstPortID].possibleConns) && srcPeer.portID in m[dstPortID].possibleConns
      && Degree(cs, srcPeer.portID) < max && Degree(cs, dstPortID) < max
      && (forall p :: p in old(ViewOf(m)) ==> old(ViewOf(m))[p].CanBeUsed(max))
  {
    ghost var v := ViewOf(m);
    ListsAreClean(ports, m, cs);
    srcPeerIndex, srcPeer, dstPortID := Draw(peers, m, objs);
    usable := dstPortID in m && m[dstPortID].CanBeUsed(max);
    if usable {
      UsableDestination(ports, v, cs, max, srcPeer.portID, dstPortID, srcPeer.View());
    } else {
      DeadEndKeepsReady(ports, v, cs, max, srcPeer.portID, dstPortID, srcPeer.View());
    }
  }

  // Lines 82-108 for a usable destination.
  method Join(max: nat, connections: ConnectionList, peers: seq<Agent>, m: PeerMap, srcPeer: Peer, dstPeer: Peer,
              ghost ports: set<int>, ghost v: View, ghost base: seq<Connection>, ghost cs: seq<Connection>)
    returns (peers': seq<Agent>, m': PeerMap, ghost cs': seq<Connection>)
    requires connections.list == base + cs
    requires InStep(peers, m) && srcPeer.portID in m && m[srcPeer.portID] == srcPeer
    requires dstPeer.portID in m && m[dstPeer.portID] == dstPeer && srcPeer.portID != dstPeer.portID
    requires v.Keys == m.Keys && (forall p :: p in m && p != srcPeer.portID ==> m[p].View() == v[p])
    requires srcPeer.connCount == v[srcPeer.portID].connCount
    requires Removed(v[srcPeer.portID].possible, dstPeer.portID, srcPeer.possibleConns)
    requires NoDuplicates(dstPeer.possibleConns) && srcPeer.portID in dstPeer.possibleConns
    requires Ready(ports, v, cs, max) && (forall p :: p in v ==> v[p].CanBeUsed(max))
    modifies connections, srcPeer, dstPeer
    ensures cs' == cs + [Connection(srcPeer.agent, dstPeer.agent)] && connections.list == base + cs'
    ensures InStep(peers', m') && Within(m', m)
    ensures Ready(ports, ViewOf(m'), cs', max) && Fuel(ViewOf(m')) < Fuel(v)
  {
    cs' := cs + [Connection(srcPeer.agent, dstPeer.agent)];
    assert base + cs + [Connection(srcPeer.agent, dstPeer.agent)] == base + cs';
    Attach(connections, m, srcPeer, dstPeer, v);
    ConnectKeepsReady(ports, v, cs, max, srcPeer.agent, dstPeer.agent, ViewOf(m));
    assert OthersUsable(ViewOf(m), srcPeer.portID, dstPeer.portID, max);
    peers', m' := Prune(max, peers, m, srcPeer, dstPeer);
  }

  // One iteration of the main loop; `cs` are the connections planned so far on top of `base`, the first
  // `from` of them by the ring.
  method Round(max: nat, connections: ConnectionList, peers: seq<Agent>, m: PeerMap, ghost objs: set<Peer>,
               ghost agents: seq<Agent>, ghost ports: set<int>, ghost base: seq<Connection>,
               ghost cs: seq<Connection>, ghost from: nat)
    returns (peers': seq<Agent>, m': PeerMap, connected: bool, ghost cs': seq<Connection>)
    requires |peers| > 0 && InStep(peers, m) && Backed(m, objs) && Staffed(agents, m)
    requires Ready(ports, ViewOf(m), cs, max) && Capped(cs, from, max)
    requires connections.list == base + cs && AllJoined(agents, cs)
    modifies connections, objs
    ensures InStep(peers', m') && Backed(m', objs) && Staffed(agents, m')
    ensures connections.list == base + cs' && AllJoined(agents, cs')
    ensures cs <= cs' && |cs'| == |cs| + if connected then 1 else 0
    ensures Ready(ports, ViewOf(m'), cs', max) && Capped(cs', from, max)
    ensures Fuel(ViewOf(m')) < old(Fuel(ViewOf(m)))
  {
    ghost var v := ViewOf(m);
    var srcPeerIndex, srcPeer, dstPortID, usable := Choose(max, peers, m, objs, ports, cs);
    connected := usable;
    if !usable {
      peers', m' := DeadEnd(max, peers, m, srcPeerIndex, v);
      cs' := cs;
    } else {
      var dstPeer := m[dstPortID];
      CappedSnoc(cs, Connection(srcPeer.agent, dstPeer.agent), from, max);
      JoinedSnoc(agents, cs, Connection(srcPeer.agent, dstPeer.agent));
      peers', m', cs' := Join(max, connections, peers, m, srcPeer, dstPeer, ports, v, base, cs);
    }
  }

  lemma ListsAreClean(ports: set<int>, m: PeerMap, cs: seq<Connection>)
    requires Consistent(ports, ViewOf(m), cs)
    ensures forall p :: p in m ==> NoDuplicates(m[p].possibleConns)
  {
    forall p | p in m ensures NoDuplicates(m[p].possibleConns) {
      assert PeerConsistent(ports, p, ViewOf(m)[p], cs);
    }
  }

  lemma DropSource(peers: seq<Agent>, m: PeerMap, i: nat)
    requires InStep(peers, m) && i < |peers|
    ensures InStep(peers[i := peers[|peers| - 1]][..|peers| - 1], m - {peers[i].port})
  {
    var rest := peers[i := peers[|peers| - 1]][..|peers| - 1];
    forall p ensures p in Ports(rest) <==> p in Ports(peers) && p != peers[i].port {
      if p in Ports(peers) && p != peers[i].port {
        var k :| 0 <= k < |peers| && peers[k].port == p;
        assert rest[if k == |peers| - 1 then i else k] == peers[k];
      }
    }
  }

  // ---- the whole builder ----

  function RingCount(t: Topology, n: nat): nat {
    if !t.createRing then 0 else if t.count < Ring.Size(n) then t.count else Ring.Size(n)
  }

  // What Populate plans for `peers`.
  ghost predicate Planned(t: Topology, peers: seq<Agent>, cs: seq<Connection>) {
    var k := RingCount(t, |peers|);
    && Ring.Prefix(peers, k) <= cs
    && |cs| <= t.count
    && AllJoined(peers, cs)
    && Simple(cs, Ports(peers))
    && Capped(cs, k, t.maxPeers)
    && (|cs| < t.count ==> Maximal(Ports(peers), cs, t.maxPeers))
  }

  datatype Topology = Topology(maxPeers: nat, count: nat, createRing: bool) {

    // Initialisation and ring (lines 33-59).
    method Prepare(connections: ConnectionList, peers: seq<Agent>)
      returns (left: nat, peerMap: PeerMap, ghost objs: set<Peer>, ghost k: nat)
      requires DistinctPorts(peers)
      modifies connections
      ensures k == RingCount(this, |peers|) && left + k == count
      ensures connections.list == old(connections.list) + Ring.Prefix(peers, k)
      ensures InStep(peers, peerMap) && Backed(peerMap, objs) && fresh(objs)
      ensures Simple(Ring.Prefix(peers, k), Ports(peers))
      ensures left > 0 ==> Ready(Ports(peers), ViewOf(peerMap), Ring.Prefix(peers, k), maxPeers)
      ensures Fuel(ViewOf(peerMap)) <= |peers| * |peers|
    {
      left, k := count, 0;
      peerMap, objs := NewPeers(peers);
      assert Ring.Prefix(peers, 0) == [];
      RingStart(peers, ViewOf(peerMap));
      if createRing {
        left, k := CreateRing(connections, peers, peerMap, left, objs);
      }
      StartFuel(peers, ViewOf(peerMap), Ring.Prefix(peers, k));
      if left > 0 {
        RingIsUniform(peers, ViewOf(peerMap), k, maxPeers);
      }
    }

    // The main loop (lines 62-109), after `cs0` has been planned on top of `base`. `rounds` counts its
    // iterations.
    method Connect(connections: ConnectionList, peers: seq<Agent>, m: PeerMap, count: nat, ghost objs: set<Peer>,
                   ghost agents: seq<Agent>, ghost ports: set<int>, ghost base: seq<Connection>,
                   ghost cs0: seq<Connection>)
      returns (ghost cs: seq<Connection>, ghost rounds: nat)
      requires InStep(peers, m) && Backed(m, objs) && Ready(ports, ViewOf(m), cs0, maxPeers)
      requires connections.list == base + cs0
      requires Staffed(agents, m) && AllJoined(agents, cs0)
      modifies connections, objs
      ensures connections.list == base + cs && cs0 <= cs && |cs| <= |cs0| + count
      ensures Simple(cs, ports) && Capped(cs, |cs0|, maxPeers)
      ensures |cs| < |cs0| + count ==> Maximal(ports, cs, maxPeers)
      ensures AllJoined(agents, cs)
      ensures rounds <= old(Fuel(ViewOf(m)))
    {
      var left, possiblePeers, peerMap := count, peers, m;
      cs, rounds := cs0, 0;
      while left > 0 && |possiblePeers| > 0
        invariant |cs| + left == |cs0| + count && cs0 <= cs
        invariant connections.list == base + cs
        invariant InStep(possiblePeers, peerMap) && Backed(peerMap, objs)
        invariant Staffed(agents, peerMap) && AllJoined(agents, cs)
        invariant Ready(ports, ViewOf(peerMap), cs, maxPeers) && Capped(cs, |cs0|, maxPeers)
        invariant rounds + Fuel(ViewOf(peerMap)) <= old(Fuel(ViewOf(m)))
        decreases Fuel(ViewOf(peerMap))
      {
        var connected;
        possiblePeers, peerMap, connected, cs :=
          Round(maxPeers, connections, possiblePeers, peerMap, objs, agents, ports, base, cs, |cs0|);
        rounds := rounds + 1;
        if connected {
          left := left - 1;
        }
      }
      if left > 0 {
        NobodyLeft(possiblePeers, peerMap, ports, cs, maxPeers);
      }
    }

    // `cs` are the connections this call plans, `rounds` the iterations of its main loop, under every
    // sequence of random choices.
    method Populate(connections: ConnectionList, peers: seq<Agent>)
      returns (ghost cs: seq<Connection>, ghost rounds: nat)
      requires DistinctPorts(peers)
      modifies connections
      ensures connections.list == old(connections.list) + cs
      ensures Planned(this, peers, cs)
      ensures rounds <= |peers| * |peers|
    {
      var left, peerMap;
      ghost var objs, k;
      left, peerMap, objs, k := Prepare(connections, peers);
      cs, rounds := Ring.Prefix(peers, k), 0;
      RingJoined(peers, k);
      InStepStaffed(peers, peerMap);
      if left > 0 {
        cs, rounds :=
          Connect(connections, peers, peerMap, left, objs, peers, Ports(peers), old(connections.list), cs);
      }
    }

    // `agents` in the order the map iteration yields them. None is the division by zero that connecting an
    // empty list runs into.
    method MakeConnections(agents: seq<Agent>) returns (r: Option<seq<Connection>>)
      requires DistinctPorts(agents)
      ensures r.None? <==> NothingToPlan(this, |agents|)
      ensures r.Some? ==> Planned(this, agents, r.value)
    {
      var connections := new ConnectionList();
      ghost var planned, rounds := Populate(connections, agents);
      assert connections.list == planned;
      EmptyPlanIff(this, agents, connections.list);
      var ranges := Runner.Partition(|connections.list|, ITEMS_PER_ROUTINE, MAX_ROUTINES);
      r := if ranges.None? then None else Some(connections.list);
    }
  }

  // No connection may be planned, or there is nobody to connect, or nobody may be connected.
  predicate NothingToPlan(t: Topology, n: nat) {
    t.count == 0 || n < 2 || (!t.createRing && t.maxPeers == 0)
  }

  // A plan is empty exactly then.
  lemma EmptyPlanIff(t: Topology, agents: seq<Agent>, cs: seq<Connection>)
    requires DistinctPorts(agents) && Planned(t, agents, cs)
    ensures cs == [] <==> NothingToPlan(t, |agents|)
  {
    if cs != [] {
      assert Proper(cs[0], Ports(agents));
      EdgeNeedsTwo(cs[0], agents);
      assert cs[..0] == [];
    } else if t.count > 0 && |agents| >= 2 {
      assert agents[0] in agents && agents[1] in agents;
      assert Settled(cs, agents[0].port, agents[1].port, t.maxPeers);
    }
  }

  lemma EdgeNeedsTwo(c: Connection, group: seq<Agent>)
    requires Proper(c, Ports(group))
    ensures |group| >= 2
  {
  }

  lemma JoinedSnoc(agents: seq<Agent>, cs: seq<Connection>, c: Connection)
    requires AllJoined(agents, cs) && Joined(agents, c)
    ensures AllJoined(agents, cs + [c])
  {
  }

  lemma RingJoined(peers: seq<Agent>, k: nat)
    requires k <= Ring.Size(|peers|)
    ensures AllJoined(peers, Ring.Prefix(peers, k))
  {
  }

  lemma InStepStaffed(peers: seq<Agent>, m: PeerMap)
    requires InStep(peers, m)
    ensures Staffed(peers, m)
  {
  }

  lemma NobodyLeft(peers: seq<Agent>, m: PeerMap, ports: set<int>, cs: seq<Connection>, max: nat)
    requires InStep(peers, m) && peers == [] && Ready(ports, ViewOf(m), cs, max)
    ensures Maximal(ports, cs, max)
  {
    StuckIsMaximal(ports, ViewOf(m), cs, max);
  }

  lemma StartFuel(peers: seq<Agent>, v: View, cs: seq<Connection>)
    requires v.Keys == Ports(peers) && Consistent(Ports(peers), v, cs) && DistinctPorts(peers)
    ensures Fuel(v) <= |peers| * |peers|
  {
    forall p, q | p in v && q in v[p].possible ensures q in Ports(peers) && q != p {
      assert PeerConsistent(Ports(peers), p, v[p], cs);
    }
    FuelBound(Ports(peers), v);
    PortCount(peers);
    assert |v| == |v.Keys|;
  }

  lemma {:induction false} PortCount(peers: seq<Agent>)
    requires DistinctPorts(peers)
    ensures |Ports(peers)| == |peers|
  {
    if peers != [] {
      var init, a := peers[..|peers| - 1], peers[|peers| - 1];
      PortCount(init);
      PortsSnoc(peers);
    }
  }

  // ---- what every plan satisfies ----

  // A degree is at most the cap, or it is the ring's and the random phase never touched the peer.
  lemma DegreeBound(t: Topology, peers: seq<Agent>, cs: seq<Connection>, j: nat)
    requires DistinctPorts(peers) && Planned(t, peers, cs) && j < |peers|
    ensures var ring := Ring.Prefix(peers, RingCount(t, |peers|));
            && Degree(ring, peers[j].port) <= 2
            && (Degree(cs, peers[j].port) <= t.maxPeers || Degree(cs, peers[j].port) == Degree(ring, peers[j].port))
  {
    var k := RingCount(t, |peers|);
    Ring.PrefixDegree(peers, k, j);
    NoLoops(cs, Ports(peers));
    CappedBoundsDegree(cs, k, t.maxPeers, peers[j].port);
    assert cs[..k] == Ring.Prefix(peers, k);
  }

  lemma NoLoops(cs: seq<Connection>, ports: set<int>)
    requires Simple(cs, ports)
    ensures forall i :: 0 <= i < |cs| ==> cs[i].src.port != cs[i].dest.port
  {
    forall i | 0 <= i < |cs| ensures cs[i].src.port != cs[i].dest.port {
      assert Proper(cs[i], ports);
    }
  }

  lemma RingPart(t: Topology, peers: seq<Agent>, cs: seq<Connection>, j: nat)
    requires DistinctPorts(peers) && Planned(t, peers, cs) && j < |peers|
    ensures var r := Degree(Ring.Prefix(peers, RingCount(t, |peers|)), peers[j].port);
            && r <= Degree(cs, peers[j].port)
            && (r <= t.maxPeers ==> Degree(cs, peers[j].port) <= t.maxPeers)
  {
    DegreeBound(t, peers, cs, j);
    DegreeMono(Ring.Prefix(peers, RingCount(t, |peers|)), cs, peers[j].port);
  }

  // MaxPeers is a maximum on every peer exactly when there is no ring or its min(Count, n-1, 2) connections of one
  // peer fit below it: the ring itself ignores it.
  lemma CapHoldsIff(t: Topology, peers: seq<Agent>, cs: seq<Connection>)
    requires DistinctPorts(peers) && Planned(t, peers, cs)
    ensures (forall j :: 0 <= j < |peers| ==> Degree(cs, peers[j].port) <= t.maxPeers) <==>
            !t.createRing || t.maxPeers >= 2 || t.maxPeers >= t.count || t.maxPeers >= |peers| - 1
  {
    if (if RingCount(t, |peers|) < 2 then RingCount(t, |peers|) else 2) <= t.maxPeers {
      forall j | 0 <= j < |peers| ensures Degree(cs, peers[j].port) <= t.maxPeers {
        RingPart(t, peers, cs, j);
        Ring.PrefixDegreeBound(peers, RingCount(t, |peers|), j);
      }
    } else {
      RingPart(t, peers, cs, 1);
      Ring.PrefixDegreeBound(peers, RingCount(t, |peers|), 1);
    }
  }

  // No degree exceeds MaxPeers, or 2 with a ring.
  lemma DegreeAtMost(t: Topology, peers: seq<Agent>, cs: seq<Connection>, j: nat)
    requires DistinctPorts(peers) && Planned(t, peers, cs) && j < |peers|
    ensures Degree(cs, peers[j].port) <= if t.createRing && t.maxPeers < 2 then 2 else t.maxPeers
  {
    DegreeBound(t, peers, cs, j);
    RingPart(t, peers, cs, j);
    Ring.PrefixDegreeBound(peers, RingCount(t, |peers|), j);
  }

  // A plan with fewer than Count connections leaves no two peers that could still be joined.
  lemma ShortPlanIsMaximal(t: Topology, peers: seq<Agent>, cs: seq<Connection>, i: nat, j: nat)
    requires DistinctPorts(peers) && Planned(t, peers, cs) && |cs| < t.count
    requires i < |peers| && j < |peers| && i != j
    ensures || (exists k :: 0 <= k < |cs| && Joins(cs[k], peers[i].port, peers[j].port))
            || Degree(cs, peers[i].port) >= t.maxPeers
            || Degree(cs, peers[j].port) >= t.maxPeers
  {
    assert peers[i] in peers && peers[j] in peers && peers[i].port != peers[j].port;
    assert Settled(cs, peers[i].port, peers[j].port, t.maxPeers);
  }

  // With a ring, neighbours in the list are joined, the last with the first, as far as Count allows.
  lemma NeighboursAreJoined(t: Topology, peers: seq<Agent>, cs: seq<Connection>, i: nat)
    requires DistinctPorts(peers) && Planned(t, peers, cs) && t.createRing
    requires i < |peers| && i < t.count && |peers| >= 2
    ensures Adjacent(cs, peers[i].port, peers[(i + 1) % |peers|].port)
  {
    var k := if i < Ring.Size(|peers|) then i else 0;
    assert cs[k] == Ring.Prefix(peers, RingCount(t, |peers|))[k];
    Ring.SuccessorIsMod(i, |peers|);
    assert Joins(cs[k], peers[i].port, peers[(i + 1) % |peers|].port);
  }

  lemma DegreesSumToTwiceTheEdges(t: Topology, peers: seq<Agent>, cs: seq<Connection>)
    requires DistinctPorts(peers) && Planned(t, peers, cs)
    ensures DegreeSum(cs, peers) == 2 * |cs|
  {
    forall i | 0 <= i < |cs| ensures Proper(cs[i], Ports(peers)) {
    }
    Handshake(cs, peers);
  }

  // With a ring, a plan connects all peers exactly when it may hold n-1 connections.
  lemma RingConnectsIff(t: Topology, peers: seq<Agent>, cs: seq<Connection>)
    requires DistinctPorts(peers) && Planned(t, peers, cs) && t.createRing
    ensures Connected(cs, Ports(peers)) <==> |peers| <= t.count + 1
  {
    Ring.ConnectedIff(peers, t.count, cs);
  }
}

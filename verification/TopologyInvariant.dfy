// What the random topology builder keeps true, stated on values: a view of the live peers
// (port -> connection count and candidate list) and the connections planned so far.
module TopologyInvariant {
  import opened Collections
  import opened Graph

  datatype PeerView = PeerView(connCount: nat, possible: seq<int>) {
    predicate CanBeUsed(max: nat) {
      |possible| > 0 && connCount < max
    }
  }

  type View = map<int, PeerView>

  // Deletion by moving the last element into the hole.
  function SwapRemove(s: seq<int>, i: int): seq<int>
    requires 0 <= i < |s|
  {
    s[i := s[|s| - 1]][..|s| - 1]
  }

  // `t` is `s` without its element `x`, in any order.
  ghost predicate Removed(s: seq<int>, x: int, t: seq<int>) {
    && NoDuplicates(t)
    && |t| + 1 == |s|
    && x in s
    && (forall y :: y in t <==> y in s && y != x)
  }

  lemma SwapRemoveRemoves(s: seq<int>, i: int)
    requires NoDuplicates(s) && 0 <= i < |s|
    ensures Removed(s, s[i], SwapRemove(s, i))
  {
    var t := SwapRemove(s, i);
    forall y ensures y in t <==> y in s && y != s[i] {
      if y in s && y != s[i] {
        var k :| 0 <= k < |s| && s[k] == y;
        assert t[if k == |s| - 1 then i else k] == y;
      }
    }
  }

  // ---- the invariants ----

  ghost predicate PeerConsistent(ports: set<int>, p: int, peer: PeerView, cs: seq<Connection>) {
    && peer.connCount == Degree(cs, p)
    && NoDuplicates(peer.possible)
    && (forall q :: q in peer.possible ==> q in ports && q != p && !Adjacent(cs, p, q))
  }

  ghost predicate Consistent(ports: set<int>, v: View, cs: seq<Connection>) {
    && v.Keys <= ports
    && Simple(cs, ports)
    && (forall p {:trigger PeerConsistent(ports, p, v[p], cs)} :: p in v ==> PeerConsistent(ports, p, v[p], cs))
  }

  // A pair on which nothing is left to do.
  ghost predicate Settled(cs: seq<Connection>, p: int, q: int, max: nat) {
    Adjacent(cs, p, q) || Degree(cs, p) >= max || Degree(cs, q) >= max
  }

  // Every unsettled pair is still known: its first peer is live and lists the second.
  // The quantifier is symmetric in p and q, so both are live and list each other.
  ghost predicate Covered(ports: set<int>, v: View, cs: seq<Connection>, max: nat) {
    forall p, q {:trigger Settled(cs, p, q, max)} ::
      p in ports && q in ports && p != q && !Settled(cs, p, q, max) ==> p in v && q in v[p].possible
  }

  ghost predicate Maximal(ports: set<int>, cs: seq<Connection>, max: nat) {
    forall p, q {:trigger Settled(cs, p, q, max)} :: p in ports && q in ports && p != q ==> Settled(cs, p, q, max)
  }

  // Either every live peer can be used, or none can.
  ghost predicate Uniform(v: View, max: nat) {
    || (forall p {:trigger v[p].CanBeUsed(max)} :: p in v ==> v[p].CanBeUsed(max))
    || (forall p {:trigger v[p].CanBeUsed(max)} :: p in v ==> !v[p].CanBeUsed(max))
  }

  // From index `from` on, no connection was given to a peer that had reached `max`.
  ghost predicate Capped(cs: seq<Connection>, from: nat, max: nat) {
    forall i {:trigger cs[..i]} :: from <= i < |cs| ==>
      Degree(cs[..i], cs[i].src.port) < max && Degree(cs[..i], cs[i].dest.port) < max
  }

  // ---- connecting two live peers ----

  ghost predicate ConnectStep(v: View, a: Agent, b: Agent, v': View) {
    && a.port in v && b.port in v && a.port != b.port
    && v'.Keys == v.Keys
    && v'[a.port].connCount == v[a.port].connCount + 1
    && v'[b.port].connCount == v[b.port].connCount + 1
    && Removed(v[a.port].possible, b.port, v'[a.port].possible)
    && Removed(v[b.port].possible, a.port, v'[b.port].possible)
    && (forall p :: p in v && p != a.port && p != b.port ==> v'[p] == v[p])
  }

  lemma SimpleSnoc(cs: seq<Connection>, c: Connection, ports: set<int>)
    requires Simple(cs, ports) && Proper(c, ports) && !Adjacent(cs, c.src.port, c.dest.port)
    ensures Simple(cs + [c], ports)
  {
  }

  lemma ConnectConsistent(ports: set<int>, v: View, cs: seq<Connection>, a: Agent, b: Agent, v': View)
    requires Consistent(ports, v, cs) && ConnectStep(v, a, b, v')
    ensures Consistent(ports, v', cs + [Connection(a, b)])
  {
    var c := Connection(a, b);
    assert PeerConsistent(ports, a.port, v[a.port], cs) && PeerConsistent(ports, b.port, v[b.port], cs);
    SimpleSnoc(cs, c, ports);
    forall p | p in v' ensures PeerConsistent(ports, p, v'[p], cs + [c]) {
      assert PeerConsistent(ports, p, v[p], cs);
      DegreeSnoc(cs, c, p);
      forall q | q in v'[p].possible ensures q in ports && q != p && !Adjacent(cs + [c], p, q) {
        AdjacentSnoc(cs, c, p, q);
      }
    }
  }

  // Settled pairs stay settled when connections are added.
  lemma SettledSnoc(cs: seq<Connection>, c: Connection, p: int, q: int, max: nat)
    requires Settled(cs, p, q, max) || Joins(c, p, q)
    ensures Settled(cs + [c], p, q, max)
  {
  }

  lemma ConnectCovered(ports: set<int>, v: View, cs: seq<Connection>, a: Agent, b: Agent, v': View, max: nat)
    requires Covered(ports, v, cs, max) && ConnectStep(v, a, b, v')
    ensures Covered(ports, v', cs + [Connection(a, b)], max)
  {
    var c := Connection(a, b);
    forall p, q | p in ports && q in ports && p != q && !Settled(cs + [c], p, q, max)
      ensures p in v' && q in v'[p].possible
    {
      if Settled(cs, p, q, max) || Joins(c, p, q) {
        SettledSnoc(cs, c, p, q, max);
        assert false;
      }
    }
  }

  lemma CappedSnoc(cs: seq<Connection>, c: Connection, from: nat, max: nat)
    requires Capped(cs, from, max)
    requires Degree(cs, c.src.port) < max && Degree(cs, c.dest.port) < max
    ensures Capped(cs + [c], from, max)
  {
    var ds := cs + [c];
    forall i | from <= i < |ds|
      ensures Degree(ds[..i], ds[i].src.port) < max && Degree(ds[..i], ds[i].dest.port) < max
    {
      assert ds[..i] == if i == |cs| then cs else cs[..i];
    }
  }

  // ---- a candidate that is already gone, and peers that can no longer be used ----

  // Popping a dead candidate loses nothing: a pair with a dead peer is settled.
  lemma PopDeadKeeps(ports: set<int>, v: View, cs: seq<Connection>, s: int, d: int, peer: PeerView, max: nat)
    requires Consistent(ports, v, cs) && Covered(ports, v, cs, max)
    requires s in v && d !in v
    requires peer.connCount == v[s].connCount && Removed(v[s].possible, d, peer.possible)
    ensures Consistent(ports, v[s := peer], cs) && Covered(ports, v[s := peer], cs, max)
  {
    assert PeerConsistent(ports, s, v[s], cs);
    var v' := v[s := peer];
    forall p, q | p in ports && q in ports && p != q && !Settled(cs, p, q, max)
      ensures p in v' && q in v'[p].possible
    {
      AdjacentSym(cs, p, q);
      assert !Settled(cs, q, p, max);
    }
  }

  // Forgetting peers that can not be used keeps every unsettled pair covered.
  lemma DeleteUnusableKeeps(ports: set<int>, v: View, cs: seq<Connection>, dead: set<int>, max: nat)
    requires Consistent(ports, v, cs) && Covered(ports, v, cs, max)
    requires forall p :: p in dead && p in v ==> !v[p].CanBeUsed(max)
    ensures Consistent(ports, v - dead, cs) && Covered(ports, v - dead, cs, max)
  {
    forall p | p in v ensures PeerConsistent(ports, p, v[p], cs) {
    }
    forall p, q | p in ports && q in ports && p != q && !Settled(cs, p, q, max)
      ensures p in v - dead && q in (v - dead)[p].possible
    {
      assert q in v[p].possible;
      assert v[p].connCount == Degree(cs, p);
    }
  }

  // When no live peer can be used every pair is settled; so it is when no peer is live.
  lemma StuckIsMaximal(ports: set<int>, v: View, cs: seq<Connection>, max: nat)
    requires Consistent(ports, v, cs) && Covered(ports, v, cs, max)
    requires forall p :: p in v ==> !v[p].CanBeUsed(max)
    ensures Maximal(ports, cs, max)
  {
    forall p, q | p in ports && q in ports && p != q ensures Settled(cs, p, q, max) {
      if p in v {
        assert PeerConsistent(ports, p, v[p], cs);
      }
    }
  }

  // Between live usable peers candidate lists are symmetric, so connecting two of them
  // finds the source in the destination's list.
  lemma CandidatesAreMutual(ports: set<int>, v: View, cs: seq<Connection>, s: int, d: int, max: nat)
    requires Consistent(ports, v, cs) && Covered(ports, v, cs, max)
    requires s in v && d in v && d in v[s].possible
    requires v[s].connCount < max && v[d].connCount < max
    ensures s != d && s in v[d].possible
  {
    assert PeerConsistent(ports, s, v[s], cs) && PeerConsistent(ports, d, v[d], cs);
    AdjacentSym(cs, s, d);
    assert !Settled(cs, d, s, max);
  }

  // ---- the degree bound ----

  // Respecting the cap from `from` on bounds every degree by the cap or the degree it had at `from`.
  lemma {:induction false} CappedBoundsDegree(cs: seq<Connection>, from: nat, max: nat, p: int)
    requires from <= |cs| && Capped(cs, from, max)
    requires forall i :: 0 <= i < |cs| ==> cs[i].src.port != cs[i].dest.port
    ensures Degree(cs, p) <= max || Degree(cs, p) == Degree(cs[..from], p)
  {
    if |cs| == from {
      assert cs[..from] == cs;
    } else {
      var init := cs[..|cs| - 1];
      assert forall i :: 0 <= i < |init| ==> cs[..i] == init[..i];
      assert init[..from] == cs[..from];
      CappedBoundsDegree(init, from, max, p);
    }
  }

  // ---- the termination measure ----

  function Candidates(v: View): set<(int, int)> {
    set p, q | p in v && q in v[p].possible :: (p, q)
  }

  function Fuel(v: View): nat {
    |Candidates(v)| + |v|
  }

  // Dropping live peers or candidates never adds fuel, and dropping at least one burns some.
  lemma FuelFalls(v: View, v': View)
    requires v'.Keys <= v.Keys
    requires forall p, q :: p in v' && q in v'[p].possible ==> q in v[p].possible
    requires v'.Keys != v.Keys || exists p, q :: p in v' && q in v[p].possible && q !in v'[p].possible
    ensures Fuel(v') < Fuel(v)
  {
    SubsetSize(Candidates(v'), Candidates(v));
    SubsetSize(v'.Keys, v.Keys);
    assert |v| == |v.Keys| && |v'| == |v'.Keys|;
    if v'.Keys == v.Keys {
      var p, q :| p in v' && q in v[p].possible && q !in v'[p].possible;
      assert (p, q) in Candidates(v) && (p, q) !in Candidates(v');
    }
  }

  function Row(p: int, qs: set<int>): set<(int, int)> {
    set q | q in qs :: (p, q)
  }

  lemma {:induction false} RowSize(p: int, qs: set<int>)
    ensures |Row(p, qs)| == |qs|
  {
    if qs == {} {
      assert Row(p, qs) == {};
    } else {
      var y := Pick(qs);
      RowSize(p, qs - {y});
      assert Row(p, qs) == Row(p, qs - {y}) + {(p, y)};
    }
  }

  ghost predicate ListsWithin(ports: set<int>, v: View) {
    forall p, q :: p in v && q in v[p].possible ==> q in ports && q != p
  }

  lemma FuelOfOne(ports: set<int>, v: View, p: int)
    requires ListsWithin(ports, v) && p in v && p in ports
    ensures Fuel(v) <= Fuel(v - {p}) + |ports|
  {
    var row := Row(p, ports - {p});
    RowSize(p, ports - {p});
    SubsetSize(Candidates(v), Candidates(v - {p}) + row);
    assert (v - {p}).Keys == v.Keys - {p} && |v - {p}| == |(v - {p}).Keys| && |v| == |v.Keys|;
  }

  // At most n-1 candidates per live peer, so at most n units of fuel for each.
  lemma {:induction false} FuelBound(ports: set<int>, v: View)
    requires ListsWithin(ports, v) && v.Keys <= ports
    ensures Fuel(v) <= |v| * |ports|
    decreases |v|
  {
    if v.Keys == {} {
      assert Candidates(v) == {};
    } else {
      var p := Pick(v.Keys);
      var v' := v - {p};
      assert v'.Keys == v.Keys - {p} && |v'| == |v'.Keys| && |v| == |v.Keys|;
      FuelBound(ports, v');
      FuelOfOne(ports, v, p);
      assert |v| * |ports| == |v'| * |ports| + |ports|;
    }
  }
}

// Connection lists read as undirected graphs whose vertices are agent ports.
module Graph {

  // The part of an agent the topologies look at.
  datatype Agent = Agent(port: int, isValidator: bool)

  datatype Connection = Connection(src: Agent, dest: Agent)

  // Two connections (or a connection and a pair of ports) are the same edge in either orientation.
  predicate Joins(c: Connection, p: int, q: int) {
    (c.src.port == p && c.dest.port == q) || (c.src.port == q && c.dest.port == p)
  }

  ghost predicate Adjacent(cs: seq<Connection>, p: int, q: int) {
    exists i :: 0 <= i < |cs| && Joins(cs[i], p, q)
  }

  lemma AdjacentSym(cs: seq<Connection>, p: int, q: int)
    ensures Adjacent(cs, p, q) <==> Adjacent(cs, q, p)
  {
  }

  // How often `c` ends at `p`.
  function Ends(c: Connection, p: int): nat {
    (if c.src.port == p then 1 else 0) + (if c.dest.port == p then 1 else 0)
  }

  function Degree(cs: seq<Connection>, p: int): nat {
    if cs == [] then 0 else Degree(cs[..|cs| - 1], p) + Ends(cs[|cs| - 1], p)
  }

  function Ports(agents: seq<Agent>): set<int> {
    set a | a in agents :: a.port
  }

  ghost predicate DistinctPorts(agents: seq<Agent>) {
    forall i, j :: 0 <= i < j < |agents| ==> agents[i].port != agents[j].port
  }

  lemma PortsSnoc(agents: seq<Agent>)
    requires agents != []
    ensures var init, last := agents[..|agents| - 1], agents[|agents| - 1];
            && Ports(agents) == Ports(init) + {last.port}
            && (DistinctPorts(agents) ==> DistinctPorts(init) && last.port !in Ports(init))
  {
  }

  ghost predicate Proper(c: Connection, ports: set<int>) {
    c.src.port in ports && c.dest.port in ports && c.src.port != c.dest.port
  }

  // No self-loop, no edge outside `ports`, no pair twice in either orientation.
  ghost predicate Simple(cs: seq<Connection>, ports: set<int>) {
    && (forall i {:trigger Proper(cs[i], ports)} :: 0 <= i < |cs| ==> Proper(cs[i], ports))
    && (forall i, j {:trigger Joins(cs[j], cs[i].src.port, cs[i].dest.port)} ::
          0 <= i < j < |cs| ==> !Joins(cs[j], cs[i].src.port, cs[i].dest.port))
  }

  // ---- one more connection ----

  lemma DegreeSnoc(cs: seq<Connection>, c: Connection, p: int)
    ensures Degree(cs + [c], p) == Degree(cs, p) + Ends(c, p)
  {
  }

  lemma AdjacentSnoc(cs: seq<Connection>, c: Connection, p: int, q: int)
    ensures Adjacent(cs + [c], p, q) <==> Adjacent(cs, p, q) || Joins(c, p, q)
  {
    var ds := cs + [c];
    if Adjacent(cs, p, q) {
      var i :| 0 <= i < |cs| && Joins(cs[i], p, q);
      assert ds[i] == cs[i];
    }
    if Joins(c, p, q) {
      assert ds[|cs|] == c;
    }
  }

  lemma DegreeMono(cs: seq<Connection>, ds: seq<Connection>, p: int)
    requires cs <= ds
    ensures Degree(cs, p) <= Degree(ds, p)
  {
  }

  lemma {:induction false} IsolatedIffDegreeZero(cs: seq<Connection>, p: int)
    ensures Degree(cs, p) == 0 <==> forall q :: !Adjacent(cs, p, q)
  {
    if cs != [] {
      var init, last := cs[..|cs| - 1], cs[|cs| - 1];
      assert cs == init + [last];
      IsolatedIffDegreeZero(init, p);
      forall q ensures Adjacent(cs, p, q) <==> Adjacent(init, p, q) || Joins(last, p, q) {
        AdjacentSnoc(init, last, p, q);
      }
      if Ends(last, p) > 0 {
        var q := if last.src.port == p then last.dest.port else last.src.port;
        assert Joins(last, p, q);
      }
    }
  }

  // ---- the handshake law: degrees over the vertices sum to twice the number of edges ----

  function DegreeSum(cs: seq<Connection>, agents: seq<Agent>): nat {
    if agents == [] then 0
    else DegreeSum(cs, agents[..|agents| - 1]) + Degree(cs, agents[|agents| - 1].port)
  }

  function EndsSum(c: Connection, agents: seq<Agent>): nat {
    if agents == [] then 0
    else EndsSum(c, agents[..|agents| - 1]) + Ends(c, agents[|agents| - 1].port)
  }

  lemma {:induction false} DegreeSumSnoc(cs: seq<Connection>, c: Connection, agents: seq<Agent>)
    ensures DegreeSum(cs + [c], agents) == DegreeSum(cs, agents) + EndsSum(c, agents)
  {
    if agents != [] {
      DegreeSumSnoc(cs, c, agents[..|agents| - 1]);
      DegreeSnoc(cs, c, agents[|agents| - 1].port);
    }
  }

  function Member(p: int, ports: set<int>): nat { if p in ports then 1 else 0 }

  lemma {:induction false} EndsSumCounts(c: Connection, agents: seq<Agent>)
    requires DistinctPorts(agents)
    requires c.src.port != c.dest.port
    ensures EndsSum(c, agents) == Member(c.src.port, Ports(agents)) + Member(c.dest.port, Ports(agents))
  {
    if agents != [] {
      var init, last := agents[..|agents| - 1], agents[|agents| - 1];
      EndsSumCounts(c, init);
      PortsSnoc(agents);
    }
  }

  lemma {:induction false} Handshake(cs: seq<Connection>, agents: seq<Agent>)
    requires DistinctPorts(agents)
    requires forall i :: 0 <= i < |cs| ==> Proper(cs[i], Ports(agents))
    ensures DegreeSum(cs, agents) == 2 * |cs|
  {
    if cs == [] {
      NoEdgesNoDegrees(agents);
    } else {
      var init, last := cs[..|cs| - 1], cs[|cs| - 1];
      Handshake(init, agents);
      assert cs == init + [last];
      DegreeSumSnoc(init, last, agents);
      EndsSumCounts(last, agents);
    }
  }

  lemma {:induction false} NoEdgesNoDegrees(agents: seq<Agent>)
    ensures DegreeSum([], agents) == 0
  {
    if agents != [] {
      NoEdgesNoDegrees(agents[..|agents| - 1]);
    }
  }

  // ---- reachability ----

  ghost predicate Walk(cs: seq<Connection>, w: seq<int>) {
    |w| > 0 && forall i :: 0 <= i < |w| - 1 ==> Adjacent(cs, w[i], w[i + 1])
  }

  ghost predicate WalkBetween(cs: seq<Connection>, w: seq<int>, p: int, q: int) {
    Walk(cs, w) && w[0] == p && w[|w| - 1] == q
  }

  ghost predicate Linked(cs: seq<Connection>, p: int, q: int) {
    exists w :: WalkBetween(cs, w, p, q)
  }

  ghost predicate Connected(cs: seq<Connection>, ports: set<int>) {
    forall p, q :: p in ports && q in ports ==> Linked(cs, p, q)
  }

  lemma LinkedRefl(cs: seq<Connection>, p: int)
    ensures Linked(cs, p, p)
  {
    assert WalkBetween(cs, [p], p, p);
  }

  lemma LinkedStep(cs: seq<Connection>, p: int, q: int)
    requires Adjacent(cs, p, q)
    ensures Linked(cs, p, q)
  {
    assert WalkBetween(cs, [p, q], p, q);
  }

  lemma LinkedSym(cs: seq<Connection>, p: int, q: int)
    requires Linked(cs, p, q)
    ensures Linked(cs, q, p)
  {
    var w :| WalkBetween(cs, w, p, q);
    var v := seq(|w|, i requires 0 <= i < |w| => w[|w| - 1 - i]);
    forall i | 0 <= i < |v| - 1 ensures Adjacent(cs, v[i], v[i + 1]) {
      var k := |w| - 2 - i;
      assert Adjacent(cs, w[k], w[k + 1]);
      var e :| 0 <= e < |cs| && Joins(cs[e], w[k], w[k + 1]);
      assert Joins(cs[e], v[i], v[i + 1]);
    }
    assert WalkBetween(cs, v, q, p);
  }

  lemma LinkedTrans(cs: seq<Connection>, p: int, q: int, r: int)
    requires Linked(cs, p, q) && Linked(cs, q, r)
    ensures Linked(cs, p, r)
  {
    var w :| WalkBetween(cs, w, p, q);
    var v :| WalkBetween(cs, v, q, r);
    var u := w + v[1..];
    forall i | 0 <= i < |u| - 1 ensures Adjacent(cs, u[i], u[i + 1]) {
      if i < |w| - 1 {
        assert Adjacent(cs, w[i], w[i + 1]);
      } else {
        var k := i - (|w| - 1);
        assert u[i] == v[k] && u[i + 1] == v[k + 1];
      }
    }
    assert WalkBetween(cs, u, p, r);
  }

  // A graph in which every vertex reaches one hub is connected.
  lemma HubConnects(cs: seq<Connection>, ports: set<int>, hub: int)
    requires forall p :: p in ports ==> Linked(cs, p, hub)
    ensures Connected(cs, ports)
  {
    forall p, q | p in ports && q in ports ensures Linked(cs, p, q) {
      LinkedSym(cs, q, hub);
      LinkedTrans(cs, p, hub, q);
    }
  }

  lemma LinkedMono(cs: seq<Connection>, ds: seq<Connection>, p: int, q: int)
    requires Linked(cs, p, q)
    requires forall c :: c in cs ==> c in ds
    ensures Linked(ds, p, q)
  {
    var w :| WalkBetween(cs, w, p, q);
    forall i | 0 <= i < |w| - 1 ensures Adjacent(ds, w[i], w[i + 1]) {
      var e :| 0 <= e < |cs| && Joins(cs[e], w[i], w[i + 1]);
      assert cs[e] in ds;
      var k :| 0 <= k < |ds| && ds[k] == cs[e];
    }
    assert WalkBetween(ds, w, p, q);
  }

  // A vertex without edges reaches nobody else.
  lemma IsolatedIsAlone(cs: seq<Connection>, p: int, q: int)
    requires Degree(cs, p) == 0 && p != q
    ensures !Linked(cs, p, q)
  {
    IsolatedIffDegreeZero(cs, p);
    forall w ensures !WalkBetween(cs, w, p, q) {
      if |w| > 1 && w[0] == p {
        assert !Adjacent(cs, w[0], w[0 + 1]);
      }
    }
  }
}

// The ring the random topology may start from: connection k joins peer k to its successor.
module Ring {
  import opened Graph

  // The number of ring connections for n peers; one or two peers would repeat a pair.
  function Size(n: nat): nat {
    if n == 0 then 0 else if n <= 2 then n - 1 else n
  }

  function Successor(i: nat, n: nat): nat
    requires i < n
  {
    if i + 1 == n then 0 else i + 1
  }

  function Predecessor(i: nat, n: nat): nat
    requires i < n
  {
    if i == 0 then n - 1 else i - 1
  }

  // The first k ring connections.
  function Prefix(peers: seq<Agent>, k: nat): seq<Connection>
    requires k <= Size(|peers|)
  {
    seq(k, i requires 0 <= i < k => Connection(peers[i], peers[Successor(i, |peers|)]))
  }

  lemma PrefixSnoc(peers: seq<Agent>, k: nat)
    requires k < Size(|peers|)
    ensures Prefix(peers, k + 1) == Prefix(peers, k) + [Connection(peers[k], peers[Successor(k, |peers|)])]
  {
  }

  // Go's index arithmetic.
  lemma SuccessorIsMod(i: nat, n: nat)
    requires i < n
    ensures Successor(i, n) == (i + 1) % n
  {
  }

  function Below(i: nat, k: nat): nat { if i < k then 1 else 0 }

  // Each peer gets one connection as source and one as destination of its predecessor's.
  lemma {:induction false} PrefixDegree(peers: seq<Agent>, k: nat, j: nat)
    requires DistinctPorts(peers) && k <= Size(|peers|) && j < |peers|
    ensures Degree(Prefix(peers, k), peers[j].port) == Below(j, k) + Below(Predecessor(j, |peers|), k)
  {
    if k > 0 {
      PrefixDegree(peers, k - 1, j);
      PrefixSnoc(peers, k - 1);
      var c := Connection(peers[k - 1], peers[Successor(k - 1, |peers|)]);
      DegreeSnoc(Prefix(peers, k - 1), c, peers[j].port);
    }
  }

  // The highest degree in k ring connections is min(k, 2), and the second peer has it.
  lemma PrefixDegreeBound(peers: seq<Agent>, k: nat, j: nat)
    requires DistinctPorts(peers) && k <= Size(|peers|) && j < |peers|
    ensures Degree(Prefix(peers, k), peers[j].port) <= (if k < 2 then k else 2)
    ensures j == 1 ==> Degree(Prefix(peers, k), peers[j].port) == if k < 2 then k else 2
  {
    PrefixDegree(peers, k, j);
  }

  // No ring connection repeats an earlier one.
  lemma PrefixFresh(peers: seq<Agent>, k: nat)
    requires DistinctPorts(peers) && k < Size(|peers|)
    ensures !Adjacent(Prefix(peers, k), peers[k].port, peers[Successor(k, |peers|)].port)
    ensures peers[k].port != peers[Successor(k, |peers|)].port
  {
  }

  // With at least n-1 ring connections every peer reaches the first one.
  lemma {:induction false} PrefixLinksFirst(peers: seq<Agent>, k: nat, j: nat)
    requires k <= Size(|peers|) && |peers| <= k + 1 && j < |peers|
    ensures Linked(Prefix(peers, k), peers[j].port, peers[0].port)
  {
    var cs := Prefix(peers, k);
    if j == 0 {
      LinkedRefl(cs, peers[0].port);
    } else {
      PrefixLinksFirst(peers, k, j - 1);
      assert Joins(cs[j - 1], peers[j].port, peers[j - 1].port);
      LinkedStep(cs, peers[j].port, peers[j - 1].port);
      LinkedTrans(cs, peers[j].port, peers[j - 1].port, peers[0].port);
    }
  }

  // Planning at least n-1 connections on top of a ring connects everybody; planning fewer leaves
  // the last peer alone.
  lemma ConnectedIff(peers: seq<Agent>, count: nat, cs: seq<Connection>)
    requires DistinctPorts(peers)
    requires var k := if count < Size(|peers|) then count else Size(|peers|);
             Prefix(peers, k) <= cs && |cs| <= count
    ensures Connected(cs, Ports(peers)) <==> |peers| <= count + 1
  {
    var n := |peers|;
    var k := if count < Size(n) then count else Size(n);
    if n == 0 {
      assert Ports(peers) == {};
    } else if n <= count + 1 {
      forall p | p in Ports(peers) ensures Linked(cs, p, peers[0].port) {
        var j :| 0 <= j < n && peers[j].port == p;
        PrefixLinksFirst(peers, k, j);
        LinkedMono(Prefix(peers, k), cs, p, peers[0].port);
      }
      HubConnects(cs, Ports(peers), peers[0].port);
    } else {
      assert cs == Prefix(peers, k);
      PrefixDegree(peers, k, n - 1);
      IsolatedIsAlone(cs, peers[n - 1].port, peers[0].port);
      assert peers[n - 1] in peers && peers[0] in peers;
    }
  }
}

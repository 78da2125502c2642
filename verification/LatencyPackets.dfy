// The packets of one Write: fragmentation, timing, rounding, and what the reader makes of each.
module LatencyPackets {
  import opened Arithmetic
  import opened Header
  import opened NetConn
  import opened Time
  import opened Wrappers

  // ---- fragmentation ----

  lemma {:induction false} PayloadConcat(ks: seq<Packet>, ls: seq<Packet>)
    ensures Payload(ks + ls) == Payload(ks) + Payload(ls)
  {
    if ks == [] {
      assert ks + ls == ls;
    } else {
      assert (ks + ls)[1..] == ks[1..] + ls;
      PayloadConcat(ks[1..], ls);
    }
  }

  lemma {:induction false} EncodeConcat(delay: int, ks: seq<Packet>, ls: seq<Packet>)
    ensures EncodePackets(delay, ks + ls) == EncodePackets(delay, ks) + EncodePackets(delay, ls)
  {
    if ks == [] {
      assert ks + ls == ls;
    } else {
      assert (ks + ls)[1..] == ks[1..] + ls;
      EncodeConcat(delay, ks[1..], ls);
    }
  }

  // No packet is empty or larger than a positive MTU.
  predicate GoodSize(net: Network, k: Packet) {
    0 < |k.data| && (net.mtu > 0 ==> |k.data| <= net.mtu)
  }

  lemma {:induction false} SendFragments(net: Network, delay: int, start: int, tNow: int, last: int, p: seq<Byte>)
    ensures var ks := Send(net, delay, start, tNow, last, p);
            && Payload(ks) == p
            && (forall i :: 0 <= i < |ks| ==> GoodSize(net, ks[i]))
    decreases |p|
  {
    if p != [] {
      var k := FirstPacket(net, delay, start, tNow, last, p);
      var rest := Send(net, delay, start, k.at, k.end, p[|k.data|..]);
      SendFragments(net, delay, start, k.at, k.end, p[|k.data|..]);
      var ks := [k] + rest;
      assert ks[1..] == rest;
      assert p == k.data + p[|k.data|..];
    }
  }

  // Every packet but the last has exactly MTU bytes; without an MTU there is one packet.
  lemma {:induction false} FragmentsAreFull(net: Network, delay: int, start: int, tNow: int, last: int, p: seq<Byte>)
    ensures var ks := Send(net, delay, start, tNow, last, p);
            && (p != [] ==> ks != [])
            && (forall i :: 0 <= i < |ks| - 1 ==> net.mtu > 0 && |ks[i].data| == net.mtu)
    decreases |p|
  {
    if p != [] {
      var k := FirstPacket(net, delay, start, tNow, last, p);
      FragmentsAreFull(net, delay, start, k.at, k.end, p[|k.data|..]);
    }
  }

  // ---- timing of the packets of one Write ----

  // After `prev` the packet takes at least its transmission time, it does not start before its Write, and with
  // a bandwidth limit the backlog it leaves behind is at most the delay and its own transmission time.
  ghost predicate WellTimed(net: Network, delay: int, prev: int, k: Packet) {
    var d := PktTime(net, |k.data|);
    && k.end >= prev + d
    && k.end >= k.start + d
    && (net.kbps > 0 ==> k.end - k.at <= delay + d)
  }

  ghost function Previous(ks: seq<Packet>, i: nat, last: int): int
    requires i < |ks|
  {
    if i == 0 then last else ks[i - 1].end
  }

  ghost predicate AllTimed(net: Network, delay: int, ks: seq<Packet>, last: int) {
    forall i {:trigger Previous(ks, i, last)} :: 0 <= i < |ks| ==>
      WellTimed(net, delay, Previous(ks, i, last), ks[i])
  }

  lemma {:induction false} SendTimed(net: Network, delay: int, start: int, tNow: int, last: int, p: seq<Byte>)
    requires start <= last
    ensures var ks := Send(net, delay, start, tNow, last, p);
            && AllTimed(net, delay, ks, last)
            && last <= LastEnd(ks, last)
    decreases |p|
  {
    if p != [] {
      var k := FirstPacket(net, delay, start, tNow, last, p);
      var rest := Send(net, delay, start, k.at, k.end, p[|k.data|..]);
      SendTimed(net, delay, start, k.at, k.end, p[|k.data|..]);
      var ks := [k] + rest;
      forall i | 0 <= i < |ks| ensures WellTimed(net, delay, Previous(ks, i, last), ks[i]) {
        if i > 0 {
          assert Previous(ks, i, last) == Previous(rest, i - 1, k.end);
        }
      }
    }
  }

  lemma TimedConcat(net: Network, delay: int, ks: seq<Packet>, ls: seq<Packet>, last: int, mid: int)
    requires AllTimed(net, delay, ks, last) && AllTimed(net, delay, ls, mid) && LastEnd(ks, last) <= mid
    ensures AllTimed(net, delay, ks + ls, last)
  {
    var es := ks + ls;
    forall i | 0 <= i < |es| ensures WellTimed(net, delay, Previous(es, i, last), es[i]) {
      if i < |ks| {
        assert Previous(es, i, last) == Previous(ks, i, last);
      } else {
        var j := i - |ks|;
        assert WellTimed(net, delay, Previous(ls, j, mid), ls[j]);
        assert Previous(es, i, last) <= Previous(ls, j, mid);
      }
    }
  }

  // ---- rounding ----

  function TotalTime(net: Network, ks: seq<Packet>): nat {
    if ks == [] then 0 else PktTime(net, |ks[0].data|) + TotalTime(net, ks[1..])
  }

  lemma Distribute(c: int, x: int, y: int)
    ensures c * (x + y) == c * x + c * y
  {
  }

  lemma QuotientSum(a: nat, b: nat, c: nat)
    requires c > 0
    ensures Quotient(a, c) + Quotient(b, c) <= Quotient(a + b, c) <= Quotient(a, c) + Quotient(b, c) + 1
  {
    var q, s := a / c, b / c;
    QuotientIs(a, c, q);
    QuotientIs(b, c, s);
    Distribute(c, q, s);
    Distribute(c, q + s, 1);
    QuotientIs(a + b, c, q + s);
    QuotientIs(a + b, c, q + s + 1);
  }

  // The transmission time in whole nanoseconds: kilobits are 1024 bits, so one carries 128 bytes.
  lemma PktTimeIs(net: Network, b: nat)
    ensures net.kbps <= 0 ==> PktTime(net, b) == 0
    ensures net.kbps > 0 ==>
              var t, rate := PktTime(net, b), net.kbps * 128;
              t * rate <= 1_000_000_000 * b < (t + 1) * rate
  {
    if net.kbps > 0 {
      var t, rate := PktTime(net, b), net.kbps * 128;
      QuotientIs(SECOND * b, rate, t);
      Distribute(rate, t, 1);
    }
  }

  lemma PktTimeSum(net: Network, a: nat, b: nat)
    ensures PktTime(net, a) + PktTime(net, b) <= PktTime(net, a + b) <= PktTime(net, a) + PktTime(net, b) + 1
  {
    if net.kbps > 0 {
      QuotientSum(SECOND * a, SECOND * b, net.kbps * 128);
      assert SECOND * a + SECOND * b == SECOND * (a + b);
    }
  }

  // Splitting a payload never charges more than the whole, and loses less than a nanosecond per cut.
  lemma {:induction false} FragmentingRoundsDown(net: Network, ks: seq<Packet>)
    requires ks != []
    ensures var whole := PktTime(net, |Payload(ks)|);
            TotalTime(net, ks) <= whole <= TotalTime(net, ks) + |ks| - 1
  {
    if |ks| == 1 {
      assert Payload(ks) == ks[0].data + Payload(ks[1..]);
      assert ks[1..] == [];
    } else {
      FragmentingRoundsDown(net, ks[1..]);
      PktTimeSum(net, |ks[0].data|, |Payload(ks[1..])|);
    }
  }

  lemma WriteRoundsDown(net: Network, delay: int, start: int, last: int, p: seq<Byte>)
    requires p != []
    ensures var ks := WritePackets(net, delay, start, last, p);
            TotalTime(net, ks) <= PktTime(net, |p|) <= TotalTime(net, ks) + |ks| - 1
  {
    SendFragments(net, delay, start, start, Max(last, start), p);
    FragmentingRoundsDown(net, WritePackets(net, delay, start, last, p));
  }

  // ---- one packet over the wire ----

  // The size a reader takes from the header of a packet of n bytes; a negative size counts as none.
  function Announced(n: nat): nat {
    var sz := Signed(Unsigned(n, TWO32), TWO32);
    if sz < 0 then 0 else sz
  }

  predicate Small(k: Packet) { |k.data| < TWO31 }

  lemma AnnouncedIff(n: nat)
    ensures Announced(n) <= n && (Announced(n) == n <==> n < TWO31)
  {
  }

  lemma WireParts(delay: int, k: Packet, rest: seq<Byte>)
    ensures var wire := EncodePacket(delay, k) + rest;
            && |wire| >= LENGTH
            && wire[..LENGTH] == Encode(PacketHeader(k.end + delay, |k.data|))
            && wire[LENGTH..] == k.data + rest
  {
  }

  // The reader always finds a packet, and takes the announced part of it.
  lemma ParseEncoded(delay: int, k: Packet, rest: seq<Byte>)
    ensures var a := Announced(|k.data|);
            && a <= |k.data|
            && Parse(EncodePacket(delay, k) + rest)
               == Some(Frame(Decode(Encode(PacketHeader(k.end + delay, |k.data|))), k.data[..a], k.data[a..] + rest))
  {
    var a := Announced(|k.data|);
    AnnouncedIff(|k.data|);
    WireParts(delay, k, rest);
    DecodeEncode(PacketHeader(k.end + delay, |k.data|));
    assert (k.data + rest)[..a] == k.data[..a] && (k.data + rest)[a..] == k.data[a..] + rest;
  }

  // Exactly packets below 2^31 bytes reach the reader whole.
  lemma PacketSurvivesIff(delay: int, k: Packet, rest: seq<Byte>)
    ensures Parse(EncodePacket(delay, k) + rest).Some?
    ensures var f := Parse(EncodePacket(delay, k) + rest).value;
            f.data == k.data && f.rest == rest <==> Small(k)
  {
    ParseEncoded(delay, k, rest);
    AnnouncedIff(|k.data|);
    assert k.data[|k.data|..] + rest == rest && k.data[..|k.data|] == k.data;
  }

  ghost predicate AllSmall(ks: seq<Packet>) {
    forall i {:trigger Small(ks[i])} :: 0 <= i < |ks| ==> Small(ks[i])
  }

  lemma SmallConcat(ks: seq<Packet>, ls: seq<Packet>)
    ensures AllSmall(ks + ls) <==> AllSmall(ks) && AllSmall(ls)
  {
    var es := ks + ls;
    if AllSmall(es) {
      forall i | 0 <= i < |ks| ensures Small(ks[i]) {
        assert Small(es[i]);
      }
      forall i | 0 <= i < |ls| ensures Small(ls[i]) {
        assert Small(es[|ks| + i]);
      }
    }
    if AllSmall(ks) && AllSmall(ls) {
      forall i | 0 <= i < |es| ensures Small(es[i]) {
        assert Small(if i < |ks| then ks[i] else ls[i - |ks|]);
      }
    }
  }

  // A payload is cut into packets below 2^31 bytes exactly when the first one is.
  lemma {:induction false} SendSmallIff(net: Network, delay: int, start: int, tNow: int, last: int, p: seq<Byte>)
    ensures AllSmall(Send(net, delay, start, tNow, last, p)) <==> PacketLength(net, |p|) < TWO31
    decreases |p|
  {
    if p != [] {
      var k := FirstPacket(net, delay, start, tNow, last, p);
      var p' := p[|k.data|..];
      SendSmallIff(net, delay, start, k.at, k.end, p');
      SmallConcat([k], Send(net, delay, start, k.at, k.end, p'));
      assert AllSmall([k]) <==> Small(k) by {
        assert [k][0] == k;
      }
      assert PacketLength(net, |p'|) <= |k.data|;
    }
  }
}

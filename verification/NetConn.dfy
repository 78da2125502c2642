// The latency-injecting connection: fragmentation, the virtual send clock and delayed delivery.
module NetConn {
  import opened Collections
  import opened Header
  import opened Time
  import opened Wrappers

  // Kilobits per second and bytes per packet; non-positive means unlimited.
  datatype Network = Network(kbps: int, latency: int, mtu: int)

  function Quotient(a: nat, b: nat): nat
    requires b > 0
  {
    a / b
  }

  // Nanoseconds to transmit b bytes.
  function PktTime(net: Network, b: nat): nat {
    if net.kbps <= 0 then 0 else Quotient(SECOND * b, net.kbps * 128)
  }

  // A packet as sent: when its Write started, the sender's clock and the time it was fully on the wire.
  datatype Packet = Packet(start: int, at: int, end: int, data: seq<Byte>)

  // ---- Write ----

  function PacketLength(net: Network, n: nat): nat {
    if net.mtu > 0 && n > net.mtu then net.mtu else n
  }

  // The sender's clock once the packet may go out: it waits until the backlog is at most the delay.
  function Cleared(net: Network, delay: int, tNow: int, lastSendEnd: int): int {
    if net.kbps > 0 && lastSendEnd - tNow - delay > 0 then lastSendEnd - delay else tNow
  }

  function Max(a: int, b: int): int { if a < b then b else a }

  function FirstPacket(net: Network, delay: int, start: int, tNow: int, last: int, p: seq<Byte>): (k: Packet)
    requires p != []
    ensures 0 < |k.data| <= |p| && k.data == p[..|k.data|]
  {
    var n := PacketLength(net, |p|);
    Packet(start, Cleared(net, delay, tNow, last), last + PktTime(net, n), p[..n])
  }

  // The packets one Write of `p` emits, started at `start` with clock `tNow` and backlog until `last`.
  function Send(net: Network, delay: int, start: int, tNow: int, last: int, p: seq<Byte>): seq<Packet>
    decreases |p|
  {
    if p == [] then []
    else
      var k := FirstPacket(net, delay, start, tNow, last, p);
      [k] + Send(net, delay, start, k.at, k.end, p[|k.data|..])
  }

  function WritePackets(net: Network, delay: int, start: int, lastSendEnd: int, p: seq<Byte>): seq<Packet> {
    Send(net, delay, start, start, Max(lastSendEnd, start), p)
  }

  // When the backlog ends after those packets.
  function LastEnd(packets: seq<Packet>, last: int): int {
    if packets == [] then last else packets[|packets| - 1].end
  }

  // The writer's clock after those packets.
  function LastAt(packets: seq<Packet>, at: int): int {
    if packets == [] then at else packets[|packets| - 1].at
  }

  function EncodePacket(delay: int, k: Packet): seq<Byte> {
    Encode(PacketHeader(k.end + delay, |k.data|)) + k.data
  }

  function EncodePackets(delay: int, ks: seq<Packet>): seq<Byte> {
    if ks == [] then [] else EncodePacket(delay, ks[0]) + EncodePackets(delay, ks[1..])
  }

  function Payload(ks: seq<Packet>): seq<Byte> {
    if ks == [] then [] else ks[0].data + Payload(ks[1..])
  }

  // ---- Read ----

  datatype Frame = Frame(header: PacketHeader, data: seq<Byte>, rest: seq<Byte>)

  // The first complete packet on the wire; without one, Read blocks.
  function Parse(wire: seq<Byte>): Option<Frame> {
    if |wire| < LENGTH then None
    else
      var h, body := Decode(wire[..LENGTH]), wire[LENGTH..];
      if h.sz <= 0 then Some(Frame(h, [], body))
      else if |body| < h.sz then None
      else Some(Frame(h, body[..h.sz], body[h.sz..]))
  }

  // `release` is the time the reader sleeps until, if this Read took a packet off the wire.
  datatype Outcome =
    | Blocked
    | Returned(data: seq<Byte>, eof: bool, readBuf: seq<Byte>, wire: seq<Byte>, release: Option<int>)

  function Drain(buf: seq<Byte>, n: nat, wire: seq<Byte>, release: Option<int>): Outcome {
    var k := if n < |buf| then n else |buf|;
    Returned(buf[..k], buf == [] && n > 0, buf[k..], wire, release)
  }

  function ReadOutcome(readBuf: seq<Byte>, wire: seq<Byte>, n: nat): Outcome {
    if readBuf != [] then Drain(readBuf, n, wire, None)
    else
      match Parse(wire)
      case None => Blocked
      case Some(f) => Drain(f.data, n, f.rest, Some(f.header.readTime))
  }

  // ---- the connection itself ----

  class Clock {
    var t: int
    ghost var deadlines: seq<int>  // when each sleep so far was asked to end
    ghost var asleep: int          // how long all sleeps so far were asked to last

    // Time passes by any amount.
    method Now() returns (now: int)
      modifies this`t
      ensures old(t) <= t == now
    {
      var d: nat :| true;
      t := t + d;
      now := t;
    }

    method Sleep(d: int)
      modifies this
      ensures t >= old(t) && t >= old(t) + d
      ensures deadlines == old(deadlines) + [old(t) + d]
      ensures asleep == old(asleep) + if d > 0 then d else 0
    {
      asleep := asleep + if d > 0 then d else 0;
      deadlines := deadlines + [t + d];
      var e: nat :| e >= d;
      t := t + e;
    }
  }

  // The inner connection in one direction.
  class Wire {
    var bytes: seq<Byte>

    method Write(bs: seq<Byte>) returns (n: nat)
      modifies this
      ensures bytes == old(bytes) + bs && n == |bs|
    {
      bytes := bytes + bs;
      n := |bs|;
    }
  }

  class Conn {
    const network: Network
    var readBuf: seq<Byte>
    var lastSendEnd: int
    var delay: int
    const outbound: Wire
    const inbound: Wire
    const clock: Clock

    constructor (network: Network, outbound: Wire, inbound: Wire, clock: Clock)
      ensures this.network == network && this.outbound == outbound && this.inbound == inbound
      ensures this.clock == clock && delay == network.latency && readBuf == [] && lastSendEnd == 0
    {
      this.network, this.outbound, this.inbound, this.clock := network, outbound, inbound, clock;
      readBuf, lastSendEnd, delay := [], 0, network.latency;
    }

    // One packet off the front of `p` (lines 106-129).
    method SendPacket(p: seq<Byte>, tNow: int, ghost start: int)
      returns (rest: seq<Byte>, tNow': int, x: nat, ghost k: Packet)
      requires p != [] && tNow <= clock.t
      modifies this`lastSendEnd, outbound, clock
      ensures k == FirstPacket(network, delay, start, tNow, old(lastSendEnd), p)
      ensures rest == p[|k.data|..] && x == |k.data| && tNow' == k.at && lastSendEnd == k.end
      ensures outbound.bytes == old(outbound.bytes) + EncodePacket(delay, k)
      ensures tNow' <= clock.t && old(clock.t) <= clock.t
      ensures clock.asleep == old(clock.asleep) + tNow' - tNow
    {
      var pkt := p;
      if network.mtu > 0 && |pkt| > network.mtu {
        pkt := pkt[..network.mtu];
        rest := p[network.mtu..];
      } else {
        rest := [];
      }
      tNow' := tNow;
      if network.kbps > 0 {
        var congestion := lastSendEnd - tNow' - delay;
        if congestion > 0 {
          clock.Sleep(congestion);
          tNow' := tNow' + congestion;
        }
      }
      lastSendEnd := lastSendEnd + PktTime(network, |pkt|);
      k := Packet(start, tNow', lastSendEnd, pkt);
      var hdr := PacketHeader(lastSendEnd + delay, |pkt|);
      x := outbound.Write(Encode(hdr));
      x := outbound.Write(pkt);
      Join3(old(outbound.bytes), Encode(hdr), pkt);
    }

    // `start` is the value of now() on entry, `ks` the packets sent.
    method Write(p: seq<Byte>) returns (n: nat, ghost start: int, ghost ks: seq<Packet>)
      modifies this`lastSendEnd, outbound, clock
      ensures old(clock.t) <= start <= clock.t
      ensures ks == WritePackets(network, delay, start, old(lastSendEnd), p)
      ensures outbound.bytes == old(outbound.bytes) + EncodePackets(delay, ks)
      ensures lastSendEnd == LastEnd(ks, Max(old(lastSendEnd), start))
      ensures n == |p|
      ensures LastAt(ks, start) <= clock.t
      ensures clock.asleep == old(clock.asleep) + LastAt(ks, start) - start
    {
      var tNow := clock.Now();
      start, ks := tNow, [];
      if lastSendEnd < tNow {
        lastSendEnd := tNow;
      }
      n := 0;
      var p' := p;
      ghost var base := lastSendEnd;
      ghost var all := Send(network, delay, start, start, base, p);
      while |p'| > 0
        invariant n + |p'| == |p|
        invariant start <= clock.t && tNow <= clock.t
        invariant outbound.bytes == old(outbound.bytes) + EncodePackets(delay, ks)
        invariant lastSendEnd == LastEnd(ks, base)
        invariant all == ks + Send(network, delay, start, tNow, lastSendEnd, p')
        invariant tNow == LastAt(ks, start) && clock.asleep == old(clock.asleep) + tNow - start
      {
        var x;
        ghost var k;
        p', tNow, x, k := SendPacket(p', tNow, start);
        n := n + x;
        ks := OneMore(delay, old(outbound.bytes), ks, k, all, Send(network, delay, start, tNow, lastSendEnd, p'));
      }
    }

    // None while the call blocks; otherwise the bytes delivered and whether it reported end of file.
    method Read(n: nat) returns (r: Option<(seq<Byte>, bool)>)
      modifies this`readBuf, inbound, clock
      ensures var o := ReadOutcome(old(readBuf), old(inbound.bytes), n);
        && (o.Blocked? ==> r.None? && readBuf == old(readBuf) && inbound.bytes == old(inbound.bytes))
        && (o.Returned? ==>
              && r == Some((o.data, o.eof)) && readBuf == o.readBuf && inbound.bytes == o.wire
              && clock.deadlines == old(clock.deadlines) + (if o.release.Some? then [o.release.value] else [])
              && (o.release.Some? ==> clock.t >= o.release.value))
      ensures clock.t >= old(clock.t)
    {
      var hdr: Option<PacketHeader> := None;
      if |readBuf| == 0 {
        var frame := Parse(inbound.bytes);
        if frame.None? {
          return None;
        }
        hdr := Some(frame.value.header);
        readBuf := frame.value.data;
        inbound.bytes := frame.value.rest;
      }
      var k := if n < |readBuf| then n else |readBuf|;
      r := Some((readBuf[..k], |readBuf| == 0 && n > 0));
      readBuf := readBuf[k..];
      if hdr.Some? {
        var now := clock.Now();
        clock.Sleep(hdr.value.readTime - now);
      }
    }
  }

  lemma OneMore(delay: int, base: seq<Byte>, ks: seq<Packet>, k: Packet, all: seq<Packet>, rest: seq<Packet>)
    returns (ks': seq<Packet>)
    requires all == ks + ([k] + rest)
    ensures all == ks' + rest && ks' != [] && ks'[|ks'| - 1] == k
    ensures base + EncodePackets(delay, ks) + EncodePacket(delay, k) == base + EncodePackets(delay, ks')
  {
    ks' := ks + [k];
    EncodeSnoc(delay, ks, k);
    Join3(base, EncodePackets(delay, ks), EncodePacket(delay, k));
    Join3(ks, [k], rest);
  }

  lemma {:induction false} EncodeSnoc(delay: int, ks: seq<Packet>, k: Packet)
    ensures EncodePackets(delay, ks + [k]) == EncodePackets(delay, ks) + EncodePacket(delay, k)
  {
    if ks == [] {
      assert [] + [k] == [k];
    } else {
      assert (ks + [k])[1..] == ks[1..] + [k];
      EncodeSnoc(delay, ks[1..], k);
    }
  }
}

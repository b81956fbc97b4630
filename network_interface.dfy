// The network interface (src/network_interface.cc): it connects IP to Ethernet, resolving next-hop
// IP addresses to Ethernet addresses with ARP (RFC 826). Unresolved datagrams wait per IP address
// while an ARP request goes out, at most one per IP address every 5000 ms; every ARP frame that
// arrives teaches the cache its sender and releases the datagrams waiting for it.
//
// The interface state is first described as a value (Iface) with one function per operation; the
// NetworkInterface class below performs the operations in place and is proved to agree with them.
// Frames handed to the output port are appended to the transmitted log.
module Interfaces {
  import opened Common
  import opened Ethernet

  /** A datagram waiting for its next hop's Ethernet address, with that next hop. */
  datatype Pending = Pending(dgram: InternetDatagram, nextHop: Ip)

  /** The minimum time between two ARP requests for the same IP address, in milliseconds. */
  const ARP_REQUEST_INTERVAL: nat := 5000

  /** Everything the interface keeps: its own addresses, the ARP cache (ip2mac_), the time of the
      last request per IP address (last_broadcast_), the waiting datagrams (waiting_dgram_), the
      clock (timer_), the inbound queue (datagrams_received_) and the frames transmitted so far. */
  datatype Iface = Iface(eth: EthernetAddress, ip: Ip,
                         ip2mac: map<Ip, EthernetAddress>, lastBroadcast: map<Ip, nat>,
                         waiting: map<Ip, seq<Pending>>, timer: nat,
                         received: seq<InternetDatagram>, transmitted: seq<EthernetFrame>)

  /** The datagrams waiting for ip, in arrival order; none if there is no list for it. */
  function PendingFor(waiting: map<Ip, seq<Pending>>, ip: Ip): seq<Pending>
  {
    if ip in waiting then waiting[ip] else []
  }

  /** An IPv4 frame carrying dgram from eth to mac. */
  function DatagramFrame(eth: EthernetAddress, mac: EthernetAddress, dgram: InternetDatagram): EthernetFrame
  {
    EthernetFrame(EthernetHeader(mac, eth, TYPE_IPv4), DatagramBytes(dgram))
  }

  /** The broadcast ARP request asking who has dstIp. */
  function ArpRequestFrame(eth: EthernetAddress, ip: Ip, dstIp: Ip): EthernetFrame
  {
    EthernetFrame(EthernetHeader(ETHERNET_BROADCAST, eth, TYPE_ARP),
                  ArpBytes(ARPMessage(OPCODE_REQUEST, eth, ip, ETHERNET_ZERO, dstIp)))
  }

  /** The ARP reply to request, sent straight back to the requester. */
  function ArpReplyFrame(eth: EthernetAddress, ip: Ip, request: ARPMessage): EthernetFrame
  {
    EthernetFrame(EthernetHeader(request.senderEthernetAddress, eth, TYPE_ARP),
                  ArpBytes(ARPMessage(OPCODE_REPLY, eth, ip, request.senderEthernetAddress, request.senderIpAddress)))
  }

  /** A request for dstIp may go out: none was ever sent for it, or the last one is 5000 ms old. */
  predicate BroadcastDue(st: Iface, dstIp: Ip)
  {
    dstIp !in st.lastBroadcast || st.timer - st.lastBroadcast[dstIp] >= ARP_REQUEST_INTERVAL
  }

  /** Broadcasts a request for nextHop and records its time, if one is due. */
  function Asked(st: Iface, nextHop: Ip): Iface
  {
    if BroadcastDue(st, nextHop) then
      st.(lastBroadcast := st.lastBroadcast[nextHop := st.timer],
          transmitted := st.transmitted + [ArpRequestFrame(st.eth, st.ip, nextHop)])
    else st
  }

  /** Appends the pair to the list waiting for nextHop, creating the list if there is none. */
  function Queued(st: Iface, dgram: InternetDatagram, nextHop: Ip): Iface
  {
    st.(waiting := st.waiting[nextHop := PendingFor(st.waiting, nextHop) + [Pending(dgram, nextHop)]])
  }

  /** send_datagram: transmit at once when the next hop's address is cached; otherwise queue the
      datagram for that next hop, broadcasting a request first when one is due. */
  function Sending(st: Iface, dgram: InternetDatagram, nextHop: Ip): Iface
  {
    if nextHop in st.ip2mac then
      st.(transmitted := st.transmitted + [DatagramFrame(st.eth, st.ip2mac[nextHop], dgram)])
    else
      Queued(Asked(st, nextHop), dgram, nextHop)
  }

  /** send_datagram applied to each pending pair in turn. */
  function Flushing(st: Iface, ps: seq<Pending>): Iface
    decreases |ps|
  {
    if ps == [] then st
    else Sending(Flushing(st, ps[..|ps| - 1]), ps[|ps| - 1].dgram, ps[|ps| - 1].nextHop)
  }

  /** The frame's destination is this interface or everyone. */
  predicate Accepts(st: Iface, frame: EthernetFrame)
  {
    frame.header.dst == ETHERNET_BROADCAST || frame.header.dst == st.eth
  }

  /** recv_frame: ignore frames for other stations; queue an IPv4 frame's datagram; for an ARP
      frame, learn the sender, answer a request for this interface's own address, then send the
      datagrams that were waiting for the sender and drop their list. */
  function Receiving(st: Iface, frame: EthernetFrame): Iface
  {
    if !Accepts(st, frame) then st
    else if frame.header.etherType == TYPE_IPv4 then
      st.(received := st.received + [ParseDatagram(frame.payload)])
    else if frame.header.etherType == TYPE_ARP then
      var arp := ParseArp(frame.payload);
      var learned := st.(ip2mac := st.ip2mac[arp.senderIpAddress := arp.senderEthernetAddress]);
      var replied := if arp.opcode == OPCODE_REQUEST && st.ip == arp.targetIpAddress then
                       learned.(transmitted := learned.transmitted + [ArpReplyFrame(st.eth, st.ip, arp)])
                     else learned;
      var flushed := Flushing(replied, PendingFor(replied.waiting, arp.senderIpAddress));
      flushed.(waiting := flushed.waiting - {arp.senderIpAddress})
    else st
  }

  /** tick: only the clock moves. */
  function Ticking(st: Iface, ms: nat): Iface
  {
    st.(timer := st.timer + ms)
  }

  /** What the interface keeps true between calls: a waiting IP address is not cached and has had
      a request sent for it, every pending pair waits under its own next hop, and no request time
      lies in the future. */
  ghost predicate Consistent(st: Iface)
  {
    && (forall ip :: ip in st.waiting ==> ip !in st.ip2mac && ip in st.lastBroadcast)
    && (forall ip, k :: ip in st.waiting && 0 <= k < |st.waiting[ip]| ==> st.waiting[ip][k].nextHop == ip)
    && (forall ip :: ip in st.lastBroadcast ==> st.lastBroadcast[ip] <= st.timer)
  }

  /** The IPv4 frames that deliver ps directly, in order, once every next hop is cached. */
  function Deliveries(eth: EthernetAddress, ip2mac: map<Ip, EthernetAddress>, ps: seq<Pending>): seq<EthernetFrame>
    requires forall k :: 0 <= k < |ps| ==> ps[k].nextHop in ip2mac
    decreases |ps|
  {
    if ps == [] then []
    else Deliveries(eth, ip2mac, ps[..|ps| - 1])
         + [DatagramFrame(eth, ip2mac[ps[|ps| - 1].nextHop], ps[|ps| - 1].dgram)]
  }

  /** send_datagram with a cached next hop transmits exactly one IPv4 frame, to the cached address
      from the interface's own, and queues nothing; with an uncached one it transmits no IPv4
      frame, appends the pair to that next hop's list, and sends at most one ARP request. */
  lemma SendingEffect(st: Iface, dgram: InternetDatagram, nextHop: Ip)
    ensures var r := Sending(st, dgram, nextHop);
      && r.ip2mac == st.ip2mac && r.timer == st.timer && r.received == st.received
      && (nextHop in st.ip2mac ==>
            && r.transmitted == st.transmitted + [DatagramFrame(st.eth, st.ip2mac[nextHop], dgram)]
            && r.waiting == st.waiting && r.lastBroadcast == st.lastBroadcast)
      && (nextHop !in st.ip2mac ==>
            && r.waiting == st.waiting[nextHop := PendingFor(st.waiting, nextHop) + [Pending(dgram, nextHop)]]
            && (r.transmitted == st.transmitted || r.transmitted == st.transmitted + [ArpRequestFrame(st.eth, st.ip, nextHop)])
            && (r.transmitted != st.transmitted <==> BroadcastDue(st, nextHop)))
  {
  }

  lemma SendingConsistent(st: Iface, dgram: InternetDatagram, nextHop: Ip)
    requires Consistent(st)
    ensures Consistent(Sending(st, dgram, nextHop))
  {
    if nextHop !in st.ip2mac {
      var asked := Asked(st, nextHop);
      if BroadcastDue(st, nextHop) {
        assert asked.lastBroadcast == st.lastBroadcast[nextHop := st.timer];
      } else {
        assert asked == st;
      }
      assert asked.waiting == st.waiting && asked.ip2mac == st.ip2mac && asked.timer == st.timer;
      var list := PendingFor(asked.waiting, nextHop) + [Pending(dgram, nextHop)];
      forall k | 0 <= k < |list|
        ensures list[k].nextHop == nextHop
      {
        if k < |list| - 1 {
          assert list[k] == asked.waiting[nextHop][k];
        }
      }
    }
  }

  /** After send_datagram has broadcast a request for an uncached nextHop, another datagram for it
      sent less than 5000 ms later is queued without a second request. */
  lemma RequestsThrottled(st: Iface, d1: InternetDatagram, d2: InternetDatagram, nextHop: Ip, ms: nat)
    requires nextHop !in st.ip2mac && BroadcastDue(st, nextHop) && ms < ARP_REQUEST_INTERVAL
    ensures Sending(st, d1, nextHop).transmitted == st.transmitted + [ArpRequestFrame(st.eth, st.ip, nextHop)]
    ensures var later := Ticking(Sending(st, d1, nextHop), ms);
      Sending(later, d2, nextHop).transmitted == later.transmitted
  {
    var asked := Asked(st, nextHop);
    assert asked.lastBroadcast == st.lastBroadcast[nextHop := st.timer];
    assert Sending(st, d1, nextHop) == Queued(asked, d1, nextHop);
    var queued := Queued(asked, d1, nextHop);
    assert queued.lastBroadcast == asked.lastBroadcast;
    assert queued.timer == st.timer;
    var later := Ticking(Sending(st, d1, nextHop), ms);
    assert later.lastBroadcast == asked.lastBroadcast;
    assert later.timer == st.timer + ms;
    assert !BroadcastDue(later, nextHop);
  }

  /** Sending pairs whose next hops are all cached transmits them directly, in order, and changes
      nothing else. */
  lemma {:induction false} FlushingCached(st: Iface, ps: seq<Pending>)
    requires forall k :: 0 <= k < |ps| ==> ps[k].nextHop in st.ip2mac
    ensures Flushing(st, ps) == st.(transmitted := st.transmitted + Deliveries(st.eth, st.ip2mac, ps))
    decreases |ps|
  {
    if ps != [] {
      var init := ps[..|ps| - 1];
      FlushingCached(st, init);
      var before := st.transmitted + Deliveries(st.eth, st.ip2mac, init);
      var frame := DatagramFrame(st.eth, st.ip2mac[ps[|ps| - 1].nextHop], ps[|ps| - 1].dgram);
      assert before + [frame] == st.transmitted + Deliveries(st.eth, st.ip2mac, ps);
    }
  }

  /** An accepted ARP frame from sender S caches S, answers a request aimed at this interface,
      transmits every datagram that waited for S directly and in arrival order, and leaves no list
      for S; the other lists, the request times, the clock and the inbound queue are untouched. */
  lemma ReceivingArp(st: Iface, frame: EthernetFrame)
    requires Consistent(st) && Accepts(st, frame) && frame.header.etherType == TYPE_ARP
    ensures var arp := ParseArp(frame.payload);
      var r := Receiving(st, frame);
      var cache := st.ip2mac[arp.senderIpAddress := arp.senderEthernetAddress];
      var reply := if arp.opcode == OPCODE_REQUEST && st.ip == arp.targetIpAddress
                   then [ArpReplyFrame(st.eth, st.ip, arp)] else [];
      && r.ip2mac == cache
      && (forall k :: 0 <= k < |PendingFor(st.waiting, arp.senderIpAddress)| ==>
            PendingFor(st.waiting, arp.senderIpAddress)[k].nextHop in cache)
      && r.transmitted == st.transmitted + reply + Deliveries(st.eth, cache, PendingFor(st.waiting, arp.senderIpAddress))
      && r.waiting == st.waiting - {arp.senderIpAddress}
      && r.lastBroadcast == st.lastBroadcast && r.timer == st.timer && r.received == st.received
  {
    var arp := ParseArp(frame.payload);
    var cache := st.ip2mac[arp.senderIpAddress := arp.senderEthernetAddress];
    var learned := st.(ip2mac := cache);
    var replied := if arp.opcode == OPCODE_REQUEST && st.ip == arp.targetIpAddress then
                     learned.(transmitted := learned.transmitted + [ArpReplyFrame(st.eth, st.ip, arp)])
                   else learned;
    var ps := PendingFor(replied.waiting, arp.senderIpAddress);
    forall k | 0 <= k < |ps|
      ensures ps[k].nextHop in cache
    {
      assert ps[k].nextHop == arp.senderIpAddress;
    }
    FlushingCached(replied, ps);
  }

  lemma ReceivingConsistent(st: Iface, frame: EthernetFrame)
    requires Consistent(st)
    ensures Consistent(Receiving(st, frame))
  {
    if Accepts(st, frame) && frame.header.etherType == TYPE_ARP {
      ReceivingArp(st, frame);
    }
  }

  lemma TickingConsistent(st: Iface, ms: nat)
    requires Consistent(st)
    ensures Consistent(Ticking(st, ms))
  {
  }

  /** Cache entries are never removed: sending and ticking leave the cache alone, and receiving
      only adds or overwrites. */
  lemma CacheNeverShrinks(st: Iface, dgram: InternetDatagram, nextHop: Ip, frame: EthernetFrame, ms: nat)
    ensures Sending(st, dgram, nextHop).ip2mac == st.ip2mac
    ensures Ticking(st, ms).ip2mac == st.ip2mac
    ensures st.ip2mac.Keys <= Receiving(st, frame).ip2mac.Keys
  {
    SendingEffect(st, dgram, nextHop);
    if Accepts(st, frame) && frame.header.etherType == TYPE_ARP {
      var arp := ParseArp(frame.payload);
      var learned := st.(ip2mac := st.ip2mac[arp.senderIpAddress := arp.senderEthernetAddress]);
      var replied := if arp.opcode == OPCODE_REQUEST && st.ip == arp.targetIpAddress then
                       learned.(transmitted := learned.transmitted + [ArpReplyFrame(st.eth, st.ip, arp)])
                     else learned;
      FlushingKeepsCache(replied, PendingFor(replied.waiting, arp.senderIpAddress));
    }
  }

  lemma {:induction false} FlushingKeepsCache(st: Iface, ps: seq<Pending>)
    ensures Flushing(st, ps).ip2mac == st.ip2mac
    decreases |ps|
  {
    if ps != [] {
      FlushingKeepsCache(st, ps[..|ps| - 1]);
    }
  }

  class NetworkInterface {
    const ethernetAddress: EthernetAddress
    const ipAddress: Ip
    var ip2mac: map<Ip, EthernetAddress>
    var lastBroadcast: map<Ip, nat>
    var waiting: map<Ip, seq<Pending>>
    var timer: nat
    var datagramsReceived: seq<InternetDatagram>
    /** Every frame handed to the output port, in order. */
    ghost var transmitted: seq<EthernetFrame>

    ghost function State(): Iface
      reads this
    {
      Iface(ethernetAddress, ipAddress, ip2mac, lastBroadcast, waiting, timer, datagramsReceived, transmitted)
    }

    constructor (ethernetAddress: EthernetAddress, ipAddress: Ip)
      ensures State() == Iface(ethernetAddress, ipAddress, map[], map[], map[], 0, [], [])
      ensures Consistent(State())
    {
      this.ethernetAddress := ethernetAddress;
      this.ipAddress := ipAddress;
      ip2mac := map[];
      lastBroadcast := map[];
      waiting := map[];
      timer := 0;
      datagramsReceived := [];
      transmitted := [];
    }

    method SendDatagram(dgram: InternetDatagram, nextHop: Ip)
      modifies this
      ensures State() == Sending(old(State()), dgram, nextHop)
    {
      var dstIp := nextHop;
      if dstIp !in ip2mac {
        if dstIp !in lastBroadcast || timer - lastBroadcast[dstIp] >= ARP_REQUEST_INTERVAL {
          lastBroadcast := lastBroadcast[dstIp := timer];
          Broadcast(dstIp);
        }
        var queued := if dstIp in waiting then waiting[dstIp] else [];
        waiting := waiting[dstIp := queued + [Pending(dgram, nextHop)]];
        return;
      }
      transmitted := transmitted + [DatagramFrame(ethernetAddress, ip2mac[dstIp], dgram)];
    }

    method RecvFrame(frame: EthernetFrame)
      modifies this
      ensures State() == Receiving(old(State()), frame)
    {
      if frame.header.dst != ETHERNET_BROADCAST && frame.header.dst != ethernetAddress {
        return;
      }
      if frame.header.etherType == TYPE_IPv4 {
        var dgram := ParseDatagram(frame.payload);
        datagramsReceived := datagramsReceived + [dgram];
      } else if frame.header.etherType == TYPE_ARP {
        var arp := ParseArp(frame.payload);
        ip2mac := ip2mac[arp.senderIpAddress := arp.senderEthernetAddress];
        if arp.opcode == OPCODE_REQUEST && ipAddress == arp.targetIpAddress {
          transmitted := transmitted + [ArpReplyFrame(ethernetAddress, ipAddress, arp)];
        }
        var dstIp := arp.senderIpAddress;
        FlushPending(dstIp);
        waiting := waiting - {dstIp};
      }
    }

    /** The loop at the end of recv_frame: send_datagram for each pair waiting for dstIp. */
    method FlushPending(dstIp: Ip)
      modifies this
      ensures State() == Flushing(old(State()), PendingFor(old(waiting), dstIp))
    {
      var ps := if dstIp in waiting then waiting[dstIp] else [];
      ghost var start := State();
      var i := 0;
      while i < |ps|
        invariant 0 <= i <= |ps|
        invariant State() == Flushing(start, ps[..i])
      {
        assert ps[..i + 1][..i] == ps[..i];
        SendDatagram(ps[i].dgram, ps[i].nextHop);
        i := i + 1;
      }
      assert ps[..i] == ps;
    }

    method Tick(msSinceLastTick: nat)
      modifies this
      ensures State() == Ticking(old(State()), msSinceLastTick)
    {
      timer := timer + msSinceLastTick;
    }

    /** Transmits an ARP request for dstIp to everyone. */
    method Broadcast(dstIp: Ip)
      modifies this
      ensures State() == old(State()).(transmitted := old(transmitted) + [ArpRequestFrame(ethernetAddress, ipAddress, dstIp)])
    {
      transmitted := transmitted + [ArpRequestFrame(ethernetAddress, ipAddress, dstIp)];
    }

    /** The front of the inbound queue leaves it (std::queue::pop). */
    method PopReceived()
      requires datagramsReceived != []
      modifies this
      ensures State() == old(State()).(received := old(datagramsReceived)[1..])
    {
      datagramsReceived := datagramsReceived[1..];
    }
  }
}

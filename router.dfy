// The router (src/router.hh, src/router.cc): a registry of network interfaces and a routing table
// that forwards each datagram the interfaces received, after the TTL check and decrement of
// section 5.3.1 of RFC 1812. The table is the linear list router.cc scans in insertion order,
// taking the first entry whose stored value matches the destination; the stored value is the one
// router.cc computes from the prefix length alone.
module Routing {
  import opened Common
  import opened Ethernet
  import opened Interfaces

  /** The value add_route stores for a route, in 32-bit unsigned arithmetic: 0 for prefix length
      0, otherwise 0xffff - (1 << (32 - prefix length)) - 1. The route prefix plays no part. */
  function RouteMask(prefixLength: nat): (r: bv32)
    requires prefixLength <= 32
    ensures r == 0 <==> prefixLength == 0
  {
    if prefixLength == 0 then 0 else 0xffff - ((1 as bv32) << (32 - prefixLength)) - 1
  }

  /** A routing table entry as router.cc builds it: stored value, next hop (none when the network
      is directly attached) and outgoing interface index. */
  datatype RouteEntry = RouteEntry(ipPrefix: bv32, nextHop: Option<Ip>, interfaceNum: nat)

  /** An entry applies to a destination when every bit of its stored value is set in it. */
  predicate Matches(e: RouteEntry, dst: Ip)
  {
    e.ipPrefix & (dst as bv32) == e.ipPrefix
  }

  /** The index of the first entry, in table order, that applies to dst. */
  function FirstMatch(table: seq<RouteEntry>, dst: Ip): (r: Option<nat>)
    ensures r.Some? ==> r.value < |table| && Matches(table[r.value], dst)
    ensures r.Some? ==> forall j :: 0 <= j < r.value ==> !Matches(table[j], dst)
    ensures r.None? ==> forall j :: 0 <= j < |table| ==> !Matches(table[j], dst)
    decreases |table|
  {
    if table == [] then None
    else if Matches(table[0], dst) then Some(0)
    else
      var rest := FirstMatch(table[1..], dst);
      if rest.Some? then Some(rest.value + 1) else None
  }

  /** The scan that stops at index i, or runs off the end, finds what FirstMatch names. */
  lemma FirstMatchAt(table: seq<RouteEntry>, dst: Ip, i: nat)
    requires i <= |table| && forall j :: 0 <= j < i ==> !Matches(table[j], dst)
    requires i < |table| ==> Matches(table[i], dst)
    ensures FirstMatch(table, dst) == if i < |table| then Some(i) else None
  {
    var r := FirstMatch(table, dst);
    if r.Some? {
      assert r.value >= i;
    }
  }

  /** Where a datagram for dst leaves by entry e: the entry's next hop, or dst itself. */
  function NextHopFor(e: RouteEntry, dst: Ip): Ip
  {
    if e.nextHop.Some? then e.nextHop.value else dst
  }

  /** The datagram with its TTL one lower. */
  function Decremented(dgram: InternetDatagram): (r: InternetDatagram)
    requires dgram.header.ttl >= 1
    ensures r.header.ttl == dgram.header.ttl - 1
    ensures r.header.src == dgram.header.src && r.header.dst == dgram.header.dst && r.payload == dgram.payload
  {
    dgram.(header := dgram.header.(ttl := dgram.header.ttl - 1))
  }

  /** A route of prefix length 0 applies to every destination. */
  lemma DefaultRouteMatchesAll(nextHop: Option<Ip>, interfaceNum: nat, dst: Ip)
    ensures Matches(RouteEntry(RouteMask(0), nextHop, interfaceNum), dst)
  {
  }

  /** The stored value ignores the route prefix: 10.0.0.0/8 does not apply to 10.1.2.3, while it
      applies to 255.0.255.254, which lies outside 10.0.0.0/8. */
  lemma StoredValueIsNotAPrefix()
    ensures RouteMask(8) == 0xff00_fffe
    ensures !Matches(RouteEntry(RouteMask(8), None, 0), 0x0a01_0203)
    ensures Matches(RouteEntry(RouteMask(8), None, 0), 0xff00_fffe)
  {
  }

  /** x is among the first p registered interfaces. */
  predicate Met(ifaces: seq<NetworkInterface>, x: NetworkInterface, p: nat)
    requires p <= |ifaces|
  {
    p > 0 && (ifaces[p - 1] == x || Met(ifaces, x, p - 1))
  }

  lemma {:induction false} MetAll(ifaces: seq<NetworkInterface>, p: nat)
    requires p <= |ifaces|
    ensures forall i :: 0 <= i < p ==> Met(ifaces, ifaces[i], p)
  {
    if p > 0 {
      MetAll(ifaces, p - 1);
    }
  }

  /** The interfaces' states, by interface object, after some routing work, and whether an
      exception (an unregistered interface index) stopped it. Keying by object makes an
      interface registered at two indices one state. */
  datatype Forwarding = Forwarding(states: map<NetworkInterface, Iface>, thrown: bool)

  /** Every registered interface has a state. */
  predicate Covers(states: map<NetworkInterface, Iface>, ifaces: seq<NetworkInterface>)
  {
    forall i :: 0 <= i < |ifaces| ==> ifaces[i] in states
  }

  /** use_ethernet on the interfaces' states: a datagram whose TTL is at most 1 is dropped;
      otherwise the first matching entry's interface sends it, TTL decremented, to the entry's
      next hop or to the destination, and an entry naming no registered interface throws. */
  function Forward(states: map<NetworkInterface, Iface>, ifaces: seq<NetworkInterface>, table: seq<RouteEntry>,
                   dgram: InternetDatagram): (r: Forwarding)
    requires Covers(states, ifaces)
  {
    if dgram.header.ttl <= 1 then Forwarding(states, false)
    else
      var m := FirstMatch(table, dgram.header.dst);
      if m.None? then Forwarding(states, false)
      else if table[m.value].interfaceNum >= |ifaces| then Forwarding(states, true)
      else
        var e := table[m.value];
        var target := ifaces[e.interfaceNum];
        Forwarding(states[target := Sending(states[target], Decremented(dgram), NextHopFor(e, dgram.header.dst))], false)
  }

  /** use_ethernet's effect spelled out: it throws exactly when the first matching entry of a
      datagram with TTL above 1 names an unregistered interface; otherwise, when an entry
      matches, only that entry's interface changes, by send_datagram of the decremented
      datagram to the entry's next hop or the destination; when none matches nothing changes. */
  lemma ForwardEffect(states: map<NetworkInterface, Iface>, ifaces: seq<NetworkInterface>, table: seq<RouteEntry>,
                      dgram: InternetDatagram)
    requires Covers(states, ifaces)
    ensures var r := Forward(states, ifaces, table, dgram);
      var m := if dgram.header.ttl <= 1 then None else FirstMatch(table, dgram.header.dst);
      && r.thrown == (m.Some? && table[m.value].interfaceNum >= |ifaces|)
      && r.thrown == Throws(ifaces, table, dgram)
      && (m.Some? && !r.thrown ==>
            var e := table[m.value];
            var target := ifaces[e.interfaceNum];
            && r.states[target] == Sending(states[target], Decremented(dgram), NextHopFor(e, dgram.header.dst))
            && forall y :: y in states && y != target ==> r.states[y] == states[y])
      && (m.None? || r.thrown ==> r.states == states)
  {
  }

  /** use_ethernet throws on dgram: its TTL is above 1 and its first matching entry names an
      interface index past the last. */
  predicate Throws(ifaces: seq<NetworkInterface>, table: seq<RouteEntry>, dgram: InternetDatagram)
  {
    && dgram.header.ttl > 1
    && var m := FirstMatch(table, dgram.header.dst);
       m.Some? && table[m.value].interfaceNum >= |ifaces|
  }

  /** One step of route's inner loop on interface x: use_ethernet on the front of its queue, then
      pop it. When use_ethernet throws, the front stays, with the TTL it decremented in place. */
  function FrontStep(states: map<NetworkInterface, Iface>, ifaces: seq<NetworkInterface>, table: seq<RouteEntry>,
                     x: NetworkInterface): (r: Forwarding)
    requires Covers(states, ifaces) && x in states && states[x].received != []
  {
    var q := states[x].received;
    var f := Forward(states, ifaces, table, q[0]);
    ForwardKeeps(states, ifaces, table, q[0]);
    if f.thrown then Forwarding(f.states[x := f.states[x].(received := q[0 := Decremented(q[0])])], true)
    else Forwarding(f.states[x := f.states[x].(received := q[1..])], false)
  }

  /** use_ethernet touches no inbound queue. */
  lemma ForwardKeeps(states: map<NetworkInterface, Iface>, ifaces: seq<NetworkInterface>, table: seq<RouteEntry>,
                     dgram: InternetDatagram)
    requires Covers(states, ifaces)
    ensures var r := Forward(states, ifaces, table, dgram);
      && r.states.Keys == states.Keys
      && (forall y :: y in states ==> r.states[y].received == states[y].received)
      && (r.thrown ==> dgram.header.ttl > 1)
  {
  }

  /** A step touches only x's inbound queue, and pops it unless it throws. */
  lemma FrontStepKeeps(states: map<NetworkInterface, Iface>, ifaces: seq<NetworkInterface>, table: seq<RouteEntry>,
                       x: NetworkInterface)
    requires Covers(states, ifaces) && x in states && states[x].received != []
    ensures var r := FrontStep(states, ifaces, table, x);
      && r.states.Keys == states.Keys
      && Covers(r.states, ifaces)
      && (forall y :: y in states && y != x ==> r.states[y].received == states[y].received)
      && (!r.thrown ==> r.states[x].received == states[x].received[1..])
  {
    ForwardKeeps(states, ifaces, table, states[x].received[0]);
  }

  /** Draining touches only x's inbound queue, and empties it unless it throws. */
  lemma {:induction false} DrainingKeys(states: map<NetworkInterface, Iface>, ifaces: seq<NetworkInterface>,
                                        table: seq<RouteEntry>, x: NetworkInterface)
    requires Covers(states, ifaces) && x in states
    ensures var r := Draining(states, ifaces, table, x);
      && r.states.Keys == states.Keys
      && Covers(r.states, ifaces)
      && (forall y :: y in states && y != x ==> r.states[y].received == states[y].received)
      && (!r.thrown ==> r.states[x].received == [])
    decreases |states[x].received|
  {
    if states[x].received != [] {
      FrontStepKeeps(states, ifaces, table, x);
      var f := FrontStep(states, ifaces, table, x);
      if !f.thrown {
        DrainingKeys(f.states, ifaces, table, x);
      }
    }
  }

  /** route's inner loop on interface x: steps until its queue is empty or a step throws. */
  function Draining(states: map<NetworkInterface, Iface>, ifaces: seq<NetworkInterface>, table: seq<RouteEntry>,
                    x: NetworkInterface): (r: Forwarding)
    requires Covers(states, ifaces) && x in states
    decreases |states[x].received|
  {
    if states[x].received == [] then Forwarding(states, false)
    else
      var f := FrontStep(states, ifaces, table, x);
      FrontStepKeeps(states, ifaces, table, x);
      if f.thrown then f else Draining(f.states, ifaces, table, x)
  }

  lemma DrainingStep(states: map<NetworkInterface, Iface>, ifaces: seq<NetworkInterface>, table: seq<RouteEntry>,
                     x: NetworkInterface)
    requires Covers(states, ifaces) && x in states && states[x].received != []
    ensures var f := FrontStep(states, ifaces, table, x);
      Draining(states, ifaces, table, x) == if f.thrown then f else Draining(f.states, ifaces, table, x)
  {
  }

  lemma DrainingDone(states: map<NetworkInterface, Iface>, ifaces: seq<NetworkInterface>, table: seq<RouteEntry>,
                     x: NetworkInterface)
    requires Covers(states, ifaces) && x in states && states[x].received == []
    ensures Draining(states, ifaces, table, x) == Forwarding(states, false)
  {
  }

  /** route from index p on: drain each interface in index order, stopping at a throw. */
  function Routed(states: map<NetworkInterface, Iface>, ifaces: seq<NetworkInterface>, table: seq<RouteEntry>,
                  p: nat): (r: Forwarding)
    requires Covers(states, ifaces) && p <= |ifaces|
    decreases |ifaces| - p
  {
    if p == |ifaces| then Forwarding(states, false)
    else
      var d := Draining(states, ifaces, table, ifaces[p]);
      DrainingKeys(states, ifaces, table, ifaces[p]);
      if d.thrown then d else Routed(d.states, ifaces, table, p + 1)
  }

  lemma RoutedStep(states: map<NetworkInterface, Iface>, ifaces: seq<NetworkInterface>, table: seq<RouteEntry>,
                   p: nat)
    requires Covers(states, ifaces) && p < |ifaces|
    ensures var d := Draining(states, ifaces, table, ifaces[p]);
      && Covers(d.states, ifaces)
      && Routed(states, ifaces, table, p) == if d.thrown then d else Routed(d.states, ifaces, table, p + 1)
  {
    DrainingKeys(states, ifaces, table, ifaces[p]);
  }

  /** After route() has finished the first p indices without a throw, an interface met among
      them has an empty inbound queue and any other still holds what qs says it held. */
  predicate LaidOut(states: map<NetworkInterface, Iface>, ifaces: seq<NetworkInterface>,
                    qs: seq<seq<InternetDatagram>>, p: nat)
    requires Covers(states, ifaces) && |qs| == |ifaces| && p <= |ifaces|
  {
    forall i :: 0 <= i < |ifaces| ==> states[ifaces[i]].received == if Met(ifaces, ifaces[i], p) then [] else qs[i]
  }

  /** The inbound queues of the registered interfaces, by index. */
  function QueuesOf(states: map<NetworkInterface, Iface>, ifaces: seq<NetworkInterface>): (r: seq<seq<InternetDatagram>>)
    requires Covers(states, ifaces)
    ensures |r| == |ifaces| && forall i :: 0 <= i < |ifaces| ==> r[i] == states[ifaces[i]].received
  {
    seq(|ifaces|, i requires 0 <= i < |ifaces| => states[ifaces[i]].received)
  }

  lemma LaidOutStart(states: map<NetworkInterface, Iface>, ifaces: seq<NetworkInterface>)
    requires Covers(states, ifaces)
    ensures LaidOut(states, ifaces, QueuesOf(states, ifaces), 0)
  {
  }

  /** Draining the interface at index p without a throw empties every index that holds it. */
  lemma LaidOutStep(states: map<NetworkInterface, Iface>, ifaces: seq<NetworkInterface>, table: seq<RouteEntry>,
                    qs: seq<seq<InternetDatagram>>, p: nat)
    requires Covers(states, ifaces) && |qs| == |ifaces| && p < |ifaces|
    requires LaidOut(states, ifaces, qs, p)
    requires !Draining(states, ifaces, table, ifaces[p]).thrown
    ensures var d := Draining(states, ifaces, table, ifaces[p]);
      Covers(d.states, ifaces) && LaidOut(d.states, ifaces, qs, p + 1)
  {
    DrainingKeys(states, ifaces, table, ifaces[p]);
  }


  /** Routing from index p on without a throw leaves every interface from p on with an empty
      inbound queue, and never refills one that was empty. */
  lemma {:induction false} RoutedEmpties(states: map<NetworkInterface, Iface>, ifaces: seq<NetworkInterface>,
                                         table: seq<RouteEntry>, p: nat)
    requires Covers(states, ifaces) && p <= |ifaces|
    ensures var r := Routed(states, ifaces, table, p);
      && r.states.Keys == states.Keys
      && (!r.thrown ==> forall y :: y in states && states[y].received == [] ==> r.states[y].received == [])
      && (!r.thrown ==> forall i :: p <= i < |ifaces| ==> r.states[ifaces[i]].received == [])
    decreases |ifaces| - p
  {
    if p < |ifaces| {
      DrainingKeys(states, ifaces, table, ifaces[p]);
      var d := Draining(states, ifaces, table, ifaces[p]);
      if !d.thrown {
        RoutedEmpties(d.states, ifaces, table, p + 1);
      }
    }
  }

  /** Some datagram of queue q makes use_ethernet throw. */
  predicate QueueThrows(ifaces: seq<NetworkInterface>, table: seq<RouteEntry>, q: seq<InternetDatagram>)
  {
    exists k :: 0 <= k < |q| && Throws(ifaces, table, q[k])
  }

  /** Draining x throws exactly when some datagram of x's inbound queue throws. */
  lemma {:induction false} DrainingThrows(states: map<NetworkInterface, Iface>, ifaces: seq<NetworkInterface>,
                                          table: seq<RouteEntry>, x: NetworkInterface)
    requires Covers(states, ifaces) && x in states
    ensures Draining(states, ifaces, table, x).thrown <==> QueueThrows(ifaces, table, states[x].received)
    decreases |states[x].received|
  {
    var q := states[x].received;
    if q != [] {
      FrontStepKeeps(states, ifaces, table, x);
      ForwardEffect(states, ifaces, table, q[0]);
      var f := FrontStep(states, ifaces, table, x);
      if f.thrown {
        assert Throws(ifaces, table, q[0]);
      } else {
        assert !Throws(ifaces, table, q[0]);
        DrainingThrows(f.states, ifaces, table, x);
        QueueThrowsTail(ifaces, table, q);
      }
    }
  }

  lemma QueueThrowsTail(ifaces: seq<NetworkInterface>, table: seq<RouteEntry>, q: seq<InternetDatagram>)
    requires q != [] && !Throws(ifaces, table, q[0])
    ensures QueueThrows(ifaces, table, q) <==> QueueThrows(ifaces, table, q[1..])
  {
    if QueueThrows(ifaces, table, q) {
      var k :| 0 <= k < |q| && Throws(ifaces, table, q[k]);
      assert q[1..][k - 1] == q[k];
    }
    if QueueThrows(ifaces, table, q[1..]) {
      var k :| 0 <= k < |q[1..]| && Throws(ifaces, table, q[1..][k]);
      assert q[k + 1] == q[1..][k];
    }
  }

  /** Routing from index p on throws exactly when some datagram queued at one of those indices
      throws. */
  lemma {:induction false} RoutedThrows(states: map<NetworkInterface, Iface>, ifaces: seq<NetworkInterface>,
                                        table: seq<RouteEntry>, p: nat)
    requires Covers(states, ifaces) && p <= |ifaces|
    ensures Routed(states, ifaces, table, p).thrown
        <==> exists i :: p <= i < |ifaces| && QueueThrows(ifaces, table, states[ifaces[i]].received)
    decreases |ifaces| - p
  {
    if p < |ifaces| {
      DrainingKeys(states, ifaces, table, ifaces[p]);
      DrainingThrows(states, ifaces, table, ifaces[p]);
      var d := Draining(states, ifaces, table, ifaces[p]);
      if !d.thrown {
        RoutedThrows(d.states, ifaces, table, p + 1);
        assert QueueThrows(ifaces, table, []) == false;
        forall i | p <= i < |ifaces|
          ensures QueueThrows(ifaces, table, states[ifaces[i]].received)
              ==> i > p && QueueThrows(ifaces, table, d.states[ifaces[i]].received)
          ensures p < i && QueueThrows(ifaces, table, d.states[ifaces[i]].received)
              ==> QueueThrows(ifaces, table, states[ifaces[i]].received)
        {
        }
      }
    }
  }

  /** An interface's state apart from its inbound queue: all that use_ethernet can change. */
  function Outbound(st: Iface): Iface
  {
    st.(received := [])
  }

  /** The interfaces' states apart from their inbound queues. */
  function Outbounds(states: map<NetworkInterface, Iface>): map<NetworkInterface, Iface>
  {
    map y | y in states :: Outbound(states[y])
  }

  /** send_datagram neither reads nor writes the inbound queue. */
  lemma SendingIgnoresQueue(st: Iface, q: seq<InternetDatagram>, dgram: InternetDatagram, nextHop: Ip)
    ensures Sending(st.(received := q), dgram, nextHop) == Sending(st, dgram, nextHop).(received := q)
  {
  }

  /** use_ethernet depends on the interfaces' states only apart from their inbound queues. */
  lemma ForwardOutbound(s1: map<NetworkInterface, Iface>, s2: map<NetworkInterface, Iface>,
                        ifaces: seq<NetworkInterface>, table: seq<RouteEntry>, dgram: InternetDatagram)
    requires Covers(s1, ifaces) && Covers(s2, ifaces) && Outbounds(s1) == Outbounds(s2)
    ensures Forward(s1, ifaces, table, dgram).thrown == Forward(s2, ifaces, table, dgram).thrown
    ensures Outbounds(Forward(s1, ifaces, table, dgram).states) == Outbounds(Forward(s2, ifaces, table, dgram).states)
  {
    assert s1.Keys == Outbounds(s1).Keys == s2.Keys;
    var r1 := Forward(s1, ifaces, table, dgram);
    var r2 := Forward(s2, ifaces, table, dgram);
    if dgram.header.ttl > 1 {
      var m := FirstMatch(table, dgram.header.dst);
      if m.Some? && table[m.value].interfaceNum < |ifaces| {
        var e := table[m.value];
        var t := ifaces[e.interfaceNum];
        var d := Decremented(dgram);
        var hop := NextHopFor(e, dgram.header.dst);
        assert Outbound(s1[t]) == Outbounds(s1)[t] == Outbounds(s2)[t] == Outbound(s2[t]);
        SendingIgnoresQueue(s1[t], [], d, hop);
        SendingIgnoresQueue(s2[t], [], d, hop);
        assert Outbound(r1.states[t]) == Outbound(r2.states[t]);
        assert forall y :: y in r1.states ==> Outbounds(r1.states)[y] == Outbounds(r2.states)[y];
      }
    }
  }

  /** use_ethernet on each datagram of ds in turn, stopping at the first throw. */
  function ForwardAll(states: map<NetworkInterface, Iface>, ifaces: seq<NetworkInterface>, table: seq<RouteEntry>,
                      ds: seq<InternetDatagram>): (r: Forwarding)
    requires Covers(states, ifaces)
    ensures r.states.Keys == states.Keys
    decreases |ds|
  {
    if ds == [] then Forwarding(states, false)
    else
      var f := Forward(states, ifaces, table, ds[0]);
      ForwardKeeps(states, ifaces, table, ds[0]);
      if f.thrown then f else ForwardAll(f.states, ifaces, table, ds[1..])
  }

  lemma {:induction false} ForwardAllOutbound(s1: map<NetworkInterface, Iface>, s2: map<NetworkInterface, Iface>,
                                              ifaces: seq<NetworkInterface>, table: seq<RouteEntry>,
                                              ds: seq<InternetDatagram>)
    requires Covers(s1, ifaces) && Covers(s2, ifaces) && Outbounds(s1) == Outbounds(s2)
    ensures ForwardAll(s1, ifaces, table, ds).thrown == ForwardAll(s2, ifaces, table, ds).thrown
    ensures Outbounds(ForwardAll(s1, ifaces, table, ds).states) == Outbounds(ForwardAll(s2, ifaces, table, ds).states)
    decreases |ds|
  {
    if ds != [] {
      ForwardOutbound(s1, s2, ifaces, table, ds[0]);
      ForwardKeeps(s1, ifaces, table, ds[0]);
      ForwardKeeps(s2, ifaces, table, ds[0]);
      var f1 := Forward(s1, ifaces, table, ds[0]);
      var f2 := Forward(s2, ifaces, table, ds[0]);
      if !f1.thrown {
        ForwardAllOutbound(f1.states, f2.states, ifaces, table, ds[1..]);
      }
    }
  }

  lemma {:induction false} ForwardAllAppend(states: map<NetworkInterface, Iface>, ifaces: seq<NetworkInterface>,
                                            table: seq<RouteEntry>, a: seq<InternetDatagram>, b: seq<InternetDatagram>)
    requires Covers(states, ifaces)
    ensures var f := ForwardAll(states, ifaces, table, a);
      Covers(f.states, ifaces)
      && ForwardAll(states, ifaces, table, a + b) == if f.thrown then f else ForwardAll(f.states, ifaces, table, b)
    decreases |a|
  {
    if a != [] {
      assert (a + b)[0] == a[0] && (a + b)[1..] == a[1..] + b;
      var f := Forward(states, ifaces, table, a[0]);
      ForwardKeeps(states, ifaces, table, a[0]);
      if !f.thrown {
        ForwardAllAppend(f.states, ifaces, table, a[1..], b);
      }
    } else {
      assert a + b == b;
    }
  }

  /** One step of draining x is use_ethernet on the front datagram, up to the inbound queues. */
  lemma FrontStepOutbound(states: map<NetworkInterface, Iface>, ifaces: seq<NetworkInterface>, table: seq<RouteEntry>,
                          x: NetworkInterface)
    requires Covers(states, ifaces) && x in states && states[x].received != []
    ensures var fs := FrontStep(states, ifaces, table, x);
      var f := Forward(states, ifaces, table, states[x].received[0]);
      fs.thrown == f.thrown && Outbounds(fs.states) == Outbounds(f.states)
  {
    var fs := FrontStep(states, ifaces, table, x);
    var f := Forward(states, ifaces, table, states[x].received[0]);
    ForwardKeeps(states, ifaces, table, states[x].received[0]);
    assert forall y :: y in fs.states ==> Outbounds(fs.states)[y] == Outbounds(f.states)[y];
  }

  /** Draining interface x is use_ethernet on each datagram of its queue in turn: it throws
      exactly when that does, and leaves every interface in the same state apart from the
      inbound queues. */
  lemma {:induction false} DrainingForwards(states: map<NetworkInterface, Iface>, ifaces: seq<NetworkInterface>,
                                            table: seq<RouteEntry>, x: NetworkInterface)
    requires Covers(states, ifaces) && x in states
    ensures var d := Draining(states, ifaces, table, x);
      var f := ForwardAll(states, ifaces, table, states[x].received);
      d.thrown == f.thrown && Outbounds(d.states) == Outbounds(f.states)
    decreases |states[x].received|
  {
    var q := states[x].received;
    if q != [] {
      FrontStepKeeps(states, ifaces, table, x);
      FrontStepOutbound(states, ifaces, table, x);
      var fs := FrontStep(states, ifaces, table, x);
      var f := Forward(states, ifaces, table, q[0]);
      if !fs.thrown {
        DrainingForwards(fs.states, ifaces, table, x);
        ForwardAllOutbound(fs.states, f.states, ifaces, table, q[1..]);
      }
    }
  }

  /** The order in which route() hands datagrams to use_ethernet from index p on: the queue of
      the interface at p, then the rest with that interface's queue emptied, so an interface
      registered at two indices is drained only at the first. */
  ghost function Order(states: map<NetworkInterface, Iface>, ifaces: seq<NetworkInterface>, p: nat): seq<InternetDatagram>
    requires Covers(states, ifaces) && p <= |ifaces|
    decreases |ifaces| - p
  {
    if p == |ifaces| then []
    else
      var x := ifaces[p];
      states[x].received + Order(states[x := states[x].(received := [])], ifaces, p + 1)
  }

  /** The order depends on the inbound queues alone. */
  lemma {:induction false} OrderQueues(s1: map<NetworkInterface, Iface>, s2: map<NetworkInterface, Iface>,
                                       ifaces: seq<NetworkInterface>, p: nat)
    requires Covers(s1, ifaces) && Covers(s2, ifaces) && p <= |ifaces| && s1.Keys == s2.Keys
    requires forall y :: y in s1 ==> s1[y].received == s2[y].received
    ensures Order(s1, ifaces, p) == Order(s2, ifaces, p)
    decreases |ifaces| - p
  {
    if p < |ifaces| {
      var x := ifaces[p];
      OrderQueues(s1[x := s1[x].(received := [])], s2[x := s2[x].(received := [])], ifaces, p + 1);
    }
  }

  /** The inbound queues of the interfaces from index p on, concatenated in index order. */
  function QueuesFrom(states: map<NetworkInterface, Iface>, ifaces: seq<NetworkInterface>, p: nat): seq<InternetDatagram>
    requires Covers(states, ifaces) && p <= |ifaces|
    decreases |ifaces| - p
  {
    if p == |ifaces| then [] else states[ifaces[p]].received + QueuesFrom(states, ifaces, p + 1)
  }

  /** The queue of an interface not registered from index p on plays no part in QueuesFrom. */
  lemma {:induction false} QueuesFromSkips(states: map<NetworkInterface, Iface>, ifaces: seq<NetworkInterface>, p: nat,
                                           x: NetworkInterface, st: Iface)
    requires Covers(states, ifaces) && p <= |ifaces| && x in states
    requires forall i :: p <= i < |ifaces| ==> ifaces[i] != x
    ensures QueuesFrom(states[x := st], ifaces, p) == QueuesFrom(states, ifaces, p)
    decreases |ifaces| - p
  {
    if p < |ifaces| {
      QueuesFromSkips(states, ifaces, p + 1, x, st);
    }
  }

  /** With every interface registered once, route() handles the queues in index order, each
      front first. */
  lemma {:induction false} OrderDistinct(states: map<NetworkInterface, Iface>, ifaces: seq<NetworkInterface>, p: nat)
    requires Covers(states, ifaces) && p <= |ifaces|
    requires forall i, j :: p <= i < j < |ifaces| ==> ifaces[i] != ifaces[j]
    ensures Order(states, ifaces, p) == QueuesFrom(states, ifaces, p)
    decreases |ifaces| - p
  {
    if p < |ifaces| {
      var x := ifaces[p];
      var cleared := states[x := states[x].(received := [])];
      OrderDistinct(cleared, ifaces, p + 1);
      QueuesFromSkips(states, ifaces, p + 1, x, states[x].(received := []));
    }
  }

  /** route() from index p on is use_ethernet on each datagram of Order in turn: it throws
      exactly when that does, and leaves every interface in the same state apart from the
      inbound queues. */
  lemma {:induction false} RoutedForwards(states: map<NetworkInterface, Iface>, ifaces: seq<NetworkInterface>,
                                          table: seq<RouteEntry>, p: nat)
    requires Covers(states, ifaces) && p <= |ifaces|
    ensures var r := Routed(states, ifaces, table, p);
      var f := ForwardAll(states, ifaces, table, Order(states, ifaces, p));
      r.thrown == f.thrown && Outbounds(r.states) == Outbounds(f.states)
    decreases |ifaces| - p
  {
    if p < |ifaces| {
      var x := ifaces[p];
      var cleared := states[x := states[x].(received := [])];
      var rest := Order(cleared, ifaces, p + 1);
      DrainingKeys(states, ifaces, table, x);
      DrainingForwards(states, ifaces, table, x);
      ForwardAllAppend(states, ifaces, table, states[x].received, rest);
      var d := Draining(states, ifaces, table, x);
      var fx := ForwardAll(states, ifaces, table, states[x].received);
      if !d.thrown {
        RoutedForwards(d.states, ifaces, table, p + 1);
        OrderQueues(d.states, cleared, ifaces, p + 1);
        ForwardAllOutbound(d.states, fx.states, ifaces, table, rest);
      }
    }
  }

  /** route's progress after the first p indices: the rest of the routing reaches goal and the
      queues are laid out as LaidOut says. */
  ghost predicate RouteProgress(states: map<NetworkInterface, Iface>, ifaces: seq<NetworkInterface>, table: seq<RouteEntry>,
                          qs: seq<seq<InternetDatagram>>, goal: Forwarding, p: nat)
  {
    && Covers(states, ifaces) && |qs| == |ifaces| && p <= |ifaces|
    && Routed(states, ifaces, table, p) == goal
    && LaidOut(states, ifaces, qs, p)
  }

  /** route() has finished every index without a throw. */
  lemma RouteDone(states: map<NetworkInterface, Iface>, ifaces: seq<NetworkInterface>, table: seq<RouteEntry>,
                  qs: seq<seq<InternetDatagram>>, goal: Forwarding)
    requires RouteProgress(states, ifaces, table, qs, goal, |ifaces|)
    ensures goal == Forwarding(states, false)
    ensures forall i :: 0 <= i < |ifaces| ==> states[ifaces[i]].received == []
  {
    MetAll(ifaces, |ifaces|);
  }

  /** A node of the trie router.hh declares: whether it holds a route, the route's next hop and
      interface, and the indices of its two children (0 for none). */
  datatype RouterData = RouterData(hasData: bool, nextHop: Option<Ip>, interfaceNum: nat, son: (nat, nat))

  /** The node a fresh trie starts with: the root, holding no route and no children. */
  const ROOT: RouterData := RouterData(false, None, 0, (0, 0))

  /** The trie's node arena. Its insert and find are not part of this model. */
  class Trie {
    var node: seq<RouterData>

    constructor ()
      ensures node == [ROOT]
    {
      node := [ROOT];
    }
  }

  class Router {
    var interfaces: seq<NetworkInterface>
    var routingTable: seq<RouteEntry>
    const trie: Trie

    constructor ()
      ensures interfaces == [] && routingTable == []
      ensures fresh(trie) && trie.node == [ROOT]
    {
      interfaces := [];
      routingTable := [];
      trie := new Trie();
    }

    /** Registers an interface and returns its index, the number registered before it. */
    method AddInterface(iface: NetworkInterface) returns (n: nat)
      modifies this
      ensures interfaces == old(interfaces) + [iface] && routingTable == old(routingTable)
      ensures n == |old(interfaces)| && Interface(n) == Some(iface)
      ensures forall i :: 0 <= i < |old(interfaces)| ==> Interface(i) == old(Interface(i))
    {
      interfaces := interfaces + [iface];
      n := |interfaces| - 1;
    }

    /** The interface at index n; there is none (at() throws) past the last index. */
    function Interface(n: nat): (r: Option<NetworkInterface>)
      reads this
      ensures r.Some? <==> n < |interfaces|
      ensures r.Some? ==> r.value == interfaces[n]
    {
      if n < |interfaces| then Some(interfaces[n]) else None
    }

    /** Appends a route; prefix lengths above 32 would shift by a negative amount. */
    method AddRoute(routePrefix: bv32, prefixLength: Octet, nextHop: Option<Ip>, interfaceNum: nat)
      requires prefixLength <= 32
      modifies this
      ensures routingTable == old(routingTable) + [RouteEntry(RouteMask(prefixLength), nextHop, interfaceNum)]
      ensures interfaces == old(interfaces)
    {
      var ipPrefix := RouteMask(prefixLength);
      routingTable := routingTable + [RouteEntry(ipPrefix, nextHop, interfaceNum)];
    }

    /** use_ethernet: drop a datagram whose TTL is at most 1; otherwise decrement the TTL and hand
        it to the interface of the first matching entry, addressed to the entry's next hop or to
        its own destination. thrown says that entry named an unregistered interface. */
    method UseEthernet(dgram: InternetDatagram) returns (out: InternetDatagram, thrown: bool)
      modifies interfaces
      ensures out == if dgram.header.ttl <= 1 then dgram else Decremented(dgram)
      ensures Forwarding(States(), thrown) == Forward(old(States()), interfaces, routingTable, dgram)
    {
      ghost var states := States();
      out := dgram;
      thrown := false;
      if dgram.header.ttl <= 1 {
        assert Forward(states, interfaces, routingTable, dgram) == Forwarding(states, false);
        return;
      }
      out := out.(header := out.header.(ttl := out.header.ttl - 1));
      var ip := out.header.dst;
      var m := FindRoute(ip);
      if m.None? {
        assert Forward(states, interfaces, routingTable, dgram) == Forwarding(states, false);
        return;
      }
      var data := routingTable[m.value];
      var sendPort := data.interfaceNum;
      var iface := Interface(sendPort);
      if iface.None? {
        thrown := true;
        assert Forward(states, interfaces, routingTable, dgram) == Forwarding(states, true);
        return;
      }
      var hop := if data.nextHop.Some? then data.nextHop.value else ip;
      var target := iface.value;
      assert Forward(states, interfaces, routingTable, dgram)
          == Forwarding(states[target := Sending(states[target], out, hop)], false);
      SendVia(target, out, hop);
    }

    /** send_datagram on a registered interface, seen from the router: only that interface's
        state changes. */
    method SendVia(target: NetworkInterface, dgram: InternetDatagram, hop: Ip)
      requires target in interfaces
      modifies interfaces
      ensures States() == old(States())[target := Sending(old(target.State()), dgram, hop)]
    {
      ghost var states := States();
      ghost var after := states[target := Sending(states[target], dgram, hop)];
      target.SendDatagram(dgram, hop);
      forall y | y in states
        ensures y in States() && States()[y] == after[y]
      {
      }
      assert States().Keys == after.Keys;
    }

    /** The scan of use_ethernet: the routing table in insertion order, up to the first entry
        whose stored value applies to ip. */
    method FindRoute(ip: Ip) returns (m: Option<nat>)
      ensures m == FirstMatch(routingTable, ip)
    {
      var i := 0;
      while i < |routingTable|
        invariant 0 <= i <= |routingTable|
        invariant forall j :: 0 <= j < i ==> !Matches(routingTable[j], ip)
      {
        var data := routingTable[i];
        if !Matches(data, ip) {
          i := i + 1;
          continue;
        }
        FirstMatchAt(routingTable, ip, i);
        return Some(i);
      }
      FirstMatchAt(routingTable, ip, |routingTable|);
      return None;
    }

    /** The registered interfaces' states, by interface. */
    ghost function States(): (r: map<NetworkInterface, Iface>)
      reads this, interfaces
      ensures Covers(r, interfaces)
      ensures forall y :: y in r ==> r[y] == y.State()
    {
      map y | y in interfaces :: y.State()
    }

    /** route: for each interface in index order, hand every datagram of its inbound queue to
        use_ethernet, front first, and pop it, until the queue is empty; an exception from
        use_ethernet ends the whole call. */
    method Route() returns (thrown: bool)
      modifies interfaces
      ensures Forwarding(States(), thrown) == Routed(old(States()), interfaces, routingTable, 0)
      ensures thrown <==> exists i :: 0 <= i < |interfaces| && QueueThrows(interfaces, routingTable, old(States())[interfaces[i]].received)
      ensures var f := ForwardAll(old(States()), interfaces, routingTable, Order(old(States()), interfaces, 0));
        thrown == f.thrown && Outbounds(States()) == Outbounds(f.states)
      ensures !thrown ==> forall i :: 0 <= i < |interfaces| ==> interfaces[i].datagramsReceived == []
    {
      ghost var start := States();
      RoutedThrows(start, interfaces, routingTable, 0);
      RoutedForwards(start, interfaces, routingTable, 0);
      thrown := DrainAll();
    }

    /** route's outer loop over the interface indices. */
    method DrainAll() returns (thrown: bool)
      modifies interfaces
      ensures Forwarding(States(), thrown) == Routed(old(States()), interfaces, routingTable, 0)
      ensures !thrown ==> forall i :: 0 <= i < |interfaces| ==> interfaces[i].datagramsReceived == []
    {
      ghost var start := States();
      ghost var queues := QueuesOf(start, interfaces);
      ghost var goal := Routed(start, interfaces, routingTable, 0);
      LaidOutStart(start, interfaces);
      thrown := false;
      var port := 0;
      while port < |interfaces|
        invariant 0 <= port <= |interfaces|
        invariant interfaces == old(interfaces) && routingTable == old(routingTable)
        invariant RouteProgress(States(), interfaces, routingTable, queues, goal, port)
      {
        thrown := DrainPort(port, goal, queues);
        if thrown {
          return;
        }
        port := port + 1;
      }
      RouteDone(States(), interfaces, routingTable, queues, goal);
      QueuesEmpty();
    }

    /** The registered interfaces' own inbound queues are the ones States() shows. */
    lemma QueuesEmpty()
      requires forall i :: 0 <= i < |interfaces| ==> States()[interfaces[i]].received == []
      ensures forall i :: 0 <= i < |interfaces| ==> interfaces[i].datagramsReceived == []
    {
      forall i | 0 <= i < |interfaces|
        ensures interfaces[i].datagramsReceived == []
      {
        assert interfaces[i].datagramsReceived == States()[interfaces[i]].received;
      }
    }

    /** One iteration of route's outer loop: drain the interface at index port. */
    method DrainPort(port: nat, ghost goal: Forwarding, ghost queues: seq<seq<InternetDatagram>>) returns (thrown: bool)
      requires port < |interfaces| && |queues| == |interfaces|
      requires RouteProgress(States(), interfaces, routingTable, queues, goal, port)
      modifies interfaces
      ensures interfaces == old(interfaces) && routingTable == old(routingTable)
      ensures thrown ==> Forwarding(States(), true) == goal
      ensures !thrown ==> RouteProgress(States(), interfaces, routingTable, queues, goal, port + 1)
    {
      ghost var before := States();
      RoutedStep(before, interfaces, routingTable, port);
      thrown := DrainQueue(interfaces[port]);
      if !thrown {
        LaidOutStep(before, interfaces, routingTable, queues, port);
      }
    }

    /** The inner loop of route for one interface: use_ethernet on the front datagram, then pop
        it, until the queue is empty or use_ethernet throws. */
    method DrainQueue(iface: NetworkInterface) returns (thrown: bool)
      requires iface in interfaces
      modifies interfaces
      ensures Forwarding(States(), thrown) == Draining(old(States()), interfaces, routingTable, iface)
      ensures thrown <==> QueueThrows(interfaces, routingTable, old(iface.datagramsReceived))
    {
      DrainingThrows(States(), interfaces, routingTable, iface);
      ghost var goal := Draining(States(), interfaces, routingTable, iface);
      thrown := false;
      while iface.datagramsReceived != []
        invariant Draining(States(), interfaces, routingTable, iface) == goal
        decreases |iface.datagramsReceived|
      {
        var th := DrainStep(iface, goal);
        if th {
          return true;
        }
      }
      DrainingDone(States(), interfaces, routingTable, iface);
    }

    /** ForwardFront as one step of Draining towards goal. */
    method DrainStep(iface: NetworkInterface, ghost goal: Forwarding) returns (thrown: bool)
      requires iface in interfaces && iface.datagramsReceived != []
      requires Draining(States(), interfaces, routingTable, iface) == goal
      modifies interfaces
      ensures thrown ==> Forwarding(States(), true) == goal
      ensures !thrown ==> Draining(States(), interfaces, routingTable, iface) == goal
      ensures !thrown ==> iface.datagramsReceived == old(iface.datagramsReceived)[1..]
    {
      DrainingStep(States(), interfaces, routingTable, iface);
      FrontStepKeeps(States(), interfaces, routingTable, iface);
      thrown := ForwardFront(iface);
    }

    /** One step of that loop: use_ethernet on the front datagram, then pop it. When use_ethernet
        throws, the pop does not happen and the front keeps the TTL it was decremented to. */
    method ForwardFront(iface: NetworkInterface) returns (thrown: bool)
      requires iface in interfaces && iface.datagramsReceived != []
      modifies interfaces
      ensures Forwarding(States(), thrown) == FrontStep(old(States()), interfaces, routingTable, iface)
    {
      var q := iface.datagramsReceived;
      ForwardKeeps(States(), interfaces, routingTable, q[0]);
      var out;
      out, thrown := UseEthernet(q[0]);
      if thrown {
        WriteFront(iface, out);
      } else {
        PopFront(iface);
      }
    }

    /** The front of x's inbound queue becomes dgram (use_ethernet's decrement through the
        reference it was given). */
    method WriteFront(x: NetworkInterface, dgram: InternetDatagram)
      requires x in interfaces && x.datagramsReceived != []
      modifies x
      ensures States() == old(States())[x := old(x.State()).(received := old(x.datagramsReceived)[0 := dgram])]
    {
      ghost var after := States()[x := x.State().(received := x.datagramsReceived[0 := dgram])];
      x.datagramsReceived := x.datagramsReceived[0 := dgram];
      forall y | y in after
        ensures y in States() && States()[y] == after[y]
      {
      }
      assert States().Keys == after.Keys;
    }

    /** pop on x's inbound queue. */
    method PopFront(x: NetworkInterface)
      requires x in interfaces && x.datagramsReceived != []
      modifies x
      ensures States() == old(States())[x := old(x.State()).(received := old(x.datagramsReceived)[1..])]
    {
      ghost var after := States()[x := x.State().(received := x.datagramsReceived[1..])];
      x.PopReceived();
      forall y | y in after
        ensures y in States() && States()[y] == after[y]
      {
      }
      assert States().Keys == after.Keys;
    }
  }
}

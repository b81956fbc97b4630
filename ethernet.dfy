// Link- and network-layer value types the network interface and the router exchange: Ethernet
// frames (util/ethernet_header.hh), ARP messages (RFC 826) and IPv4 datagrams (RFC 791). The wire
// codecs are not part of this model: a payload is an abstract value that records what was
// serialized into it, and parsing it back yields that value or, on a mismatch, a zero-filled one.
module Ethernet {

  /** An IPv4 address as the 32-bit number Address::ipv4_numeric() gives. */
  type Ip = x: nat | x < 0x1_0000_0000

  /** One byte of a header field. */
  type Octet = x: nat | x < 0x100

  /** A 48-bit Ethernet address: six bytes. */
  type EthernetAddress = a: seq<Octet> | |a| == 6 witness [0, 0, 0, 0, 0, 0]

  /** ff:ff:ff:ff:ff:ff, the Ethernet broadcast address. */
  const ETHERNET_BROADCAST: EthernetAddress := [0xff, 0xff, 0xff, 0xff, 0xff, 0xff]

  /** 00:00:00:00:00:00, the unknown target hardware address of an ARP request. */
  const ETHERNET_ZERO: EthernetAddress := [0, 0, 0, 0, 0, 0]

  /** EtherType values for IPv4 and ARP. */
  const TYPE_IPv4: nat := 0x800
  const TYPE_ARP: nat := 0x806

  /** ARP operation codes (section "Packet format" of RFC 826). */
  const OPCODE_REQUEST: nat := 1
  const OPCODE_REPLY: nat := 2

  /** The IPv4 header fields the stack looks at; the rest travel with the datagram unchanged. */
  datatype IPv4Header = IPv4Header(ttl: Octet, src: Ip, dst: Ip)

  datatype InternetDatagram = InternetDatagram(header: IPv4Header, payload: seq<Octet>)

  datatype ARPMessage = ARPMessage(opcode: nat, senderEthernetAddress: EthernetAddress, senderIpAddress: Ip,
                                   targetEthernetAddress: EthernetAddress, targetIpAddress: Ip)

  /** A frame payload: the serialized form of a datagram or of an ARP message, or other bytes. */
  datatype Payload = DatagramBytes(dgram: InternetDatagram) | ArpBytes(arp: ARPMessage) | OtherBytes(raw: seq<Octet>)

  datatype EthernetHeader = EthernetHeader(dst: EthernetAddress, src: EthernetAddress, etherType: nat)

  datatype EthernetFrame = EthernetFrame(header: EthernetHeader, payload: Payload)

  /** Assumed result of a failed InternetDatagram::parse (the parser is not part of this model). */
  const ZERO_DATAGRAM: InternetDatagram := InternetDatagram(IPv4Header(0, 0, 0), [])

  /** Assumed result of a failed ARPMessage::parse (the parser is not part of this model). */
  const ZERO_ARP: ARPMessage := ARPMessage(0, ETHERNET_ZERO, 0, ETHERNET_ZERO, 0)

  /** Parses a payload as a datagram; a failed parse is not reported and gives ZERO_DATAGRAM. */
  function ParseDatagram(p: Payload): InternetDatagram
  {
    if p.DatagramBytes? then p.dgram else ZERO_DATAGRAM
  }

  /** Parses a payload as an ARP message; a failed parse is not reported and gives ZERO_ARP. */
  function ParseArp(p: Payload): ARPMessage
  {
    if p.ArpBytes? then p.arp else ZERO_ARP
  }
}

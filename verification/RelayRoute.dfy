/** What the relay does with one inbound packet. */
module RelayRoute {
  import opened Basics
  import opened Ipam

  datatype Verdict = Drop | Forward | Fanout

  datatype Sender = Sender(virtualIP: Address, roomId: string)

  datatype Decision = Decision(verdict: Verdict, dst: Option<Address>)

  const IPV4_HEADER_LEN: nat := 20

  function AddressAt(packet: seq<Byte>, at: nat): Address
    requires at + 4 <= |packet|
  {
    Address(packet[at], packet[at + 1], packet[at + 2], packet[at + 3])
  }

  predicate IsMulticastOrBroadcast(dst: Address) {
    || dst.b0 >= 224
    || dst == Address(255, 255, 255, 255)
    || dst.b3 % 16 == 15
  }

  function Decide(sender: Sender, packet: seq<Byte>, allowMulticast: bool): Decision {
    if sender.roomId == "" then Decision(Drop, None)
    else if |packet| < IPV4_HEADER_LEN then Decision(Drop, None)
    else if packet[0] / 16 != 4 then Decision(Drop, None)
    else
      var src := AddressAt(packet, 12);
      var dst := AddressAt(packet, 16);
      if src != sender.virtualIP then Decision(Drop, None)
      else if IsMulticastOrBroadcast(dst) then
        if !allowMulticast then Decision(Drop, None) else Decision(Fanout, None)
      else Decision(Forward, Some(dst))
  }

  lemma LowNibble(b: Byte)
    ensures b % 16 == b % 32 % 16
  {
  }

  /** A well-formed packet from the sender's own address to an address of some room is forwarded to exactly that
      address, unless the destination is the fourteenth place of the member pool: that one ends in a low nibble
      of 15, which the /28-era broadcast test still claims. */
  lemma MemberToMember(sender: Sender, packet: seq<Byte>, allowMulticast: bool, room: int, to: Berth)
    requires sender.roomId != "" && |packet| >= IPV4_HEADER_LEN && packet[0] / 16 == 4
    requires AddressAt(packet, 12) == sender.virtualIP
    requires 0 <= room < MAX_ROOMS && ValidBerth(to)
    requires BerthIP(room, to) == Some(AddressAt(packet, 16))
    ensures Decide(sender, packet, allowMulticast) == Decision(Forward, BerthIP(room, to)) <==> to != Member(13)
    ensures to == Member(13) ==>
              Decide(sender, packet, allowMulticast) == Decision(if allowMulticast then Fanout else Drop, None)
  {
    OffsetFromDecodes(room, BerthOffset(to));
    LowNibble(AddressAt(packet, 16).b3);
  }

  /** Which packets are dropped, which go to everybody and which to their destination, exactly; multicast is told by its
      first octet, and broadcast by the last place of a block of sixteen. */
  lemma DecidesExactly(sender: Sender, packet: seq<Byte>, allowMulticast: bool)
    ensures var honest := && sender.roomId != "" && |packet| >= IPV4_HEADER_LEN && 64 <= packet[0] < 80
                          && Address(packet[12], packet[13], packet[14], packet[15]) == sender.virtualIP;
            var d := Decide(sender, packet, allowMulticast);
            && (d.verdict == Fanout <==> honest && allowMulticast && (packet[16] >= 224 || packet[19] % 16 == 15))
            && (d.verdict == Forward <==> honest && packet[16] < 224 && packet[19] % 16 != 15)
            && (d.verdict == Forward ==> d.dst == Some(Address(packet[16], packet[17], packet[18], packet[19])))
  {
  }
}

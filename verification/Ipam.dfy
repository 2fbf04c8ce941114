/** The addressing plan of 10.87.0.0/16: one /27 of 32 addresses for every room. */
module Ipam {
  import opened Basics

  const MAX_ROOMS: nat := 2048
  const PLAYER_SLOTS: nat := 10
  const OBSERVER_SLOTS: nat := 4
  const ADMIN_SLOTS: nat := 3
  const MEMBER_SLOTS: nat := PLAYER_SLOTS + OBSERVER_SLOTS
  const ADDRESSES_PER_ROOM: nat := 32
  const PLAYER_BASE_OFFSET: nat := 2
  const OBSERVER_BASE_OFFSET: nat := PLAYER_BASE_OFFSET + PLAYER_SLOTS
  const ADMIN_BASE_OFFSET: nat := 17

  datatype Address = Address(b0: Byte, b1: Byte, b2: Byte, b3: Byte)

  datatype Prefix = Prefix(base: Address, bits: nat)

  function SubnetBase(room: int): (base: Option<Address>) {
    if room < 0 || room >= MAX_ROOMS then None
    else
      var offset := room * ADDRESSES_PER_ROOM;
      Some(Address(10, 87, (offset / 256) % 256, offset % 256))
  }

  function RoomSubnet(room: int): Option<Prefix> {
    match SubnetBase(room)
    case None => None
    case Some(base) => Some(Prefix(base, 27))
  }

  /** Adds to the last octet only, and wraps there, as the byte addition does. */
  function OffsetFrom(room: int, offset: nat): Option<Address> {
    match SubnetBase(room)
    case None => None
    case Some(b) => Some(b.(b3 := (b.b3 + offset) % 256))
  }

  function SlotIP(room: int, slot: int): Option<Address> {
    if slot < 0 || slot >= PLAYER_SLOTS then None else OffsetFrom(room, PLAYER_BASE_OFFSET + slot)
  }

  function MemberIP(room: int, index: int): Option<Address> {
    if index < 0 || index >= MEMBER_SLOTS then None else OffsetFrom(room, PLAYER_BASE_OFFSET + index)
  }

  function ObserverIP(room: int, index: int): Option<Address> {
    if index < 0 || index >= OBSERVER_SLOTS then None else OffsetFrom(room, OBSERVER_BASE_OFFSET + index)
  }

  function AdminIP(room: int, index: int): Option<Address> {
    if index < 0 || index >= ADMIN_SLOTS then None else OffsetFrom(room, ADMIN_BASE_OFFSET + index)
  }

  /** Which /27 of the platform's /16 an address falls in, read off its last two octets. */
  function BlockOf(a: Address): nat {
    (a.b2 * 256 + a.b3) / ADDRESSES_PER_ROOM
  }

  /** The place of an address inside its /27. */
  function OffsetOf(a: Address): nat {
    a.b3 % ADDRESSES_PER_ROOM
  }

  lemma OctetsDecode(room: nat, offset: nat)
    requires room < MAX_ROOMS && offset < ADDRESSES_PER_ROOM
    ensures room * ADDRESSES_PER_ROOM / 256 % 256 == room / 8
    ensures (room * ADDRESSES_PER_ROOM % 256 + offset) % 256 == room % 8 * 32 + offset
  {
    var q, m := room / 8, room % 8;
    assert room * ADDRESSES_PER_ROOM == q * 256 + 32 * m;
    SplitOctets(q, 32 * m);
  }

  /** An address handed out by a room decodes to exactly that room and that offset. */
  lemma OffsetFromDecodes(room: int, offset: nat)
    requires offset < ADDRESSES_PER_ROOM
    ensures OffsetFrom(room, offset).Some? <==> 0 <= room < MAX_ROOMS
    ensures OffsetFrom(room, offset).Some? ==>
              var a := OffsetFrom(room, offset).value;
              a.b0 == 10 && a.b1 == 87 && BlockOf(a) == room && OffsetOf(a) == offset
  {
    if 0 <= room < MAX_ROOMS {
      OctetsDecode(room, offset);
      SplitBlock(room, offset);
    }
  }

  lemma SplitOctets(q: nat, low: nat)
    requires q < 256 && low < 256
    ensures (q * 256 + low) / 256 % 256 == q && (q * 256 + low) % 256 == low
  {
  }

  lemma SplitBlock(room: nat, offset: nat)
    requires offset < 32
    ensures (room * 32 + offset) / 32 == room && (room * 32 + offset) % 32 == offset
    ensures (32 * (room % 8) + offset) % 32 == offset
  {
  }

  /** A /27 covers the addresses whose first three octets and top three bits of the last are its own. */
  predicate Covers(s: Prefix, a: Address) {
    && s.bits == 27
    && a.b0 == s.base.b0 && a.b1 == s.base.b1 && a.b2 == s.base.b2
    && a.b3 / ADDRESSES_PER_ROOM == s.base.b3 / ADDRESSES_PER_ROOM
  }

  /** A room's subnet covers exactly the addresses of the platform that fall in the room's block. */
  lemma SubnetCoversExactly(room: int, a: Address)
    requires 0 <= room < MAX_ROOMS
    ensures RoomSubnet(room).Some? && RoomSubnet(room).value.base.b3 % ADDRESSES_PER_ROOM == 0
    ensures Covers(RoomSubnet(room).value, a) <==> a.b0 == 10 && a.b1 == 87 && BlockOf(a) == room
  {
    OctetsDecode(room, 0);
    BlockSplits(a.b2, a.b3, room);
  }

  lemma BlockSplits(high: nat, low: nat, room: nat)
    requires low < 256
    ensures (high * 256 + low) / 32 == high * 8 + low / 32
    ensures high * 8 + low / 32 == room <==> high == room / 8 && low / 32 == room % 8
  {
    assert high * 256 + low == 32 * (high * 8 + low / 32) + low % 32;
  }

  /** The member pool covers the playing and the watching range, and no address moved when they were joined. */
  lemma MemberPoolIsBothRanges(room: int, index: nat)
    requires index < MEMBER_SLOTS
    ensures MemberIP(room, index) ==
            if index < PLAYER_SLOTS then SlotIP(room, index) else ObserverIP(room, index - PLAYER_SLOTS)
  {
  }

  /** The seat somebody's address is derived from: a place in the member pool, or a moderator's reserved seat. */
  datatype Berth = Member(index: nat) | Moderator(seat: nat)

  predicate ValidBerth(b: Berth) {
    match b
    case Member(i) => i < MEMBER_SLOTS
    case Moderator(s) => s < ADMIN_SLOTS
  }

  function BerthIP(room: int, b: Berth): Option<Address> {
    match b
    case Member(i) => MemberIP(room, i)
    case Moderator(s) => AdminIP(room, s)
  }

  function BerthOffset(b: Berth): nat {
    match b
    case Member(i) => PLAYER_BASE_OFFSET + i
    case Moderator(s) => ADMIN_BASE_OFFSET + s
  }

  /** Different rooms or different berths never share an address, and an address lies in its own room's /27,
      clear of the network address, the relay's address and the broadcast address. */
  lemma BerthsAreDisjoint(room1: int, b1: Berth, room2: int, b2: Berth)
    requires ValidBerth(b1) && ValidBerth(b2)
    requires 0 <= room1 < MAX_ROOMS && 0 <= room2 < MAX_ROOMS
    ensures BerthIP(room1, b1).Some? && BerthIP(room2, b2).Some?
    ensures BerthIP(room1, b1) == BerthIP(room2, b2) <==> room1 == room2 && b1 == b2
    ensures var a := BerthIP(room1, b1).value;
            BlockOf(a) == room1 && OffsetOf(a) == BerthOffset(b1) && 2 <= OffsetOf(a) < 31
  {
    OffsetFromDecodes(room1, BerthOffset(b1));
    OffsetFromDecodes(room2, BerthOffset(b2));
  }
}

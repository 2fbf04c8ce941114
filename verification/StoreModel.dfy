/** The coordinator's table of rooms, as functions from its state to its next state and answer. */
module StoreModel {
  import opened Basics
  import opened RoomModel
  import opened Ipam

  /** `issued` remembers every room id ever drawn; a new id is drawn at random and never repeats one. */
  datatype StoreState = StoreState(rooms: map<Id, RoomState>, indexes: map<int, Id>, issued: set<Id>)

  datatype HostFacts = HostFacts(online: bool, inGame: bool)

  datatype Membership = Membership(
    roomId: Id, slot: nat, virtualIP: Address, hostIP: Address, subnet: Prefix, isHost: bool, kind: SeatKind)

  const EMPTY_STORE: StoreState := StoreState(map[], map[], {})

  /** Room `id` is open and seats `p`. */
  predicate Holds(s: StoreState, id: Id, p: Id) {
    id in s.rooms && s.rooms[id].status != Closed && Seated(s.rooms[id], p)
  }

  /** Some room the scan may come across first; which one is the map's own business. */
  ghost function RoomOf(s: StoreState, p: Id): (found: Option<Id>)
    ensures found.Some? ==> Holds(s, found.value, p)
    ensures found.None? && p != NOBODY ==> forall id :: !Holds(s, id, p)
  {
    if p != NOBODY && exists id :: Holds(s, id, p) then
      var id :| Holds(s, id, p); Some(id)
    else None
  }

  ghost function Elsewhere(s: StoreState, p: Id, wanted: Id): Option<RoomError> {
    match RoomOf(s, p)
    case None => None
    case Some(id) => if id != wanted then Some(AlreadyInAnotherRoom(id)) else None
  }

  /** The lowest index at or above `from` that no room has, or the room ceiling when all are taken. */
  function FreeIndex(indexes: map<int, Id>, from: nat): (i: nat)
    requires from <= MAX_ROOMS
    ensures from <= i <= MAX_ROOMS
    ensures i < MAX_ROOMS ==> i !in indexes
    ensures forall k :: from <= k < i ==> k in indexes
    decreases MAX_ROOMS - from
  {
    if from == MAX_ROOMS || from !in indexes then from else FreeIndex(indexes, from + 1)
  }

  /** The address the room tells everybody to connect to: the host's own, read as a playing slot's. */
  function HostAddr(r: RoomState): Result<Address, RoomError> {
    match AddressOf(r, r.hostId)
    case None => Err(NotMember)
    case Some(i) =>
      match SlotIP(r.index, i)
      case None => Err(AddressRange)
      case Some(a) => Ok(a)
  }

  function MembershipFor(r: RoomState, p: Id): Result<Membership, RoomError> {
    var held := AddressOf(r, p);
    if held.None? then Err(NotMember)
    else
      var vip := MemberIP(r.index, held.value);
      var host := HostAddr(r);
      var subnet := RoomSubnet(r.index);
      var (slot, kind) := match SlotOf(r, p) case None => (0, Player) case Some(at) => at;
      if vip.None? then Err(AddressRange)
      else if host.Err? then Err(host.error)
      else if subnet.None? then Err(AddressRange)
      else Ok(Membership(r.id, slot, vip.value, host.value, subnet.value, p == r.hostId, kind))
  }

  function AdminMembershipFor(r: RoomState, seat: nat): Result<Membership, RoomError> {
    var vip := AdminIP(r.index, seat);
    var host := HostAddr(r);
    var subnet := RoomSubnet(r.index);
    if vip.None? then Err(AddressRange)
    else if host.Err? then Err(host.error)
    else if subnet.None? then Err(AddressRange)
    else Ok(Membership(r.id, seat, vip.value, host.value, subnet.value, false, Admin))
  }

  function MembershipOf(s: StoreState, id: Id, p: Id): Result<Membership, RoomError> {
    if id !in s.rooms then Err(NotFound)
    else
      var r := s.rooms[id];
      match SlotOf(r, p)
      case None => Err(NotMember)
      case Some((seat, kind)) => if kind == Admin then AdminMembershipFor(r, seat) else MembershipFor(r, p)
  }

  function With(s: StoreState, id: Id, r: RoomState): StoreState {
    s.(rooms := s.rooms[id := r])
  }

  ghost function CreateRoom(s: StoreState, host: Id, id: Id): (StoreState, Result<Membership, RoomError>) {
    var elsewhere := Elsewhere(s, host, NOBODY);
    var index := FreeIndex(s.indexes, 0);
    if elsewhere.Some? then (s, Err(elsewhere.value))
    else if index >= MAX_ROOMS then (s, Err(NoRoomIndexes))
    else
      var r := NewRoom(id, index, host);
      (StoreState(s.rooms[id := r], s.indexes[index := id], s.issued + {id}), MembershipFor(r, host))
  }

  ghost function JoinRoom(s: StoreState, id: Id, who: Applicant, now: int)
    : (StoreState, Result<Membership, RoomError>)
  {
    var elsewhere := Elsewhere(s, who.id, id);
    if elsewhere.Some? then (s, Err(elsewhere.value))
    else if id !in s.rooms then (s, Err(NotFound))
    else
      var (r, answer) := Join(s.rooms[id], who, now);
      (With(s, id, r), if answer.Err? then Err(answer.error) else MembershipFor(r, who.id))
  }

  ghost function JoinRoomObserver(s: StoreState, id: Id, who: Applicant, now: int)
    : (StoreState, Result<Membership, RoomError>)
  {
    var elsewhere := Elsewhere(s, who.id, id);
    if elsewhere.Some? then (s, Err(elsewhere.value))
    else if id !in s.rooms then (s, Err(NotFound))
    else
      var (r, answer) := JoinObserver(s.rooms[id], who, now);
      (With(s, id, r), if answer.Err? then Err(answer.error) else MembershipFor(r, who.id))
  }

  ghost function JoinRoomAdmin(s: StoreState, id: Id, p: Id, now: int)
    : (StoreState, Result<Membership, RoomError>)
  {
    var elsewhere := Elsewhere(s, p, id);
    if elsewhere.Some? then (s, Err(elsewhere.value))
    else if id !in s.rooms then (s, Err(NotFound))
    else
      var (r, answer) := JoinAdmin(s.rooms[id], p, now);
      (With(s, id, r), if answer.Err? then Err(answer.error) else AdminMembershipFor(r, answer.value))
  }

  /** The answer says whether this departure ended the room. */
  function LeaveRoom(s: StoreState, id: Id, p: Id, now: int): (StoreState, Result<bool, RoomError>) {
    if id !in s.rooms then (s, Err(NotFound))
    else
      var r := s.rooms[id];
      (With(s, id, Leave(r, p, now)), Ok(r.status != Closed && p == r.hostId))
  }

  function MoveIn(s: StoreState, id: Id, p: Id, seat: int, watching: bool): (StoreState, Option<RoomError>) {
    if id !in s.rooms then (s, Some(NotFound))
    else var (r, error) := Move(s.rooms[id], p, seat, watching); (With(s, id, r), error)
  }

  function KickFrom(s: StoreState, id: Id, actor: Id, target: Id, now: int): (StoreState, Option<RoomError>) {
    if id !in s.rooms then (s, Some(NotFound))
    else var (r, error) := Kick(s.rooms[id], actor, target, now); (With(s, id, r), error)
  }

  function SetRoomStatus(s: StoreState, id: Id, actor: Id, status: Status): (StoreState, Option<RoomError>) {
    if id !in s.rooms then (s, Some(NotFound))
    else var (r, error) := SetStatus(s.rooms[id], actor, status); (With(s, id, r), error)
  }

  function SetRoomHost(s: StoreState, id: Id, newHost: Id): (StoreState, Option<RoomError>) {
    if id !in s.rooms then (s, Some(NotFound))
    else var (r, error) := SetHost(s.rooms[id], newHost); (With(s, id, r), error)
  }

  function SetRoomPrivacy(s: StoreState, id: Id, actor: Id, privacy: Option<Privacy>, password: string, minMMR: int)
    : (StoreState, Option<RoomError>)
  {
    if id !in s.rooms then (s, Some(NotFound))
    else var (r, error) := SetPrivacy(s.rooms[id], actor, privacy, password, minMMR); (With(s, id, r), error)
  }

  function InviteTo(s: StoreState, id: Id, actor: Id, target: Id, now: int): (StoreState, Option<RoomError>) {
    if id !in s.rooms then (s, Some(NotFound))
    else var (r, error) := AddInvite(s.rooms[id], actor, target, now); (With(s, id, r), error)
  }

  function UninviteFrom(s: StoreState, id: Id, actor: Id, target: Id): (StoreState, Option<RoomError>) {
    if id !in s.rooms then (s, Some(NotFound))
    else var (r, error) := Uninvite(s.rooms[id], actor, target); (With(s, id, r), error)
  }

  /** Ends a room at once: the room and its index are gone. An empty actor is the authority of the platform. */
  function CloseRoom(s: StoreState, id: Id, actor: Id): (StoreState, Option<RoomError>) {
    if id !in s.rooms then (s, Some(NotFound))
    else if actor != NOBODY && actor != s.rooms[id].hostId then (s, Some(NotHost))
    else (s.(rooms := s.rooms - {id}, indexes := s.indexes - {s.rooms[id].index}), None)
  }

  /** What the registry says of a host; a host it does not know is neither online nor in a game. */
  function FactsOf(hosts: map<Id, HostFacts>, host: Id): HostFacts {
    if host in hosts then hosts[host] else HostFacts(false, false)
  }

  /** One room after a look at its host; with no lookup installed nothing is seen. */
  function Looked(r: RoomState, hosts: Option<map<Id, HostFacts>>, now: int): RoomState {
    match hosts
    case None => r
    case Some(known) => var f := FactsOf(known, r.hostId); SeeHost(r, f.online, f.inGame, now)
  }

  /** A closed room past its linger; one that never recorded a closing time is past it at once. */
  predicate Expired(r: RoomState, now: int) {
    r.status == Closed && (r.closedAt.None? || now > r.closedAt.value + CLOSED_ROOM_LINGER)
  }

  function TickRooms(s: StoreState, hosts: Option<map<Id, HostFacts>>, now: int): map<Id, RoomState> {
    map id | id in s.rooms && !Expired(Looked(s.rooms[id], hosts, now), now) :: Looked(s.rooms[id], hosts, now)
  }

  function SweptIndexes(s: StoreState, hosts: Option<map<Id, HostFacts>>, now: int): set<int> {
    set id | id in s.rooms && Expired(Looked(s.rooms[id], hosts, now), now) :: s.rooms[id].index
  }

  /** The rooms this tick ended, whose tickets the caller revokes. */
  function ClosedByTick(s: StoreState, hosts: Option<map<Id, HostFacts>>, now: int): set<Id> {
    set id | id in s.rooms && s.rooms[id].status != Closed && Looked(s.rooms[id], hosts, now).status == Closed
  }

  function Tick(s: StoreState, hosts: Option<map<Id, HostFacts>>, now: int): StoreState {
    s.(rooms := TickRooms(s, hosts, now), indexes := s.indexes - SweptIndexes(s, hosts, now))
  }
}

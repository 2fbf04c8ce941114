/** What one room does, as functions from its state to its next state and answer. */
module RoomModel {
  import opened Basics
  import opened Seating
  import Ipam

  datatype Status = Open | Locked | OpenToNew | Closed

  datatype SeatKind = Player | Observer | Admin

  datatype Privacy = Public | Password | Friends | Invite

  datatype RoomError =
    | RoomLocked | RoomFull | KickBlocked | NotHost | RoomClosed | AlreadyJoined
    | NoObserverSeat | NoAdminSeat | SlotTaken | NoSuchSlot | NotMemberOfRoom
    | WrongRoomPassword | NeedRoomPassword | FriendsOnly | InviteOnly | MMRTooLow
    | BadPrivacy | BadMinMMR | PasswordRequired
    | NoRoomIndexes | NotFound | NotMember | AlreadyInAnotherRoom(where: Id)
    | AddressRange

  /** Somebody asking to come in, with what the coordinator itself established about them. */
  datatype Applicant = Applicant(id: Id, mmr: int, password: string, friend: bool, admin: bool)

  /** The record of one lobby. `password` stands for the password hash, and `closedAt` is absent while the
      closing time is still the zero time. */
  datatype RoomState = RoomState(
    id: Id, index: int, hostId: Id, status: Status,
    privacy: Privacy, minMMR: int, password: string, invites: map<Id, int>,
    slots: seq<Id>, observers: seq<Id>, admins: seq<Id>, addr: seq<Id>,
    hostSlot: int, hostWatching: bool,
    kickedUntil: map<Id, int>, kickCount: map<Id, int>,
    closedAt: Option<int>, hostInGame: bool)

  const CLOSED_ROOM_LINGER: int := 5 * MINUTE
  const KICK_BLOCK_FIRST: int := 1 * MINUTE
  const KICK_BLOCK_STEP: int := 2 * MINUTE
  const MAX_MIN_MMR: int := 15000

  function KickBlockFor(count: int): int {
    KICK_BLOCK_FIRST + ((if count < 1 then 1 else count) - 1) * KICK_BLOCK_STEP
  }

  predicate IsLocked(r: RoomState) {
    r.status == Locked || (r.hostInGame && r.status != OpenToNew)
  }

  predicate Admits(r: RoomState) {
    r.status != Closed && !IsLocked(r)
  }

  function Empty(n: nat): (group: seq<Id>)
    ensures |group| == n && forall k :: 0 <= k < n ==> group[k] == NOBODY
  {
    seq(n, _ => NOBODY)
  }

  function NewRoom(id: Id, index: int, hostId: Id): RoomState {
    RoomState(id, index, hostId, Open, Public, 0, "", map[],
              Empty(Ipam.PLAYER_SLOTS)[0 := hostId], Empty(Ipam.OBSERVER_SLOTS), Empty(Ipam.ADMIN_SLOTS),
              Empty(Ipam.MEMBER_SLOTS)[0 := hostId],
              0, false, map[], map[], None, false)
  }

  /** Where somebody sits: the players are searched before the gallery, and the gallery before the moderators. */
  function SlotOf(r: RoomState, id: Id): Option<(nat, SeatKind)> {
    var i := FirstIndex(r.slots, id);
    var j := FirstIndex(r.observers, id);
    var k := FirstIndex(r.admins, id);
    if i < |r.slots| then Some((i, Player))
    else if j < |r.observers| then Some((j, Observer))
    else if k < |r.admins| then Some((k, Admin))
    else None
  }

  predicate Seated(r: RoomState, id: Id) {
    id in r.slots || id in r.observers || id in r.admins
  }

  function AddressOf(r: RoomState, id: Id): Option<nat> {
    var i := FirstIndex(r.addr, id);
    if i < |r.addr| then Some(i) else None
  }

  /** The pool after somebody asked for an address: unchanged for a holder, the lowest free place for a newcomer. */
  function TakeAddress(addr: seq<Id>, id: Id): (next: seq<Id>)
    ensures |next| == |addr|
  {
    var held := FirstIndex(addr, id);
    var free := FirstIndex(addr, NOBODY);
    if held < |addr| then addr else if free < |addr| then addr[free := id] else addr
  }

  function Admissible(r: RoomState, id: Id, now: int): Option<RoomError> {
    if r.status == Closed then Some(RoomClosed)
    else if id in r.kickedUntil && now < r.kickedUntil[id] then Some(KickBlocked)
    else if SlotOf(r, id).Some? then Some(AlreadyJoined)
    else None
  }

  function Knock(r: RoomState, who: Applicant): Option<RoomError> {
    if who.admin then None
    else if r.minMMR > 0 && who.mmr < r.minMMR then Some(MMRTooLow)
    else match r.privacy
      case Public => None
      case Password =>
        if who.password == "" then Some(NeedRoomPassword)
        else if who.password != r.password then Some(WrongRoomPassword)
        else None
      case Friends => if !who.friend then Some(FriendsOnly) else None
      case Invite => if who.id !in r.invites then Some(InviteOnly) else None
  }

  function Join(r: RoomState, who: Applicant, now: int): (RoomState, Result<nat, RoomError>) {
    var refused := Admissible(r, who.id, now);
    var door := Knock(r, who);
    var i := FirstIndex(r.slots, NOBODY);
    if refused.Some? then (r, Err(refused.value))
    else if IsLocked(r) then (r, Err(RoomLocked))
    else if door.Some? then (r, Err(door.value))
    else if i < |r.slots| then
      (r.(slots := r.slots[i := who.id], addr := TakeAddress(r.addr, who.id)), Ok(i))
    else (r, Err(RoomFull))
  }

  function JoinObserver(r: RoomState, who: Applicant, now: int): (RoomState, Result<nat, RoomError>) {
    var refused := Admissible(r, who.id, now);
    var door := Knock(r, who);
    var i := FirstIndex(r.observers, NOBODY);
    if refused.Some? then (r, Err(refused.value))
    else if IsLocked(r) then (r, Err(RoomLocked))
    else if door.Some? then (r, Err(door.value))
    else if i < |r.observers| then
      (r.(observers := r.observers[i := who.id], addr := TakeAddress(r.addr, who.id)), Ok(i))
    else (r, Err(NoObserverSeat))
  }

  function JoinAdmin(r: RoomState, id: Id, now: int): (RoomState, Result<nat, RoomError>) {
    var refused := Admissible(r, id, now);
    var i := FirstIndex(r.admins, NOBODY);
    if refused.Some? then (r, Err(refused.value))
    else if i < |r.admins| then (r.(admins := r.admins[i := id]), Ok(i))
    else (r, Err(NoAdminSeat))
  }

  /** Vacates one place and takes another; a host's whereabouts go with them, and the address pool is left alone. */
  function Reseat(r: RoomState, id: Id, at: nat, wasWatching: bool, seat: nat, watching: bool): RoomState
    requires at < |if wasWatching then r.observers else r.slots|
    requires seat < |if watching then r.observers else r.slots|
  {
    var slots := if wasWatching then r.slots else r.slots[at := NOBODY];
    var observers := if wasWatching then r.observers[at := NOBODY] else r.observers;
    var host := id == r.hostId;
    r.(slots := if watching then slots else slots[seat := id],
       observers := if watching then observers[seat := id] else observers,
       hostSlot := if host then seat else r.hostSlot,
       hostWatching := if host then watching else r.hostWatching)
  }

  function Move(r: RoomState, id: Id, seat: int, watching: bool): (RoomState, Option<RoomError>) {
    var to := if watching then r.observers else r.slots;
    var from := SlotOf(r, id);
    if r.status == Closed then (r, Some(RoomClosed))
    else if r.status == Locked || r.hostInGame then (r, Some(RoomLocked))
    else if seat < 0 || seat >= |to| then (r, Some(NoSuchSlot))
    else if from.None? || from.value.1 == Admin then (r, Some(NotMemberOfRoom))
    else
      var at := from.value.0;
      var wasWatching := from.value.1 == Observer;
      if wasWatching == watching && at == seat then (r, None)
      else if to[seat] != NOBODY then (r, Some(SlotTaken))
      else
        (Reseat(r, id, at, wasWatching, seat, watching), None)
  }

  function Close(r: RoomState, now: int): RoomState {
    if r.status == Closed then r else r.(status := Closed, closedAt := Some(now))
  }

  function Leave(r: RoomState, id: Id, now: int): RoomState {
    var up := r.(slots := Vacate(r.slots, id), observers := Vacate(r.observers, id),
                 admins := Vacate(r.admins, id), addr := Vacate(r.addr, id));
    if id == r.hostId then Close(up, now) else up
  }

  function SeeHost(r: RoomState, online: bool, inGame: bool, now: int): RoomState {
    if r.status == Closed then r
    else
      var seen := r.(hostInGame := inGame);
      if !online then Close(seen, now) else seen
  }

  function KicksOf(r: RoomState, id: Id): int {
    if id in r.kickCount then r.kickCount[id] else 0
  }

  function Kick(r: RoomState, actor: Id, target: Id, now: int): (RoomState, Option<RoomError>) {
    if actor != r.hostId then (r, Some(NotHost))
    else if target == r.hostId then (r, Some(NotMemberOfRoom))
    else
      var n := KicksOf(r, target) + 1;
      (Leave(r, target, now).(kickCount := r.kickCount[target := n],
                              kickedUntil := r.kickedUntil[target := now + KickBlockFor(n)]), None)
  }

  /** Sets any status, closed included, and never a closing time. */
  function SetStatus(r: RoomState, actor: Id, status: Status): (RoomState, Option<RoomError>) {
    if actor != r.hostId then (r, Some(NotHost))
    else if r.status == Closed then (r, Some(RoomClosed))
    else (r.(status := status), None)
  }

  function SetHost(r: RoomState, newHost: Id): (RoomState, Option<RoomError>) {
    var at := SlotOf(r, newHost);
    if r.status == Closed then (r, Some(RoomClosed))
    else if newHost == r.hostId then (r, None)
    else if at.None? || at.value.1 != Player then (r, Some(NotMemberOfRoom))
    else (r.(hostId := newHost, hostSlot := at.value.0, hostWatching := false), None)
  }

  /** `privacy` is absent when the caller named no kind of room that exists. */
  function SetPrivacy(r: RoomState, actor: Id, privacy: Option<Privacy>, password: string, minMMR: int)
    : (RoomState, Option<RoomError>)
  {
    if actor != r.hostId then (r, Some(NotHost))
    else if r.status == Closed then (r, Some(RoomClosed))
    else if privacy.None? then (r, Some(BadPrivacy))
    else if minMMR < 0 || minMMR > MAX_MIN_MMR then (r, Some(BadMinMMR))
    else if privacy.value == Password && password == "" && r.password == "" then (r, Some(PasswordRequired))
    else
      var kept := if privacy.value != Password then "" else if password != "" then password else r.password;
      (r.(password := kept, privacy := privacy.value, minMMR := minMMR), None)
  }

  function AddInvite(r: RoomState, actor: Id, target: Id, now: int): (RoomState, Option<RoomError>) {
    if actor != r.hostId then (r, Some(NotHost))
    else if r.status == Closed then (r, Some(RoomClosed))
    else (r.(invites := r.invites[target := now]), None)
  }

  function Uninvite(r: RoomState, actor: Id, target: Id): (RoomState, Option<RoomError>) {
    if actor != r.hostId then (r, Some(NotHost))
    else (r.(invites := r.invites - {target}), None)
  }
}

/** One room as the record the coordinator updates in place. */
module Rooms {
  import opened Basics
  import opened Seating
  import opened RoomModel
  import Ipam

  /** The lowest place of a group holding `id`, or its length. */
  method Find(group: seq<Id>, id: Id) returns (at: nat)
    ensures at == FirstIndex(group, id)
  {
    at := 0;
    while at < |group|
      invariant at <= |group|
      invariant forall k :: 0 <= k < at ==> group[k] != id
    {
      if group[at] == id {
        return;
      }
      at := at + 1;
    }
  }

  /** Empties every place of a group that holds `id`. */
  method Empties(group: seq<Id>, id: Id) returns (left: seq<Id>)
    ensures left == Vacate(group, id)
  {
    left := group;
    for i := 0 to |group|
      invariant |left| == |group|
      invariant forall k :: 0 <= k < i ==> left[k] == if group[k] == id then NOBODY else group[k]
      invariant forall k :: i <= k < |group| ==> left[k] == group[k]
    {
      if left[i] == id {
        left := left[i := NOBODY];
      }
    }
  }

  class Room {
    const id: Id
    const index: int
    var hostId: Id
    var status: Status
    var privacy: Privacy
    var minMMR: int
    var password: string
    var invites: map<Id, int>
    var slots: seq<Id>
    var observers: seq<Id>
    var admins: seq<Id>
    var addr: seq<Id>
    var hostSlot: int
    var hostWatching: bool
    var kickedUntil: map<Id, int>
    var kickCount: map<Id, int>
    var closedAt: Option<int>
    var hostInGame: bool

    function State(): RoomState
      reads this
    {
      RoomState(id, index, hostId, status, privacy, minMMR, password, invites, slots, observers, admins, addr,
                hostSlot, hostWatching, kickedUntil, kickCount, closedAt, hostInGame)
    }

    constructor (id: Id, index: int, hostId: Id)
      ensures State() == NewRoom(id, index, hostId)
    {
      this.id, this.index, this.hostId := id, index, hostId;
      status, privacy, minMMR, password := Open, Public, 0, "";
      invites, kickedUntil, kickCount := map[], map[], map[];
      slots := Empty(Ipam.PLAYER_SLOTS)[0 := hostId];
      observers, admins := Empty(Ipam.OBSERVER_SLOTS), Empty(Ipam.ADMIN_SLOTS);
      addr := Empty(Ipam.MEMBER_SLOTS)[0 := hostId];
      hostSlot, hostWatching, closedAt, hostInGame := 0, false, None, false;
    }

    method TakeAddress(playerId: Id)
      modifies this`addr
      ensures addr == RoomModel.TakeAddress(old(addr), playerId)
    {
      var held := Find(addr, playerId);
      if held < |addr| {
        return;
      }
      var free := Find(addr, NOBODY);
      if free < |addr| {
        addr := addr[free := playerId];
      }
    }

    method DropAddress(playerId: Id)
      modifies this`addr
      ensures addr == Vacate(old(addr), playerId)
    {
      addr := Empties(addr, playerId);
    }

    method AddressOf(playerId: Id) returns (index: Option<nat>)
      ensures index == RoomModel.AddressOf(State(), playerId)
    {
      var at := Find(addr, playerId);
      index := if at < |addr| then Some(at) else None;
    }

    method SlotOf(playerId: Id) returns (at: Option<(nat, SeatKind)>)
      ensures at == RoomModel.SlotOf(State(), playerId)
    {
      var i := Find(slots, playerId);
      if i < |slots| {
        return Some((i, Player));
      }
      i := Find(observers, playerId);
      if i < |observers| {
        return Some((i, Observer));
      }
      i := Find(admins, playerId);
      if i < |admins| {
        return Some((i, Admin));
      }
      at := None;
    }

    method Admissible(playerId: Id, now: int) returns (refused: Option<RoomError>)
      ensures refused == RoomModel.Admissible(State(), playerId, now)
    {
      if status == Closed {
        return Some(RoomClosed);
      }
      if playerId in kickedUntil && now < kickedUntil[playerId] {
        return Some(KickBlocked);
      }
      var at := SlotOf(playerId);
      refused := if at.Some? then Some(AlreadyJoined) else None;
    }

    method Join(who: Applicant, now: int) returns (answer: Result<nat, RoomError>)
      modifies this
      ensures (State(), answer) == RoomModel.Join(old(State()), who, now)
    {
      var refused := Admissible(who.id, now);
      if refused.Some? {
        return Err(refused.value);
      }
      if IsLocked(State()) {
        return Err(RoomLocked);
      }
      var door := Knock(State(), who);
      if door.Some? {
        return Err(door.value);
      }
      var i := Find(slots, NOBODY);
      if i == |slots| {
        return Err(RoomFull);
      }
      slots := slots[i := who.id];
      TakeAddress(who.id);
      answer := Ok(i);
    }

    method JoinObserver(who: Applicant, now: int) returns (answer: Result<nat, RoomError>)
      modifies this
      ensures (State(), answer) == RoomModel.JoinObserver(old(State()), who, now)
    {
      var refused := Admissible(who.id, now);
      if refused.Some? {
        return Err(refused.value);
      }
      if IsLocked(State()) {
        return Err(RoomLocked);
      }
      var door := Knock(State(), who);
      if door.Some? {
        return Err(door.value);
      }
      var i := Find(observers, NOBODY);
      if i == |observers| {
        return Err(NoObserverSeat);
      }
      observers := observers[i := who.id];
      TakeAddress(who.id);
      answer := Ok(i);
    }

    method JoinAdmin(playerId: Id, now: int) returns (answer: Result<nat, RoomError>)
      modifies this
      ensures (State(), answer) == RoomModel.JoinAdmin(old(State()), playerId, now)
    {
      var refused := Admissible(playerId, now);
      if refused.Some? {
        return Err(refused.value);
      }
      var i := Find(admins, NOBODY);
      if i == |admins| {
        return Err(NoAdminSeat);
      }
      admins := admins[i := playerId];
      answer := Ok(i);
    }

    method Move(playerId: Id, seat: int, watching: bool) returns (error: Option<RoomError>)
      modifies this
      ensures (State(), error) == RoomModel.Move(old(State()), playerId, seat, watching)
    {
      if status == Closed {
        return Some(RoomClosed);
      }
      if status == Locked || hostInGame {
        return Some(RoomLocked);
      }
      var to := if watching then observers else slots;
      if seat < 0 || seat >= |to| {
        return Some(NoSuchSlot);
      }
      var from := SlotOf(playerId);
      if from.None? || from.value.1 == Admin {
        return Some(NotMemberOfRoom);
      }
      var at, wasWatching := from.value.0, from.value.1 == Observer;
      if wasWatching == watching && at == seat {
        return None;
      }
      if to[seat] != NOBODY {
        return Some(SlotTaken);
      }
      Reseat(playerId, at, wasWatching, seat, watching);
      error := None;
    }

    /** The tail of a move: out of one place and into another, with the host's whereabouts when it is the host. */
    method Reseat(playerId: Id, at: nat, wasWatching: bool, seat: nat, watching: bool)
      requires at < |if wasWatching then observers else slots|
      requires seat < |if watching then observers else slots|
      modifies this
      ensures State() == RoomModel.Reseat(old(State()), playerId, at, wasWatching, seat, watching)
    {
      if wasWatching {
        observers := observers[at := NOBODY];
      } else {
        slots := slots[at := NOBODY];
      }
      if watching {
        observers := observers[seat := playerId];
      } else {
        slots := slots[seat := playerId];
      }
      if playerId == hostId {
        hostSlot, hostWatching := seat, watching;
      }
    }

    method Close(now: int)
      modifies this
      ensures State() == RoomModel.Close(old(State()), now)
    {
      if status != Closed {
        status, closedAt := Closed, Some(now);
      }
    }

    method Leave(playerId: Id, now: int)
      modifies this
      ensures State() == RoomModel.Leave(old(State()), playerId, now)
    {
      GetUp(playerId);
      if playerId == hostId {
        Close(now);
      }
    }

    /** Out of every seat, and out of the pool. */
    method GetUp(playerId: Id)
      modifies this
      ensures State() == old(State()).(
        slots := Vacate(old(slots), playerId), observers := Vacate(old(observers), playerId),
        admins := Vacate(old(admins), playerId), addr := Vacate(old(addr), playerId))
    {
      slots := Empties(slots, playerId);
      observers := Empties(observers, playerId);
      admins := Empties(admins, playerId);
      DropAddress(playerId);
    }

    method SeeHost(online: bool, inGame: bool, now: int)
      modifies this
      ensures State() == RoomModel.SeeHost(old(State()), online, inGame, now)
    {
      if status == Closed {
        return;
      }
      hostInGame := inGame;
      if !online {
        Close(now);
      }
    }

    method Kick(actor: Id, target: Id, now: int) returns (error: Option<RoomError>)
      modifies this
      ensures (State(), error) == RoomModel.Kick(old(State()), actor, target, now)
    {
      if actor != hostId {
        return Some(NotHost);
      }
      if target == hostId {
        return Some(NotMemberOfRoom);
      }
      Leave(target, now);
      kickCount := kickCount[target := (if target in kickCount then kickCount[target] else 0) + 1];
      kickedUntil := kickedUntil[target := now + KickBlockFor(kickCount[target])];
      error := None;
    }

    method SetStatus(actor: Id, s: Status) returns (error: Option<RoomError>)
      modifies this
      ensures (State(), error) == RoomModel.SetStatus(old(State()), actor, s)
    {
      if actor != hostId {
        return Some(NotHost);
      }
      if status == Closed {
        return Some(RoomClosed);
      }
      status := s;
      error := None;
    }

    method SetHost(newHost: Id) returns (error: Option<RoomError>)
      modifies this
      ensures (State(), error) == RoomModel.SetHost(old(State()), newHost)
    {
      if status == Closed {
        return Some(RoomClosed);
      }
      if newHost == hostId {
        return None;
      }
      var at := SlotOf(newHost);
      if at.None? || at.value.1 != Player {
        return Some(NotMemberOfRoom);
      }
      hostId, hostSlot, hostWatching := newHost, at.value.0, false;
      error := None;
    }

    method SetPrivacy(actor: Id, p: Option<Privacy>, secret: string, floor: int) returns (error: Option<RoomError>)
      modifies this
      ensures (State(), error) == RoomModel.SetPrivacy(old(State()), actor, p, secret, floor)
    {
      if actor != hostId {
        return Some(NotHost);
      }
      if status == Closed {
        return Some(RoomClosed);
      }
      if p.None? {
        return Some(BadPrivacy);
      }
      if floor < 0 || floor > MAX_MIN_MMR {
        return Some(BadMinMMR);
      }
      if p.value == Password {
        if secret != "" {
          password := secret;
        } else if password == "" {
          return Some(PasswordRequired);
        }
      } else {
        password := "";
      }
      privacy, minMMR := p.value, floor;
      error := None;
    }

    method AddInvite(actor: Id, target: Id, now: int) returns (error: Option<RoomError>)
      modifies this
      ensures (State(), error) == RoomModel.AddInvite(old(State()), actor, target, now)
    {
      if actor != hostId {
        return Some(NotHost);
      }
      if status == Closed {
        return Some(RoomClosed);
      }
      invites := invites[target := now];
      error := None;
    }

    method Uninvite(actor: Id, target: Id) returns (error: Option<RoomError>)
      modifies this
      ensures (State(), error) == RoomModel.Uninvite(old(State()), actor, target)
    {
      if actor != hostId {
        return Some(NotHost);
      }
      invites := invites - {target};
      error := None;
    }
  }
}

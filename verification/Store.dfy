/** The table of rooms as the record the coordinator updates in place. */
module RoomStores {
  import opened Basics
  import opened RoomModel
  import opened RoomInvariants
  import opened StoreModel
  import opened StoreInvariants
  import opened Rooms
  import Ipam

  class RoomStore {
    var rooms: map<Id, Room>
    var indexes: map<int, Id>
    ghost var issued: set<Id>

    ghost function View(): StoreState
      reads this, rooms.Values
    {
      StoreState(map id | id in rooms :: rooms[id].State(), indexes, issued)
    }

    /** Each id has a record of its own. */
    ghost predicate Unshared()
      reads this
    {
      forall a, b :: a in rooms && b in rooms && rooms[a] == rooms[b] ==> a == b
    }

    ghost predicate Valid()
      reads this, rooms.Values
    {
      Unshared() && StoreInv(View())
    }

    /** Rooms may have gone, and the records of those still there are the same objects. */
    twostate predicate Fewer()
      reads this
    {
      rooms.Keys <= old(rooms).Keys && forall b :: b in rooms ==> rooms[b] == old(rooms)[b]
    }

    constructor ()
      ensures Valid() && View() == EMPTY_STORE && rooms == map[]
    {
      rooms, indexes, issued := map[], map[], {};
    }

    /** Scans the open rooms in whatever order they come. */
    method RoomOf(p: Id) returns (found: Option<Id>)
      requires OneRoomEach(View())
      ensures found == StoreModel.RoomOf(View(), p)
    {
      if p == NOBODY {
        return None;
      }
      var todo := rooms.Keys;
      while todo != {}
        invariant todo <= rooms.Keys
        invariant forall id :: Holds(View(), id, p) ==> id in todo
        decreases |todo|
      {
        var id :| id in todo;
        todo := todo - {id};
        var here := SeatsOpenly(id, p);
        if here {
          RoomOfIs(View(), p, id);
          return Some(id);
        }
      }
      found := None;
    }

    method SeatsOpenly(id: Id, p: Id) returns (here: bool)
      requires id in rooms
      ensures here <==> Holds(View(), id, p)
    {
      if rooms[id].status == Closed {
        return false;
      }
      var at := rooms[id].SlotOf(p);
      here := at.Some?;
    }

    method Elsewhere(p: Id, wanted: Id) returns (refused: Option<RoomError>)
      requires Valid()
      ensures refused == StoreModel.Elsewhere(View(), p, wanted)
    {
      var found := RoomOf(p);
      refused := if found.Some? && found.value != wanted then Some(AlreadyInAnotherRoom(found.value)) else None;
    }

    method FreeIndex() returns (i: nat)
      ensures i == StoreModel.FreeIndex(indexes, 0)
    {
      i := 0;
      while i < Ipam.MAX_ROOMS && i in indexes
        invariant i <= Ipam.MAX_ROOMS
        invariant forall k :: 0 <= k < i ==> k in indexes
      {
        i := i + 1;
      }
    }

    /** Other rooms' records are other objects, so a change to one is a change to that one. */
    twostate lemma OneRoomChanged(id: Id)
      requires old(Unshared()) && id in rooms && rooms == old(rooms) && indexes == old(indexes) && issued == old(issued)
      requires forall b :: b in rooms && b != id ==> rooms[b].State() == old(rooms[b].State())
      ensures View() == With(old(View()), id, rooms[id].State())
    {
    }

    /** A new room is a new record: those that were there are untouched, and none of them is it. */
    twostate lemma RoomAdded(id: Id, new r: Room)
      requires old(Unshared()) && id !in old(rooms) && fresh(r) && rooms == old(rooms)[id := r]
      requires forall b :: b in old(rooms) ==> rooms[b].State() == old(rooms[b].State())
      ensures View() == StoreState(old(View()).rooms[id := r.State()], indexes, issued)
      ensures Unshared()
    {
      RoomAddedUnshared(id, r);
    }

    twostate lemma RoomAddedUnshared(id: Id, new r: Room)
      requires old(Unshared()) && id !in old(rooms) && fresh(r) && rooms == old(rooms)[id := r]
      ensures Unshared()
    {
      forall b | b in old(rooms) ensures rooms[b] != r {
      }
    }

    method Create(hostId: Id, id: Id) returns (answer: Result<Membership, RoomError>)
      requires Valid() && hostId != NOBODY && id != NOBODY && id !in issued
      modifies this
      ensures Valid() && (View(), answer) == CreateRoom(old(View()), hostId, id)
      ensures rooms == old(rooms) || (id in rooms && fresh(rooms[id]) && rooms == old(rooms)[id := rooms[id]])
    {
      CreateRoomKeeps(View(), hostId, id);
      var refused := Elsewhere(hostId, NOBODY);
      answer := CreateUnless(refused, hostId, id);
    }

    method CreateUnless(refused: Option<RoomError>, hostId: Id, id: Id) returns (answer: Result<Membership, RoomError>)
      requires Unshared() && id !in rooms && refused == StoreModel.Elsewhere(View(), hostId, NOBODY)
      modifies this
      ensures Unshared() && (View(), answer) == CreateRoom(old(View()), hostId, id)
      ensures rooms == old(rooms) || (id in rooms && fresh(rooms[id]) && rooms == old(rooms)[id := rooms[id]])
    {
      if refused.Some? {
        return Err(refused.value);
      }
      var index := FreeIndex();
      if index == Ipam.MAX_ROOMS {
        return Err(NoRoomIndexes);
      }
      var r := Insert(hostId, id, index);
      answer := MembershipFor(r.State(), hostId);
    }

    method Insert(hostId: Id, id: Id, index: int) returns (r: Room)
      requires Unshared() && id !in rooms
      modifies this
      ensures fresh(r) && rooms == old(rooms)[id := r] && r.State() == NewRoom(id, index, hostId)
      ensures View() == StoreState(old(View()).rooms[id := r.State()], old(indexes)[index := id], old(issued) + {id})
      ensures Unshared()
    {
      r := new Room(id, index, hostId);
      rooms, indexes, issued := rooms[id := r], indexes[index := id], issued + {id};
      RoomAdded(id, r);
    }

    method Join(id: Id, who: Applicant, now: int) returns (answer: Result<Membership, RoomError>)
      requires Valid() && who.id != NOBODY
      modifies rooms.Values
      ensures Valid() && (View(), answer) == JoinRoom(old(View()), id, who, now)
    {
      JoinRoomKeeps(View(), id, who, now);
      var refused := Elsewhere(who.id, id);
      if refused.Some? {
        return Err(refused.value);
      }
      if id !in rooms {
        return Err(NotFound);
      }
      var seat := rooms[id].Join(who, now);
      OneRoomChanged(id);
      answer := if seat.Err? then Err(seat.error) else MembershipFor(rooms[id].State(), who.id);
    }

    method JoinObserver(id: Id, who: Applicant, now: int) returns (answer: Result<Membership, RoomError>)
      requires Valid() && who.id != NOBODY
      modifies rooms.Values
      ensures Valid() && (View(), answer) == JoinRoomObserver(old(View()), id, who, now)
    {
      JoinRoomObserverKeeps(View(), id, who, now);
      var refused := Elsewhere(who.id, id);
      if refused.Some? {
        return Err(refused.value);
      }
      if id !in rooms {
        return Err(NotFound);
      }
      var seat := rooms[id].JoinObserver(who, now);
      OneRoomChanged(id);
      answer := if seat.Err? then Err(seat.error) else MembershipFor(rooms[id].State(), who.id);
    }

    method JoinAdmin(id: Id, p: Id, now: int) returns (answer: Result<Membership, RoomError>)
      requires Valid() && p != NOBODY
      modifies rooms.Values
      ensures Valid() && (View(), answer) == JoinRoomAdmin(old(View()), id, p, now)
    {
      JoinRoomAdminKeeps(View(), id, p, now);
      var refused := Elsewhere(p, id);
      if refused.Some? {
        return Err(refused.value);
      }
      if id !in rooms {
        return Err(NotFound);
      }
      var seat := rooms[id].JoinAdmin(p, now);
      OneRoomChanged(id);
      answer := if seat.Err? then Err(seat.error) else AdminMembershipFor(rooms[id].State(), seat.value);
    }

    method Membership(id: Id, p: Id) returns (answer: Result<Membership, RoomError>)
      ensures answer == MembershipOf(View(), id, p)
    {
      if id !in rooms {
        return Err(NotFound);
      }
      var at := rooms[id].SlotOf(p);
      if at.None? {
        return Err(NotMember);
      }
      if at.value.1 == Admin {
        return AdminMembershipFor(rooms[id].State(), at.value.0);
      }
      answer := MembershipFor(rooms[id].State(), p);
    }

    /** Says whether this departure ended the room. */
    method Leave(id: Id, p: Id, now: int) returns (ended: Result<bool, RoomError>)
      requires Valid()
      modifies rooms.Values
      ensures Valid() && (View(), ended) == LeaveRoom(old(View()), id, p, now)
    {
      if id !in rooms {
        return Err(NotFound);
      }
      SeatlessKeeps(View(), id, OpLeave(p, now));
      var over := Depart(rooms[id], p, now);
      OneRoomChanged(id);
      ended := Ok(over);
    }

    /** A room that was already closed is only vacated; a living one ends with its host's departure. */
    static method Depart(r: Room, p: Id, now: int) returns (over: bool)
      modifies r
      ensures r.State() == RoomModel.Leave(old(r.State()), p, now)
      ensures over <==> old(r.status) != Closed && p == old(r.hostId)
    {
      if r.status == Closed {
        r.Leave(p, now);
        return false;
      }
      r.Leave(p, now);
      if p == r.hostId {
        r.Close(now);
        return true;
      }
      over := false;
    }

    method Move(id: Id, p: Id, seat: int, watching: bool) returns (error: Option<RoomError>)
      requires Valid()
      modifies rooms.Values
      ensures Valid() && (View(), error) == MoveIn(old(View()), id, p, seat, watching)
    {
      if id !in rooms {
        return Some(NotFound);
      }
      SeatlessKeeps(View(), id, OpMove(p, seat, watching));
      error := rooms[id].Move(p, seat, watching);
      OneRoomChanged(id);
    }

    method Kick(id: Id, actor: Id, target: Id, now: int) returns (error: Option<RoomError>)
      requires Valid()
      modifies rooms.Values
      ensures Valid() && (View(), error) == KickFrom(old(View()), id, actor, target, now)
    {
      if id !in rooms {
        return Some(NotFound);
      }
      SeatlessKeeps(View(), id, OpKick(actor, target, now));
      error := rooms[id].Kick(actor, target, now);
      OneRoomChanged(id);
    }

    method SetStatus(id: Id, actor: Id, status: Status) returns (error: Option<RoomError>)
      requires Valid()
      modifies rooms.Values
      ensures Valid() && (View(), error) == SetRoomStatus(old(View()), id, actor, status)
    {
      if id !in rooms {
        return Some(NotFound);
      }
      SeatlessKeeps(View(), id, OpStatus(actor, status));
      error := rooms[id].SetStatus(actor, status);
      OneRoomChanged(id);
    }

    method SetHost(id: Id, newHost: Id) returns (error: Option<RoomError>)
      requires Valid() && newHost != NOBODY
      modifies rooms.Values
      ensures Valid() && (View(), error) == SetRoomHost(old(View()), id, newHost)
    {
      if id !in rooms {
        return Some(NotFound);
      }
      SeatlessKeeps(View(), id, OpSetHost(newHost));
      error := rooms[id].SetHost(newHost);
      OneRoomChanged(id);
    }

    method SetPrivacy(id: Id, actor: Id, privacy: Option<Privacy>, password: string, minMMR: int)
      returns (error: Option<RoomError>)
      requires Valid()
      modifies rooms.Values
      ensures Valid() && (View(), error) == SetRoomPrivacy(old(View()), id, actor, privacy, password, minMMR)
    {
      if id !in rooms {
        return Some(NotFound);
      }
      SeatlessKeeps(View(), id, OpPrivacy(actor, privacy, password, minMMR));
      error := rooms[id].SetPrivacy(actor, privacy, password, minMMR);
      OneRoomChanged(id);
    }

    method Invite(id: Id, actor: Id, target: Id, now: int) returns (error: Option<RoomError>)
      requires Valid()
      modifies rooms.Values
      ensures Valid() && (View(), error) == InviteTo(old(View()), id, actor, target, now)
    {
      if id !in rooms {
        return Some(NotFound);
      }
      SeatlessKeeps(View(), id, OpInvite(actor, target, now));
      error := rooms[id].AddInvite(actor, target, now);
      OneRoomChanged(id);
    }

    method Uninvite(id: Id, actor: Id, target: Id) returns (error: Option<RoomError>)
      requires Valid()
      modifies rooms.Values
      ensures Valid() && (View(), error) == UninviteFrom(old(View()), id, actor, target)
    {
      if id !in rooms {
        return Some(NotFound);
      }
      SeatlessKeeps(View(), id, OpUninvite(actor, target));
      error := rooms[id].Uninvite(actor, target);
      OneRoomChanged(id);
    }

    /** Ends a room now, without a linger. */
    method Close(id: Id, actor: Id) returns (error: Option<RoomError>)
      requires Valid()
      modifies this
      ensures Valid() && (View(), error) == CloseRoom(old(View()), id, actor)
      ensures Fewer()
    {
      CloseKeeps(View(), id, actor);
      if id !in rooms {
        return Some(NotFound);
      }
      if actor != NOBODY && actor != rooms[id].hostId {
        return Some(NotHost);
      }
      indexes := indexes - {rooms[id].index};
      rooms := rooms - {id};
      RoomTaken(id);
      error := None;
    }

    twostate lemma RoomTaken(id: Id)
      requires rooms == old(rooms) - {id}
      requires forall b :: b in rooms ==> rooms[b].State() == old(rooms[b].State())
      ensures View().rooms == old(View()).rooms - {id}
    {
    }

    /** A look at one room's host; says whether it ended the room. */
    static method Look(r: Room, hosts: Option<map<Id, HostFacts>>, now: int) returns (ended: bool)
      modifies r
      ensures r.State() == Looked(old(r.State()), hosts, now)
      ensures ended <==> old(r.status) != Closed && r.status == Closed
    {
      var was := r.status;
      if hosts.Some? {
        var f := FactsOf(hosts.value, r.hostId);
        r.SeeHost(f.online, f.inGame, now);
      }
      ended := r.status == Closed && was != Closed;
    }

    method LookAt(id: Id, hosts: Option<map<Id, HostFacts>>, now: int) returns (ended: bool)
      requires Unshared() && id in rooms
      modifies rooms[id]
      ensures View() == With(old(View()), id, Looked(old(View()).rooms[id], hosts, now))
      ensures ended <==> old(View()).rooms[id].status != Closed && View().rooms[id].status == Closed
    {
      ended := Look(rooms[id], hosts, now);
      OneRoomChanged(id);
    }

    method SweepIfDue(id: Id, now: int)
      requires Unshared() && id in rooms
      modifies this
      ensures Unshared() && View() == if Expired(old(View()).rooms[id], now) then Swept(old(View()), id)
              else old(View())
      ensures rooms == old(rooms) || rooms == old(rooms) - {id}
    {
      if Expired(rooms[id].State(), now) {
        indexes := indexes - {rooms[id].index};
        rooms := rooms - {id};
        RoomTaken(id);
      }
    }

    /** One room's turn: a look at its host, and the sweep if its linger is over. */
    method TickRoom(id: Id, hosts: Option<map<Id, HostFacts>>, now: int) returns (ended: bool)
      requires Unshared() && id in rooms
      modifies this, rooms[id]
      ensures Unshared() && View() == StoreInvariants.TickRoom(old(View()), id, hosts, now)
      ensures rooms == old(rooms) || rooms == old(rooms) - {id}
      ensures ended <==>
                old(View()).rooms[id].status != Closed && Looked(old(View()).rooms[id], hosts, now).status == Closed
    {
      ended := LookAt(id, hosts, now);
      SweepIfDue(id, now);
    }

    /** The turn of the next room, noting it among the closed when this turn ended it. */
    method TickNext(ghost before: StoreState, ghost todo: set<Id>, closed: seq<Id>, id: Id,
                    hosts: Option<map<Id, HostFacts>>, now: int) returns (more: seq<Id>)
      requires Unshared() && id in todo && todo <= rooms.Keys && Midway(before, View(), todo, closed, hosts, now)
      modifies this, rooms[id]
      ensures Unshared() && todo - {id} <= rooms.Keys && Midway(before, View(), todo - {id}, more, hosts, now)
      ensures Fewer()
    {
      MidwayStep(before, View(), todo, closed, id, hosts, now);
      var ended := TickRoom(id, hosts, now);
      more := if ended then closed + [id] else closed;
    }

    /** The turns of all the rooms, in whatever order they come. */
    method TickEach(hosts: Option<map<Id, HostFacts>>, now: int) returns (closed: seq<Id>)
      requires Unshared()
      modifies this, rooms.Values
      ensures Unshared() && Midway(old(View()), View(), {}, closed, hosts, now)
      ensures Fewer()
    {
      ghost var before := View();
      MidwayStart(before, hosts, now);
      closed := TickRest(before, rooms.Keys, [], hosts, now);
    }

    method TickRest(ghost before: StoreState, all: set<Id>, none: seq<Id>, hosts: Option<map<Id, HostFacts>>, now: int)
      returns (closed: seq<Id>)
      requires Unshared() && all <= rooms.Keys && Midway(before, View(), all, none, hosts, now)
      modifies this, rooms.Values
      ensures Unshared() && Fewer() && Midway(before, View(), {}, closed, hosts, now)
    {
      var todo := all;
      closed := none;
      while todo != {}
        invariant Unshared() && Fewer() && todo <= rooms.Keys && Midway(before, View(), todo, closed, hosts, now)
        decreases |todo|
      {
        var id :| id in todo;
        closed := TickNext(before, todo, closed, id, hosts, now);
        todo := todo - {id};
      }
    }

    /** Advances every room and sweeps the ones whose linger is over; reports each room this turn ended, once. */
    method Tick(hosts: Option<map<Id, HostFacts>>, now: int) returns (closed: seq<Id>)
      requires Valid()
      modifies this, rooms.Values
      ensures Valid() && View() == StoreModel.Tick(old(View()), hosts, now)
      ensures (set id | id in closed) == ClosedByTick(old(View()), hosts, now)
      ensures forall i, j :: 0 <= i < j < |closed| ==> closed[i] != closed[j]
      ensures Fewer()
    {
      TickKeeps(View(), hosts, now);
      ghost var before := View();
      closed := TickEach(hosts, now);
      MidwayEnd(before, View(), closed, hosts, now);
    }
  }
}

/** What every operation on the table of rooms keeps. */
module StoreInvariants {
  import opened Basics
  import opened Seating
  import opened RoomModel
  import opened RoomInvariants
  import opened StoreModel
  import Ipam

  /** Room map and index map are inverse to each other, inside the room ceiling. */
  ghost predicate IndexesAgree(s: StoreState) {
    && (forall id :: id in s.rooms ==>
          && 0 <= s.rooms[id].index < Ipam.MAX_ROOMS
          && s.rooms[id].index in s.indexes && s.indexes[s.rooms[id].index] == id)
    && (forall i :: i in s.indexes ==> s.indexes[i] in s.rooms && s.rooms[s.indexes[i]].index == i)
  }

  /** Nobody is seated in two rooms that are not closed. */
  ghost predicate OneRoomEach(s: StoreState) {
    forall a, b, p: Id :: p != NOBODY && Holds(s, a, p) && Holds(s, b, p) ==> a == b
  }

  ghost predicate RoomsOk(s: StoreState) {
    && (forall id :: id in s.rooms ==> RoomInv(s.rooms[id]) && s.rooms[id].id == id)
    && s.rooms.Keys <= s.issued
    && NOBODY !in s.rooms
  }

  ghost predicate StoreInv(s: StoreState) {
    RoomsOk(s) && IndexesAgree(s) && OneRoomEach(s)
  }

  lemma EmptyStoreInv()
    ensures StoreInv(EMPTY_STORE)
  {
  }

  /** Because nobody is in two rooms, the scan finds the room there is, in whatever order it looks. */
  lemma RoomOfIs(s: StoreState, p: Id, id: Id)
    requires OneRoomEach(s) && p != NOBODY && Holds(s, id, p)
    ensures RoomOf(s, p) == Some(id)
  {
  }

  lemma NotElsewhere(s: StoreState, p: Id, wanted: Id)
    requires OneRoomEach(s) && NOBODY !in s.rooms && p != NOBODY
    ensures Elsewhere(s, p, wanted).None? <==> forall id :: Holds(s, id, p) ==> id == wanted
  {
    if id :| Holds(s, id, p) {
      RoomOfIs(s, p, id);
    }
  }

  /** The effect of one operation on one room of the table. */
  function OnRoom(s: StoreState, id: Id, op: RoomOp): StoreState
    requires id in s.rooms
  {
    With(s, id, Apply(s.rooms[id], op))
  }

  /** Whoever sits down is in no other open room: the only thing asked of an operation on one room. */
  ghost predicate SeatsFreely(s: StoreState, id: Id, op: RoomOp)
    requires id in s.rooms
  {
    var down := FootprintOf(s.rooms[id], op).down;
    down.Some? ==> down.value != NOBODY && forall b :: Holds(s, b, down.value) ==> b == id
  }

  lemma OnRoomKeepsOneRoom(s: StoreState, id: Id, op: RoomOp)
    requires StoreInv(s) && id in s.rooms && Named(op) && SeatsFreely(s, id, op)
    ensures OneRoomEach(OnRoom(s, id, op))
  {
    var r := s.rooms[id];
    var s' := OnRoom(s, id, op);
    ApplyKeeps(r, op);
    var down := FootprintOf(r, op).down;
    forall a, p: Id | p != NOBODY && Holds(s', a, p)
      ensures Holds(s, a, p) || (a == id && down == Some(p))
    {
    }
  }

  lemma OnRoomKeeps(s: StoreState, id: Id, op: RoomOp)
    requires StoreInv(s) && id in s.rooms && Named(op) && SeatsFreely(s, id, op)
    ensures StoreInv(OnRoom(s, id, op))
  {
    ApplyKeeps(s.rooms[id], op);
    OnRoomKeepsOneRoom(s, id, op);
  }

  lemma JoinRoomKeeps(s: StoreState, id: Id, who: Applicant, now: int)
    requires StoreInv(s) && who.id != NOBODY
    ensures StoreInv(JoinRoom(s, id, who, now).0)
  {
    NotElsewhere(s, who.id, id);
    if id in s.rooms && Elsewhere(s, who.id, id).None? { OnRoomKeeps(s, id, OpJoin(who, now)); }
  }

  lemma JoinRoomObserverKeeps(s: StoreState, id: Id, who: Applicant, now: int)
    requires StoreInv(s) && who.id != NOBODY
    ensures StoreInv(JoinRoomObserver(s, id, who, now).0)
  {
    NotElsewhere(s, who.id, id);
    if id in s.rooms && Elsewhere(s, who.id, id).None? { OnRoomKeeps(s, id, OpObserve(who, now)); }
  }

  lemma JoinRoomAdminKeeps(s: StoreState, id: Id, p: Id, now: int)
    requires StoreInv(s) && p != NOBODY
    ensures StoreInv(JoinRoomAdmin(s, id, p, now).0)
  {
    NotElsewhere(s, p, id);
    if id in s.rooms && Elsewhere(s, p, id).None? { OnRoomKeeps(s, id, OpAdmin(p, now)); }
  }

  /** Operations that seat nobody new keep the table in order wherever they are applied. */
  lemma SeatlessKeeps(s: StoreState, id: Id, op: RoomOp)
    requires StoreInv(s) && id in s.rooms && Named(op) && !op.OpJoin? && !op.OpObserve? && !op.OpAdmin?
    ensures StoreInv(With(s, id, Apply(s.rooms[id], op)))
  {
    OnRoomKeeps(s, id, op);
  }

  /** Opening a room: a fresh id, the lowest free index, and one person who was nowhere else. */
  lemma CreateKeeps(s: StoreState, host: Id, id: Id)
    requires StoreInv(s) && host != NOBODY && id != NOBODY && id !in s.issued
    ensures var (s', answer) := CreateRoom(s, host, id);
            && StoreInv(s')
            && (answer.Ok? <==> id in s'.rooms)
            && (answer.Ok? ==> s'.rooms == s.rooms[id := NewRoom(id, s'.rooms[id].index, host)]
                               && s'.rooms[id].index !in s.indexes
                               && forall b :: !Holds(s, b, host))
            && (answer.Err? ==> s' == s)
  {
    var (s', answer) := CreateRoom(s, host, id);
    var index := FreeIndex(s.indexes, 0);
    if s' != s {
      var r := NewRoom(id, index, host);
      NewRoomInv(id, index, host);
      NotElsewhere(s, host, NOBODY);
      FreshIndexAgrees(s, id, r);
      FreshRoomKeepsOneRoom(s, s', id, host);
    }
  }

  lemma CreateRoomKeeps(s: StoreState, host: Id, id: Id)
    requires StoreInv(s) && host != NOBODY && id != NOBODY && id !in s.issued
    ensures id !in s.rooms && StoreInv(CreateRoom(s, host, id).0)
  {
    CreateKeeps(s, host, id);
  }

  lemma FreshRoomKeepsOneRoom(s: StoreState, s': StoreState, id: Id, host: Id)
    requires OneRoomEach(s) && id in s'.rooms && s'.rooms == s.rooms[id := s'.rooms[id]]
    requires forall p: Id :: p != NOBODY ==> (Seated(s'.rooms[id], p) <==> p == host)
    requires forall b :: !Holds(s, b, host)
    ensures OneRoomEach(s')
  {
    forall a, p: Id | p != NOBODY && Holds(s', a, p)
      ensures if a == id then p == host else Holds(s, a, p)
    {
    }
  }

  lemma FreshIndexAgrees(s: StoreState, id: Id, r: RoomState)
    requires IndexesAgree(s) && id !in s.rooms
    requires 0 <= r.index < Ipam.MAX_ROOMS && r.index !in s.indexes
    ensures IndexesAgree(s.(rooms := s.rooms[id := r], indexes := s.indexes[r.index := id]))
  {
  }

  /** Taking rooms away together with their indexes leaves the two maps inverse. */
  lemma RemovalAgrees(s: StoreState, rooms: map<Id, RoomState>, gone: set<int>)
    requires StoreInv(s)
    requires rooms.Keys <= s.rooms.Keys
    requires forall id :: id in rooms ==> rooms[id].index == s.rooms[id].index
    requires forall id :: id in s.rooms ==> (id !in rooms <==> s.rooms[id].index in gone)
    ensures IndexesAgree(s.(rooms := rooms, indexes := s.indexes - gone))
  {
  }

  lemma CloseKeeps(s: StoreState, id: Id, actor: Id)
    requires StoreInv(s)
    ensures StoreInv(CloseRoom(s, id, actor).0)
  {
    var (s', error) := CloseRoom(s, id, actor);
    if error.None? {
      RemovalAgrees(s, s'.rooms, {s.rooms[id].index});
      assert forall b, p :: Holds(s', b, p) ==> Holds(s, b, p);
    }
  }

  function LookFootprint(r: RoomState, hosts: Option<map<Id, HostFacts>>, now: int): Footprint {
    QUIET.(closes := hosts.Some? && !FactsOf(hosts.value, r.hostId).online, at := Some(now))
  }

  lemma LookedKeeps(r: RoomState, hosts: Option<map<Id, HostFacts>>, now: int)
    requires RoomInv(r)
    ensures RoomInv(Looked(r, hosts, now)) && Within(r, Looked(r, hosts, now), LookFootprint(r, hosts, now))
  {
    match hosts {
      case None => NothingKeeps(r);
      case Some(known) =>
        var f := FactsOf(known, r.hostId);
        SeeHostKeeps(r, f.online, f.inGame, now);
    }
  }

  lemma TickRoomsOk(s: StoreState, hosts: Option<map<Id, HostFacts>>, now: int)
    requires StoreInv(s)
    ensures var s' := Tick(s, hosts, now);
            && RoomsOk(s')
            && (forall id :: id in s'.rooms ==>
                  id in s.rooms && Within(s.rooms[id], s'.rooms[id], LookFootprint(s.rooms[id], hosts, now)))
  {
    var s' := Tick(s, hosts, now);
    forall id | id in s'.rooms
      ensures RoomInv(s'.rooms[id]) && Within(s.rooms[id], s'.rooms[id], LookFootprint(s.rooms[id], hosts, now))
    {
      LookedKeeps(s.rooms[id], hosts, now);
    }
  }

  lemma SweptAreExpired(s: StoreState, hosts: Option<map<Id, HostFacts>>, now: int, id: Id)
    requires StoreInv(s) && id in s.rooms
    ensures id !in TickRooms(s, hosts, now) <==> s.rooms[id].index in SweptIndexes(s, hosts, now)
  {
    if s.rooms[id].index in SweptIndexes(s, hosts, now) {
      var b :| b in s.rooms && Expired(Looked(s.rooms[b], hosts, now), now) && s.rooms[b].index == s.rooms[id].index;
      assert b == id;
    }
  }

  lemma TickKeeps(s: StoreState, hosts: Option<map<Id, HostFacts>>, now: int)
    requires StoreInv(s)
    ensures StoreInv(Tick(s, hosts, now))
  {
    var s' := Tick(s, hosts, now);
    TickRoomsOk(s, hosts, now);
    forall id | id in s.rooms ensures id !in s'.rooms <==> s.rooms[id].index in SweptIndexes(s, hosts, now) {
      SweptAreExpired(s, hosts, now, id);
    }
    RemovalAgrees(s, s'.rooms, SweptIndexes(s, hosts, now));
    forall a, p: Id | p != NOBODY && Holds(s', a, p) ensures Holds(s, a, p) {
    }
  }

  /** One room swept out of the table, with its index. */
  function Swept(s: StoreState, id: Id): StoreState
    requires id in s.rooms
  {
    s.(rooms := s.rooms - {id}, indexes := s.indexes - {s.rooms[id].index})
  }

  /** The timer's turn taken one room at a time: a look, and the sweep if the linger is over. */
  function TickRoom(s: StoreState, id: Id, hosts: Option<map<Id, HostFacts>>, now: int): StoreState
    requires id in s.rooms
  {
    var looked := With(s, id, Looked(s.rooms[id], hosts, now));
    if Expired(looked.rooms[id], now) then Swept(looked, id) else looked
  }

  predicate Due(s: StoreState, id: Id, hosts: Option<map<Id, HostFacts>>, now: int) {
    id in s.rooms && Expired(Looked(s.rooms[id], hosts, now), now)
  }

  function SweptAmong(s: StoreState, done: set<Id>, hosts: Option<map<Id, HostFacts>>, now: int): set<int> {
    set id | id in done && Due(s, id, hosts, now) :: s.rooms[id].index
  }

  /** The table after the rooms in `done` have had their turn. */
  function TickSome(s: StoreState, done: set<Id>, hosts: Option<map<Id, HostFacts>>, now: int): StoreState {
    s.(rooms := map id | id in s.rooms && !(id in done && Due(s, id, hosts, now)) ::
                  if id in done then Looked(s.rooms[id], hosts, now) else s.rooms[id],
       indexes := s.indexes - SweptAmong(s, done, hosts, now))
  }

  lemma LookedIndex(r: RoomState, hosts: Option<map<Id, HostFacts>>, now: int)
    ensures Looked(r, hosts, now).index == r.index
  {
  }

  lemma SweptOneMore(s: StoreState, done: set<Id>, id: Id, hosts: Option<map<Id, HostFacts>>, now: int)
    requires id in s.rooms
    ensures SweptAmong(s, done + {id}, hosts, now) ==
            SweptAmong(s, done, hosts, now) + if Due(s, id, hosts, now) then {s.rooms[id].index} else {}
  {
  }

  /** Where one room stands once the rooms in `done` have had their turn. */
  lemma TickSomeAt(s: StoreState, done: set<Id>, b: Id, hosts: Option<map<Id, HostFacts>>, now: int)
    ensures b in TickSome(s, done, hosts, now).rooms <==> b in s.rooms && !(b in done && Due(s, b, hosts, now))
    ensures b in TickSome(s, done, hosts, now).rooms ==>
              TickSome(s, done, hosts, now).rooms[b] == if b in done then Looked(s.rooms[b], hosts, now) else s.rooms[b]
  {
  }

  lemma TickOneMoreRooms(s: StoreState, some: map<Id, RoomState>, more: map<Id, RoomState>, done: set<Id>, id: Id,
                         hosts: Option<map<Id, HostFacts>>, now: int)
    requires id in s.rooms && id !in done
    requires some == TickSome(s, done, hosts, now).rooms && more == TickSome(s, done + {id}, hosts, now).rooms
    ensures id in some && some[id] == s.rooms[id]
    ensures forall b :: b != id ==> (b in some <==> b in more) && (b in some ==> some[b] == more[b])
    ensures if Due(s, id, hosts, now) then id !in more else id in more && more[id] == Looked(s.rooms[id], hosts, now)
  {
    TickSomeAt(s, done, id, hosts, now);
    TickSomeAt(s, done + {id}, id, hosts, now);
    forall b | b != id ensures (b in some <==> b in more) && (b in some ==> some[b] == more[b]) {
      TickSomeAt(s, done, b, hosts, now);
      TickSomeAt(s, done + {id}, b, hosts, now);
    }
  }

  lemma OneEntryApart(some: map<Id, RoomState>, more: map<Id, RoomState>, id: Id, looked: RoomState, gone: bool)
    requires forall b :: b != id ==> (b in some <==> b in more) && (b in some ==> some[b] == more[b])
    requires if gone then id !in more else id in more && more[id] == looked
    ensures more == if gone then some[id := looked] - {id} else some[id := looked]
  {
  }

  /** A turn of one room, given the rest: the table with that room looked at, and without it if it is due. */
  lemma TickRoomIs(some: StoreState, id: Id, r: RoomState, hosts: Option<map<Id, HostFacts>>, now: int, due: bool)
    requires id in some.rooms && some.rooms[id] == r && (due <==> Expired(Looked(r, hosts, now), now))
    ensures var looked := some.rooms[id := Looked(r, hosts, now)];
            TickRoom(some, id, hosts, now) ==
              if due then some.(rooms := looked - {id}, indexes := some.indexes - {r.index}) else some.(rooms := looked)
  {
    LookedIndex(r, hosts, now);
  }

  lemma TickOneMore(s: StoreState, done: set<Id>, id: Id, hosts: Option<map<Id, HostFacts>>, now: int)
    requires id in s.rooms && id !in done
    ensures id in TickSome(s, done, hosts, now).rooms && TickSome(s, done, hosts, now).rooms[id] == s.rooms[id]
    ensures TickRoom(TickSome(s, done, hosts, now), id, hosts, now) == TickSome(s, done + {id}, hosts, now)
  {
    var due := Due(s, id, hosts, now);
    var some, more := TickSome(s, done, hosts, now), TickSome(s, done + {id}, hosts, now);
    SweptOneMore(s, done, id, hosts, now);
    TickOneMoreRooms(s, some.rooms, more.rooms, done, id, hosts, now);
    OneEntryApart(some.rooms, more.rooms, id, Looked(s.rooms[id], hosts, now), due);
    TickRoomIs(some, id, s.rooms[id], hosts, now, due);
    OneIndexApart(s.indexes, SweptAmong(s, done, hosts, now), s.rooms[id].index, due);
  }

  lemma OneIndexApart(indexes: map<int, Id>, gone: set<int>, index: int, due: bool)
    ensures indexes - (gone + if due then {index} else {}) == if due then indexes - gone - {index} else indexes - gone
  {
  }

  /** `closed` lists, each once, the rooms of `all` whose turn has come. */
  ghost predicate ClosedPart(all: set<Id>, todo: set<Id>, closed: seq<Id>) {
    && (forall b :: b in closed <==> b in all && b !in todo)
    && (forall i, j :: 0 <= i < j < |closed| ==> closed[i] != closed[j])
  }

  /** Where the timer stands part way: `todo` is still to come, and `closed` are the rooms it has ended. */
  ghost predicate Midway(before: StoreState, s: StoreState, todo: set<Id>, closed: seq<Id>,
                         hosts: Option<map<Id, HostFacts>>, now: int)
  {
    && todo <= before.rooms.Keys
    && s == TickSome(before, before.rooms.Keys - todo, hosts, now)
    && ClosedPart(ClosedByTick(before, hosts, now), todo, closed)
  }

  lemma MidwayStart(before: StoreState, hosts: Option<map<Id, HostFacts>>, now: int)
    ensures Midway(before, before, before.rooms.Keys, [], hosts, now)
  {
    assert before.rooms.Keys - before.rooms.Keys == {};
    assert TickSome(before, {}, hosts, now).rooms == before.rooms;
    assert SweptAmong(before, {}, hosts, now) == {};
  }

  lemma ClosedSoFar(all: set<Id>, todo: set<Id>, closed: seq<Id>, id: Id)
    requires id in todo && ClosedPart(all, todo, closed)
    ensures ClosedPart(all, todo - {id}, if id in all then closed + [id] else closed)
  {
  }

  lemma TurnsSoFar(all: set<Id>, todo: set<Id>, id: Id)
    requires id in todo && todo <= all
    ensures all - (todo - {id}) == all - todo + {id}
  {
  }

  lemma MidwayNext(before: StoreState, s: StoreState, todo: set<Id>, id: Id, hosts: Option<map<Id, HostFacts>>,
      now: int)
    requires id in todo && todo <= before.rooms.Keys && s == TickSome(before, before.rooms.Keys - todo, hosts, now)
    ensures id in s.rooms && s.rooms[id] == before.rooms[id]
    ensures TickRoom(s, id, hosts, now) == TickSome(before, before.rooms.Keys - (todo - {id}), hosts, now)
  {
    TickOneMore(before, before.rooms.Keys - todo, id, hosts, now);
    TurnsSoFar(before.rooms.Keys, todo, id);
  }

  lemma MidwayStep(before: StoreState, s: StoreState, todo: set<Id>, closed: seq<Id>, id: Id,
                   hosts: Option<map<Id, HostFacts>>, now: int)
    requires Midway(before, s, todo, closed, hosts, now) && id in todo
    ensures id in s.rooms
    ensures Midway(before, TickRoom(s, id, hosts, now), todo - {id},
                   if s.rooms[id].status != Closed && Looked(s.rooms[id], hosts, now).status == Closed
                   then closed + [id] else closed, hosts, now)
  {
    MidwayNext(before, s, todo, id, hosts, now);
    ClosedSoFar(ClosedByTick(before, hosts, now), todo, closed, id);
  }

  lemma MidwayEnd(before: StoreState, s: StoreState, closed: seq<Id>, hosts: Option<map<Id, HostFacts>>, now: int)
    requires Midway(before, s, {}, closed, hosts, now)
    ensures s == Tick(before, hosts, now) && (set id | id in closed) == ClosedByTick(before, hosts, now)
  {
    assert before.rooms.Keys - {} == before.rooms.Keys;
    assert TickSome(before, before.rooms.Keys, hosts, now).rooms == TickRooms(before, hosts, now);
  }

  /** The berth somebody's address comes from: their place in the member pool, or their moderator's seat. */
  function BerthOf(r: RoomState, p: Id): Option<Ipam.Berth> {
    var i := FirstIndex(r.addr, p);
    var j := FirstIndex(r.admins, p);
    if i < |r.addr| then Some(Ipam.Member(i)) else if j < |r.admins| then Some(Ipam.Moderator(j)) else None
  }

  /** The one address a person has in a room. */
  function AddressIn(r: RoomState, p: Id): Option<Ipam.Address> {
    match BerthOf(r, p)
    case None => None
    case Some(b) => Ipam.BerthIP(r.index, b)
  }

  lemma SeatedHaveBerths(r: RoomState, p: Id)
    requires RoomInv(r) && p != NOBODY
    ensures BerthOf(r, p).Some? <==> Seated(r, p)
    ensures BerthOf(r, p).Some? ==> Ipam.ValidBerth(BerthOf(r, p).value)
  {
    assert p in r.addr <==> FirstIndex(r.addr, p) < |r.addr|;
    assert p in r.admins <==> FirstIndex(r.admins, p) < |r.admins|;
  }

  /** Everybody seated in a held room has an address in that room's own /27, and no two of them share one. */
  lemma AddressesAreDistinct(s: StoreState, a: Id, p: Id, b: Id, q: Id)
    requires StoreInv(s) && a in s.rooms && b in s.rooms && p != NOBODY && q != NOBODY
    requires Seated(s.rooms[a], p) && Seated(s.rooms[b], q)
    ensures AddressIn(s.rooms[a], p).Some? && AddressIn(s.rooms[b], q).Some?
    ensures Ipam.BlockOf(AddressIn(s.rooms[a], p).value) == s.rooms[a].index
    ensures AddressIn(s.rooms[a], p) == AddressIn(s.rooms[b], q) <==> a == b && p == q
  {
    var r, t := s.rooms[a], s.rooms[b];
    SeatedHaveBerths(r, p);
    SeatedHaveBerths(t, q);
    Ipam.BerthsAreDisjoint(r.index, BerthOf(r, p).value, t.index, BerthOf(t, q).value);
    if r.index == t.index {
      assert a == b;
    }
  }

  /** Only getting up costs somebody their address. */
  lemma BerthStays(r: RoomState, r': RoomState, f: Footprint, p: Id)
    requires RoomInv(r) && RoomInv(r') && Within(r, r', f) && p != NOBODY
    requires Seated(r, p) && f.up != Some(p)
    ensures BerthOf(r', p) == BerthOf(r, p) && AddressIn(r', p) == AddressIn(r, p)
  {
    SeatedHaveBerths(r, p);
    var i := FirstIndex(r.addr, p);
    if i < |r.addr| {
      FirstIndexIs(r'.addr, p, i);
    } else {
      var j := FirstIndex(r.admins, p);
      FirstIndexIs(r'.admins, p, j);
      assert p in r'.admins;
      assert p !in r'.addr;
    }
  }

  /** What a caller is told to connect from is exactly the address they hold, whichever seat they are in. */
  lemma MembershipTellsAddress(r: RoomState, p: Id)
    ensures MembershipFor(r, p).Ok? ==>
              MembershipFor(r, p).value.roomId == r.id && AddressIn(r, p) == Some(MembershipFor(r, p).value.virtualIP)
  {
  }

  lemma AdminMembershipTellsAddress(r: RoomState, p: Id, seat: nat)
    requires RoomInv(r) && p != NOBODY && seat < |r.admins| && r.admins[seat] == p
    ensures AdminMembershipFor(r, seat).Ok? ==>
              AdminMembershipFor(r, seat).value.roomId == r.id
                  && AddressIn(r, p) == Some(AdminMembershipFor(r, seat).value.virtualIP)
  {
    FirstIndexIs(r.admins, p, seat);
    assert p in r.admins;
    assert p !in r.addr;
  }

  /** The host's address as the room gives it out is the host's own, in every room where it can be given at all;
      and it can be given exactly when the host holds one of the first ten places of the pool. */
  lemma HostAddrExactly(r: RoomState)
    requires RoomInv(r) && 0 <= r.index < Ipam.MAX_ROOMS
    ensures HostAddr(r).Ok? <==> AddressOf(r, r.hostId).Some? && AddressOf(r, r.hostId).value < Ipam.PLAYER_SLOTS
    ensures HostAddr(r).Ok? ==> AddressIn(r, r.hostId) == Some(HostAddr(r).value)
  {
    var i := FirstIndex(r.addr, r.hostId);
    if i < Ipam.MEMBER_SLOTS {
      Ipam.OffsetFromDecodes(r.index, Ipam.PLAYER_BASE_OFFSET + i);
      Ipam.MemberPoolIsBothRanges(r.index, i);
    }
  }

  /** A seated member or moderator of a held room is refused a membership exactly when the host's address cannot
      be given out. */
  lemma MembershipExactly(s: StoreState, id: Id, p: Id)
    requires StoreInv(s) && id in s.rooms && p != NOBODY
    ensures MembershipOf(s, id, p).Ok? <==> Seated(s.rooms[id], p) && HostAddr(s.rooms[id]).Ok?
    ensures MembershipOf(s, id, p).Ok? ==>
              var m := MembershipOf(s, id, p).value;
              && m.roomId == id && AddressIn(s.rooms[id], p) == Some(m.virtualIP)
              && AddressIn(s.rooms[id], s.rooms[id].hostId) == Some(m.hostIP)
  {
    var r := s.rooms[id];
    SeatedHaveBerths(r, p);
    HostAddrExactly(r);
    MembershipTellsAddress(r, p);
    if SlotOf(r, p).Some? {
      var (seat, kind) := SlotOf(r, p).value;
      if kind == Admin {
        AdminMembershipTellsAddress(r, p, seat);
        Ipam.OffsetFromDecodes(r.index, Ipam.ADMIN_BASE_OFFSET + seat);
      } else {
        assert p in r.addr;
        Ipam.OffsetFromDecodes(r.index, Ipam.PLAYER_BASE_OFFSET + FirstIndex(r.addr, p));
      }
    }
  }

  /** Somebody sits in a seat of a kind. */
  predicate Sits(r: RoomState, p: Id, seat: nat, kind: SeatKind) {
    match kind
    case Player => seat < |r.slots| && r.slots[seat] == p
    case Observer => seat < |r.observers| && r.observers[seat] == p
    case Admin => seat < |r.admins| && r.admins[seat] == p
  }

  /** A membership names the seat its player sits in, says whether they are the host, and gives the room's own /27,
      which covers both the player's address and the host's. */
  predicate TellsTruly(r: RoomState, p: Id, m: Membership) {
    && m.roomId == r.id && Sits(r, p, m.slot, m.kind) && (m.isHost <==> p == r.hostId && m.kind != Admin)
    && m.subnet.base.b3 % Ipam.ADDRESSES_PER_ROOM == 0
    && Ipam.Covers(m.subnet, m.virtualIP) && Ipam.Covers(m.subnet, m.hostIP)
  }

  lemma AddressCovered(r: RoomState, a: Ipam.Address, b: Ipam.Berth)
    requires 0 <= r.index < Ipam.MAX_ROOMS && Ipam.ValidBerth(b) && Ipam.BerthIP(r.index, b) == Some(a)
    ensures Ipam.RoomSubnet(r.index).Some? && Ipam.Covers(Ipam.RoomSubnet(r.index).value, a)
    ensures Ipam.RoomSubnet(r.index).value.base.b3 % Ipam.ADDRESSES_PER_ROOM == 0
  {
    Ipam.OffsetFromDecodes(r.index, Ipam.BerthOffset(b));
    Ipam.SubnetCoversExactly(r.index, a);
  }

  lemma HostCovered(r: RoomState)
    requires 0 <= r.index < Ipam.MAX_ROOMS && HostAddr(r).Ok?
    ensures Ipam.RoomSubnet(r.index).Some? && Ipam.Covers(Ipam.RoomSubnet(r.index).value, HostAddr(r).value)
  {
    AddressCovered(r, HostAddr(r).value, Ipam.Member(AddressOf(r, r.hostId).value));
  }

  lemma MemberToldTruly(r: RoomState, p: Id)
    requires RoomInv(r) && 0 <= r.index < Ipam.MAX_ROOMS && p != NOBODY && MembershipFor(r, p).Ok?
    ensures TellsTruly(r, p, MembershipFor(r, p).value) && MembershipFor(r, p).value.kind != Admin
  {
    HostCovered(r);
    assert p in r.addr;
    AddressCovered(r, MembershipFor(r, p).value.virtualIP, Ipam.Member(AddressOf(r, p).value));
  }

  lemma ModeratorToldTruly(r: RoomState, p: Id, seat: nat)
    requires RoomInv(r) && 0 <= r.index < Ipam.MAX_ROOMS && p != NOBODY && seat < |r.admins| && r.admins[seat] == p
    requires AdminMembershipFor(r, seat).Ok?
    ensures TellsTruly(r, p, AdminMembershipFor(r, seat).value)
  {
    HostCovered(r);
    AddressCovered(r, AdminMembershipFor(r, seat).value.virtualIP, Ipam.Moderator(seat));
  }

  /** Every membership of every held room is told truly. */
  lemma MembershipTellsTruly(s: StoreState, id: Id, p: Id)
    requires StoreInv(s) && id in s.rooms && p != NOBODY && MembershipOf(s, id, p).Ok?
    ensures TellsTruly(s.rooms[id], p, MembershipOf(s, id, p).value)
  {
    var (seat, kind) := SlotOf(s.rooms[id], p).value;
    if kind == Admin { ModeratorToldTruly(s.rooms[id], p, seat); } else { MemberToldTruly(s.rooms[id], p); }
  }
}

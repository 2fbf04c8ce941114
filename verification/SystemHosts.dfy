/** The address everybody is told to connect to, over whole runs; and concrete runs in which the stated rules fail. */
module SystemHosts {
  import opened Basics
  import opened Seating
  import opened RoomModel
  import opened RoomInvariants
  import opened StoreModel
  import opened StoreInvariants
  import opened TicketModel
  import opened SystemModel
  import opened SystemInvariants
  import opened SystemRuns
  import opened SystemTheorems
  import Ipam

  /** At any moment of any run, somebody in an open room can connect exactly when the host's place in the address pool
      is one of the first ten; and whoever connects is told the host's own address and their own. */
  lemma ConnectsExactly(clock: int, events: seq<Event>, room: Id, p: Id)
    requires FairRun(Start(clock), events) && p != NOBODY && Holds(After(clock, events).store, room, p)
    ensures var s := After(clock, events).store;
            var r, m := s.rooms[room], MembershipOf(s, room, p);
            && AddressOf(r, r.hostId).Some?
            && (m.Ok? <==> AddressOf(r, r.hostId).value < Ipam.PLAYER_SLOTS)
            && (m.Ok? ==> Some(m.value.hostIP) == AddressIn(r, r.hostId) && Some(m.value.virtualIP) == AddressIn(r, p))
  {
    Reached(clock, events);
    var s := After(clock, events).store;
    HostHoldsAddress(s.rooms[room]);
    MembershipExactly(s, room, p);
    HostAddrExactly(s.rooms[room]);
  }

  lemma HostHoldsAddress(r: RoomState)
    requires RoomInv(r) && r.status != Closed
    ensures r.hostId in r.addr && AddressOf(r, r.hostId).Some?
  {
    assert r.hostId in if r.hostWatching then r.observers else r.slots;
  }

  ghost predicate HostsFirst(s: StoreState) {
    forall id :: id in s.rooms ==> HostFirst(s.rooms[id])
  }

  lemma StepKeepsHostsFirst(y: SystemState, e: Event)
    requires SysInv(y) && Fair(y, e) && HostsFirst(y.store) && !e.act.HandOver?
    ensures HostsFirst(Step(y, e).store)
  {
    forall id | id in Step(y, e).store.rooms
      ensures HostFirst(Step(y, e).store.rooms[id])
    {
      if id in y.store.rooms {
        RoomStep(y, e, id);
        NoHandOverOp(y, e, id);
        ApplyKeepsHostFirst(y.store.rooms[id], OpOn(y, e, id));
      } else {
        NewRoomHostFirst(y, e, id);
      }
    }
  }

  lemma NoHandOverOp(y: SystemState, e: Event, id: Id)
    requires !e.act.HandOver?
    ensures !OpOn(y, e, id).OpSetHost?
  {
  }

  lemma OnlyCreateAddsRooms(y: SystemState, e: Event)
    requires !e.act.Create?
    ensures Step(y, e).store.rooms.Keys <= y.store.rooms.Keys
  {
    if !e.act.ShutDown? && !e.act.Timer? {
      OthersKeepRooms(y, e);
    }
  }

  lemma NewRoomHostFirst(y: SystemState, e: Event, id: Id)
    requires SysInv(y) && Fair(y, e) && id in Step(y, e).store.rooms && id !in y.store.rooms
    ensures HostFirst(Step(y, e).store.rooms[id])
  {
    if !e.act.Create? {
      OnlyCreateAddsRooms(y, e);
    } else {
      CreatedHostFirst(y, e, id);
    }
  }

  lemma CreateAddsOne(y: SystemState, player: Id, id: Id, tok: Id, door: Option<Door>)
    ensures CreateAct(y, player, id, tok, door).store.rooms.Keys <= y.store.rooms.Keys + {id}
  {
  }

  lemma CreatedHostFirst(y: SystemState, e: Event, id: Id)
    requires SysInv(y) && Fair(y, e) && e.act.Create?
    requires id in Step(y, e).store.rooms && id !in y.store.rooms
    ensures HostFirst(Step(y, e).store.rooms[id])
  {
    ClockAdvances(y, e.now);
    var now, a := y.(clock := e.now), e.act;
    CreateAddsOne(now, a.player, a.id, a.tok, a.door);
    if a.player != NOBODY {
      CreateActKeeps(now, a.player, a.id, a.tok, a.door);
    }
  }

  lemma {:induction false} RunKeepsHostsFirst(y: SystemState, events: seq<Event>)
    requires SysInv(y) && FairRun(y, events) && HostsFirst(y.store)
    requires forall e :: e in events ==> !e.act.HandOver?
    ensures HostsFirst(Run(y, events).store)
    decreases |events|
  {
    if events != [] {
      StepKeeps(y, events[0]);
      StepKeepsHostsFirst(y, events[0]);
      RunKeepsHostsFirst(Step(y, events[0]), events[1..]);
    }
  }

  /** In a run that hands no room over, everybody in an open room can always connect, and is told the first address
      of the room's block: the host's own. */
  lemma WithoutHandOverAllConnect(clock: int, events: seq<Event>, room: Id, p: Id)
    requires FairRun(Start(clock), events) && p != NOBODY && Holds(After(clock, events).store, room, p)
    requires forall e :: e in events ==> !e.act.HandOver?
    ensures var s := After(clock, events).store;
            && MembershipOf(s, room, p).Ok?
            && Some(MembershipOf(s, room, p).value.hostIP) == Ipam.MemberIP(s.rooms[room].index, 0)
            && Some(MembershipOf(s, room, p).value.hostIP) == AddressIn(s.rooms[room], s.rooms[room].hostId)
  {
    StartInv(clock);
    RunKeepsHostsFirst(Start(clock), events);
    ConnectsExactly(clock, events, room, p);
    var r := After(clock, events).store.rooms[room];
    FirstIndexZero(r.addr, r.hostId);
  }

  lemma FirstIndexZero(group: seq<Id>, id: Id)
    requires |group| > 0 && group[0] == id
    ensures FirstIndex(group, id) == 0
  {
  }

  /** Ten players in the ten playing seats, the last of them somebody who came in as a watcher and kept the address
      they took then: the eleventh of the pool. */
  function CrowdedRoom(): RoomState {
    NewRoom("r", 0, Person(0)).(
      slots := seq(10, k => if k < 9 then Person(k) else Person(10)),
      addr := seq(14, k => if 0 <= k < 9 || k == 10 then Person(k) else NOBODY))
  }

  function Person(k: int): Id {
    if 0 <= k < 26 then ['a' + k as char] else ['-']
  }

  lemma PeopleDiffer()
    ensures forall i, j :: 0 <= i < j < 26 ==> Person(i) != Person(j)
    ensures forall i :: 0 <= i < 26 ==> Person(i) != NOBODY
  {
    forall i, j | 0 <= i < j < 26 ensures Person(i) != Person(j) { assert Person(i)[0] != Person(j)[0]; }
  }

  lemma CrowdedPoolAgrees()
    ensures PoolAgrees(CrowdedRoom())
  {
    var r := CrowdedRoom();
    PeopleDiffer();
    forall p: Id | p != NOBODY ensures p in r.addr <==> p in r.slots || p in r.observers {
      if p in r.addr { var k :| 0 <= k < 14 && r.addr[k] == p; assert r.slots[if k == 10 then 9 else k] == p; }
      if p in r.slots { var k :| 0 <= k < 10 && r.slots[k] == p; assert r.addr[if k == 9 then 10 else k] == p; }
    }
  }

  lemma CrowdedRoomInv()
    ensures RoomInv(CrowdedRoom())
  {
    var r := CrowdedRoom();
    PeopleDiffer();
    CrowdedPoolAgrees();
    assert forall k :: 0 <= k < 4 ==> r.observers[k] == NOBODY;
    assert forall k :: 0 <= k < 3 ==> r.admins[k] == NOBODY;
  }

  /** After a change of host that was accepted, the room can be connected to exactly when the new host holds one of
      the first ten places of the pool. */
  lemma HandOverExactly(r: RoomState, newHost: Id)
    requires RoomInv(r) && 0 <= r.index < Ipam.MAX_ROOMS && newHost != NOBODY && SetHost(r, newHost).1.None?
    ensures var r' := SetHost(r, newHost).0;
            && AddressOf(r', newHost).Some? && AddressOf(r', newHost) == AddressOf(r, newHost)
            && (HostAddr(r').Ok? <==> AddressOf(r', newHost).value < Ipam.PLAYER_SLOTS)
            && (HostAddr(r').Err? ==> forall p: Id {:trigger MembershipFor(r', p)} :: MembershipFor(r', p).Err?)
  {
    var r' := SetHost(r, newHost).0;
    SetHostKeeps(r, newHost);
    HostHoldsAddress(r');
    HostAddrExactly(r');
  }

  lemma CrowdedPlaces(r: RoomState)
    requires r == CrowdedRoom()
    ensures r.status == Open && r.index == 0 && r.hostId == Person(0) && Person(10) != Person(0)
    ensures AddressOf(r, Person(0)) == Some(0) && AddressOf(r, Person(10)) == Some(10)
    ensures SlotOf(r, Person(10)) == Some((9, Player))
  {
    CrowdedRoomInv();
    PeopleDiffer();
    FirstIndexIs(r.addr, Person(0), 0);
    FirstIndexIs(r.slots, Person(10), 9);
    FirstIndexIs(r.addr, Person(10), 10);
  }

  lemma StrandedBy(r: RoomState, q: Id)
    requires RoomInv(r) && r.status == Open && r.index == 0 && q != NOBODY && q != r.hostId
    requires AddressOf(r, r.hostId) == Some(0) && AddressOf(r, q) == Some(10) && SlotOf(r, q) == Some((9, Player))
    ensures HostAddr(r).Ok? && SetHost(r, q).1.None? && HostAddr(SetHost(r, q).0).Err?
  {
    HostAddrExactly(r);
    HandOverExactly(r, q);
  }

  /** Handing that room to that player is accepted, and from then on nobody in it can connect: their address is read
      as a playing slot's, of which there are only ten. */
  lemma HandOverCanStrandTheRoom()
    ensures var r := CrowdedRoom();
            RoomInv(r) && HostAddr(r).Ok? && SetHost(r, Person(10)).1.None? && HostAddr(SetHost(r, Person(10)).0).Err?
  {
    CrowdedRoomInv();
    PeopleDiffer();
    CrowdedPlaces(CrowdedRoom());
    StrandedBy(CrowdedRoom(), Person(10));
  }

  /** The first room ever opened takes index 0 and its host the first address of block 0. */
  lemma OpenFirst(y: SystemState, now: int, player: Id, id: Id, tok: Id)
    requires y.store.rooms == map[] && y.store.indexes == map[] && player != NOBODY && id != NOBODY
    ensures var after := Step(y, At(now, Create(player, id, tok, None)));
            && after.store.rooms == map[id := NewRoom(id, 0, player)] && after.store.indexes == map[0 := id]
            && after.store.issued == y.store.issued + {id}
            && after.tickets == y.tickets[tok := Entry(Claims(player, id, Ipam.Address(10, 87, 0, 2)), now + LIFETIME)]
            && after.clock == now
  {
    var r := NewRoom(id, 0, player);
    FirstIndexIs(r.addr, player, 0);
    FirstIndexIs(r.slots, player, 0);
    assert Ipam.MemberIP(0, 0) == Some(Ipam.Address(10, 87, 0, 2));
    assert MembershipFor(r, player).Ok?;
  }

  /** A leak: "ann" opens a room, sets it to closed, the timer sweeps it, and "bob" opens the next one. Both hold
      tickets the relay accepts, for the same address. */
  function LeakRun(): seq<Event> {
    [At(0, Create("ann", "r1", "t1", None)), At(1, Announce("r1", "ann", Closed)),
     At(2, Timer(None)), At(3, Create("bob", "r2", "t2", None))]
  }

  lemma ClosedAndSwept(y: SystemState, id: Id, host: Id)
    requires y.store.rooms == map[id := NewRoom(id, 0, host)] && y.store.indexes == map[0 := id]
    requires y.clock == 0 && forall tok :: tok in y.tickets ==> y.tickets[tok].expires >= 2
    ensures var shut := Step(y, At(1, Announce(id, host, Closed)));
            var swept := Step(shut, At(2, Timer(None)));
            && shut.clock == 1 && swept.clock == 2
            && swept.store.rooms == map[] && swept.store.indexes == map[] && swept.store.issued == y.store.issued
            && swept.tickets == y.tickets
  {
    var shut := Step(y, At(1, Announce(id, host, Closed)));
    assert shut.store.rooms[id].status == Closed && shut.store.rooms[id].closedAt.None?;
    assert shut.tickets == y.tickets;
    assert ClosedByTick(shut.store, None, 2) == {};
    assert SweptIndexes(shut.store, None, 2) == {0} by { assert shut.store.rooms[id].index == 0; }
  }

  lemma TicketsCanCollide()
    ensures FairRun(Start(0), LeakRun())
    ensures var t := After(0, LeakRun()).tickets;
            && Validate(t, "t1", 3).Ok? && Validate(t, "t2", 3).Ok?
            && Validate(t, "t1", 3).value.virtualIP == Validate(t, "t2", 3).value.virtualIP
            && Validate(t, "t1", 3).value.player != Validate(t, "t2", 3).value.player
  {
    var e := LeakRun();
    var y0 := Start(0);
    var y1 := Step(y0, e[0]);
    var y2 := Step(y1, e[1]);
    var y3 := Step(y2, e[2]);
    var y4 := Step(y3, e[3]);
    OpenFirst(y0, 0, "ann", "r1", "t1");
    ClosedAndSwept(y1, "r1", "ann");
    OpenFirst(y3, 3, "bob", "r2", "t2");
    RunOfFour(y0, e, y1, y2, y3, y4);
  }

  lemma RunOfFour(y: SystemState, e: seq<Event>, y1: SystemState, y2: SystemState, y3: SystemState, y4: SystemState)
    requires |e| == 4 && y1 == Step(y, e[0]) && y2 == Step(y1, e[1]) && y3 == Step(y2, e[2]) && y4 == Step(y3, e[3])
    ensures Run(y, e) == y4
    ensures FairRun(y, e) <==> Fair(y, e[0]) && Fair(y1, e[1]) && Fair(y2, e[2]) && Fair(y3, e[3])
  {
    RunOne(y3, e[3..]);
    assert e[2..][1..] == e[3..] && e[1..][1..] == e[2..];
    assert Run(y2, e[2..]) == Run(y3, e[3..]) && Run(y1, e[1..]) == Run(y2, e[2..]);
    assert FairRun(y2, e[2..]) <==> Fair(y2, e[2]) && FairRun(y3, e[3..]);
    assert FairRun(y1, e[1..]) <==> Fair(y1, e[1]) && FairRun(y2, e[2..]);
  }

  lemma RunOne(y: SystemState, e: seq<Event>)
    requires |e| == 1
    ensures Run(y, e) == Step(y, e[0]) && (FairRun(y, e) <==> Fair(y, e[0]))
  {
    assert e[1..] == [];
    assert Run(Step(y, e[0]), e[1..]) == Step(y, e[0]);
    assert FairRun(Step(y, e[0]), e[1..]);
  }
}

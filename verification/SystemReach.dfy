/** Runs that reach the rooms where the odd places of the address pool matter. */
module SystemReach {
  import opened Basics
  import opened Seating
  import opened RoomModel
  import opened RoomInvariants
  import opened StoreModel
  import opened StoreInvariants
  import opened SystemModel
  import opened SystemInvariants
  import opened SystemRuns
  import opened SystemTheorems
  import opened SystemHosts
  import Ipam

  const ROOM: Id := "r"

  function Guest(k: int): Applicant {
    Applicant(Person(k), 0, "", false, false)
  }

  /** The k-th arrival: the first opens the room, ten play, the rest watch. */
  function Arrival(k: nat): Event {
    At(0, if k == 0 then Create(Person(0), ROOM, Person(0), None)
          else if k < 10 then JoinAs(ROOM, Guest(k), Person(k)) else Spectate(ROOM, Guest(k), Person(k)))
  }

  function Arrivals(n: nat): seq<Event> {
    seq(n, k requires 0 <= k < n => Arrival(k))
  }

  /** The room after `n` arrivals: everybody in arrival order, in the seats and in the pool. */
  function Filled(n: nat): RoomState
    requires 1 <= n <= 14
  {
    NewRoom(ROOM, 0, Person(0)).(
      slots := seq(10, k => if 0 <= k < n then Person(k) else NOBODY),
      observers := seq(4, k => if 0 <= k < n - 10 then Person(10 + k) else NOBODY),
      addr := seq(14, k => if 0 <= k < n then Person(k) else NOBODY))
  }

  ghost predicate OnlyRoom(y: SystemState, r: RoomState) {
    y.clock == 0 && y.store.rooms == map[ROOM := r] && SysInv(y)
  }

  lemma FirstFree(group: seq<Id>, n: nat)
    requires n <= |group| && NOBODY !in group[..n] && (n < |group| ==> group[n] == NOBODY)
    ensures FirstIndex(group, NOBODY) == n
  {
    assert forall k :: 0 <= k < n ==> group[k] == group[..n][k];
  }

  lemma FilledPlaces(n: nat)
    requires 1 <= n < 14
    ensures FirstIndex(Filled(n).addr, NOBODY) == n
    ensures n < 10 ==> FirstIndex(Filled(n).slots, NOBODY) == n
    ensures n >= 10 ==> FirstIndex(Filled(n).observers, NOBODY) == n - 10
    ensures !Seated(Filled(n), Person(n)) && Person(n) != NOBODY && Person(n) !in Filled(n).addr
  {
    var r := Filled(n);
    PeopleDiffer();
    FirstFree(r.addr, n);
    if n < 10 { FirstFree(r.slots, n); } else { FirstFree(r.observers, n - 10); }
  }

  lemma FilledJoin(n: nat)
    requires 1 <= n < 10
    ensures Join(Filled(n), Guest(n), 0).0 == Filled(n + 1)
  {
    FilledPlaces(n);
    JoinableIsHonest(Filled(n), Guest(n), 0);
    assert NOBODY in Filled(n).slots;
    var r := Join(Filled(n), Guest(n), 0).0;
    assert r.slots == Filled(n + 1).slots;
    assert r.addr == Filled(n + 1).addr;
    assert r.observers == Filled(n + 1).observers;
  }

  lemma FilledWatch(n: nat)
    requires 10 <= n < 14
    ensures JoinObserver(Filled(n), Guest(n), 0).0 == Filled(n + 1)
  {
    FilledPlaces(n);
    var r := JoinObserver(Filled(n), Guest(n), 0).0;
    assert r.slots == Filled(n + 1).slots;
    assert r.addr == Filled(n + 1).addr;
    assert r.observers == Filled(n + 1).observers;
  }

  lemma NoOtherRoom(y: SystemState, n: nat)
    requires 1 <= n < 14 && OnlyRoom(y, Filled(n))
    ensures Elsewhere(y.store, Person(n), ROOM).None? && Person(n) != NOBODY && y.(clock := 0) == y
  {
    FilledPlaces(n);
    NotElsewhere(y.store, Person(n), ROOM);
  }

  lemma JoinsOnlyRoom(s: StoreState, r: RoomState, who: Applicant, r': RoomState)
    requires s.rooms == map[ROOM := r] && Elsewhere(s, who.id, ROOM).None? && Join(r, who, 0).0 == r'
    ensures JoinRoom(s, ROOM, who, 0).0.rooms == map[ROOM := r']
  {
  }

  lemma WatchesOnlyRoom(s: StoreState, r: RoomState, who: Applicant, r': RoomState)
    requires s.rooms == map[ROOM := r] && Elsewhere(s, who.id, ROOM).None? && JoinObserver(r, who, 0).0 == r'
    ensures JoinRoomObserver(s, ROOM, who, 0).0.rooms == map[ROOM := r']
  {
  }

  lemma IssuedElsewhereNot(y: SystemState, tok: Id, player: Id, m: Result<Membership, RoomError>)
    ensures Issued(y, tok, player, m).store == y.store && Issued(y, tok, player, m).clock == y.clock
  {
  }

  lemma OneJoins(y: SystemState, n: nat)
    requires 1 <= n < 10 && OnlyRoom(y, Filled(n))
    ensures Step(y, Arrival(n)).store.rooms == map[ROOM := Filled(n + 1)] && Step(y, Arrival(n)).clock == 0
  {
    NoOtherRoom(y, n);
    FilledJoin(n);
    JoinsOnlyRoom(y.store, Filled(n), Guest(n), Filled(n + 1));
    var (store, m) := JoinRoom(y.store, ROOM, Guest(n), 0);
    IssuedElsewhereNot(y.(store := store), Person(n), Person(n), m);
    assert Step(y, Arrival(n)) == Issued(y.(store := store), Person(n), Person(n), m);
  }

  lemma OneWatches(y: SystemState, n: nat)
    requires 10 <= n < 14 && OnlyRoom(y, Filled(n))
    ensures Step(y, Arrival(n)).store.rooms == map[ROOM := Filled(n + 1)] && Step(y, Arrival(n)).clock == 0
  {
    NoOtherRoom(y, n);
    FilledWatch(n);
    WatchesOnlyRoom(y.store, Filled(n), Guest(n), Filled(n + 1));
    var (store, m) := JoinRoomObserver(y.store, ROOM, Guest(n), 0);
    IssuedElsewhereNot(y.(store := store), Person(n), Person(n), m);
    assert Step(y, Arrival(n)) == Issued(y.(store := store), Person(n), Person(n), m);
  }

  /** One more arrival finds the room as the last left it. */
  lemma OneArrival(y: SystemState, n: nat)
    requires 1 <= n < 14 && OnlyRoom(y, Filled(n))
    ensures Fair(y, Arrival(n)) && OnlyRoom(Step(y, Arrival(n)), Filled(n + 1))
  {
    StepKeeps(y, Arrival(n));
    if n < 10 { OneJoins(y, n); } else { OneWatches(y, n); }
  }

  lemma FirstArrival()
    ensures var y := Step(Start(0), Arrival(0)); Fair(Start(0), Arrival(0)) && OnlyRoom(y, Filled(1))
  {
    PeopleDiffer();
    StartInv(0);
    StepKeeps(Start(0), Arrival(0));
    OpenFirst(Start(0), 0, Person(0), ROOM, Person(0));
    var r := NewRoom(ROOM, 0, Person(0));
    assert r.slots == Filled(1).slots;
    assert r.observers == Filled(1).observers;
    assert r.addr == Filled(1).addr;
  }

  lemma {:induction false} ArrivalsFill(n: nat)
    requires 1 <= n <= 14
    ensures FairRun(Start(0), Arrivals(n)) && OnlyRoom(After(0, Arrivals(n)), Filled(n))
  {
    var before := Arrivals(n - 1);
    assert Arrivals(n) == before + [Arrival(n - 1)];
    if n == 1 {
      assert before == [];
      FirstArrival();
    } else {
      ArrivalsFill(n - 1);
      OneArrival(After(0, before), n - 1);
    }
    RunGrows(Start(0), before, Arrival(n - 1));
  }

  /** A room that a run fills to its fourteen places: the last to come holds the place the relay takes for broadcast. */
  lemma SomebodyIsBroadcast()
    ensures FairRun(Start(0), Arrivals(14))
    ensures var s := After(0, Arrivals(14)).store;
            ROOM in s.rooms && Seated(s.rooms[ROOM], Person(13))
                && BerthOf(s.rooms[ROOM], Person(13)) == Some(Ipam.Member(13))
  {
    ArrivalsFill(14);
    PeopleDiffer();
    var r := Filled(14);
    FirstIndexIs(r.addr, Person(13), 13);
    assert r.observers[3] == Person(13);
  }

  /** One player leaves, the watcher takes the seat and keeps the address, and the room is handed to them. */
  function Handing(): seq<Event> {
    [At(0, Depart(ROOM, Person(9))), At(0, Reseating(ROOM, Person(10), 9, false)), At(0, HandOver(ROOM, Person(10)))]
  }

  /** The room of eleven once its tenth player has left. */
  lemma TenthHasLeft(r: RoomState)
    requires r == Leave(Filled(11), Person(9), 0)
    ensures r.slots == seq(10, k => if 0 <= k < 9 then Person(k) else NOBODY)
    ensures r.observers == seq(4, k => if k == 0 then Person(10) else NOBODY)
    ensures r.addr == CrowdedRoom().addr
    ensures r == NewRoom(ROOM, 0, Person(0)).(slots := r.slots, observers := r.observers, addr := r.addr)
  {
    PeopleDiffer();
    assert r.admins == NewRoom(ROOM, 0, Person(0)).admins;
  }

  lemma WatcherTakesTheSeat(r: RoomState)
    requires r.slots == seq(10, k => if 0 <= k < 9 then Person(k) else NOBODY)
    requires r.observers == seq(4, k => if k == 0 then Person(10) else NOBODY)
    requires r.addr == CrowdedRoom().addr
    requires r == NewRoom(ROOM, 0, Person(0)).(slots := r.slots, observers := r.observers, addr := r.addr)
    ensures Move(r, Person(10), 9, false) == (CrowdedRoom(), None)
  {
    PeopleDiffer();
    assert Person(10) !in r.slots && r.slots[9] == NOBODY && FirstIndex(r.observers, Person(10)) == 0;
    var moved := Reseat(r, Person(10), 0, true, 9, false);
    assert moved.slots == CrowdedRoom().slots;
    assert moved.observers == CrowdedRoom().observers;
  }

  lemma OneEntry(m: map<Id, RoomState>, r: RoomState)
    requires m.Keys == {ROOM} && m[ROOM] == r
    ensures m == map[ROOM := r]
  {
  }

  lemma OnlyRoomLeft(y: SystemState, r: RoomState, after: SystemState, r': RoomState)
    requires y.store.rooms == map[ROOM := r]
    requires SysInv(after) && after.clock == 0 && after.store.rooms.Keys == y.store.rooms.Keys
    requires ROOM in after.store.rooms ==> after.store.rooms[ROOM] == r'
    ensures OnlyRoom(after, r')
  {
    assert y.store.rooms.Keys == {ROOM};
    OneEntry(after.store.rooms, r');
  }

  lemma OneControl(y: SystemState, r: RoomState, e: Event, op: RoomOp)
    requires OnlyRoom(y, r) && e.now == 0 && op == OpOn(y, e, ROOM)
    requires e.act.Depart? || e.act.Reseating? || e.act.HandOver?
    ensures Fair(y, e) && OnlyRoom(Step(y, e), Apply(r, op))
  {
    StepKeeps(y, e);
    OthersKeepRooms(y, e);
    OnlyRoomLeft(y, r, Step(y, e), Apply(r, op));
  }

  lemma OneLeaves(y: SystemState, r: RoomState, p: Id)
    requires OnlyRoom(y, r)
    ensures Fair(y, At(0, Depart(ROOM, p))) && OnlyRoom(Step(y, At(0, Depart(ROOM, p))), Leave(r, p, 0))
  {
    OneControl(y, r, At(0, Depart(ROOM, p)), OpLeave(p, 0));
  }

  lemma OneMoves(y: SystemState, r: RoomState, p: Id, seat: int, watching: bool)
    requires OnlyRoom(y, r)
    ensures var e := At(0, Reseating(ROOM, p, seat, watching));
            Fair(y, e) && OnlyRoom(Step(y, e), Move(r, p, seat, watching).0)
  {
    OneControl(y, r, At(0, Reseating(ROOM, p, seat, watching)), OpMove(p, seat, watching));
  }

  lemma OneHandsOver(y: SystemState, r: RoomState, p: Id)
    requires OnlyRoom(y, r) && p != NOBODY
    ensures Fair(y, At(0, HandOver(ROOM, p))) && OnlyRoom(Step(y, At(0, HandOver(ROOM, p))), SetHost(r, p).0)
  {
    OneControl(y, r, At(0, HandOver(ROOM, p)), OpSetHost(p));
  }

  lemma HandingReaches(y: SystemState, full: RoomState, left: RoomState, crowded: RoomState)
    requires OnlyRoom(y, full) && left == Leave(full, Person(9), 0)
    requires crowded == Move(left, Person(10), 9, false).0 && Person(10) != NOBODY
    ensures FairRun(y, Handing()) && OnlyRoom(Run(y, Handing()), SetHost(crowded, Person(10)).0)
  {
    var e := Handing();
    OneLeaves(y, full, Person(9));
    var y1 := Step(y, e[0]);
    OneMoves(y1, left, Person(10), 9, false);
    var y2 := Step(y1, e[1]);
    OneHandsOver(y2, crowded, Person(10));
    RunOfThree(y, e, y1, y2);
  }

  lemma RunOfThree(y: SystemState, e: seq<Event>, y1: SystemState, y2: SystemState)
    requires |e| == 3 && y1 == Step(y, e[0]) && y2 == Step(y1, e[1])
    ensures Run(y, e) == Step(y2, e[2])
    ensures FairRun(y, e) <==> Fair(y, e[0]) && Fair(y1, e[1]) && Fair(y2, e[2])
  {
    RunOne(y2, e[2..]);
    assert e[1..][1..] == e[2..];
    assert Run(y1, e[1..]) == Run(y2, e[2..]);
    assert FairRun(y1, e[1..]) <==> Fair(y1, e[1]) && FairRun(y2, e[2..]);
  }

  lemma {:induction false} RunsJoin(y: SystemState, before: seq<Event>, after: seq<Event>)
    requires FairRun(y, before) && FairRun(Run(y, before), after)
    ensures FairRun(y, before + after) && Run(y, before + after) == Run(Run(y, before), after)
    decreases |before|
  {
    var all := before + after;
    if before == [] {
      assert all == after;
    } else {
      assert all[0] == before[0] && all[1..] == before[1..] + after;
      RunsJoin(Step(y, before[0]), before[1..], after);
    }
  }

  lemma NobodyConnects(y: SystemState, r: RoomState)
    requires OnlyRoom(y, r) && HostAddr(r).Err?
    ensures forall p: Id :: p != NOBODY ==> MembershipOf(y.store, ROOM, p).Err?
  {
    forall p: Id | p != NOBODY ensures MembershipOf(y.store, ROOM, p).Err? {
      MembershipExactly(y.store, ROOM, p);
    }
  }

  lemma CrowdedIsFull(r: RoomState)
    requires r == SetHost(CrowdedRoom(), Person(10)).0
    ensures r.status == Open && NOBODY !in r.slots
  {
    PeopleDiffer();
    assert r.slots == CrowdedRoom().slots;
  }

  lemma StrandingRun() returns (y: SystemState)
    ensures y == After(0, Arrivals(11) + Handing()) && FairRun(Start(0), Arrivals(11) + Handing())
    ensures OnlyRoom(y, SetHost(CrowdedRoom(), Person(10)).0)
  {
    var left := Leave(Filled(11), Person(9), 0);
    PeopleDiffer();
    TenthHasLeft(left);
    WatcherTakesTheSeat(left);
    ArrivalsFill(11);
    HandingReaches(After(0, Arrivals(11)), Filled(11), left, CrowdedRoom());
    RunsJoin(Start(0), Arrivals(11), Handing());
    y := After(0, Arrivals(11) + Handing());
  }

  /** A run of fourteen requests that strands a room: an open room full of players, not one of whom can connect. */
  lemma ReachableRoomIsStranded()
    ensures FairRun(Start(0), Arrivals(11) + Handing())
    ensures var s := After(0, Arrivals(11) + Handing()).store;
            && ROOM in s.rooms && s.rooms[ROOM].status == Open && NOBODY !in s.rooms[ROOM].slots
            && forall p: Id :: p != NOBODY ==> MembershipOf(s, ROOM, p).Err?
  {
    var y := StrandingRun();
    var r := SetHost(CrowdedRoom(), Person(10)).0;
    HandOverCanStrandTheRoom();
    CrowdedIsFull(r);
    NobodyConnects(y, r);
  }
}

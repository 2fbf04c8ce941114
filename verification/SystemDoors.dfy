/** Every room's door, in every run. */
module SystemDoors {
  import opened Basics
  import opened RoomModel
  import opened RoomDoors
  import opened StoreModel
  import opened StoreInvariants
  import opened SystemModel
  import opened SystemInvariants
  import opened SystemRuns
  import opened SystemTheorems
  import opened SystemHosts

  ghost predicate DoorsOk(s: StoreState) {
    forall id :: id in s.rooms ==> DoorOk(s.rooms[id])
  }

  lemma CreatedDoorOk(y: SystemState, player: Id, id: Id, tok: Id, door: Option<Door>)
    requires id !in y.store.rooms && id in CreateAct(y, player, id, tok, door).store.rooms
    ensures DoorOk(CreateAct(y, player, id, tok, door).store.rooms[id])
  {
    if player != NOBODY && door.Some? && id in CreateRoom(y.store, player, id).0.rooms {
      var d := door.value;
      PrivacyKeepsDoor(CreateRoom(y.store, player, id).0.rooms[id], player, d.privacy, d.password, d.minMMR);
    }
  }

  lemma NewDoorOk(y: SystemState, e: Event, id: Id)
    requires SysInv(y) && Fair(y, e) && id in Step(y, e).store.rooms && id !in y.store.rooms
    ensures DoorOk(Step(y, e).store.rooms[id])
  {
    if !e.act.Create? {
      OnlyCreateAddsRooms(y, e);
    } else {
      var now, a := y.(clock := e.now), e.act;
      CreateAddsOne(now, a.player, a.id, a.tok, a.door);
      CreatedDoorOk(now, a.player, a.id, a.tok, a.door);
    }
  }

  lemma StepKeepsDoors(y: SystemState, e: Event)
    requires SysInv(y) && Fair(y, e) && DoorsOk(y.store)
    ensures DoorsOk(Step(y, e).store)
  {
    forall id | id in Step(y, e).store.rooms ensures DoorOk(Step(y, e).store.rooms[id]) {
      if id in y.store.rooms {
        RoomStep(y, e, id);
        ApplyKeepsDoor(y.store.rooms[id], OpOn(y, e, id));
      } else {
        NewDoorOk(y, e, id);
      }
    }
  }

  lemma {:induction false} RunKeepsDoors(y: SystemState, events: seq<Event>)
    requires SysInv(y) && FairRun(y, events) && DoorsOk(y.store)
    ensures DoorsOk(Run(y, events).store)
    decreases |events|
  {
    if events != [] {
      StepKeeps(y, events[0]);
      StepKeepsDoors(y, events[0]);
      RunKeepsDoors(Step(y, events[0]), events[1..]);
    }
  }

  /** In every reachable state a room has a password exactly when it is a password room, so nobody but staff is ever let
      into one, to play or to watch, without naming the password it has. */
  lemma PasswordRoomsHavePasswords(clock: int, events: seq<Event>, room: Id, who: Applicant, now: int)
    requires FairRun(Start(clock), events) && room in After(clock, events).store.rooms
    ensures var r := After(clock, events).store.rooms[room];
            && (r.password != "" <==> r.privacy == Password)
            && (r.privacy == Password && !who.admin && (Join(r, who, now).1.Ok? || JoinObserver(r, who, now).1.Ok?) ==>
                  who.password == r.password != "")
  {
    StartInv(clock);
    RunKeepsDoors(Start(clock), events);
    var r := After(clock, events).store.rooms[room];
    if r.privacy == Password && !who.admin { PasswordIsAsked(r, who, now); }
  }

  /** The door of a room that a run has reached: there the password need only be the room's own. */
  predicate DoorOpens(r: RoomState, who: Applicant) {
    || who.admin
    || (&& (r.minMMR <= 0 || who.mmr >= r.minMMR)
        && (r.privacy == Password ==> who.password == r.password)
        && (r.privacy == Friends ==> who.friend)
        && (r.privacy == Invite ==> who.id in r.invites))
  }

  /** Who gets into a room that a run has reached, to play and to watch, exactly. */
  lemma LetInExactly(clock: int, events: seq<Event>, room: Id, who: Applicant, now: int)
    requires FairRun(Start(clock), events) && room in After(clock, events).store.rooms
    ensures var r := After(clock, events).store.rooms[room];
            && (Join(r, who, now).1.Ok? <==>
                  TakesPeople(r) && NOBODY in r.slots && Welcome(r, who.id, now) && DoorOpens(r, who))
            && (JoinObserver(r, who, now).1.Ok? <==>
                  TakesPeople(r) && NOBODY in r.observers && Welcome(r, who.id, now) && DoorOpens(r, who))
  {
    StartInv(clock);
    RunKeepsDoors(Start(clock), events);
    var r := After(clock, events).store.rooms[room];
    assert DoorOk(r);
    PlaysExactly(r, who, now);
    WatchesExactly(r, who, now);
  }

  /** A room asked for with a door is there with exactly that door, or is not there at all. */
  lemma OpenedWithItsDoor(y: SystemState, player: Id, id: Id, tok: Id, d: Door)
    requires SysInv(y) && player != NOBODY && id != NOBODY && id !in y.store.issued
    ensures var s' := CreateAct(y, player, id, tok, Some(d)).store;
            id in s'.rooms ==>
              && s'.rooms[id].hostId == player && d.privacy == Some(s'.rooms[id].privacy)
              && s'.rooms[id].minMMR == d.minMMR
              && (s'.rooms[id].privacy == Password ==> s'.rooms[id].password == d.password != "")
  {
    CreateKeeps(y.store, player, id);
    var store := CreateRoom(y.store, player, id).0;
    if id in store.rooms {
      PrivacyExactly(store.rooms[id], player, d.privacy, d.password, d.minMMR);
    }
  }
}

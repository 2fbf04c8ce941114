/** Every field of every room after any event at all, told from the event and the room as it was. */
module SystemChanges {
  import opened Basics
  import opened RoomModel
  import opened RoomInvariants
  import opened RoomSeats
  import opened RoomDoors
  import opened StoreModel
  import opened StoreInvariants
  import opened SystemModel
  import opened SystemInvariants
  import opened SystemRuns
  import opened SystemTheorems
  import opened SystemTables
  import opened SystemCollisions
  import opened SystemHosts

  /** The room is held before the event and after it. */
  ghost predicate Spans(y: SystemState, e: Event, id: Id) {
    SysInv(y) && Fair(y, e) && id in y.store.rooms && id in Step(y, e).store.rooms
  }

  lemma StepIsOp(y: SystemState, e: Event, id: Id)
    requires Spans(y, e, id)
    ensures Step(y, e).store.rooms[id] == Apply(y.store.rooms[id], OpOn(y, e, id))
  {
    StepKeeps(y, e);
  }

  lemma OpStatus(r: RoomState, op: RoomOp)
    ensures Apply(r, op).status ==
            match op
            case OpStatus(actor, status) => if actor == r.hostId && r.status != Closed then status else r.status
            case OpLeave(p, _) => if p == r.hostId then Closed else r.status
            case OpSeeHost(online, _, _) => if online then r.status else Closed
            case _ => r.status
  {
    if Sitting(op) { SittingOnly(r, op); }
    match op {
      case OpLeave(p, now) => LeavingOnly(r, p, now);
      case OpKick(actor, target, now) => KickingOnly(r, actor, target, now);
      case _ =>
    }
  }

  /** The status of room `id` after an event. */
  function StatusBy(s: StoreState, e: Event, id: Id): Status
    requires id in s.rooms
  {
    var r := s.rooms[id];
    match e.act
    case Announce(room, actor, status) =>
      if room == id && actor == r.hostId && r.status != Closed then status else r.status
    case Depart(room, player) => if room == id && player == r.hostId then Closed else r.status
    case Evict(player) => if player == r.hostId then Closed else r.status
    case Timer(hosts) => if LosesItsHost(s, id, hosts) then Closed else r.status
    case _ => r.status
  }

  lemma EvictStatus(y: SystemState, e: Event, id: Id)
    requires SysInv(y) && id in y.store.rooms && e.act.Evict?
    ensures Apply(y.store.rooms[id], OpOn(y, e, id)).status == StatusBy(y.store, e, id)
  {
    var r := y.store.rooms[id];
    OpStatus(r, OpOn(y, e, id));
    if r.status != Closed {
      assert r.hostId in if r.hostWatching then r.observers else r.slots;
      SeatedOnceAt(r, r.hostId);
    }
  }

  lemma LookedStatus(s: StoreState, id: Id, hosts: Option<map<Id, HostFacts>>, now: int)
    requires id in s.rooms
    ensures Looked(s.rooms[id], hosts, now).status ==
            if LosesItsHost(s, id, hosts) then Closed else s.rooms[id].status
  {
  }

  lemma TimerStatus(y: SystemState, e: Event, id: Id)
    requires id in y.store.rooms && e.act.Timer?
    ensures Apply(y.store.rooms[id], OpOn(y, e, id)).status == StatusBy(y.store, e, id)
  {
    TimerOp(y, e, id);
    LookedStatus(y.store, id, e.act.hosts, e.now);
  }

  lemma OpOnStatus(y: SystemState, e: Event, id: Id)
    requires SysInv(y) && id in y.store.rooms
    ensures Apply(y.store.rooms[id], OpOn(y, e, id)).status == StatusBy(y.store, e, id)
  {
    if e.act.Evict? {
      EvictStatus(y, e, id);
    } else if e.act.Timer? {
      TimerStatus(y, e, id);
    } else {
      OpStatus(y.store.rooms[id], OpOn(y, e, id));
    }
  }

  /** A room's status changes by its host's own control; and it ends by its host's leaving or eviction, or by a timer
      turn that does not find the host. */
  lemma StatusAfter(y: SystemState, e: Event, id: Id)
    requires Spans(y, e, id)
    ensures Step(y, e).store.rooms[id].status == StatusBy(y.store, e, id)
  {
    StepIsOp(y, e, id);
    OpOnStatus(y, e, id);
  }

  lemma OpHost(r: RoomState, op: RoomOp)
    requires RoomInv(r) && Named(op)
    ensures Apply(r, op).hostId ==
            if op.OpSetHost? && r.status != Closed && op.newHost in r.slots then op.newHost else r.hostId
  {
    if op.OpSetHost? { HandOverMovesNobody(r, op.newHost); }
  }

  lemma OpOnHost(y: SystemState, e: Event, id: Id)
    requires SysInv(y) && id in y.store.rooms
    ensures var r := y.store.rooms[id];
            Apply(r, OpOn(y, e, id)).hostId ==
              if && e.act.HandOver? && e.act.room == id && r.status != Closed
                 && e.act.newHost != NOBODY && e.act.newHost in r.slots
              then e.act.newHost else r.hostId
  {
    OpOnFits(y, e, id);
    OpHost(y.store.rooms[id], OpOn(y, e, id));
  }

  /** A room's host changes only by a hand-over, and then to somebody playing in it. */
  lemma HostAfter(y: SystemState, e: Event, id: Id)
    requires Spans(y, e, id)
    ensures var r := y.store.rooms[id];
            Step(y, e).store.rooms[id].hostId ==
              if && e.act.HandOver? && e.act.room == id && r.status != Closed
                 && e.act.newHost != NOBODY && e.act.newHost in r.slots
              then e.act.newHost else r.hostId
  {
    StepIsOp(y, e, id);
    OpOnHost(y, e, id);
  }

  lemma OpInvited(r: RoomState, op: RoomOp, p: Id)
    ensures p in Apply(r, op).invites <==>
            match op
            case OpInvite(actor, target, _) => p in r.invites
                || (p == target && actor == r.hostId && r.status != Closed)
            case OpUninvite(actor, target) => p in r.invites && !(p == target && actor == r.hostId)
            case _ => p in r.invites
  {
    if Sitting(op) { SittingOnly(r, op); }
    match op {
      case OpLeave(gone, now) => LeavingOnly(r, gone, now);
      case OpKick(actor, target, now) => KickingOnly(r, actor, target, now);
      case _ =>
    }
  }

  /** Who is invited: whoever the host asks while the room is open, until the host takes it back. */
  lemma InvitedAfter(y: SystemState, e: Event, id: Id, p: Id)
    requires Spans(y, e, id) && p != NOBODY
    ensures var r := y.store.rooms[id];
            p in Step(y, e).store.rooms[id].invites <==>
            match e.act
            case Ask(room, actor, target) =>
              p in r.invites || (room == id && p == target && actor == r.hostId && r.status != Closed)
            case Withdraw(room, actor, target) => p in r.invites && !(room == id && p == target && actor == r.hostId)
            case _ => p in r.invites
  {
    StepIsOp(y, e, id);
    OpInvited(y.store.rooms[id], OpOn(y, e, id), p);
  }

  /** A door this room may be given: one with a password where one is asked for, and it may be the room's own. */
  predicate Fits(r: RoomState, d: Door) {
    && d.privacy.Some? && 0 <= d.minMMR <= MAX_MIN_MMR
    && (d.privacy == Some(Password) && d.password == "" ==> r.password != "")
  }

  function DoorOf(r: RoomState): Door {
    Door(Some(r.privacy), r.password, r.minMMR)
  }

  /** The door as it is once put on: no password but on a password room, and the old one when none is named. */
  function PutOn(r: RoomState, d: Door): Door {
    d.(password := if d.privacy != Some(Password) then "" else if d.password == "" then r.password else d.password)
  }

  lemma OpDoor(r: RoomState, op: RoomOp)
    ensures DoorOf(Apply(r, op)) ==
            match op
            case OpPrivacy(actor, privacy, password, minMMR) =>
              var d := Door(privacy, password, minMMR);
              if actor == r.hostId && r.status != Closed && Fits(r, d) then PutOn(r, d) else DoorOf(r)
            case _ => DoorOf(r)
  {
    if Sitting(op) { SittingOnly(r, op); }
    match op {
      case OpLeave(gone, now) => LeavingOnly(r, gone, now);
      case OpKick(actor, target, now) => KickingOnly(r, actor, target, now);
      case _ =>
    }
  }

  lemma OpOnDoor(y: SystemState, e: Event, id: Id)
    requires SysInv(y) && id in y.store.rooms
    ensures var r := y.store.rooms[id];
            DoorOf(Apply(r, OpOn(y, e, id))) ==
              if && e.act.SetDoor? && e.act.room == id && e.act.actor == r.hostId && r.status != Closed
                 && Fits(r, e.act.newDoor)
              then PutOn(r, e.act.newDoor) else DoorOf(r)
  {
    OpDoor(y.store.rooms[id], OpOn(y, e, id));
  }

  /** A room's door changes only by its host's own doing, while the room is open. */
  lemma DoorAfter(y: SystemState, e: Event, id: Id)
    requires Spans(y, e, id)
    ensures var r := y.store.rooms[id];
            DoorOf(Step(y, e).store.rooms[id]) ==
              if && e.act.SetDoor? && e.act.room == id && e.act.actor == r.hostId && r.status != Closed
                 && Fits(r, e.act.newDoor)
              then PutOn(r, e.act.newDoor) else DoorOf(r)
  {
    StepIsOp(y, e, id);
    OpOnDoor(y, e, id);
  }

  function BlockEnd(r: RoomState, p: Id): Option<int> {
    if p in r.kickedUntil then Some(r.kickedUntil[p]) else None
  }

  lemma OpBlocked(r: RoomState, op: RoomOp, p: Id)
    ensures var r' := Apply(r, op);
            var kicked := op.OpKick? && op.target == p && op.actor == r.hostId && p != r.hostId;
            && KicksOf(r', p) == KicksOf(r, p) + (if kicked then 1 else 0)
            && BlockEnd(r', p) == (if kicked then Some(op.now + KickBlockFor(KicksOf(r', p))) else BlockEnd(r, p))
  {
    if Sitting(op) { SittingOnly(r, op); }
    if op.OpLeave? { LeavingOnly(r, op.id, op.now); }
  }

  /** The event is this room's host kicking `p` out. */
  predicate Kicks(r: RoomState, e: Event, id: Id, p: Id) {
    e.act.KickOut? && e.act.room == id && e.act.target == p && e.act.actor == r.hostId && p != r.hostId
  }

  lemma OpOnKicks(y: SystemState, e: Event, id: Id, p: Id)
    requires id in y.store.rooms
    ensures var r, op := y.store.rooms[id], OpOn(y, e, id);
            Kicks(r, e, id, p) <==> op.OpKick? && op.target == p && op.actor == r.hostId && p != r.hostId
    ensures OpOn(y, e, id).OpKick? ==> OpOn(y, e, id).now == e.now
  {
  }

  /** What a room's blocks of one person become. */
  predicate BlocksBecome(r: RoomState, r': RoomState, p: Id, kicked: bool, now: int) {
    if kicked
    then KicksOf(r', p) == KicksOf(r, p) + 1 && BlockEnd(r', p) == Some(now + (2 * KicksOf(r', p) - 1) * MINUTE)
    else KicksOf(r', p) == KicksOf(r, p) && BlockEnd(r', p) == BlockEnd(r, p)
  }

  lemma OpOnBlocks(y: SystemState, e: Event, id: Id, p: Id)
    requires id in y.store.rooms && KicksOf(y.store.rooms[id], p) >= 0
    ensures BlocksBecome(y.store.rooms[id], Apply(y.store.rooms[id], OpOn(y, e, id)), p,
                         Kicks(y.store.rooms[id], e, id, p), e.now)
  {
    OpOnKicks(y, e, id, p);
    OpBlocked(y.store.rooms[id], OpOn(y, e, id), p);
  }

  lemma KicksCount(r: RoomState, p: Id, clock: int)
    requires KicksInv(r, clock) && KickedKnown(r)
    ensures KicksOf(r, p) >= 0
  {
  }

  /** Who is kept out, and until when: only the host's kick changes it, of one person, for one minute the first time and
      two minutes more each time after. */
  lemma BlockedAfter(y: SystemState, e: Event, id: Id, p: Id)
    requires Spans(y, e, id)
    ensures var r := y.store.rooms[id];
            BlocksBecome(r, Step(y, e).store.rooms[id], p, Kicks(r, e, id, p), e.now)
  {
    StepIsOp(y, e, id);
    KicksCount(y.store.rooms[id], p, y.clock);
    OpOnBlocks(y, e, id, p);
  }

  /** Whoever this event makes get up. */
  predicate GetsUp(r: RoomState, e: Event, id: Id, p: Id) {
    match e.act
    case Depart(room, player) => room == id && player == p
    case KickOut(room, actor, target) => room == id && target == p && actor == r.hostId && p != r.hostId
    case Evict(player) => player == p && r.status != Closed
    case _ => false
  }

  /** Whoever this event seats: nobody who is in another open room, nor whom the room or its door keeps out. */
  ghost predicate SitsDown(s: StoreState, e: Event, id: Id, p: Id)
    requires id in s.rooms
  {
    var r := s.rooms[id];
    p != NOBODY && FreeFor(s, p, id) && Welcome(r, p, e.now) &&
    match e.act
    case JoinAs(room, who, _) => room == id && who.id == p && TakesPeople(r) && NOBODY in r.slots && LetThrough(r, who)
    case Spectate(room, who, _) =>
      room == id && who.id == p && TakesPeople(r) && NOBODY in r.observers && LetThrough(r, who)
    case Moderate(room, player, _) => room == id && player == p && r.status != Closed && NOBODY in r.admins
    case _ => false
  }

  lemma DownByJoin(y: SystemState, e: Event, id: Id, p: Id)
    requires SysInv(y) && id in y.store.rooms && p != NOBODY && e.act.JoinAs?
    ensures FootprintOf(y.store.rooms[id], OpOn(y, e, id)).down == Some(p) <==> SitsDown(y.store, e, id, p)
  {
    FreeExactly(y.store, p, id);
    PlaysExactly(y.store.rooms[id], e.act.who, e.now);
  }

  lemma DownByWatch(y: SystemState, e: Event, id: Id, p: Id)
    requires SysInv(y) && id in y.store.rooms && p != NOBODY && e.act.Spectate?
    ensures FootprintOf(y.store.rooms[id], OpOn(y, e, id)).down == Some(p) <==> SitsDown(y.store, e, id, p)
  {
    FreeExactly(y.store, p, id);
    WatchesExactly(y.store.rooms[id], e.act.who, e.now);
  }

  lemma ModeratesExactly(r: RoomState, p: Id, now: int)
    requires RoomInv(r) && p != NOBODY
    ensures JoinAdmin(r, p, now).1.Ok? <==> r.status != Closed && NOBODY in r.admins && Welcome(r, p, now)
  {
    SeatedOnceAt(r, p);
    ModerateExactly(r, p, now);
  }

  lemma DownByModerate(y: SystemState, e: Event, id: Id, p: Id)
    requires SysInv(y) && id in y.store.rooms && p != NOBODY && e.act.Moderate?
    ensures FootprintOf(y.store.rooms[id], OpOn(y, e, id)).down == Some(p) <==> SitsDown(y.store, e, id, p)
  {
    FreeExactly(y.store, p, id);
    ModeratesExactly(y.store.rooms[id], p, e.now);
  }

  lemma DownByNobody(y: SystemState, e: Event, id: Id, p: Id)
    requires id in y.store.rooms && !e.act.JoinAs? && !e.act.Spectate? && !e.act.Moderate?
    ensures FootprintOf(y.store.rooms[id], OpOn(y, e, id)).down.None? && !SitsDown(y.store, e, id, p)
  {
    NoneComes(y, e, id);
  }

  lemma NoneComes(y: SystemState, e: Event, id: Id)
    requires !e.act.JoinAs? && !e.act.Spectate? && !e.act.Moderate?
    ensures var op := OpOn(y, e, id); !op.OpJoin? && !op.OpObserve? && !op.OpAdmin?
  {
  }

  lemma DownExactly(y: SystemState, e: Event, id: Id, p: Id)
    requires SysInv(y) && id in y.store.rooms && p != NOBODY
    ensures FootprintOf(y.store.rooms[id], OpOn(y, e, id)).down == Some(p) <==> SitsDown(y.store, e, id, p)
  {
    match e.act {
      case JoinAs(_, _, _) => DownByJoin(y, e, id, p);
      case Spectate(_, _, _) => DownByWatch(y, e, id, p);
      case Moderate(_, _, _) => DownByModerate(y, e, id, p);
      case _ => DownByNobody(y, e, id, p);
    }
  }

  lemma UpExactly(y: SystemState, e: Event, id: Id, p: Id)
    requires SysInv(y) && id in y.store.rooms && p != NOBODY && Seated(y.store.rooms[id], p)
    ensures FootprintOf(y.store.rooms[id], OpOn(y, e, id)).up == Some(p) <==> GetsUp(y.store.rooms[id], e, id, p)
  {
    SeatedOnceAt(y.store.rooms[id], p);
  }

  /** Who sits in a room after any event: whoever sat there and is not made to get up, and whoever is let in. */
  lemma SeatedAfter(y: SystemState, e: Event, id: Id, p: Id)
    requires Spans(y, e, id) && p != NOBODY
    ensures var r := y.store.rooms[id];
            Seated(Step(y, e).store.rooms[id], p) <==>
              (Seated(r, p) && !GetsUp(r, e, id, p)) || SitsDown(y.store, e, id, p)
  {
    RoomStep(y, e, id);
    DownExactly(y, e, id, p);
    if Seated(y.store.rooms[id], p) { UpExactly(y, e, id, p); }
  }

  /** Which rooms are held after any event: those that were, but for one an administrator shuts down and those that a
      timer turn finds ended and past their time; and the one that is opened, whose place is the lowest free one. */
  lemma RoomsAfter(y: SystemState, e: Event, id: Id)
    requires SysInv(y) && Fair(y, e) && id in y.store.rooms
    ensures var r := y.store.rooms[id];
            id in Step(y, e).store.rooms <==>
            match e.act
            case ShutDown(room) => room != id
            case Timer(_) =>
              r.status == Closed ==> r.closedAt.Some? && e.now <= r.closedAt.value + 5 * MINUTE
            case _ => true
  {
    match e.act {
      case Timer(hosts) => TimerRooms(y, e, hosts, id);
      case Create(player, room, tok, door) => OpeningKeepsRooms(y.(clock := e.now), player, room, tok, door, id);
      case ShutDown(_) =>
      case _ => OthersKeepRooms(y, e);
    }
  }

  lemma OpeningKeepsRooms(y: SystemState, player: Id, room: Id, tok: Id, door: Option<Door>, id: Id)
    requires id in y.store.rooms && id != room
    ensures id in CreateAct(y, player, room, tok, door).store.rooms
  {
  }

  lemma TimerRooms(y: SystemState, e: Event, hosts: Option<map<Id, HostFacts>>, id: Id)
    requires SysInv(y) && Fair(y, e) && id in y.store.rooms && e.act == Timer(hosts)
    ensures var r := y.store.rooms[id];
            id in Step(y, e).store.rooms <==>
              (r.status == Closed ==> r.closedAt.Some? && e.now <= r.closedAt.value + 5 * MINUTE)
  {
    if y.store.rooms[id].status == Closed || hosts.None? {
      TimerOnEndedRoom(y, e.now, hosts, id);
    } else {
      TimerOnOpenRoom(y, e.now, hosts.value, id);
    }
  }
}

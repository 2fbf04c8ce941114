/** Properties of whole runs of the coordinator: any number of requests and timer turns, in any order. */
module SystemRuns {
  import opened Basics
  import opened RoomModel
  import opened RoomInvariants
  import opened StoreModel
  import opened StoreInvariants
  import opened SystemModel
  import opened SystemInvariants

  /** The one operation an event performs on a given room, which for most rooms is nothing. */
  ghost function OpOn(y: SystemState, e: Event, id: Id): RoomOp {
    match e.act
    case JoinAs(room, who, _) =>
      if room == id && who.id != NOBODY && Elsewhere(y.store, who.id, id).None? then OpJoin(who, e.now) else OpNothing
    case Spectate(room, who, _) =>
      if room == id && who.id != NOBODY && Elsewhere(y.store, who.id, id).None? then OpObserve(who, e.now)
          else OpNothing
    case Moderate(room, player, _) =>
      if room == id && player != NOBODY && Elsewhere(y.store, player, id).None? then OpAdmin(player, e.now)
          else OpNothing
    case Depart(room, player) => if room == id then OpLeave(player, e.now) else OpNothing
    case KickOut(room, actor, target) => if room == id then OpKick(actor, target, e.now) else OpNothing
    case Reseating(room, player, seat, watching) => if room == id then OpMove(player, seat, watching) else OpNothing
    case Announce(room, actor, status) => if room == id then OpStatus(actor, status) else OpNothing
    case HandOver(room, newHost) => if room == id && newHost != NOBODY then OpSetHost(newHost) else OpNothing
    case Evict(player) => if id in EvictedFrom(y.store, player) then OpLeave(player, e.now) else OpNothing
    case Timer(hosts) =>
      if hosts.None? || id !in y.store.rooms then OpNothing
      else
        var f := FactsOf(hosts.value, y.store.rooms[id].hostId);
        OpSeeHost(f.online, f.inGame, e.now)
    case SetDoor(room, actor, door) =>
      if room == id && actor != NOBODY then OpPrivacy(actor, door.privacy, door.password, door.minMMR) else OpNothing
    case Ask(room, actor, target) =>
      if room == id && actor != NOBODY && target != NOBODY then OpInvite(actor, target, e.now) else OpNothing
    case Withdraw(room, actor, target) =>
      if room == id && actor != NOBODY && target != NOBODY then OpUninvite(actor, target) else OpNothing
    case _ => OpNothing
  }

  lemma OpOnFits(y: SystemState, e: Event, id: Id)
    ensures Named(OpOn(y, e, id)) && Timed(OpOn(y, e, id), e.now)
  {
  }

  ghost predicate RoomsFollow(y: SystemState, e: Event, after: SystemState) {
    forall id :: id in y.store.rooms && id in after.store.rooms ==>
      after.store.rooms[id] == Apply(y.store.rooms[id], OpOn(y, e, id))
  }

  lemma ApplyNothing(r: RoomState)
    ensures Apply(r, OpNothing) == r
  {
  }

  /** The room an event is addressed to, when it is addressed to one. */
  function Addressed(a: Act): Option<Id> {
    match a
    case JoinAs(room, _, _) => Some(room)
    case Spectate(room, _, _) => Some(room)
    case Moderate(room, _, _) => Some(room)
    case Depart(room, _) => Some(room)
    case KickOut(room, _, _) => Some(room)
    case Reseating(room, _, _, _) => Some(room)
    case Announce(room, _, _) => Some(room)
    case HandOver(room, _) => Some(room)
    case SetDoor(room, _, _) => Some(room)
    case Ask(room, _, _) => Some(room)
    case Withdraw(room, _, _) => Some(room)
    case _ => None
  }

  lemma OthersUntouched(y: SystemState, e: Event, id: Id)
    requires !e.act.Evict? && !e.act.Timer? && Addressed(e.act) != Some(id)
    ensures OpOn(y, e, id) == OpNothing
  {
  }

  lemma FollowsAddressed(y: SystemState, e: Event, after: SystemState, room: Id, op: RoomOp)
    requires !e.act.Evict? && !e.act.Timer?
    requires Touches(y.store, after.store, room, op)
    requires if Addressed(e.act) == Some(room) then op == OpOn(y, e, room)
             else Addressed(e.act).None? && op == OpNothing
    ensures RoomsFollow(y, e, after)
  {
    forall id | id in y.store.rooms ensures OpOn(y, e, id) == if id == room then op else OpNothing {
      if Addressed(e.act) != Some(id) { OthersUntouched(y, e, id); }
    }
    FollowsTouch(y, e, after, room, op);
  }

  lemma FollowsTouch(y: SystemState, e: Event, after: SystemState, room: Id, op: RoomOp)
    requires Touches(y.store, after.store, room, op)
    requires forall id :: id in y.store.rooms ==> OpOn(y, e, id) == if id == room then op else OpNothing
    ensures RoomsFollow(y, e, after)
  {
    forall id | id in y.store.rooms && id in after.store.rooms
      ensures after.store.rooms[id] == Apply(y.store.rooms[id], OpOn(y, e, id))
    {
      ApplyNothing(y.store.rooms[id]);
    }
  }

  /** What is proved of each kind of event. */
  ghost predicate Kept(y: SystemState, e: Event, after: SystemState) {
    SysInv(after) && RoomsFollow(y, e, after) && after.clock == e.now
  }

  lemma NobodyFollows(y: SystemState, e: Event, room: Id)
    requires Addressed(e.act) == Some(room) && OpOn(y, e, room) == OpNothing && !e.act.Evict? && !e.act.Timer?
    ensures RoomsFollow(y, e, y.(clock := e.now))
  {
    ApplyNothingTouches(y.store, room);
    FollowsAddressed(y, e, y.(clock := e.now), room, OpNothing);
  }

  lemma ApplyNothingTouches(s: StoreState, room: Id)
    ensures Touches(s, s, room, OpNothing)
  {
  }

  lemma JoinFollows(y: SystemState, e: Event, after: SystemState, op: RoomOp)
    requires e.act.JoinAs? && e.act.who.id != NOBODY && Touches(y.store, after.store, e.act.room, op)
    requires op == if Elsewhere(y.store, e.act.who.id, e.act.room).None? then OpJoin(e.act.who, e.now) else OpNothing
    ensures RoomsFollow(y, e, after)
  {
    FollowsAddressed(y, e, after, e.act.room, op);
  }

  lemma JoinKept(y: SystemState, e: Event)
    requires SysInv(y) && Fair(y, e) && e.act.JoinAs?
    ensures Kept(y, e, Step(y, e))
  {
    ClockAdvances(y, e.now);
    var room, who, tok := e.act.room, e.act.who, e.act.tok;
    if who.id != NOBODY {
      JoinActKeeps(y.(clock := e.now), room, who, tok);
      JoinFollows(y, e, JoinAct(y.(clock := e.now), room, who, tok),
        if Elsewhere(y.store, who.id, room).None? then OpJoin(who, e.now) else OpNothing);
    } else {
      NobodyFollows(y, e, room);
    }
  }

  lemma SpectateFollows(y: SystemState, e: Event, after: SystemState, op: RoomOp)
    requires e.act.Spectate? && e.act.who.id != NOBODY && Touches(y.store, after.store, e.act.room, op)
    requires op == if Elsewhere(y.store, e.act.who.id, e.act.room).None? then OpObserve(e.act.who, e.now) else OpNothing
    ensures RoomsFollow(y, e, after)
  {
    FollowsAddressed(y, e, after, e.act.room, op);
  }

  lemma SpectateKept(y: SystemState, e: Event)
    requires SysInv(y) && Fair(y, e) && e.act.Spectate?
    ensures Kept(y, e, Step(y, e))
  {
    ClockAdvances(y, e.now);
    var room, who, tok := e.act.room, e.act.who, e.act.tok;
    if who.id != NOBODY {
      SpectateActKeeps(y.(clock := e.now), room, who, tok);
      SpectateFollows(y, e, SpectateAct(y.(clock := e.now), room, who, tok),
        if Elsewhere(y.store, who.id, room).None? then OpObserve(who, e.now) else OpNothing);
    } else {
      NobodyFollows(y, e, room);
    }
  }

  lemma ModerateFollows(y: SystemState, e: Event, after: SystemState, op: RoomOp)
    requires e.act.Moderate? && e.act.player != NOBODY && Touches(y.store, after.store, e.act.room, op)
    requires op == if Elsewhere(y.store, e.act.player, e.act.room).None? then OpAdmin(e.act.player, e.now)
             else OpNothing
    ensures RoomsFollow(y, e, after)
  {
    FollowsAddressed(y, e, after, e.act.room, op);
  }

  lemma ModerateKept(y: SystemState, e: Event)
    requires SysInv(y) && Fair(y, e) && e.act.Moderate?
    ensures Kept(y, e, Step(y, e))
  {
    ClockAdvances(y, e.now);
    var room, player, tok := e.act.room, e.act.player, e.act.tok;
    if player != NOBODY {
      ModerateActKeeps(y.(clock := e.now), room, player, tok);
      ModerateFollows(y, e, ModerateAct(y.(clock := e.now), room, player, tok),
        if Elsewhere(y.store, player, room).None? then OpAdmin(player, e.now) else OpNothing);
    } else {
      NobodyFollows(y, e, room);
    }
  }

  lemma ConnectKept(y: SystemState, e: Event)
    requires SysInv(y) && Fair(y, e) && e.act.Connect?
    ensures Kept(y, e, Step(y, e))
  {
    ClockAdvances(y, e.now);
    if e.act.player != NOBODY { ConnectActKeeps(y.(clock := e.now), e.act.room, e.act.player, e.act.tok); }
    FollowsAddressed(y, e, Step(y, e), e.act.room, OpNothing);
  }

  lemma CreateKept(y: SystemState, e: Event)
    requires SysInv(y) && Fair(y, e) && e.act.Create?
    ensures Kept(y, e, Step(y, e))
  {
    ClockAdvances(y, e.now);
    var a := e.act;
    if a.player != NOBODY { CreateActKeeps(y.(clock := e.now), a.player, a.id, a.tok, a.door); }
    FollowsAddressed(y, e, Step(y, e), a.id, OpNothing);
  }

  lemma DepartKept(y: SystemState, e: Event)
    requires SysInv(y) && Fair(y, e) && e.act.Depart?
    ensures Kept(y, e, Step(y, e))
  {
    ClockAdvances(y, e.now);
    DepartActKeeps(y.(clock := e.now), e.act.room, e.act.player);
    FollowsAddressed(y, e, Step(y, e), e.act.room, OpLeave(e.act.player, e.now));
  }

  lemma KickKept(y: SystemState, e: Event)
    requires SysInv(y) && Fair(y, e) && e.act.KickOut?
    ensures Kept(y, e, Step(y, e))
  {
    ClockAdvances(y, e.now);
    KickActKeeps(y.(clock := e.now), e.act.room, e.act.actor, e.act.target);
    FollowsAddressed(y, e, Step(y, e), e.act.room, OpKick(e.act.actor, e.act.target, e.now));
  }

  lemma ShutDownKept(y: SystemState, e: Event)
    requires SysInv(y) && Fair(y, e) && e.act.ShutDown?
    ensures Kept(y, e, Step(y, e))
  {
    ClockAdvances(y, e.now);
    ShutDownActKeeps(y.(clock := e.now), e.act.room);
    FollowsAddressed(y, e, Step(y, e), e.act.room, OpNothing);
  }

  lemma SameRoomsFollow(y: SystemState, e: Event, after: SystemState)
    requires Addressed(e.act).None? && !e.act.Evict? && !e.act.Timer? && after.store == y.store
    ensures RoomsFollow(y, e, after)
  {
    ApplyNothingTouches(y.store, NOBODY);
    FollowsAddressed(y, e, after, NOBODY, OpNothing);
  }

  lemma RenewKept(y: SystemState, e: Event)
    requires SysInv(y) && Fair(y, e) && e.act.RenewLease?
    ensures Kept(y, e, Step(y, e))
  {
    ClockAdvances(y, e.now);
    RenewKeeps(y.(clock := e.now), e.act.tok);
    SameRoomsFollow(y, e, Step(y, e));
  }

  lemma ApplyLooked(r: RoomState, hosts: Option<map<Id, HostFacts>>, now: int)
    ensures Looked(r, hosts, now) ==
            match hosts
            case None => Apply(r, OpNothing)
            case Some(known) =>
              Apply(r, OpSeeHost(FactsOf(known, r.hostId).online, FactsOf(known, r.hostId).inGame, now))
  {
  }

  lemma ApplyLeave(r: RoomState, p: Id, now: int)
    ensures Apply(r, OpLeave(p, now)) == Leave(r, p, now)
  {
  }

  lemma TimerOp(y: SystemState, e: Event, id: Id)
    requires e.act.Timer? && id in y.store.rooms
    ensures Apply(y.store.rooms[id], OpOn(y, e, id)) == Looked(y.store.rooms[id], e.act.hosts, e.now)
  {
    ApplyLooked(y.store.rooms[id], e.act.hosts, e.now);
  }

  lemma TimerFollows(y: SystemState, e: Event, after: SystemState)
    requires e.act.Timer?
    requires forall id :: id in after.store.rooms ==>
               id in y.store.rooms && after.store.rooms[id] == Looked(y.store.rooms[id], e.act.hosts, e.now)
    ensures RoomsFollow(y, e, after)
  {
    forall id | id in y.store.rooms && id in after.store.rooms
      ensures after.store.rooms[id] == Apply(y.store.rooms[id], OpOn(y, e, id))
    {
      TimerOp(y, e, id);
    }
  }

  lemma TimerKept(y: SystemState, e: Event)
    requires SysInv(y) && Fair(y, e) && e.act.Timer?
    ensures Kept(y, e, Step(y, e))
  {
    ClockAdvances(y, e.now);
    var after := TimerAct(y.(clock := e.now), e.act.hosts);
    TimerActKeeps(y.(clock := e.now), e.act.hosts);
    TimerFollows(y, e, after);
  }

  lemma EvictedRoom(y: SystemState, player: Id, id: Id)
    requires id in y.store.rooms
    ensures id in EvictAct(y, player).store.rooms
    ensures EvictAct(y, player).store.rooms[id] ==
            Apply(y.store.rooms[id], if id in EvictedFrom(y.store, player) then OpLeave(player, y.clock) else OpNothing)
  {
    ApplyLeave(y.store.rooms[id], player, y.clock);
    ApplyNothing(y.store.rooms[id]);
  }

  lemma EvictKept(y: SystemState, e: Event)
    requires SysInv(y) && Fair(y, e) && e.act.Evict?
    ensures Kept(y, e, Step(y, e))
  {
    ClockAdvances(y, e.now);
    var now := y.(clock := e.now);
    EvictActKeeps(now, e.act.player);
    EvictFollows(y, e, EvictAct(now, e.act.player));
  }

  lemma EvictFollows(y: SystemState, e: Event, after: SystemState)
    requires e.act.Evict? && after == EvictAct(y.(clock := e.now), e.act.player)
    ensures RoomsFollow(y, e, after)
  {
    forall id | id in y.store.rooms
      ensures id in after.store.rooms && after.store.rooms[id] == Apply(y.store.rooms[id], OpOn(y, e, id))
    {
      EvictedRoom(y.(clock := e.now), e.act.player, id);
    }
  }

  /** The requests that touch one room's record and nobody's ticket. */
  lemma QuietKept(y: SystemState, e: Event, room: Id, op: RoomOp, after: SystemState)
    requires SysInv(y) && y.clock <= e.now && Named(op) && Timed(op, e.now) && !e.act.Evict? && !e.act.Timer?
    requires op.OpMove? || op.OpStatus? || op.OpSetHost? || op.OpPrivacy? || op.OpInvite? || op.OpUninvite?
    requires Addressed(e.act) == Some(room) && op == OpOn(y, e, room)
    requires after.store == if room in y.store.rooms then OnRoom(y.store, room, op) else y.store
    requires after == y.(clock := e.now, store := after.store)
    ensures Kept(y, e, after)
  {
    ClockAdvances(y, e.now);
    QuietActKeeps(y.(clock := e.now), room, op, after.store);
    FollowsAddressed(y, e, after, room, op);
  }

  lemma MoveKept(y: SystemState, e: Event)
    requires SysInv(y) && Fair(y, e) && e.act.Reseating?
    ensures Kept(y, e, Step(y, e))
  {
    QuietKept(y, e, e.act.room, OpMove(e.act.player, e.act.seat, e.act.watching), Step(y, e));
  }

  lemma StatusKept(y: SystemState, e: Event)
    requires SysInv(y) && Fair(y, e) && e.act.Announce?
    ensures Kept(y, e, Step(y, e))
  {
    QuietKept(y, e, e.act.room, OpStatus(e.act.actor, e.act.status), Step(y, e));
  }

  lemma NothingKept(y: SystemState, e: Event, room: Id)
    requires SysInv(y) && Fair(y, e) && Addressed(e.act) == Some(room) && OpOn(y, e, room) == OpNothing
    requires !e.act.Evict? && !e.act.Timer?
    ensures Kept(y, e, y.(clock := e.now))
  {
    ClockAdvances(y, e.now);
    NobodyFollows(y, e, room);
  }

  lemma HandOverKept(y: SystemState, e: Event)
    requires SysInv(y) && Fair(y, e) && e.act.HandOver?
    ensures Kept(y, e, Step(y, e))
  {
    if e.act.newHost == NOBODY {
      NothingKept(y, e, e.act.room);
    } else {
      QuietKept(y, e, e.act.room, OpSetHost(e.act.newHost), Step(y, e));
    }
  }

  lemma SetDoorKept(y: SystemState, e: Event)
    requires SysInv(y) && Fair(y, e) && e.act.SetDoor?
    ensures Kept(y, e, Step(y, e))
  {
    var d := e.act.newDoor;
    if e.act.actor == NOBODY {
      NothingKept(y, e, e.act.room);
    } else {
      QuietKept(y, e, e.act.room, OpPrivacy(e.act.actor, d.privacy, d.password, d.minMMR), Step(y, e));
    }
  }

  lemma AskKept(y: SystemState, e: Event)
    requires SysInv(y) && Fair(y, e) && e.act.Ask?
    ensures Kept(y, e, Step(y, e))
  {
    if e.act.actor == NOBODY || e.act.target == NOBODY {
      NothingKept(y, e, e.act.room);
    } else {
      QuietKept(y, e, e.act.room, OpInvite(e.act.actor, e.act.target, e.now), Step(y, e));
    }
  }

  lemma WithdrawKept(y: SystemState, e: Event)
    requires SysInv(y) && Fair(y, e) && e.act.Withdraw?
    ensures Kept(y, e, Step(y, e))
  {
    if e.act.actor == NOBODY || e.act.target == NOBODY {
      NothingKept(y, e, e.act.room);
    } else {
      QuietKept(y, e, e.act.room, OpUninvite(e.act.actor, e.act.target), Step(y, e));
    }
  }

  /** Every event keeps the invariant of both tables, and does to each room only its one operation. */
  lemma StepKeeps(y: SystemState, e: Event)
    requires SysInv(y) && Fair(y, e)
    ensures Kept(y, e, Step(y, e))
  {
    match e.act {
      case Create(_, _, _, _) => CreateKept(y, e);
      case JoinAs(_, _, _) => JoinKept(y, e);
      case Spectate(_, _, _) => SpectateKept(y, e);
      case Moderate(_, _, _) => ModerateKept(y, e);
      case Connect(_, _, _) => ConnectKept(y, e);
      case Depart(_, _) => DepartKept(y, e);
      case KickOut(_, _, _) => KickKept(y, e);
      case ShutDown(_) => ShutDownKept(y, e);
      case RenewLease(_) => RenewKept(y, e);
      case Evict(_) => EvictKept(y, e);
      case Timer(_) => TimerKept(y, e);
      case Reseating(_, _, _, _) => MoveKept(y, e);
      case Announce(_, _, _) => StatusKept(y, e);
      case HandOver(_, _) => HandOverKept(y, e);
      case SetDoor(_, _, _) => SetDoorKept(y, e);
      case Ask(_, _, _) => AskKept(y, e);
      case Withdraw(_, _, _) => WithdrawKept(y, e);
    }
  }
}

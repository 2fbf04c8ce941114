/** The room table and the ticket table driven together, by the request handlers and the timer. */
module SystemModel {
  import opened Basics
  import opened RoomModel
  import opened StoreModel
  import opened TicketModel

  /** `clock` is the last reading of the clock. */
  datatype SystemState = SystemState(store: StoreState, tickets: Tickets, clock: int)

  /** The door a host asks for, with the kind of room absent when it is none of the four. */
  datatype Door = Door(privacy: Option<Privacy>, password: string, minMMR: int)

  /** One request or one turn of the timer. `tok` and `id` are the random token and room id it would draw. */
  datatype Act =
    | Create(player: Id, id: Id, tok: Id, door: Option<Door>)
    | JoinAs(room: Id, who: Applicant, tok: Id)
    | Spectate(room: Id, who: Applicant, tok: Id)
    | Moderate(room: Id, player: Id, tok: Id)
    | Connect(room: Id, player: Id, tok: Id)
    | Depart(room: Id, player: Id)
    | KickOut(room: Id, actor: Id, target: Id)
    | Reseating(room: Id, player: Id, seat: int, watching: bool)
    | Announce(room: Id, actor: Id, status: Status)
    | HandOver(room: Id, newHost: Id)
    | ShutDown(room: Id)
    | Evict(player: Id)
    | Timer(hosts: Option<map<Id, HostFacts>>)
    | RenewLease(tok: Id)
    | SetDoor(room: Id, actor: Id, newDoor: Door)
    | Ask(room: Id, actor: Id, target: Id)
    | Withdraw(room: Id, actor: Id, target: Id)

  datatype Event = At(now: int, act: Act)

  /** A membership turned into a ticket, or the tables as they were. */
  function Issued(y: SystemState, tok: Id, player: Id, m: Result<Membership, RoomError>): SystemState {
    match m
    case Err(_) => y
    case Ok(got) => y.(tickets := Issue(y.tickets, tok, Claims(player, got.roomId, got.virtualIP), y.clock))
  }

  /** The door is put on straight after opening; a door that is refused takes the room and its ticket away again. */
  function Doored(made: SystemState, player: Id, id: Id, d: Door): SystemState {
    var (locked, refused) := SetRoomPrivacy(made.store, id, player, d.privacy, d.password, d.minMMR);
    if refused.None? then made.(store := locked)
    else made.(store := CloseRoom(made.store, id, player).0, tickets := RevokeRooms(made.tickets, {id}))
  }

  ghost function CreateAct(y: SystemState, player: Id, id: Id, tok: Id, door: Option<Door>): SystemState {
    var (store, m) := CreateRoom(y.store, player, id);
    var made := Issued(y.(store := store), tok, player, m);
    if player == NOBODY then y
    else if m.Err? || door.None? then made
    else Doored(made, player, id, door.value)
  }

  ghost function JoinAct(y: SystemState, room: Id, who: Applicant, tok: Id): SystemState {
    var (store, m) := JoinRoom(y.store, room, who, y.clock);
    if who.id == NOBODY then y else Issued(y.(store := store), tok, who.id, m)
  }

  ghost function SpectateAct(y: SystemState, room: Id, who: Applicant, tok: Id): SystemState {
    var (store, m) := JoinRoomObserver(y.store, room, who, y.clock);
    if who.id == NOBODY then y else Issued(y.(store := store), tok, who.id, m)
  }

  ghost function ModerateAct(y: SystemState, room: Id, player: Id, tok: Id): SystemState {
    var (store, m) := JoinRoomAdmin(y.store, room, player, y.clock);
    if player == NOBODY then y else Issued(y.(store := store), tok, player, m)
  }

  function ConnectAct(y: SystemState, room: Id, player: Id, tok: Id): SystemState {
    if player == NOBODY then y else Issued(y, tok, player, MembershipOf(y.store, room, player))
  }

  /** A host's departure takes everybody's credentials for the room, anybody else's only their own. */
  function DepartAct(y: SystemState, room: Id, player: Id): SystemState {
    var (store, ended) := LeaveRoom(y.store, room, player, y.clock);
    if ended.Err? then y
    else SystemState(store,
                     if ended.value then RevokeRooms(y.tickets, {room})
                     else RevokePlayerRoom(y.tickets, player, room),
                     y.clock)
  }

  function KickAct(y: SystemState, room: Id, actor: Id, target: Id): SystemState {
    var (store, refused) := KickFrom(y.store, room, actor, target, y.clock);
    if refused.Some? then y
    else SystemState(store, RevokePlayerRoom(y.tickets, target, room), y.clock)
  }

  function ShutDownAct(y: SystemState, room: Id): SystemState {
    var (store, refused) := CloseRoom(y.store, room, NOBODY);
    if refused.Some? then y
    else SystemState(store, RevokeRooms(y.tickets, {room}), y.clock)
  }

  /** The open rooms a sanctioned player is found in. */
  function EvictedFrom(s: StoreState, player: Id): set<Id> {
    set id | id in s.rooms && s.rooms[id].status != Closed && SlotOf(s.rooms[id], player).Some?
  }

  function EvictAct(y: SystemState, player: Id): SystemState {
    var found := EvictedFrom(y.store, player);
    SystemState(
      y.store.(rooms := map id | id in y.store.rooms ::
                 if id in found then Leave(y.store.rooms[id], player, y.clock) else y.store.rooms[id]),
      map tok | tok in y.tickets && !(y.tickets[tok].claims.room in found &&
                  (y.store.rooms[y.tickets[tok].claims.room].hostId == player
                      || y.tickets[tok].claims.player == player))
              :: y.tickets[tok],
      y.clock)
  }

  function TimerAct(y: SystemState, hosts: Option<map<Id, HostFacts>>): SystemState {
    SystemState(
      Tick(y.store, hosts, y.clock),
      Purge(RevokeRooms(y.tickets, ClosedByTick(y.store, hosts, y.clock)), y.clock),
      y.clock)
  }

  function AskAct(y: SystemState, room: Id, actor: Id, target: Id): SystemState {
    if actor == NOBODY || target == NOBODY then y
    else y.(store := InviteTo(y.store, room, actor, target, y.clock).0)
  }

  function WithdrawAct(y: SystemState, room: Id, actor: Id, target: Id): SystemState {
    if actor == NOBODY || target == NOBODY then y
    else y.(store := UninviteFrom(y.store, room, actor, target).0)
  }

  ghost function Step(before: SystemState, e: Event): SystemState {
    var y := before.(clock := e.now);
    match e.act
    case Create(player, id, tok, door) => CreateAct(y, player, id, tok, door)
    case JoinAs(room, who, tok) => JoinAct(y, room, who, tok)
    case Spectate(room, who, tok) => SpectateAct(y, room, who, tok)
    case Moderate(room, player, tok) => ModerateAct(y, room, player, tok)
    case Connect(room, player, tok) => ConnectAct(y, room, player, tok)
    case Depart(room, player) => DepartAct(y, room, player)
    case KickOut(room, actor, target) => KickAct(y, room, actor, target)
    case Reseating(room, player, seat, watching) => y.(store := MoveIn(y.store, room, player, seat, watching).0)
    case Announce(room, actor, status) => y.(store := SetRoomStatus(y.store, room, actor, status).0)
    case HandOver(room, newHost) => if newHost == NOBODY then y else y.(store := SetRoomHost(y.store, room, newHost).0)
    case ShutDown(room) => ShutDownAct(y, room)
    case Evict(player) => EvictAct(y, player)
    case Timer(hosts) => TimerAct(y, hosts)
    case RenewLease(tok) => y.(tickets := Renew(y.tickets, tok, y.clock).0)
    case SetDoor(room, actor, door) =>
      if actor == NOBODY then y
      else y.(store := SetRoomPrivacy(y.store, room, actor, door.privacy, door.password, door.minMMR).0)
    case Ask(room, actor, target) => AskAct(y, room, actor, target)
    case Withdraw(room, actor, target) => WithdrawAct(y, room, actor, target)
  }

  /** A coordinator that has just come up, with the clock wherever it is. */
  function Start(clock: int): SystemState {
    SystemState(EMPTY_STORE, map[], clock)
  }

  ghost function Run(y: SystemState, events: seq<Event>): SystemState
    decreases |events|
  {
    if events == [] then y else Run(Step(y, events[0]), events[1..])
  }

  /** What the environment guarantees of one event: the clock does not go back, and a room id is drawn afresh. */
  predicate Fair(y: SystemState, e: Event) {
    && y.clock <= e.now
    && (e.act.Create? ==> e.act.id != NOBODY && e.act.id !in y.store.issued)
  }

  ghost predicate FairRun(y: SystemState, events: seq<Event>)
    decreases |events|
  {
    events == [] || (Fair(y, events[0]) && FairRun(Step(y, events[0]), events[1..]))
  }
}

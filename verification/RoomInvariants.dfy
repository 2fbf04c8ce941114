/** What every operation on a room keeps. */
module RoomInvariants {
  import opened Basics
  import opened Seating
  import opened RoomModel
  import Ipam

  /** One call on a room, with the arguments that decide its effect. */
  datatype RoomOp =
    | OpJoin(who: Applicant, now: int)
    | OpObserve(who: Applicant, now: int)
    | OpAdmin(id: Id, now: int)
    | OpMove(id: Id, seat: int, watching: bool)
    | OpLeave(id: Id, now: int)
    | OpKick(actor: Id, target: Id, now: int)
    | OpStatus(actor: Id, status: Status)
    | OpSetHost(newHost: Id)
    | OpSeeHost(online: bool, inGame: bool, now: int)
    | OpPrivacy(actor: Id, privacy: Option<Privacy>, password: string, minMMR: int)
    | OpInvite(actor: Id, target: Id, now: int)
    | OpUninvite(actor: Id, target: Id)
    | OpNothing

  function Apply(r: RoomState, op: RoomOp): RoomState {
    match op
    case OpJoin(who, now) => Join(r, who, now).0
    case OpObserve(who, now) => JoinObserver(r, who, now).0
    case OpAdmin(id, now) => JoinAdmin(r, id, now).0
    case OpMove(id, seat, watching) => Move(r, id, seat, watching).0
    case OpLeave(id, now) => Leave(r, id, now)
    case OpKick(actor, target, now) => Kick(r, actor, target, now).0
    case OpStatus(actor, status) => SetStatus(r, actor, status).0
    case OpSetHost(newHost) => SetHost(r, newHost).0
    case OpSeeHost(online, inGame, now) => SeeHost(r, online, inGame, now)
    case OpPrivacy(actor, privacy, password, minMMR) => SetPrivacy(r, actor, privacy, password, minMMR).0
    case OpInvite(actor, target, now) => AddInvite(r, actor, target, now).0
    case OpUninvite(actor, target) => Uninvite(r, actor, target).0
    case OpNothing => r
  }

  /** The only demand made of a caller: whoever is seated or made the host has a name. */
  predicate Named(op: RoomOp) {
    match op
    case OpJoin(who, _) => who.id != NOBODY
    case OpObserve(who, _) => who.id != NOBODY
    case OpAdmin(id, _) => id != NOBODY
    case OpSetHost(newHost) => newHost != NOBODY
    case _ => true
  }

  /** The operation reads the clock, if at all, at `now`. */
  predicate Timed(op: RoomOp, now: int) {
    match op
    case OpJoin(_, t) => t == now
    case OpObserve(_, t) => t == now
    case OpAdmin(_, t) => t == now
    case OpLeave(_, t) => t == now
    case OpKick(_, _, t) => t == now
    case OpSeeHost(_, _, t) => t == now
    case OpInvite(_, _, t) => t == now
    case _ => true
  }

  predicate Shape(r: RoomState) {
    && |r.slots| == Ipam.PLAYER_SLOTS && |r.observers| == Ipam.OBSERVER_SLOTS
    && |r.admins| == Ipam.ADMIN_SLOTS && |r.addr| == Ipam.MEMBER_SLOTS
  }

  /** Nobody holds two seats, of the same kind or of different kinds. */
  ghost predicate OneSeatEach(r: RoomState) {
    && Distinct(r.slots) && Distinct(r.observers) && Distinct(r.admins)
    && Apart(r.slots, r.observers) && Apart(r.slots, r.admins) && Apart(r.observers, r.admins)
  }

  /** The address pool holds exactly the players and the watchers, each once. */
  ghost predicate PoolAgrees(r: RoomState) {
    && Distinct(r.addr)
    && forall p: Id :: p != NOBODY ==> (p in r.addr <==> p in r.slots || p in r.observers)
  }

  /** While the room lives, its host sits exactly where the room says, and no ending is on record. */
  predicate HostInPlace(r: RoomState) {
    r.hostId != NOBODY &&
    (r.status != Closed ==>
      && r.closedAt.None?
      && var area := if r.hostWatching then r.observers else r.slots;
         0 <= r.hostSlot < |area| && area[r.hostSlot] == r.hostId)
  }

  ghost predicate RoomInv(r: RoomState) {
    Shape(r) && OneSeatEach(r) && PoolAgrees(r) && HostInPlace(r)
  }

  /** Everything an operation is allowed to change: who gets up, who sits down, whether a kick was recorded,
      whether the room ends and when that is dated, and who the room was handed to. */
  datatype Footprint = Footprint(
    up: Option<Id>, down: Option<Id>, kick: bool, closes: bool, at: Option<int>, newHost: Option<Id>)

  function OkId(answer: Result<nat, RoomError>, id: Id): Option<Id> {
    if answer.Ok? then Some(id) else None
  }

  function FootprintOf(r: RoomState, op: RoomOp): Footprint {
    match op
    case OpJoin(who, now) => QUIET.(down := OkId(Join(r, who, now).1, who.id))
    case OpObserve(who, now) => QUIET.(down := OkId(JoinObserver(r, who, now).1, who.id))
    case OpAdmin(id, now) => QUIET.(down := OkId(JoinAdmin(r, id, now).1, id))
    case OpLeave(id, now) => LeaveFootprint(r, id, now)
    case OpKick(actor, target, now) =>
      if actor == r.hostId && target != r.hostId then LeaveFootprint(r, target, now).(kick := true) else QUIET
    case OpStatus(actor, status) => QUIET.(closes := actor == r.hostId && status == Closed)
    case OpSetHost(newHost) => QUIET.(newHost := Some(newHost))
    case OpSeeHost(online, _, now) => QUIET.(closes := !online, at := Some(now))
    case _ => QUIET
  }

  function LeaveFootprint(r: RoomState, id: Id, now: int): Footprint {
    QUIET.(up := Some(id), closes := id == r.hostId, at := Some(now))
  }

  const QUIET: Footprint := Footprint(None, None, false, false, None, None)

  /** The group after `up` left it: everybody else stays exactly where they were. */
  predicate StaysPut(group: seq<Id>, next: seq<Id>, up: Option<Id>) {
    && |next| == |group|
    && forall i :: 0 <= i < |group| && group[i] != NOBODY ==>
         next[i] == if up == Some(group[i]) then NOBODY else group[i]
  }

  ghost predicate Within(r: RoomState, r': RoomState, f: Footprint) {
    && r'.id == r.id && r'.index == r.index
    && (r'.hostId == r.hostId || f.newHost == Some(r'.hostId))
    && (forall p: Id :: p != NOBODY ==> (Seated(r', p) <==> (Seated(r, p) && f.up != Some(p)) || f.down == Some(p)))
    && (f.down.Some? ==> !Seated(r, f.down.value) && r.status != Closed)
    && StaysPut(r.addr, r'.addr, f.up)
    && StaysPut(r.admins, r'.admins, f.up)
    && (!f.kick ==> r'.kickedUntil == r.kickedUntil && r'.kickCount == r.kickCount)
    && (r'.status == Closed <==> r.status == Closed || f.closes)
    && (r.status == Closed ==> r'.closedAt == r.closedAt && r'.hostId == r.hostId)
    && (r.status != Closed && r'.status == Closed ==> r'.closedAt == if f.at.Some? then f.at else r.closedAt)
  }

  lemma NewRoomInv(id: Id, index: int, hostId: Id)
    requires hostId != NOBODY
    ensures RoomInv(NewRoom(id, index, hostId))
    ensures forall p: Id :: p != NOBODY ==> (Seated(NewRoom(id, index, hostId), p) <==> p == hostId)
    ensures AddressOf(NewRoom(id, index, hostId), hostId) == Some(0)
  {
    var r := NewRoom(id, index, hostId);
    assert r.slots[0] == hostId && r.addr[0] == hostId;
    FirstIndexIs(r.addr, hostId, 0);
  }

  /** Pigeonhole: while a playing or a watching seat is free, so is an address. */
  lemma AddressNeverRunsDry(r: RoomState)
    requires Shape(r) && PoolAgrees(r)
    requires NOBODY in r.slots || NOBODY in r.observers
    ensures NOBODY in r.addr
  {
    PeopleBound(r.slots);
    PeopleBound(r.observers);
    assert People(r.addr) == People(r.slots) + People(r.observers);
    if NOBODY !in r.addr {
      PeopleOfFull(r.addr);
    }
  }

  /** Sitting down: the newcomer gets the lowest free address, which exists, and nobody else's place changes. */
  lemma TakeAddressKeepsPool(r: RoomState, id: Id)
    requires Shape(r) && PoolAgrees(r) && id != NOBODY && !Seated(r, id)
    requires NOBODY in r.slots || NOBODY in r.observers
    ensures var next := TakeAddress(r.addr, id);
            && Distinct(next) && id in next
            && (forall p: Id :: p != NOBODY ==> (p in next <==> p in r.addr || p == id))
            && StaysPut(r.addr, next, None)
  {
    AddressNeverRunsDry(r);
    assert id !in r.addr;
    var free := FirstIndex(r.addr, NOBODY);
    SeatKeepsDistinct(r.addr, free, id, TakeAddress(r.addr, id));
  }

  lemma JoinKeeps(r: RoomState, who: Applicant, now: int)
    requires RoomInv(r) && who.id != NOBODY
    ensures var (r', answer) := Join(r, who, now);
            RoomInv(r') && Within(r, r', QUIET.(down := OkId(answer, who.id)))
  {
    var (r', answer) := Join(r, who, now);
    if answer.Ok? {
      SeatKeepsDistinct(r.slots, answer.value, who.id, r'.slots);
      TakeAddressKeepsPool(r, who.id);
    }
  }

  lemma JoinObserverKeeps(r: RoomState, who: Applicant, now: int)
    requires RoomInv(r) && who.id != NOBODY
    ensures var (r', answer) := JoinObserver(r, who, now);
            RoomInv(r') && Within(r, r', QUIET.(down := OkId(answer, who.id)))
  {
    var (r', answer) := JoinObserver(r, who, now);
    if answer.Ok? {
      SeatKeepsDistinct(r.observers, answer.value, who.id, r'.observers);
      TakeAddressKeepsPool(r, who.id);
    }
  }

  lemma JoinAdminKeeps(r: RoomState, id: Id, now: int)
    requires RoomInv(r) && id != NOBODY
    ensures var (r', answer) := JoinAdmin(r, id, now);
            RoomInv(r') && Within(r, r', QUIET.(down := OkId(answer, id)))
  {
    var (r', answer) := JoinAdmin(r, id, now);
    if answer.Ok? {
      SeatKeepsDistinct(r.admins, answer.value, id, r'.admins);
    }
  }

  lemma MoveNobody(r: RoomState, seat: int, watching: bool)
    requires RoomInv(r)
    ensures Move(r, NOBODY, seat, watching).0 == r
  {
    assert forall k :: 0 <= k < |r.slots| && r.slots[k] == NOBODY ==> r.slots[k := NOBODY] == r.slots;
    assert forall k :: 0 <= k < |r.observers| && r.observers[k] == NOBODY ==> r.observers[k := NOBODY] == r.observers;
  }

  /** The seats after a move: the same people, the mover in the new place. */
  lemma MoveSeats(r: RoomState, id: Id, at: nat, wasWatching: bool, seat: nat, watching: bool)
    requires RoomInv(r) && id != NOBODY && r.status != Closed
    requires at < |if wasWatching then r.observers else r.slots|
    requires (if wasWatching then r.observers else r.slots)[at] == id
    requires seat < |if watching then r.observers else r.slots|
    requires (if watching then r.observers else r.slots)[seat] == NOBODY
    ensures var r' := Reseat(r, id, at, wasWatching, seat, watching);
            RoomInv(r') && r'.addr == r.addr
  {
    var from := if wasWatching then r.observers else r.slots;
    var to := if watching then r.observers else r.slots;
    assert id in from;
    UnseatKeepsDistinct(from, at, from[at := NOBODY]);
    if watching == wasWatching {
      SeatKeepsDistinct(from[at := NOBODY], seat, id, from[at := NOBODY][seat := id]);
    } else {
      SeatKeepsDistinct(to, seat, id, to[seat := id]);
    }
  }

  /** Same pool, same moderators, same standing: the same people are seated, whatever seats they are in. */
  lemma PoolKnowsSeats(r: RoomState, r': RoomState)
    requires RoomInv(r) && RoomInv(r') && r'.addr == r.addr && r'.admins == r.admins
    requires r'.id == r.id && r'.index == r.index && r'.hostId == r.hostId && r'.status == r.status
    requires r'.kickedUntil == r.kickedUntil && r'.kickCount == r.kickCount && r'.closedAt == r.closedAt
    ensures Within(r, r', QUIET)
  {
    forall p: Id | p != NOBODY ensures Seated(r', p) <==> Seated(r, p) {
      assert p in r.addr <==> p in r.slots || p in r.observers;
      assert p in r'.addr <==> p in r'.slots || p in r'.observers;
    }
  }

  lemma MoveKeeps(r: RoomState, id: Id, seat: int, watching: bool)
    requires RoomInv(r)
    ensures var r' := Move(r, id, seat, watching).0; RoomInv(r') && r'.addr == r.addr && Within(r, r', QUIET)
  {
    var (r', error) := Move(r, id, seat, watching);
    if id == NOBODY {
      MoveNobody(r, seat, watching);
    } else if error.None? && r' != r {
      var from := SlotOf(r, id).value;
      MoveSeats(r, id, from.0, from.1 == Observer, seat, watching);
    }
    PoolKnowsSeats(r, r');
  }

  lemma VacateAll(r: RoomState, id: Id)
    requires RoomInv(r)
    ensures var up := r.(slots := Vacate(r.slots, id), observers := Vacate(r.observers, id),
                         admins := Vacate(r.admins, id), addr := Vacate(r.addr, id));
            && Shape(up) && OneSeatEach(up) && PoolAgrees(up)
            && forall p: Id :: p != NOBODY ==> (Seated(up, p) <==> Seated(r, p) && p != id)
  {
    VacateKeepsDistinct(r.slots, id);
    VacateKeepsDistinct(r.observers, id);
    VacateKeepsDistinct(r.admins, id);
    VacateKeepsDistinct(r.addr, id);
  }

  lemma LeaveKeeps(r: RoomState, id: Id, now: int)
    requires RoomInv(r)
    ensures RoomInv(Leave(r, id, now))
    ensures Within(r, Leave(r, id, now), LeaveFootprint(r, id, now))
  {
    VacateAll(r, id);
  }

  /** Writing a kick down touches no seat. */
  lemma KickRecordKeeps(r: RoomState, left: RoomState, f: Footprint, r': RoomState)
    requires RoomInv(left) && Within(r, left, f)
    requires r' == left.(kickedUntil := r'.kickedUntil, kickCount := r'.kickCount)
    ensures RoomInv(r') && Within(r, r', f.(kick := true))
  {
  }

  lemma KickKeeps(r: RoomState, actor: Id, target: Id, now: int)
    requires RoomInv(r)
    ensures var r' := Kick(r, actor, target, now).0;
            RoomInv(r') && Within(r, r', FootprintOf(r, OpKick(actor, target, now)))
  {
    LeaveKeeps(r, target, now);
    if actor == r.hostId && target != r.hostId {
      KickRecordKeeps(r, Leave(r, target, now), LeaveFootprint(r, target, now), Kick(r, actor, target, now).0);
    }
  }

  /** The controls that touch no seat at all. */
  lemma QuietKeeps(r: RoomState, r': RoomState, f: Footprint)
    requires RoomInv(r) && HostInPlace(r') && f.up.None? && f.down.None? && !f.kick
    requires r' == r.(hostId := r'.hostId, status := r'.status, privacy := r'.privacy, minMMR := r'.minMMR,
                      password := r'.password, invites := r'.invites, hostSlot := r'.hostSlot,
                      hostWatching := r'.hostWatching, closedAt := r'.closedAt, hostInGame := r'.hostInGame)
    requires r'.hostId == r.hostId || f.newHost == Some(r'.hostId)
    requires r'.status == Closed <==> r.status == Closed || f.closes
    requires r.status == Closed ==> r'.closedAt == r.closedAt && r'.hostId == r.hostId
    requires r.status != Closed && r'.status == Closed ==> r'.closedAt == if f.at.Some? then f.at else r.closedAt
    ensures RoomInv(r') && Within(r, r', f)
  {
  }

  lemma SetPrivacyKeeps(r: RoomState, actor: Id, privacy: Option<Privacy>, password: string, minMMR: int)
    requires RoomInv(r)
    ensures var r' := SetPrivacy(r, actor, privacy, password, minMMR).0; RoomInv(r') && Within(r, r', QUIET)
  {
    QuietKeeps(r, SetPrivacy(r, actor, privacy, password, minMMR).0, QUIET);
  }

  lemma AddInviteKeeps(r: RoomState, actor: Id, target: Id, now: int)
    requires RoomInv(r)
    ensures var r' := AddInvite(r, actor, target, now).0; RoomInv(r') && Within(r, r', QUIET)
  {
    QuietKeeps(r, AddInvite(r, actor, target, now).0, QUIET);
  }

  lemma UninviteKeeps(r: RoomState, actor: Id, target: Id)
    requires RoomInv(r)
    ensures var r' := Uninvite(r, actor, target).0; RoomInv(r') && Within(r, r', QUIET)
  {
    QuietKeeps(r, Uninvite(r, actor, target).0, QUIET);
  }

  lemma SetHostKeeps(r: RoomState, newHost: Id)
    requires RoomInv(r) && newHost != NOBODY
    ensures var r' := SetHost(r, newHost).0; RoomInv(r') && Within(r, r', QUIET.(newHost := Some(newHost)))
  {
    QuietKeeps(r, SetHost(r, newHost).0, QUIET.(newHost := Some(newHost)));
  }

  lemma SeeHostKeeps(r: RoomState, online: bool, inGame: bool, now: int)
    requires RoomInv(r)
    ensures var r' := SeeHost(r, online, inGame, now);
            RoomInv(r') && Within(r, r', QUIET.(closes := !online, at := Some(now)))
  {
    QuietKeeps(r, SeeHost(r, online, inGame, now), QUIET.(closes := !online, at := Some(now)));
  }

  lemma SetStatusKeeps(r: RoomState, actor: Id, status: Status)
    requires RoomInv(r)
    ensures var r' := SetStatus(r, actor, status).0;
            RoomInv(r') && Within(r, r', QUIET.(closes := actor == r.hostId && status == Closed))
  {
    QuietKeeps(r, SetStatus(r, actor, status).0, QUIET.(closes := actor == r.hostId && status == Closed));
  }

  lemma NothingKeeps(r: RoomState)
    requires RoomInv(r)
    ensures Within(r, r, QUIET)
  {
    QuietKeeps(r, r, QUIET);
  }

  /** Every operation keeps one seat each, the pool in agreement with the seats and the host in place, and changes
      no more than its footprint. */
  lemma ApplyKeeps(r: RoomState, op: RoomOp)
    requires RoomInv(r) && Named(op)
    ensures RoomInv(Apply(r, op)) && Within(r, Apply(r, op), FootprintOf(r, op))
  {
    match op {
      case OpJoin(who, now) => JoinKeeps(r, who, now);
      case OpObserve(who, now) => JoinObserverKeeps(r, who, now);
      case OpAdmin(id, now) => JoinAdminKeeps(r, id, now);
      case OpMove(id, seat, watching) => MoveKeeps(r, id, seat, watching);
      case OpLeave(id, now) => LeaveKeeps(r, id, now);
      case OpKick(actor, target, now) => KickKeeps(r, actor, target, now);
      case OpPrivacy(actor, privacy, password, minMMR) => SetPrivacyKeeps(r, actor, privacy, password, minMMR);
      case OpInvite(actor, target, now) => AddInviteKeeps(r, actor, target, now);
      case OpUninvite(actor, target) => UninviteKeeps(r, actor, target);
      case OpStatus(actor, status) => SetStatusKeeps(r, actor, status);
      case OpSetHost(newHost) => SetHostKeeps(r, newHost);
      case OpSeeHost(online, inGame, now) => SeeHostKeeps(r, online, inGame, now);
      case OpNothing => NothingKeeps(r);
    }
  }

  /** Kick records agree with the clock: no block reaches further than the last kick's own interval. */
  ghost predicate KicksInv(r: RoomState, clock: int) {
    forall p: Id :: p in r.kickedUntil ==>
      p in r.kickCount && r.kickCount[p] >= 1 && r.kickedUntil[p] <= clock + KickBlockFor(r.kickCount[p])
  }

  ghost predicate KickedKnown(r: RoomState) {
    forall p: Id :: p in r.kickCount <==> p in r.kickedUntil
  }

  lemma ApplyKeepsKicks(r: RoomState, op: RoomOp, clock: int, now: int)
    requires RoomInv(r) && Named(op) && KicksInv(r, clock) && KickedKnown(r) && clock <= now
    requires op.OpKick? ==> op.now == now
    ensures KicksInv(Apply(r, op), now) && KickedKnown(Apply(r, op))
  {
    ApplyKeeps(r, op);
  }

  /** A kick bars its target for 1, 3, 5, ... minutes from now, and ends later than any block before it. */
  lemma KickExtends(r: RoomState, actor: Id, target: Id, clock: int, now: int)
    requires KicksInv(r, clock) && KickedKnown(r) && clock <= now
    requires actor == r.hostId && target != r.hostId
    ensures var r' := Apply(r, OpKick(actor, target, now));
            && KicksOf(r', target) == KicksOf(r, target) + 1
            && target in r'.kickedUntil
            && r'.kickedUntil[target] == now + (2 * KicksOf(r', target) - 1) * MINUTE
            && (target in r.kickedUntil ==> r'.kickedUntil[target] >= r.kickedUntil[target] + KICK_BLOCK_STEP)
  {
  }

  /** The first n blocks of one person, laid end to end. */
  function TotalBlock(n: nat): int {
    if n == 0 then 0 else TotalBlock(n - 1) + KickBlockFor(n)
  }

  lemma {:induction false} TotalBlockIsSquare(n: nat)
    ensures TotalBlock(n) == n * n * MINUTE
  {
    if n > 0 {
      TotalBlockIsSquare(n - 1);
      assert n * n == (n - 1) * (n - 1) + 2 * n - 1;
    }
  }

  /** Barred: out of the room, with a block that reaches at least to `until`. */
  predicate Barred(r: RoomState, p: Id, until: int) {
    !Seated(r, p) && p in r.kickedUntil && r.kickedUntil[p] >= until
  }

  lemma KickBars(r: RoomState, actor: Id, target: Id, clock: int, now: int, n: int, until: int)
    requires RoomInv(r) && KicksInv(r, clock) && KickedKnown(r) && clock <= now
    requires actor == r.hostId && target != r.hostId && target != NOBODY
    requires n == KicksOf(r, target) + 1 && until == now + (2 * n - 1) * MINUTE
    ensures Barred(Kick(r, actor, target, now).0, target, until)
  {
    KickKeeps(r, actor, target, now);
    KickExtends(r, actor, target, clock, now);
  }

  /** No operation before the block ends seats somebody who is barred: not another kind of seat, not a password,
      not an invitation, not being staff. */
  lemma BarredStays(r: RoomState, op: RoomOp, p: Id, until: int, clock: int, now: int)
    requires RoomInv(r) && Named(op) && p != NOBODY && Barred(r, p, until)
    requires KicksInv(r, clock) && KickedKnown(r) && clock <= now < until
    requires Timed(op, now)
    ensures Barred(Apply(r, op), p, until)
  {
    ApplyKeeps(r, op);
    if op.OpKick? && Kick(r, op.actor, op.target, op.now).1.None? {
      KickExtends(r, op.actor, op.target, clock, now);
    }
  }

  /** While nobody has handed the room on, its host holds the first address of the pool. */
  predicate HostFirst(r: RoomState) {
    r.status != Closed ==> |r.addr| > 0 && r.addr[0] == r.hostId
  }

  lemma ApplyKeepsHostFirst(r: RoomState, op: RoomOp)
    requires RoomInv(r) && Named(op) && HostFirst(r) && !op.OpSetHost?
    ensures HostFirst(Apply(r, op))
  {
    ApplyKeeps(r, op);
  }

  /** What keeps somebody out whatever seat they ask for: a seat they have already, or a block that has not ended. */
  predicate KeptOut(r: RoomState, id: Id, now: int) {
    Seated(r, id) || (id in r.kickedUntil && now < r.kickedUntil[id])
  }

  predicate MayJoin(r: RoomState, who: Applicant, now: int) {
    Admits(r) && NOBODY in r.slots && !KeptOut(r, who.id, now) && Knock(r, who).None?
  }

  /** The lobby's Join button is honest: where it is drawn, everybody the room is not keeping out gets in, and where
      it is not, nobody does. */
  lemma JoinableIsHonest(r: RoomState, who: Applicant, now: int)
    ensures Join(r, who, now).1.Ok? <==> MayJoin(r, who, now)
  {
    assert NOBODY in r.slots <==> FirstIndex(r.slots, NOBODY) < |r.slots|;
    assert Seated(r, who.id) <==> SlotOf(r, who.id).Some?;
  }
}

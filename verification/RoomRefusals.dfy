/** Every refusal tells the truth: whatever is refused, the reason given holds, and nothing has changed. */
module RoomRefusals {
  import opened Basics
  import opened Seating
  import opened RoomModel
  import opened RoomInvariants

  function ErrorOf<T>(answer: Result<T, RoomError>): Option<RoomError> {
    if answer.Err? then Some(answer.error) else None
  }

  /** The refusal a room gives, if it gives one. */
  function RefusalOf(r: RoomState, op: RoomOp): Option<RoomError> {
    match op
    case OpJoin(who, now) => ErrorOf(Join(r, who, now).1)
    case OpObserve(who, now) => ErrorOf(JoinObserver(r, who, now).1)
    case OpAdmin(id, now) => ErrorOf(JoinAdmin(r, id, now).1)
    case OpMove(id, seat, watching) => Move(r, id, seat, watching).1
    case OpKick(actor, target, now) => Kick(r, actor, target, now).1
    case OpStatus(actor, status) => SetStatus(r, actor, status).1
    case OpSetHost(newHost) => SetHost(r, newHost).1
    case OpPrivacy(actor, privacy, password, minMMR) => SetPrivacy(r, actor, privacy, password, minMMR).1
    case OpInvite(actor, target, now) => AddInvite(r, actor, target, now).1
    case OpUninvite(actor, target) => Uninvite(r, actor, target).1
    case _ => None
  }

  /** What may keep somebody out who is not staff, as the door has it. */
  predicate DoorSays(r: RoomState, who: Applicant, e: RoomError) {
    !who.admin &&
    match e
    case MMRTooLow => who.mmr < r.minMMR
    case NeedRoomPassword => r.privacy == Password && who.password == ""
    case WrongRoomPassword => r.privacy == Password && who.password != "" && who.password != r.password
    case FriendsOnly => r.privacy == Friends && !who.friend
    case InviteOnly => r.privacy == Invite && who.id !in r.invites
    case _ => false
  }

  predicate MayNotSit(r: RoomState, id: Id, now: int, e: RoomError) {
    || (e == RoomClosed && r.status == Closed)
    || (e == KickBlocked && id in r.kickedUntil && now < r.kickedUntil[id])
    || (e == AlreadyJoined && Seated(r, id))
  }

  predicate SeatRefused(r: RoomState, id: Id, seat: int, watching: bool, e: RoomError) {
    var area := if watching then r.observers else r.slots;
    match e
    case RoomClosed => r.status == Closed
    case RoomLocked => r.status == Locked || r.hostInGame
    case NoSuchSlot => !(0 <= seat < |area|)
    case SlotTaken => 0 <= seat < |area| && area[seat] != NOBODY
    case NotMemberOfRoom => id !in r.slots && id !in r.observers
    case _ => false
  }

  predicate DoorRefused(r: RoomState, privacy: Option<Privacy>, password: string, minMMR: int, e: RoomError) {
    match e
    case RoomClosed => r.status == Closed
    case BadPrivacy => privacy.None?
    case BadMinMMR => minMMR < 0 || minMMR > MAX_MIN_MMR
    case PasswordRequired => privacy == Some(Password) && password == "" && r.password == ""
    case _ => false
  }

  /** The refusal is true of this room and this request. */
  predicate True(r: RoomState, op: RoomOp, e: RoomError) {
    var locked := r.status == Locked || (r.hostInGame && r.status != OpenToNew);
    match op
    case OpJoin(who, now) =>
      || MayNotSit(r, who.id, now, e) || DoorSays(r, who, e)
      || (e == RoomLocked && locked) || (e == RoomFull && NOBODY !in r.slots)
    case OpObserve(who, now) =>
      || MayNotSit(r, who.id, now, e) || DoorSays(r, who, e)
      || (e == RoomLocked && locked) || (e == NoObserverSeat && NOBODY !in r.observers)
    case OpAdmin(id, now) => MayNotSit(r, id, now, e) || (e == NoAdminSeat && NOBODY !in r.admins)
    case OpMove(id, seat, watching) => SeatRefused(r, id, seat, watching, e)
    case OpKick(actor, target, now) =>
      (e == NotHost && actor != r.hostId) || (e == NotMemberOfRoom && target == r.hostId)
    case OpStatus(actor, _) => (e == NotHost && actor != r.hostId) || (e == RoomClosed && r.status == Closed)
    case OpSetHost(newHost) =>
      (e == RoomClosed && r.status == Closed) || (e == NotMemberOfRoom && newHost !in r.slots)
    case OpPrivacy(actor, privacy, password, minMMR) =>
      (e == NotHost && actor != r.hostId) || DoorRefused(r, privacy, password, minMMR, e)
    case OpInvite(actor, _, _) => (e == NotHost && actor != r.hostId) || (e == RoomClosed && r.status == Closed)
    case OpUninvite(actor, _) => e == NotHost && actor != r.hostId
    case _ => false
  }

  lemma KnockSaysWhy(r: RoomState, who: Applicant)
    ensures Knock(r, who).Some? ==> DoorSays(r, who, Knock(r, who).value)
  {
  }

  lemma AdmissibleSaysWhy(r: RoomState, id: Id, now: int)
    ensures Admissible(r, id, now).Some? ==> MayNotSit(r, id, now, Admissible(r, id, now).value)
  {
    assert SlotOf(r, id).Some? <==> Seated(r, id);
  }

  lemma AdmissionRefused(r: RoomState, who: Applicant, now: int)
    ensures RefusalOf(r, OpJoin(who, now)).Some? ==>
              True(r, OpJoin(who, now), RefusalOf(r, OpJoin(who, now)).value) && Join(r, who, now).0 == r
    ensures RefusalOf(r, OpObserve(who, now)).Some? ==>
              True(r, OpObserve(who, now), RefusalOf(r, OpObserve(who, now)).value) && JoinObserver(r, who, now).0 == r
  {
    KnockSaysWhy(r, who);
    AdmissibleSaysWhy(r, who.id, now);
  }

  lemma MoveRefused(r: RoomState, id: Id, seat: int, watching: bool)
    ensures var (r', error) := Move(r, id, seat, watching);
            error.Some? ==> SeatRefused(r, id, seat, watching, error.value) && r' == r
  {
    assert id in r.slots <==> FirstIndex(r.slots, id) < |r.slots|;
    assert id in r.observers <==> FirstIndex(r.observers, id) < |r.observers|;
  }

  /** Whatever a room refuses, it says why, truly, and is as it was. */
  lemma RefusalsAreTrue(r: RoomState, op: RoomOp)
    requires RefusalOf(r, op).Some?
    ensures True(r, op, RefusalOf(r, op).value) && Apply(r, op) == r
  {
    match op {
      case OpJoin(who, now) => AdmissionRefused(r, who, now);
      case OpObserve(who, now) => AdmissionRefused(r, who, now);
      case OpAdmin(id, now) => AdmissibleSaysWhy(r, id, now);
      case OpMove(id, seat, watching) => MoveRefused(r, id, seat, watching);
      case OpSetHost(newHost) => assert newHost in r.slots <==> FirstIndex(r.slots, newHost) < |r.slots|;
      case _ =>
    }
  }
}

/** What a room's door and its host's standing mean for whoever wants in. */
module RoomDoors {
  import opened Basics
  import opened Seating
  import opened RoomModel
  import opened RoomInvariants

  /** A room has a password exactly when it is a password room. */
  predicate DoorOk(r: RoomState) {
    r.password != "" <==> r.privacy == Password
  }

  lemma PrivacyKeepsDoor(r: RoomState, actor: Id, privacy: Option<Privacy>, password: string, minMMR: int)
    requires DoorOk(r)
    ensures DoorOk(SetPrivacy(r, actor, privacy, password, minMMR).0)
  {
  }

  lemma PlayerOnlySits(r: RoomState, who: Applicant, now: int)
    ensures var r' := Join(r, who, now).0; r' == r.(slots := r'.slots, addr := r'.addr)
  {
  }

  lemma WatcherOnlySits(r: RoomState, who: Applicant, now: int)
    ensures var r' := JoinObserver(r, who, now).0; r' == r.(observers := r'.observers, addr := r'.addr)
  {
  }

  lemma ModeratorOnlySits(r: RoomState, id: Id, now: int)
    ensures var r' := JoinAdmin(r, id, now).0; r' == r.(admins := r'.admins)
  {
  }

  lemma MoverOnlySits(r: RoomState, id: Id, seat: int, watching: bool)
    ensures var r' := Move(r, id, seat, watching).0;
            r' == r.(slots := r'.slots, observers := r'.observers, hostSlot := r'.hostSlot,
                     hostWatching := r'.hostWatching)
  {
  }

  predicate Sitting(op: RoomOp) {
    op.OpJoin? || op.OpObserve? || op.OpAdmin? || op.OpMove?
  }

  /** Whoever sits down or moves changes nothing but seats, addresses and the host's whereabouts. */
  lemma SittingOnly(r: RoomState, op: RoomOp)
    requires Sitting(op)
    ensures var r' := Apply(r, op);
            r' == r.(slots := r'.slots, observers := r'.observers, admins := r'.admins, addr := r'.addr,
                     hostSlot := r'.hostSlot, hostWatching := r'.hostWatching)
  {
    match op {
      case OpJoin(who, now) => PlayerOnlySits(r, who, now);
      case OpObserve(who, now) => WatcherOnlySits(r, who, now);
      case OpAdmin(id, now) => ModeratorOnlySits(r, id, now);
      case OpMove(id, seat, watching) => MoverOnlySits(r, id, seat, watching);
    }
  }

  /** Whoever leaves changes nothing but seats and addresses, and ends the room as its host. */
  lemma LeavingOnly(r: RoomState, id: Id, now: int)
    ensures var r' := Leave(r, id, now);
            && r' == r.(slots := r'.slots, observers := r'.observers, admins := r'.admins, addr := r'.addr,
                        status := r'.status, closedAt := r'.closedAt)
            && r'.status == if id == r.hostId then Closed else r.status
  {
  }

  lemma KickingOnly(r: RoomState, actor: Id, id: Id, now: int)
    ensures var r' := Kick(r, actor, id, now).0;
            r' == r.(slots := r'.slots, observers := r'.observers, admins := r'.admins, addr := r'.addr,
                     kickCount := r'.kickCount, kickedUntil := r'.kickedUntil)
  {
    LeavingOnly(r, id, now);
  }

  lemma ApplyKeepsDoor(r: RoomState, op: RoomOp)
    requires DoorOk(r)
    ensures DoorOk(Apply(r, op))
  {
    if Sitting(op) { SittingOnly(r, op); }
    match op {
      case OpPrivacy(actor, privacy, password, minMMR) => PrivacyKeepsDoor(r, actor, privacy, password, minMMR);
      case OpLeave(id, now) => LeavingOnly(r, id, now);
      case OpKick(actor, target, now) => KickingOnly(r, actor, target, now);
      case _ =>
    }
  }

  /** When a door is put on, exactly, and what door it is then: a password may be left out only by a room that already
      asks for one, which keeps the one it has. */
  lemma PrivacyExactly(r: RoomState, actor: Id, privacy: Option<Privacy>, password: string, minMMR: int)
    requires DoorOk(r)
    ensures var (r', error) := SetPrivacy(r, actor, privacy, password, minMMR);
            && (error.None? <==>
                  && actor == r.hostId && r.status != Closed && privacy.Some? && 0 <= minMMR <= MAX_MIN_MMR
                  && (privacy.value == Password && r.privacy != Password ==> password != ""))
            && (error.Some? ==> r' == r)
            && (error.None? ==> && r'.privacy == privacy.value && r'.minMMR == minMMR
                                && (privacy.value == Password ==>
                                      r'.password == if password != "" then password else r.password)
                                && r' == r.(privacy := r'.privacy, minMMR := r'.minMMR, password := r'.password))
  {
  }

  /** An old password does not come back: once the room was of another kind, it has to be named again. */
  lemma OldPasswordIsGone(r: RoomState, privacy: Privacy, minMMR: int, again: int)
    requires DoorOk(r) && privacy != Password && SetPrivacy(r, r.hostId, Some(privacy), "", minMMR).1.None?
    ensures var open := SetPrivacy(r, r.hostId, Some(privacy), "", minMMR).0;
            open.password == "" && SetPrivacy(open, r.hostId, Some(Password), "", again).1.Some?
  {
  }

  /** Nobody but staff gets into a password room, to play or to watch, without its very password. */
  lemma PasswordIsAsked(r: RoomState, who: Applicant, now: int)
    requires DoorOk(r) && r.privacy == Password && !who.admin
    ensures Join(r, who, now).1.Ok? || JoinObserver(r, who, now).1.Ok? ==> who.password == r.password != ""
  {
  }

  /** A host seen in a game locks the room: nobody joins, watches or changes seat, unless the host had opened it to new
      players, and then joining and watching are as they were. */
  lemma InGameLocks(r: RoomState, who: Applicant, seat: int, watching: bool, seen: int, now: int)
    requires r.status != Closed
    ensures var r' := SeeHost(r, true, true, seen);
            && (r.status != OpenToNew ==> Join(r', who, now).1.Err? && JoinObserver(r', who, now).1.Err?)
            && (r.status == OpenToNew ==> Join(r', who, now).1 == Join(r, who, now).1)
            && (r.status == OpenToNew ==> JoinObserver(r', who, now).1 == JoinObserver(r, who, now).1)
            && Move(r', who.id, seat, watching) == (r', Some(RoomLocked))
  {
  }

  /** A host seen out of the game gives the room back as the host's own status leaves it. */
  lemma OutOfGameUnlocks(r: RoomState, seen: int, later: int)
    requires r.status != Closed
    ensures SeeHost(SeeHost(r, true, true, seen), true, false, later) == r.(hostInGame := false)
    ensures Admits(r.(hostInGame := false)) <==> r.status != Locked
  {
  }

  /** A host not seen ends the room at that very moment, and it stays ended whatever is seen later. */
  lemma UnseenHostEndsTheRoom(r: RoomState, inGame: bool, seen: int, online: bool, playing: bool, later: int)
    requires r.status != Closed
    ensures var r' := SeeHost(r, false, inGame, seen);
            && r'.status == Closed && r'.closedAt == Some(seen)
            && (forall p: Id :: Seated(r', p) <==> Seated(r, p))
            && SeeHost(r', online, playing, later) == r'
  {
  }

  /** What the door lets through: staff always; anybody else with the rating asked for, and with the password, the
      friendship or the invitation that the kind of room asks for. */
  predicate LetThrough(r: RoomState, who: Applicant) {
    || who.admin
    || (&& (r.minMMR <= 0 || who.mmr >= r.minMMR)
        && (r.privacy == Password ==> who.password == r.password != "")
        && (r.privacy == Friends ==> who.friend)
        && (r.privacy == Invite ==> who.id in r.invites))
  }

  /** What the room itself lets through: it has not ended, it is not locked by its host, and a match being on does not
      lock it unless its host has opened it to new players. */
  predicate TakesPeople(r: RoomState) {
    r.status != Closed && r.status != Locked && (r.hostInGame ==> r.status == OpenToNew)
  }

  /** Nobody comes in twice, nor before a kick's block is over. */
  predicate Welcome(r: RoomState, id: Id, now: int) {
    id !in r.slots && id !in r.observers && id !in r.admins && (id in r.kickedUntil ==> now >= r.kickedUntil[id])
  }

  lemma KnockedExactly(r: RoomState, who: Applicant)
    ensures Knock(r, who).None? <==> LetThrough(r, who)
  {
  }

  /** Who gets to play, exactly. */
  lemma PlaysExactly(r: RoomState, who: Applicant, now: int)
    ensures Join(r, who, now).1.Ok? <==>
              TakesPeople(r) && NOBODY in r.slots && Welcome(r, who.id, now) && LetThrough(r, who)
  {
    KnockedExactly(r, who);
    JoinableIsHonest(r, who, now);
  }

  /** Who gets to watch, exactly. */
  lemma WatchesExactly(r: RoomState, who: Applicant, now: int)
    ensures JoinObserver(r, who, now).1.Ok? <==>
              TakesPeople(r) && NOBODY in r.observers && Welcome(r, who.id, now) && LetThrough(r, who)
  {
    KnockedExactly(r, who);
    assert NOBODY in r.observers <==> FirstIndex(r.observers, NOBODY) < |r.observers|;
    assert SlotOf(r, who.id).Some? <==> Seated(r, who.id);
  }

  /** What the host's status control does to who gets in: shut to all, open to all while there are seats, or open until
      a match is on. */
  lemma StatusDecides(r: RoomState, actor: Id, status: Status, who: Applicant, now: int)
    ensures var (r', error) := SetStatus(r, actor, status);
            && (error.None? <==> actor == r.hostId && r.status != Closed)
            && (error.Some? ==> r' == r)
            && (error.None? ==>
                  && r' == r.(status := r'.status)
                  && (r'.status == Closed <==> status == Closed)
                  && (status in {Closed, Locked} ==> Join(r', who, now).1.Err? && JoinObserver(r', who, now).1.Err?)
                  && (status == OpenToNew ==>
                        (Join(r', who, now).1.Ok? <==>
                           NOBODY in r.slots && Welcome(r, who.id, now) && LetThrough(r, who)))
                  && (status == Open ==>
                        (Join(r', who, now).1.Ok? <==>
                           !r.hostInGame && NOBODY in r.slots && Welcome(r, who.id, now) && LetThrough(r, who))))
  {
    var r' := SetStatus(r, actor, status).0;
    PlaysExactly(r', who, now);
    WatchesExactly(r', who, now);
  }

  /** An invitation is the host's to give, and opens an invitation room to whom it names and to nobody else. */
  lemma InvitationOpens(r: RoomState, actor: Id, target: Id, at: int, who: Applicant)
    requires r.privacy == Invite && !who.admin
    ensures var (r', error) := AddInvite(r, actor, target, at);
            && (error.None? <==> actor == r.hostId && r.status != Closed)
            && (error.Some? ==> r' == r)
            && (error.None? ==> r' == r.(invites := r'.invites) && target in r'.invites && r'.invites[target] == at)
            && (error.None? ==>
                  (LetThrough(r', who) <==>
                     (r.minMMR <= 0 || who.mmr >= r.minMMR) && (who.id == target || who.id in r.invites)))
  {
  }

  /** Taking one back closes the room to whom it named and to nobody else. */
  lemma WithdrawalCloses(r: RoomState, actor: Id, target: Id, who: Applicant)
    requires r.privacy == Invite && !who.admin
    ensures var (r', error) := Uninvite(r, actor, target);
            && (error.None? <==> actor == r.hostId)
            && (error.Some? ==> r' == r)
            && (error.None? ==> r' == r.(invites := r'.invites))
            && (error.None? ==> (LetThrough(r', who) <==> LetThrough(r, who) && who.id != target))
  {
  }

  /** A room just opened takes anybody, to play or to watch; and made an invitation room there and then it takes nobody
      but staff, for nobody is invited yet. */
  lemma NewRoomTakesAnybody(id: Id, index: int, host: Id, who: Applicant, now: int)
    requires host != NOBODY && who.id != NOBODY && who.id != host
    ensures var r := NewRoom(id, index, host);
            && Join(r, who, now).1 == Ok(1) && JoinObserver(r, who, now).1 == Ok(0)
            && (!who.admin ==> !LetThrough(SetPrivacy(r, host, Some(Invite), "", 0).0, who))
            && (!who.admin ==> !LetThrough(SetPrivacy(r, host, Some(Invite), "", 0).0, who.(id := host)))
  {
    var r := NewRoom(id, index, host);
    PlaysExactly(r, who, now);
    WatchesExactly(r, who, now);
    FirstIndexIs(r.slots, NOBODY, 1);
  }
}

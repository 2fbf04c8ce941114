/** Where exactly joining, moving and leaving put people, and how each undoes another. */
module RoomSeats {
  import opened Basics
  import opened Seating
  import opened RoomModel
  import opened RoomInvariants

  lemma SeatedOnceAt(r: RoomState, id: Id)
    requires RoomInv(r) && id != NOBODY
    ensures SlotOf(r, id).Some? <==> Seated(r, id)
    ensures SlotOf(r, id).Some? ==>
              var (at, kind) := SlotOf(r, id).value;
              && (kind == Player ==> r.slots[at] == id && id !in r.observers && id !in r.admins)
              && (kind == Observer ==> r.observers[at] == id && id !in r.slots && id !in r.admins)
              && (kind == Admin ==> r.admins[at] == id && id !in r.slots && id !in r.observers)
  {
    assert id in r.slots <==> FirstIndex(r.slots, id) < |r.slots|;
    assert id in r.observers <==> FirstIndex(r.observers, id) < |r.observers|;
    assert id in r.admins <==> FirstIndex(r.admins, id) < |r.admins|;
  }

  lemma VacateUndoesSeat(group: seq<Id>, i: nat, id: Id)
    requires i < |group| && group[i] == NOBODY && id !in group && id != NOBODY
    ensures Vacate(group[i := id], id) == group
  {
    var seated := group[i := id];
    forall k | 0 <= k < |group| ensures Vacate(seated, id)[k] == group[k] {
      if k != i { assert group[k] in group; }
    }
  }

  lemma VacateStranger(group: seq<Id>, id: Id)
    requires id !in group
    ensures Vacate(group, id) == group
  {
    forall k | 0 <= k < |group| ensures Vacate(group, id)[k] == group[k] {
      assert group[k] in group;
    }
  }

  lemma PoolUndoes(r: RoomState, id: Id)
    requires RoomInv(r) && id != NOBODY && !Seated(r, id)
    ensures Vacate(TakeAddress(r.addr, id), id) == r.addr
  {
    assert id !in r.addr;
    var free := FirstIndex(r.addr, NOBODY);
    if free < |r.addr| { VacateUndoesSeat(r.addr, free, id); } else { VacateStranger(r.addr, id); }
  }

  lemma NewcomerIsNotHost(r: RoomState, id: Id)
    requires RoomInv(r) && r.status != Closed && !Seated(r, id)
    ensures id != r.hostId
  {
    assert r.hostId in if r.hostWatching then r.observers else r.slots;
  }

  /** A join that is let in takes the lowest free playing seat and the lowest free address and changes nothing else. */
  lemma JoinTakesLowest(r: RoomState, who: Applicant, now: int)
    requires RoomInv(r) && who.id != NOBODY && Join(r, who, now).1.Ok?
    ensures var (r', answer) := Join(r, who, now);
            && r.slots[answer.value] == NOBODY && NOBODY !in r.slots[..answer.value]
            && r'.slots == r.slots[answer.value := who.id]
            && SlotOf(r', who.id) == Some((answer.value, Player))
            && FirstIndex(r.addr, NOBODY) < |r.addr| && r'.addr == r.addr[FirstIndex(r.addr, NOBODY) := who.id]
            && r' == r.(slots := r'.slots, addr := r'.addr)
  {
    var (r', answer) := Join(r, who, now);
    SeatedOnceAt(r, who.id);
    TakeAddressKeepsPool(r, who.id);
    FirstIndexIs(r'.slots, who.id, answer.value);
    assert who.id !in r.addr;
  }

  predicate MayWatch(r: RoomState, who: Applicant, now: int) {
    Admits(r) && NOBODY in r.observers && !KeptOut(r, who.id, now) && Knock(r, who).None?
  }

  predicate MayModerate(r: RoomState, id: Id, now: int) {
    r.status != Closed && NOBODY in r.admins && !KeptOut(r, id, now)
  }

  /** A watcher is let in exactly when the room admits, the gallery has a place, and neither a seat, a block nor the
      door is against them; they take the lowest place and the lowest free address, and nothing else changes. */
  lemma WatchExactly(r: RoomState, who: Applicant, now: int)
    requires RoomInv(r) && who.id != NOBODY
    ensures var (r', answer) := JoinObserver(r, who, now);
            && (answer.Ok? <==> MayWatch(r, who, now))
            && (answer.Err? ==> r' == r)
            && (answer.Ok? ==>
                  && r.observers[answer.value] == NOBODY && NOBODY !in r.observers[..answer.value]
                  && SlotOf(r', who.id) == Some((answer.value, Observer))
                  && FirstIndex(r.addr, NOBODY) < |r.addr|
                  && r' == r.(observers := r.observers[answer.value := who.id],
                              addr := r.addr[FirstIndex(r.addr, NOBODY) := who.id]))
  {
    var (r', answer) := JoinObserver(r, who, now);
    SeatedOnceAt(r, who.id);
    assert NOBODY in r.observers <==> FirstIndex(r.observers, NOBODY) < |r.observers|;
    if answer.Ok? {
      TakeAddressKeepsPool(r, who.id);
      FirstIndexIs(r'.observers, who.id, answer.value);
      assert who.id !in r.addr;
    }
  }

  /** A moderator is let in whatever the lock and the door say, but not into a room that has ended, nor past a block,
      a seat of their own or the last of the three seats; and takes no address from the pool. */
  lemma ModerateExactly(r: RoomState, id: Id, now: int)
    requires RoomInv(r) && id != NOBODY
    ensures var (r', answer) := JoinAdmin(r, id, now);
            && (answer.Ok? <==> MayModerate(r, id, now))
            && (answer.Err? ==> r' == r)
            && (answer.Ok? ==>
                  && r.admins[answer.value] == NOBODY && NOBODY !in r.admins[..answer.value]
                  && SlotOf(r', id) == Some((answer.value, Admin))
                  && r' == r.(admins := r.admins[answer.value := id]))
  {
    var (r', answer) := JoinAdmin(r, id, now);
    SeatedOnceAt(r, id);
    assert NOBODY in r.admins <==> FirstIndex(r.admins, NOBODY) < |r.admins|;
    if answer.Ok? { FirstIndexIs(r'.admins, id, answer.value); }
  }

  lemma {:induction false} SameIndexWithout(group: seq<Id>, id: Id, other: Id)
    requires other != id && other != NOBODY
    ensures FirstIndex(Vacate(group, id), other) == FirstIndex(group, other)
  {
    if group != [] && group[0] != other {
      assert Vacate(group, id)[1..] == Vacate(group[1..], id);
      SameIndexWithout(group[1..], id, other);
    }
  }

  /** Whoever left has no seat and no address, and the room ends exactly when it was its host who left. */
  lemma LeaverIsGone(r: RoomState, id: Id, now: int)
    requires RoomInv(r) && id != NOBODY
    ensures var r' := Leave(r, id, now);
            && SlotOf(r', id).None? && AddressOf(r', id).None?
            && (r'.status == Closed <==> r.status == Closed || id == r.hostId)
  {
    var r' := Leave(r, id, now);
    LeaveKeeps(r, id, now);
    SeatedOnceAt(r', id);
    assert id !in r'.addr;
  }

  lemma SameSeat(r: RoomState, r': RoomState, p: Id)
    requires |r'.slots| == |r.slots| && FirstIndex(r'.slots, p) == FirstIndex(r.slots, p)
    requires |r'.observers| == |r.observers| && FirstIndex(r'.observers, p) == FirstIndex(r.observers, p)
    requires |r'.admins| == |r.admins| && FirstIndex(r'.admins, p) == FirstIndex(r.admins, p)
    ensures SlotOf(r', p) == SlotOf(r, p)
  {
  }

  lemma OthersSitOnLeave(r: RoomState, r': RoomState, id: Id, other: Id)
    requires other != NOBODY && other != id
    requires r'.slots == Vacate(r.slots, id) && r'.observers == Vacate(r.observers, id)
             && r'.admins == Vacate(r.admins, id)
    ensures SlotOf(r', other) == SlotOf(r, other)
  {
    SameIndexWithout(r.slots, id, other);
    SameIndexWithout(r.observers, id, other);
    SameIndexWithout(r.admins, id, other);
    SameSeat(r, r', other);
  }

  /** Everybody else sits and is addressed where they were. */
  lemma OthersStayOnLeave(r: RoomState, id: Id, now: int, other: Id)
    requires other != NOBODY && other != id
    ensures var r' := Leave(r, id, now);
            SlotOf(r', other) == SlotOf(r, other) && AddressOf(r', other) == AddressOf(r, other)
  {
    OthersSitOnLeave(r, Leave(r, id, now), id, other);
    SameIndexWithout(r.addr, id, other);
  }

  /** A kick is the host's alone and never of themselves; it gets the target up as leaving would, counts one more, and
      ends no room. */
  lemma KickExactly(r: RoomState, actor: Id, target: Id, now: int, other: Id)
    requires RoomInv(r) && target != NOBODY && other != NOBODY && other != target
    ensures var (r', error) := Kick(r, actor, target, now);
            && (error.None? <==> actor == r.hostId && target != r.hostId)
            && (error.Some? ==> r' == r)
            && (error.None? ==> SlotOf(r', target).None? && KicksOf(r', target) == KicksOf(r, target) + 1)
            && SlotOf(r', other) == SlotOf(r, other) && AddressOf(r', other) == AddressOf(r, other)
            && KicksOf(r', other) == KicksOf(r, other) && r'.status == r.status
  {
    LeaverIsGone(r, target, now);
    OthersStayOnLeave(r, target, now, other);
  }

  /** A room is handed over exactly to its host or to one of its players, while it has not ended; then that player is
      the host wherever they sit, and no seat, address or moderator changes. */
  lemma HandOverMovesNobody(r: RoomState, newHost: Id)
    requires RoomInv(r) && newHost != NOBODY
    ensures var (r', error) := SetHost(r, newHost);
            && (error.None? <==> r.status != Closed && (newHost == r.hostId || newHost in r.slots))
            && (error.Some? ==> r' == r)
            && (error.None? ==> r'.hostId == newHost && HostInPlace(r'))
            && r' == r.(hostId := r'.hostId, hostSlot := r'.hostSlot, hostWatching := r'.hostWatching)
  {
    SeatedOnceAt(r, newHost);
    SetHostKeeps(r, newHost);
    assert newHost in r.slots <==> FirstIndex(r.slots, newHost) < |r.slots|;
  }

  lemma LeaveUndoesPlaying(r: RoomState, who: Applicant, now: int, later: int)
    requires RoomInv(r) && who.id != NOBODY && Join(r, who, now).1.Ok?
    ensures Leave(Join(r, who, now).0, who.id, later) == r
  {
    SeatedOnceAt(r, who.id);
    NewcomerIsNotHost(r, who.id);
    PoolUndoes(r, who.id);
    VacateUndoesSeat(r.slots, FirstIndex(r.slots, NOBODY), who.id);
    VacateStranger(r.observers, who.id);
    VacateStranger(r.admins, who.id);
  }

  lemma LeaveUndoesWatching(r: RoomState, who: Applicant, now: int, later: int)
    requires RoomInv(r) && who.id != NOBODY && JoinObserver(r, who, now).1.Ok?
    ensures Leave(JoinObserver(r, who, now).0, who.id, later) == r
  {
    SeatedOnceAt(r, who.id);
    NewcomerIsNotHost(r, who.id);
    PoolUndoes(r, who.id);
    VacateStranger(r.slots, who.id);
    VacateUndoesSeat(r.observers, FirstIndex(r.observers, NOBODY), who.id);
    VacateStranger(r.admins, who.id);
  }

  /** Leaving undoes joining, to play or to watch. */
  lemma LeaveUndoesJoin(r: RoomState, who: Applicant, now: int, later: int)
    requires RoomInv(r) && who.id != NOBODY
    ensures Join(r, who, now).1.Ok? ==> Leave(Join(r, who, now).0, who.id, later) == r
    ensures JoinObserver(r, who, now).1.Ok? ==> Leave(JoinObserver(r, who, now).0, who.id, later) == r
  {
    if Join(r, who, now).1.Ok? { LeaveUndoesPlaying(r, who, now, later); }
    if JoinObserver(r, who, now).1.Ok? { LeaveUndoesWatching(r, who, now, later); }
  }

  lemma LeaveUndoesJoinAdmin(r: RoomState, id: Id, now: int, later: int)
    requires RoomInv(r) && id != NOBODY && JoinAdmin(r, id, now).1.Ok?
    ensures Leave(JoinAdmin(r, id, now).0, id, later) == r
  {
    SeatedOnceAt(r, id);
    NewcomerIsNotHost(r, id);
    VacateStranger(r.slots, id);
    VacateStranger(r.observers, id);
    VacateStranger(r.addr, id);
    VacateUndoesSeat(r.admins, FirstIndex(r.admins, NOBODY), id);
  }

  /** When a move is made: in a room that has not ended, whose seats are not frozen, to a seat that exists and is free
      or one's own, by somebody who plays or watches. */
  predicate MayMove(r: RoomState, id: Id, seat: int, watching: bool) {
    var to := if watching then r.observers else r.slots;
    && r.status != Closed && r.status != Locked && !r.hostInGame
    && 0 <= seat < |to| && (to[seat] == NOBODY || to[seat] == id)
    && (id in r.slots || id in r.observers)
  }

  lemma MovedThere(r: RoomState, id: Id, at: nat, wasWatching: bool, seat: nat, watching: bool)
    requires RoomInv(r) && id != NOBODY && r.status != Closed
    requires at < |if wasWatching then r.observers else r.slots|
    requires (if wasWatching then r.observers else r.slots)[at] == id
    requires seat < |if watching then r.observers else r.slots|
    requires (if watching then r.observers else r.slots)[seat] == NOBODY
    ensures var r' := Reseat(r, id, at, wasWatching, seat, watching);
            && SlotOf(r', id) == Some((seat, if watching then Observer else Player))
            && (if wasWatching then r'.observers else r'.slots)[at] == NOBODY
  {
    var r' := Reseat(r, id, at, wasWatching, seat, watching);
    MoveSeats(r, id, at, wasWatching, seat, watching);
    SeatedOnceAt(r', id);
    var area := if watching then r'.observers else r'.slots;
    assert area[seat] == id;
    FirstIndexIs(area, id, seat);
  }

  lemma MovedBack(r: RoomState, id: Id, at: nat, wasWatching: bool, seat: nat, watching: bool)
    requires RoomInv(r) && id != NOBODY && r.status != Closed
    requires at < |if wasWatching then r.observers else r.slots|
    requires (if wasWatching then r.observers else r.slots)[at] == id
    requires seat < |if watching then r.observers else r.slots|
    requires (if watching then r.observers else r.slots)[seat] == NOBODY
    ensures Reseat(Reseat(r, id, at, wasWatching, seat, watching), id, seat, watching, at, wasWatching) == r
  {
    var r' := Reseat(r, id, at, wasWatching, seat, watching);
    var back := Reseat(r', id, seat, watching, at, wasWatching);
    assert back.slots == r.slots;
    assert back.observers == r.observers;
    if id == r.hostId { HostSitsAt(r, at, wasWatching); }
  }

  lemma HostSitsAt(r: RoomState, at: nat, watching: bool)
    requires RoomInv(r) && r.status != Closed
    requires at < |if watching then r.observers else r.slots|
    requires (if watching then r.observers else r.slots)[at] == r.hostId
    ensures r.hostSlot == at && r.hostWatching == watching
  {
    assert r.hostId in if watching then r.observers else r.slots;
    assert r.hostId in if r.hostWatching then r.observers else r.slots;
  }

  /** A move is accepted exactly when it may be made; then the mover sits where they asked and everybody else where
      they sat, and every address is as it was. */
  lemma MoveExactly(r: RoomState, id: Id, seat: int, watching: bool)
    requires RoomInv(r) && id != NOBODY
    ensures var (r', error) := Move(r, id, seat, watching);
            && (error.None? <==> MayMove(r, id, seat, watching))
            && (error.Some? ==> r' == r)
            && (error.None? ==> SlotOf(r', id) == Some((seat, if watching then Observer else Player)))
            && r'.addr == r.addr && r'.admins == r.admins
  {
    SeatedOnceAt(r, id);
    var from := SlotOf(r, id);
    if Move(r, id, seat, watching).1.None? && from != Some((seat, if watching then Observer else Player)) {
      MovedThere(r, id, from.value.0, from.value.1 == Observer, seat, watching);
    }
  }

  /** Places change hands only between the mover and nobody. */
  predicate OnlyMoves(group: seq<Id>, next: seq<Id>, id: Id) {
    && |next| == |group|
    && forall k :: 0 <= k < |group| && group[k] != next[k] ==> group[k] in {id, NOBODY} && next[k] in {id, NOBODY}
  }

  lemma ReseatOnlyMoves(r: RoomState, id: Id, at: nat, wasWatching: bool, seat: nat, watching: bool)
    requires RoomInv(r) && id != NOBODY && r.status != Closed
    requires at < |if wasWatching then r.observers else r.slots|
    requires (if wasWatching then r.observers else r.slots)[at] == id
    requires seat < |if watching then r.observers else r.slots|
    requires (if watching then r.observers else r.slots)[seat] == NOBODY
    ensures var r' := Reseat(r, id, at, wasWatching, seat, watching);
            OnlyMoves(r.slots, r'.slots, id) && OnlyMoves(r.observers, r'.observers, id)
  {
  }

  lemma MoveOnlyMoves(r: RoomState, id: Id, seat: int, watching: bool)
    requires RoomInv(r) && id != NOBODY
    ensures var r' := Move(r, id, seat, watching).0;
            OnlyMoves(r.slots, r'.slots, id) && OnlyMoves(r.observers, r'.observers, id) && r'.admins == r.admins
  {
    var (r', error) := Move(r, id, seat, watching);
    if error.None? && r' != r {
      SeatedOnceAt(r, id);
      var from := SlotOf(r, id).value;
      ReseatOnlyMoves(r, id, from.0, from.1 == Observer, seat, watching);
    }
  }

  /** Nobody else's seat changes. */
  lemma OthersSitStill(r: RoomState, id: Id, seat: int, watching: bool, other: Id)
    requires RoomInv(r) && id != NOBODY && other != NOBODY && other != id
    ensures SlotOf(Move(r, id, seat, watching).0, other) == SlotOf(r, other)
  {
    var r' := Move(r, id, seat, watching).0;
    MoveOnlyMoves(r, id, seat, watching);
    SameIndex(r.slots, r'.slots, id, other);
    SameIndex(r.observers, r'.observers, id, other);
  }

  lemma {:induction false} SameIndex(group: seq<Id>, next: seq<Id>, id: Id, other: Id)
    requires OnlyMoves(group, next, id) && other != id && other != NOBODY
    ensures FirstIndex(next, other) == FirstIndex(group, other)
  {
    if group != [] && group[0] != other {
      assert next[0] != other;
      SameIndex(group[1..], next[1..], id, other);
    }
  }

  lemma MovesBack(r: RoomState, r': RoomState, id: Id, at: nat, wasWatching: bool, seat: nat, watching: bool)
    requires RoomInv(r) && id != NOBODY && r.status != Closed && r.status != Locked && !r.hostInGame
    requires at < |if wasWatching then r.observers else r.slots|
    requires (if wasWatching then r.observers else r.slots)[at] == id
    requires seat < |if watching then r.observers else r.slots|
    requires (if watching then r.observers else r.slots)[seat] == NOBODY
    requires r' == Reseat(r, id, at, wasWatching, seat, watching)
    ensures Move(r', id, at, wasWatching) == (r, None)
  {
    MovedThere(r, id, at, wasWatching, seat, watching);
    MovedBack(r, id, at, wasWatching, seat, watching);
  }

  /** Moving back undoes moving: the room is as it was, the host's whereabouts included. */
  lemma MoveThereAndBack(r: RoomState, id: Id, seat: int, watching: bool)
    requires RoomInv(r) && id != NOBODY && Move(r, id, seat, watching).1.None?
    ensures SlotOf(r, id).Some?
    ensures var (at, kind) := SlotOf(r, id).value;
            Move(Move(r, id, seat, watching).0, id, at, kind == Observer) == (r, None)
  {
    SeatedOnceAt(r, id);
    var from := SlotOf(r, id).value;
    if from != (seat, if watching then Observer else Player) {
      MovesBack(r, Move(r, id, seat, watching).0, id, from.0, from.1 == Observer, seat, watching);
    }
  }
}

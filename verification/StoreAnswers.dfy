/** What the table of rooms answers somebody who wants into a room. */
module StoreAnswers {
  import opened Basics
  import opened Seating
  import opened RoomModel
  import opened RoomInvariants
  import opened RoomRefusals
  import opened RoomSeats
  import opened StoreModel
  import opened StoreInvariants
  import opened SystemCollisions
  import Ipam

  /** A refusal changes nothing and is true: the other room is open and seats the person, or there is no such room, or
      the room's own refusal is; but for the one that comes too late: the person has been seated, and cannot be told
      where to connect to. */
  ghost predicate RefusedTruly(s: StoreState, s': StoreState, id: Id, p: Id, op: RoomOp, e: RoomError) {
    match e
    case AlreadyInAnotherRoom(there) => there != id && Holds(s, there, p) && s' == s
    case NotFound => id !in s.rooms && s' == s
    case AddressRange =>
      && id in s.rooms && HostAddr(s.rooms[id]).Err?
      && id in s'.rooms && Seated(s'.rooms[id], p) && !Seated(s.rooms[id], p)
    case _ => id in s.rooms && True(s.rooms[id], op, e) && s' == s
  }

  ghost predicate AnsweredTruly(s: StoreState, s': StoreState, id: Id, p: Id, op: RoomOp,
                                m: Result<Membership, RoomError>)
  {
    match m
    case Ok(told) => id in s.rooms && id in s'.rooms && TellsTruly(s'.rooms[id], p, told)
    case Err(e) => RefusedTruly(s, s', id, p, op, e)
  }

  lemma HostAddrRefusal(r: RoomState)
    requires RoomInv(r) && r.status != Closed && HostAddr(r).Err?
    ensures HostAddr(r) == Err(AddressRange)
  {
    HostHeld(r);
  }

  lemma MemberSeated(r: RoomState, r': RoomState, p: Id)
    requires RoomInv(r) && RoomInv(r') && 0 <= r.index < Ipam.MAX_ROOMS && r'.index == r.index && p != NOBODY
    requires r'.status != Closed && Seated(r', p) && MembershipFor(r', p).Ok? == HostAddr(r).Ok?
    requires p in r'.addr && (HostAddr(r').Ok? <==> HostAddr(r).Ok?)
    ensures MembershipFor(r', p).Ok? ==> TellsTruly(r', p, MembershipFor(r', p).value)
    ensures MembershipFor(r', p).Err? ==> MembershipFor(r', p).error == AddressRange && HostAddr(r).Err?
  {
    if MembershipFor(r', p).Ok? {
      MemberToldTruly(r', p);
    } else {
      HostAddrRefusal(r');
      var i := FirstIndex(r'.addr, p);
      Ipam.OffsetFromDecodes(r'.index, Ipam.PLAYER_BASE_OFFSET + i);
    }
  }

  lemma JoinSeats(r: RoomState, who: Applicant, now: int)
    requires RoomInv(r) && 0 <= r.index < Ipam.MAX_ROOMS && who.id != NOBODY && Join(r, who, now).1.Ok?
    ensures var r' := Join(r, who, now).0;
            && (MembershipFor(r', who.id).Ok? ==> TellsTruly(r', who.id, MembershipFor(r', who.id).value))
            && (MembershipFor(r', who.id).Err? ==> MembershipFor(r', who.id).error == AddressRange && HostAddr(r).Err?)
            && Seated(r', who.id) && !Seated(r, who.id)
  {
    var r' := Join(r, who, now).0;
    JoinTakesLowest(r, who, now);
    JoinKeeps(r, who, now);
    JoinAddresses(r, who, now);
    MemberSeated(r, r', who.id);
  }

  lemma WatchSeats(r: RoomState, who: Applicant, now: int)
    requires RoomInv(r) && 0 <= r.index < Ipam.MAX_ROOMS && who.id != NOBODY && JoinObserver(r, who, now).1.Ok?
    ensures var r' := JoinObserver(r, who, now).0;
            && (MembershipFor(r', who.id).Ok? ==> TellsTruly(r', who.id, MembershipFor(r', who.id).value))
            && (MembershipFor(r', who.id).Err? ==> MembershipFor(r', who.id).error == AddressRange && HostAddr(r).Err?)
            && Seated(r', who.id) && !Seated(r, who.id)
  {
    var r' := JoinObserver(r, who, now).0;
    WatchExactly(r, who, now);
    JoinObserverKeeps(r, who, now);
    WatchAddresses(r, who, now);
    NewcomerAddresses(r, r', who.id);
    MemberSeated(r, r', who.id);
  }

  lemma ModeratorSeats(r: RoomState, p: Id, now: int)
    requires RoomInv(r) && 0 <= r.index < Ipam.MAX_ROOMS && p != NOBODY && JoinAdmin(r, p, now).1.Ok?
    ensures var (r', seat) := JoinAdmin(r, p, now);
            var m := AdminMembershipFor(r', seat.value);
            && (m.Ok? ==> TellsTruly(r', p, m.value)) && (m.Err? ==> m.error == AddressRange && HostAddr(r).Err?)
            && Seated(r', p) && !Seated(r, p)
  {
    var (r', seat) := JoinAdmin(r, p, now);
    JoinAdminKeeps(r, p, now);
    ModerateExactly(r, p, now);
    ModeratorAddresses(r, p, now);
    if AdminMembershipFor(r', seat.value).Ok? { ModeratorToldTruly(r', p, seat.value); } else { HostAddrRefusal(r'); }
  }

  lemma ElsewhereIsTrue(s: StoreState, p: Id, id: Id)
    requires p != NOBODY && Elsewhere(s, p, id).Some?
    ensures Elsewhere(s, p, id).value.AlreadyInAnotherRoom?
    ensures Elsewhere(s, p, id).value.where != id && Holds(s, Elsewhere(s, p, id).value.where, p)
  {
  }

  /** The room's own answer, carried to the table. */
  lemma RoomAnswers(s: StoreState, id: Id, p: Id, op: RoomOp, r': RoomState, m: Result<Membership, RoomError>)
    requires id in s.rooms && (op.OpJoin? || op.OpObserve? || op.OpAdmin?)
    requires var r := s.rooms[id];
             if RefusalOf(r, op).Some? then r' == r && m == Err(RefusalOf(r, op).value)
             else if m.Ok? then TellsTruly(r', p, m.value)
             else m.error == AddressRange && HostAddr(r).Err? && Seated(r', p) && !Seated(r, p)
    ensures AnsweredTruly(s, With(s, id, r'), id, p, op, m)
  {
    if RefusalOf(s.rooms[id], op).Some? {
      RefusalsAreTrue(s.rooms[id], op);
      assert With(s, id, s.rooms[id]) == s;
    }
  }

  /** What somebody who asks to play is answered, in every case. */
  lemma JoinAnswered(s: StoreState, id: Id, who: Applicant, now: int)
    requires StoreInv(s) && who.id != NOBODY
    ensures var (s', m) := JoinRoom(s, id, who, now);
            AnsweredTruly(s, s', id, who.id, OpJoin(who, now), m)
  {
    if Elsewhere(s, who.id, id).Some? {
      ElsewhereIsTrue(s, who.id, id);
    } else if id in s.rooms {
      if Join(s.rooms[id], who, now).1.Ok? { JoinSeats(s.rooms[id], who, now); }
      RoomAnswers(s, id, who.id, OpJoin(who, now), Join(s.rooms[id], who, now).0, JoinRoom(s, id, who, now).1);
    }
  }

  lemma WatchAnswered(s: StoreState, id: Id, who: Applicant, now: int)
    requires StoreInv(s) && who.id != NOBODY
    ensures var (s', m) := JoinRoomObserver(s, id, who, now);
            AnsweredTruly(s, s', id, who.id, OpObserve(who, now), m)
  {
    if Elsewhere(s, who.id, id).Some? {
      ElsewhereIsTrue(s, who.id, id);
    } else if id in s.rooms {
      if JoinObserver(s.rooms[id], who, now).1.Ok? { WatchSeats(s.rooms[id], who, now); }
      RoomAnswers(s, id, who.id, OpObserve(who, now), JoinObserver(s.rooms[id], who, now).0,
          JoinRoomObserver(s, id, who, now).1);
    }
  }

  lemma ModerateAnswered(s: StoreState, id: Id, p: Id, now: int)
    requires StoreInv(s) && p != NOBODY
    ensures var (s', m) := JoinRoomAdmin(s, id, p, now);
            AnsweredTruly(s, s', id, p, OpAdmin(p, now), m)
  {
    if Elsewhere(s, p, id).Some? {
      ElsewhereIsTrue(s, p, id);
    } else if id in s.rooms {
      if JoinAdmin(s.rooms[id], p, now).1.Ok? { ModeratorSeats(s.rooms[id], p, now); }
      RoomAnswers(s, id, p, OpAdmin(p, now), JoinAdmin(s.rooms[id], p, now).0, JoinRoomAdmin(s, id, p, now).1);
    }
  }

  /** What somebody who asks to open a room is answered: refused for a room they are in, or when all the places are
      taken, and otherwise told the first seat of a new room, as its host. */
  lemma CreateAnswered(s: StoreState, host: Id, id: Id)
    requires StoreInv(s) && host != NOBODY && id != NOBODY && id !in s.issued
    ensures var (s', m) := CreateRoom(s, host, id);
            match m
            case Ok(told) =>
              && id in s'.rooms && s'.rooms == s.rooms[id := s'.rooms[id]]
              && TellsTruly(s'.rooms[id], host, told) && told.isHost && told.slot == 0 && told.kind == Player
            case Err(AlreadyInAnotherRoom(there)) => Holds(s, there, host) && s' == s
            case Err(e) => e == NoRoomIndexes && |s.indexes| >= Ipam.MAX_ROOMS && s' == s
  {
    CreateKeeps(s, host, id);
    if Elsewhere(s, host, NOBODY).Some? {
      ElsewhereIsTrue(s, host, NOBODY);
    } else if FreeIndex(s.indexes, 0) >= Ipam.MAX_ROOMS {
      AllTaken(s.indexes, Ipam.MAX_ROOMS);
    } else {
      var r := CreateRoom(s, host, id).0.rooms[id];
      HostsFirstAddress(id, r.index, host);
      MemberToldTruly(r, host);
      FirstIndexIs(r.slots, host, 0);
    }
  }

  /** The host holds one of the last four places of the pool. */
  predicate HostOutOfReach(r: RoomState) {
    r.hostId in r.addr && r.hostId !in r.addr[..if |r.addr| < Ipam.PLAYER_SLOTS then |r.addr| else Ipam.PLAYER_SLOTS]
  }

  /** What somebody who asks for a fresh ticket is answered. The host's own address is what may be wanting: the host may
      have left a room that has ended, or hold a place nobody can be sent to. */
  lemma ConnectAnswered(s: StoreState, id: Id, p: Id)
    requires StoreInv(s) && p != NOBODY
    ensures match MembershipOf(s, id, p)
            case Ok(told) => id in s.rooms && TellsTruly(s.rooms[id], p, told)
            case Err(NotFound) => id !in s.rooms
            case Err(e) =>
              && id in s.rooms
              && var r := s.rooms[id];
                 if e == NotMember then !Seated(r, p) || (r.status == Closed && r.hostId !in r.addr)
                 else e == AddressRange && Seated(r, p) && HostOutOfReach(r)
  {
    if id in s.rooms {
      MembershipExactly(s, id, p);
      if MembershipOf(s, id, p).Ok? {
        MembershipTellsTruly(s, id, p);
      } else {
        UntoldWhy(s, id, p);
        if Seated(s.rooms[id], p) { HostUntoldWhy(s.rooms[id]); }
      }
    }
  }

  lemma UntoldWhy(s: StoreState, id: Id, p: Id)
    requires StoreInv(s) && id in s.rooms && p != NOBODY && MembershipOf(s, id, p).Err?
    ensures var r := s.rooms[id];
            if Seated(r, p) then HostAddr(r).Err? && MembershipOf(s, id, p).error == HostAddr(r).error
            else MembershipOf(s, id, p).error == NotMember
  {
    var r := s.rooms[id];
    MembershipExactly(s, id, p);
    SeatedOnceAt(r, p);
    if Seated(r, p) {
      var (seat, kind) := SlotOf(r, p).value;
      if kind == Admin {
        Ipam.OffsetFromDecodes(r.index, Ipam.ADMIN_BASE_OFFSET + seat);
      } else {
        assert p in r.addr;
        Ipam.OffsetFromDecodes(r.index, Ipam.PLAYER_BASE_OFFSET + FirstIndex(r.addr, p));
      }
    }
  }

  lemma HostUntoldWhy(r: RoomState)
    requires RoomInv(r) && 0 <= r.index < Ipam.MAX_ROOMS && HostAddr(r).Err?
    ensures if AddressOf(r, r.hostId).None? then HostAddr(r).error == NotMember && r.status == Closed
            && r.hostId !in r.addr
            else HostAddr(r).error == AddressRange && HostOutOfReach(r)
  {
    HostAddrExactly(r);
    if r.status != Closed { HostHeld(r); }
  }

  lemma {:induction false} AllTaken(indexes: map<int, Id>, n: nat)
    requires forall k :: 0 <= k < n ==> k in indexes
    ensures |indexes| >= n
  {
    if n > 0 {
      var fewer := indexes - {n - 1};
      AllTaken(fewer, n - 1);
      assert indexes.Keys == fewer.Keys + {n - 1};
    }
  }
}

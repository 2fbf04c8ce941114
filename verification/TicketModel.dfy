/** The table of credentials a client presents to the relay. */
module TicketModel {
  import opened Basics
  import Ipam

  const LIFETIME: int := 10 * MINUTE

  datatype Claims = Claims(player: Id, room: Id, virtualIP: Ipam.Address)

  datatype Entry = Entry(claims: Claims, expires: int)

  datatype TicketError = Unknown | Expired

  type Tickets = map<Id, Entry>

  function Issue(t: Tickets, tok: Id, claims: Claims, now: int): Tickets {
    t[tok := Entry(claims, now + LIFETIME)]
  }

  function Validate(t: Tickets, tok: Id, now: int): Result<Claims, TicketError> {
    if tok !in t then Err(Unknown)
    else if now > t[tok].expires then Err(Expired)
    else Ok(t[tok].claims)
  }

  function Renew(t: Tickets, tok: Id, now: int): (Tickets, Option<TicketError>) {
    if tok !in t then (t, Some(Unknown))
    else if now > t[tok].expires then (t, Some(Expired))
    else (t[tok := t[tok].(expires := now + LIFETIME)], None)
  }

  function RevokePlayerRoom(t: Tickets, player: Id, room: Id): Tickets {
    map tok | tok in t && !(t[tok].claims.player == player && t[tok].claims.room == room) :: t[tok]
  }

  function RevokeRooms(t: Tickets, rooms: set<Id>): Tickets {
    map tok | tok in t && t[tok].claims.room !in rooms :: t[tok]
  }

  function Purge(t: Tickets, now: int): Tickets {
    map tok | tok in t && !(now > t[tok].expires) :: t[tok]
  }

  /** A purge is never noticed: an answer given at that moment or later is the same but for the word used for
      a ticket that was already dead. */
  lemma PurgeUnnoticed(t: Tickets, tok: Id, purged: int, now: int)
    requires purged <= now
    ensures Validate(Purge(t, purged), tok, now).Ok? <==> Validate(t, tok, now).Ok?
    ensures Validate(t, tok, now).Ok? ==> Validate(Purge(t, purged), tok, now) == Validate(t, tok, now)
  {
  }
}

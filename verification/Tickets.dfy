/** The ticket table as the record the coordinator updates in place. */
module TicketStores {
  import opened Basics
  import opened TicketModel

  class TicketStore {
    var tickets: Tickets

    constructor ()
      ensures tickets == map[]
    {
      tickets := map[];
    }

    method Issue(tok: Id, claims: Claims, now: int)
      modifies this
      ensures tickets == TicketModel.Issue(old(tickets), tok, claims, now)
    {
      tickets := tickets[tok := Entry(claims, now + LIFETIME)];
    }

    method Validate(tok: Id, now: int) returns (answer: Result<Claims, TicketError>)
      ensures answer == TicketModel.Validate(tickets, tok, now)
    {
      if tok !in tickets {
        return Err(Unknown);
      }
      if now > tickets[tok].expires {
        return Err(Expired);
      }
      answer := Ok(tickets[tok].claims);
    }

    method Renew(tok: Id, now: int) returns (error: Option<TicketError>)
      modifies this
      ensures (tickets, error) == TicketModel.Renew(old(tickets), tok, now)
    {
      if tok !in tickets {
        return Some(Unknown);
      }
      if now > tickets[tok].expires {
        return Some(Expired);
      }
      tickets := tickets[tok := tickets[tok].(expires := now + LIFETIME)];
      error := None;
    }

    method RevokePlayerRoom(player: Id, room: Id)
      modifies this
      ensures tickets == TicketModel.RevokePlayerRoom(old(tickets), player, room)
    {
      var todo := tickets.Keys;
      while todo != {}
        invariant todo <= old(tickets).Keys
        invariant tickets == map tok | tok in old(tickets) && (tok in todo ||
          !(old(tickets)[tok].claims.player == player && old(tickets)[tok].claims.room == room)) :: old(tickets)[tok]
        decreases |todo|
      {
        var tok :| tok in todo;
        todo := todo - {tok};
        if tickets[tok].claims.player == player && tickets[tok].claims.room == room {
          tickets := tickets - {tok};
        }
      }
    }

    method RevokeRoom(room: Id)
      modifies this
      ensures tickets == RevokeRooms(old(tickets), {room})
    {
      var todo := tickets.Keys;
      while todo != {}
        invariant todo <= old(tickets).Keys
        invariant tickets == map tok | tok in old(tickets) &&
          (tok in todo || old(tickets)[tok].claims.room != room) :: old(tickets)[tok]
        decreases |todo|
      {
        var tok :| tok in todo;
        todo := todo - {tok};
        if tickets[tok].claims.room == room {
          tickets := tickets - {tok};
        }
      }
    }

    method Purge(now: int)
      modifies this
      ensures tickets == TicketModel.Purge(old(tickets), now)
    {
      var todo := tickets.Keys;
      while todo != {}
        invariant todo <= old(tickets).Keys
        invariant tickets == map tok | tok in old(tickets) &&
          (tok in todo || !(now > old(tickets)[tok].expires)) :: old(tickets)[tok]
        decreases |todo|
      {
        var tok :| tok in todo;
        todo := todo - {tok};
        if now > tickets[tok].expires {
          tickets := tickets - {tok};
        }
      }
    }
  }
}

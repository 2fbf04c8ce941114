/** The life of one ticket through any use of the table. */
module TicketRuns {
  import opened Basics
  import opened TicketModel

  /** One call on the table, and the moment it is made. */
  datatype Use =
    | Mint(tok: Id, claims: Claims)
    | Extend(tok: Id)
    | TakeBack(player: Id, room: Id)
    | EndRooms(rooms: set<Id>)
    | Clean

  datatype Moment = Moment(at: int, use: Use)

  function Used(t: Tickets, m: Moment): Tickets {
    match m.use
    case Mint(tok, claims) => Issue(t, tok, claims, m.at)
    case Extend(tok) => Renew(t, tok, m.at).0
    case TakeBack(player, room) => RevokePlayerRoom(t, player, room)
    case EndRooms(rooms) => RevokeRooms(t, rooms)
    case Clean => Purge(t, m.at)
  }

  function UsedAll(t: Tickets, moments: seq<Moment>): Tickets
    decreases |moments|
  {
    if moments == [] then t else UsedAll(Used(t, moments[0]), moments[1..])
  }

  /** The clock does not go back from `clock` to `now`. */
  predicate Between(clock: int, moments: seq<Moment>, now: int)
    decreases |moments|
  {
    if moments == [] then clock <= now else clock <= moments[0].at && Between(moments[0].at, moments[1..], now)
  }

  predicate Revokes(u: Use, c: Claims) {
    u == TakeBack(c.player, c.room) || (u.EndRooms? && c.room in u.rooms)
  }

  /** Some call takes back a ticket of these claims. */
  predicate Revoked(moments: seq<Moment>, c: Claims) {
    moments != [] && (Revokes(moments[0].use, c) || Revoked(moments[1..], c))
  }

  /** No other ticket is minted under this token. */
  predicate OwnToken(moments: seq<Moment>, tok: Id) {
    moments == [] || (!(moments[0].use.Mint? && moments[0].use.tok == tok) && OwnToken(moments[1..], tok))
  }

  /** How long a ticket good until `until` is good for: each renewal in time makes it a lifetime from then, and one that
      comes too late makes no difference. */
  function GoodUntil(until: int, moments: seq<Moment>, tok: Id): int
    decreases |moments|
  {
    if moments == [] then until
    else
      var m := moments[0];
      GoodUntil(if m.use == Extend(tok) && m.at <= until then m.at + LIFETIME else until, moments[1..], tok)
  }

  lemma {:induction false} GoneStaysGone(t: Tickets, tok: Id, moments: seq<Moment>)
    requires tok !in t && OwnToken(moments, tok)
    ensures tok !in UsedAll(t, moments)
    decreases |moments|
  {
    if moments != [] {
      GoneStaysGone(Used(t, moments[0]), tok, moments[1..]);
    }
  }

  lemma {:induction false} TooLateToRenew(until: int, clock: int, moments: seq<Moment>, tok: Id, now: int)
    requires until < clock && Between(clock, moments, now)
    ensures GoodUntil(until, moments, tok) == until < now
    decreases |moments|
  {
    if moments != [] {
      TooLateToRenew(until, moments[0].at, moments[1..], tok, now);
    }
  }

  /** One call: the ticket is still there with its claims, for as long as it is good; or it was taken back; or it had
      run out and was purged. */
  lemma OneUse(t: Tickets, tok: Id, m: Moment)
    requires tok in t && !(m.use.Mint? && m.use.tok == tok)
    ensures var e, later := t[tok], Used(t, m);
            var until := if m.use == Extend(tok) && m.at <= e.expires then m.at + LIFETIME else e.expires;
            if Revokes(m.use, e.claims) then tok !in later
            else if tok in later then later[tok] == Entry(e.claims, until)
            else m.use.Clean? && e.expires < m.at
  {
  }

  /** A ticket validates, after any use of the table, exactly until its time runs out as its renewals in time have set
      it, unless it was taken back; purges make no difference. */
  lemma {:induction false} GoodExactly(t: Tickets, clock: int, tok: Id, moments: seq<Moment>, now: int)
    requires tok in t && OwnToken(moments, tok) && Between(clock, moments, now)
    ensures Validate(UsedAll(t, moments), tok, now).Ok? <==>
              !Revoked(moments, t[tok].claims) && now <= GoodUntil(t[tok].expires, moments, tok)
    ensures Validate(UsedAll(t, moments), tok, now).Ok? ==>
              Validate(UsedAll(t, moments), tok, now).value == t[tok].claims
    decreases |moments|
  {
    if moments != [] {
      var m, rest, later := moments[0], moments[1..], Used(t, moments[0]);
      OneUse(t, tok, m);
      if tok in later {
        GoodExactly(later, m.at, tok, rest, now);
      } else {
        GoneStaysGone(later, tok, rest);
        if m.use.Clean? { TooLateToRenew(t[tok].expires, m.at, rest, tok, now); }
      }
    }
  }

  /** Every renewal of the token comes before it has run out. */
  predicate RenewedInTime(until: int, moments: seq<Moment>, tok: Id)
    decreases |moments|
  {
    moments == [] ||
    if moments[0].use == Extend(tok) then
      moments[0].at <= until && RenewedInTime(moments[0].at + LIFETIME, moments[1..], tok)
    else RenewedInTime(until, moments[1..], tok)
  }

  /** When the token was last issued or renewed. */
  function LastRenewed(issued: int, moments: seq<Moment>, tok: Id): int
    decreases |moments|
  {
    if moments == [] then issued
    else LastRenewed(if moments[0].use == Extend(tok) then moments[0].at else issued, moments[1..], tok)
  }

  lemma {:induction false} GoodFromLastRenewal(issued: int, moments: seq<Moment>, tok: Id)
    requires RenewedInTime(issued + LIFETIME, moments, tok)
    ensures GoodUntil(issued + LIFETIME, moments, tok) == LastRenewed(issued, moments, tok) + LIFETIME
    decreases |moments|
  {
    if moments != [] {
      GoodFromLastRenewal(if moments[0].use == Extend(tok) then moments[0].at else issued, moments[1..], tok);
    }
  }

  /** A ticket issued and then always renewed in time is good for one lifetime after the last renewal, exactly, unless
      it was taken back. */
  lemma LeaseExactly(t: Tickets, issued: int, tok: Id, c: Claims, moments: seq<Moment>, now: int)
    requires OwnToken(moments, tok) && Between(issued, moments, now) && RenewedInTime(issued + LIFETIME, moments, tok)
    ensures Validate(UsedAll(Issue(t, tok, c, issued), moments), tok, now).Ok? <==>
              !Revoked(moments, c) && now <= LastRenewed(issued, moments, tok) + LIFETIME
  {
    GoodExactly(Issue(t, tok, c, issued), issued, tok, moments, now);
    GoodFromLastRenewal(issued, moments, tok);
  }
}

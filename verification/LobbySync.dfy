/** How the app's belief about which room its player is in is brought back to what the coordinator knows. */
module LobbySync {
  import opened Basics
  import opened RoomModel
  import opened StoreModel
  import opened StoreInvariants
  import opened SystemModel
  import opened SystemTheorems
  import opened SystemHosts
  import opened Chat
  import opened RoomStores

  const LOBBY: Id := "lobby"

  datatype Request = Request(room: Id, lobbyCursor: nat, roomCursor: nat)

  /** What the coordinator knows of a player and a room they ask after: where it has the player, empty when nowhere,
      and of the room asked after whether it is gone, held, and seats the player. */
  datatype Standing = Standing(room: Id, gone: bool, held: bool, seated: bool)

  datatype Response = Response(
    standing: Standing, lobbyChat: seq<Message>, lobbyCursor: nat, roomChat: seq<Message>, roomCursor: nat)

  /** Where the coordinator has the player, empty when nowhere. */
  ghost function Where(s: StoreState, p: Id): Id {
    match RoomOf(s, p) case None => NOBODY case Some(id) => id
  }

  predicate Gone(s: StoreState, b: Id) {
    b != NOBODY && b !in s.rooms
  }

  predicate HeldRoom(s: StoreState, b: Id) {
    b != NOBODY && b in s.rooms
  }

  predicate SeatedIn(s: StoreState, b: Id, p: Id) {
    HeldRoom(s, b) && SlotOf(s.rooms[b], p).Some?
  }

  ghost function StandingOf(s: StoreState, p: Id, b: Id): Standing {
    Standing(Where(s, p), Gone(s, b), HeldRoom(s, b), SeatedIn(s, b, p))
  }

  /** The conversation of a room is only for those seated in it. */
  function SyncAnswer(st: Standing, lobby: seq<Message>, talk: seq<Message>, req: Request): Response {
    var lobbyChat := SinceSpec(LastN(lobby, HISTORY), req.lobbyCursor);
    var roomChat := if st.seated then SinceSpec(LastN(talk, HISTORY), req.roomCursor) else [];
    Response(st, lobbyChat, CursorAfter(req.lobbyCursor, lobbyChat),
             roomChat, if st.seated then CursorAfter(req.roomCursor, roomChat) else 0)
  }

  method WhereIs(server: RoomStore, p: Id) returns (room: Id)
    requires server.Valid()
    ensures room == Where(server.View(), p)
  {
    var found := server.RoomOf(p);
    room := if found.Some? then found.value else NOBODY;
  }

  /** The sync, and the refresh that follows when the coordinator names another room than the one asked after. */
  method AskAfter(server: RoomStore, p: Id, b: Id, refreshLost: bool) returns (st: Standing, refreshed: bool)
    requires server.Valid()
    ensures st == StandingOf(server.View(), p, b)
    ensures refreshed <==> st.room != NOBODY && st.room != b && !refreshLost && Refreshes(server.View(), p)
  {
    var room := WhereIs(server, p);
    var gone, held, seated := SeatAt(server, p, b);
    st := Standing(room, gone, held, seated);
    refreshed := false;
    if st.room != NOBODY && st.room != b && !refreshLost {
      refreshed := TryRefresh(server, p, st.room);
    }
  }

  method SeatAt(server: RoomStore, p: Id, b: Id) returns (gone: bool, held: bool, seated: bool)
    ensures gone == Gone(server.View(), b) && held == HeldRoom(server.View(), b)
    ensures seated == SeatedIn(server.View(), b, p)
  {
    gone, held, seated := false, false, false;
    if b != NOBODY {
      if b !in server.rooms {
        gone := true;
      } else {
        held := true;
        var at := server.rooms[b].SlotOf(p);
        seated := at.Some?;
      }
    }
  }

  method Answer(st: Standing, board: Board, req: Request) returns (resp: Response)
    requires board.Valid()
    ensures resp == SyncAnswer(st, board.Log(LOBBY), board.Log(req.room), req)
  {
    var lobbyChat := board.Since(LOBBY, req.lobbyCursor);
    var roomChat, roomCursor := [], 0;
    if st.seated {
      roomChat := board.Since(req.room, req.roomCursor);
      roomCursor := CursorAfter(req.roomCursor, roomChat);
    }
    resp := Response(st, lobbyChat, CursorAfter(req.lobbyCursor, lobbyChat), roomChat, roomCursor);
  }

  /** Whether the room the coordinator names gives the player a fresh ticket. */
  method TryRefresh(server: RoomStore, p: Id, room: Id) returns (granted: bool)
    requires room == Where(server.View(), p)
    ensures granted <==> Refreshes(server.View(), p)
  {
    var info := server.Membership(room, p);
    granted := info.Ok?;
  }

  /** The belief after an answer. It was `asked` when the request went out and is `now` when the answer comes. */
  function Believed(asked: Id, now: Id, st: Standing, refreshed: bool): Id {
    var adopted := if st.room != NOBODY && st.room != asked && now == asked && refreshed then st.room else now;
    if st.gone && asked != NOBODY then NOBODY
    else if st.held && !st.seated && asked != NOBODY then NOBODY
    else adopted
  }

  ghost predicate Refreshes(s: StoreState, p: Id) {
    MembershipOf(s, Where(s, p), p).Ok?
  }

  /** The belief after one poll that gets through, with nothing else happening meanwhile. */
  ghost function Polled(s: StoreState, p: Id, b: Id, refreshed: bool): Id {
    Believed(b, b, StandingOf(s, p, b), refreshed && Refreshes(s, p))
  }

  datatype Talk = Talk(room: Id, kept: seq<Message>, cursor: nat)

  /** What the app holds: its belief, the lobby's conversation, and one room's. */
  datatype AppState = AppState(room: Id, lobbyChat: seq<Message>, lobbyCursor: nat, talk: Talk)

  function Unanswered(a: AppState): AppState {
    if a.talk.room != a.room then a.(talk := Talk(a.room, [], 0)) else a
  }

  function Taken(a: AppState, asked: Id, resp: Response, refreshed: bool): AppState {
    AppState(
      Believed(asked, a.room, resp.standing, refreshed),
      AppendChat(a.lobbyChat, resp.lobbyChat), resp.lobbyCursor,
      if a.talk.room == asked then Talk(asked, AppendChat(a.talk.kept, resp.roomChat), resp.roomCursor) else a.talk)
  }

  function Folded(a: AppState, st: Standing, lobby: seq<Message>, talk: seq<Message>, refreshed: bool): AppState {
    var ready := Unanswered(a);
    Taken(ready, a.room, SyncAnswer(st, lobby, talk, Request(a.room, a.lobbyCursor, ready.talk.cursor)), refreshed)
  }

  ghost function Synced(a: AppState, s: StoreState, p: Id, lobby: seq<Message>, talk: seq<Message>, reaches: bool)
    : AppState
  {
    Folded(a, StandingOf(s, p, a.room), lobby, talk, reaches && Refreshes(s, p))
  }

  lemma RefreshOnlyWhenElsewhere(a: AppState, st: Standing, lobby: seq<Message>, talk: seq<Message>, refreshed: bool)
    ensures Folded(a, st, lobby, talk, refreshed) ==
            Folded(a, st, lobby, talk, st.room != NOBODY && st.room != a.room && refreshed)
  {
  }

  /** What a poll does to the belief. */
  lemma SyncedRoom(a: AppState, s: StoreState, p: Id, lobby: seq<Message>, talk: seq<Message>, reaches: bool)
    ensures Synced(a, s, p, lobby, talk, reaches).room == Polled(s, p, a.room, reaches)
  {
  }

  class App {
    const player: Id
    var roomID: Id
    var lobbyChat: seq<Message>
    var lobbyCursor: nat
    var roomChat: seq<Message>
    var roomCursor: nat
    var chatRoom: Id

    constructor (p: Id, saved: Id)
      ensures player == p && View() == AppState(saved, [], 0, Talk(NOBODY, [], 0))
    {
      player, roomID := p, saved;
      lobbyChat, lobbyCursor, roomChat, roomCursor, chatRoom := [], 0, [], 0, NOBODY;
    }

    ghost function View(): AppState
      reads this
    {
      AppState(roomID, lobbyChat, lobbyCursor, Talk(chatRoom, roomChat, roomCursor))
    }

    /** One poll. `lost` and `refreshLost` say whether the sync and the refresh fail to get through. */
    method Pull(server: RoomStore, board: Board, lost: bool, refreshLost: bool)
      requires server.Valid() && board.Valid()
      modifies this
      ensures View() == if lost then Unanswered(old(View())) else
                Synced(old(View()), old(server.View()), player, board.Log(LOBBY), board.Log(old(roomID)), !refreshLost)
    {
      var st, refreshed := AskAfter(server, player, roomID, refreshLost);
      RefreshOnlyWhenElsewhere(View(), st, board.Log(LOBBY), board.Log(roomID),
                               !refreshLost && Refreshes(server.View(), player));
      Exchange(st, board, lost, refreshed);
    }

    method Exchange(st: Standing, board: Board, lost: bool, refreshed: bool)
      requires board.Valid()
      modifies this
      ensures View() == if lost then Unanswered(old(View())) else
                Folded(old(View()), st, board.Log(LOBBY), board.Log(old(roomID)), refreshed)
    {
      var req := Request(roomID, lobbyCursor, if chatRoom != roomID then 0 else roomCursor);
      if lost {
        StartOver();
        return;
      }
      var resp := Answer(st, board, req);
      StartOver();
      Fold(roomID, resp, refreshed);
    }

    /** The conversation held is thrown away when it belongs to another room than the one asked after. */
    method StartOver()
      modifies this`roomChat, this`roomCursor, this`chatRoom
      ensures View() == Unanswered(old(View()))
    {
      if chatRoom != roomID {
        roomChat, roomCursor, chatRoom := [], 0, roomID;
      }
    }

    /** Adopts the room the coordinator names, if the app still believes what it did when it asked and the room gave a
        ticket; then clears a room that is gone or has no seat for the player; then takes in the chat. */
    method Fold(asked: Id, resp: Response, refreshed: bool)
      modifies this
      ensures View() == Taken(old(View()), asked, resp, refreshed)
    {
      if resp.standing.room != NOBODY && resp.standing.room != asked && roomID == asked && refreshed {
        roomID := resp.standing.room;
      }
      if resp.standing.gone && asked != NOBODY {
        roomID := NOBODY;
      }
      if resp.standing.held && !resp.standing.seated && asked != NOBODY {
        roomID := NOBODY;
      }
      lobbyChat := AppendChat(lobbyChat, resp.lobbyChat);
      lobbyCursor := resp.lobbyCursor;
      if chatRoom == asked {
        roomChat := AppendChat(roomChat, resp.roomChat);
        roomCursor := resp.roomCursor;
      }
    }
  }

  /** A player still seated in a room that has ended and is not swept yet. */
  predicate Lingers(s: StoreState, b: Id, p: Id) {
    SeatedIn(s, b, p) && s.rooms[b].status == Closed
  }

  lemma WhereIsHeld(s: StoreState, p: Id)
    requires StoreInv(s) && p != NOBODY
    ensures Where(s, p) != NOBODY ==> Holds(s, Where(s, p), p) && SeatedIn(s, Where(s, p), p)
    ensures Where(s, p) == NOBODY ==> forall id :: !Holds(s, id, p)
  {
  }

  lemma SeatedOpenIsWhere(s: StoreState, p: Id, b: Id)
    requires StoreInv(s) && p != NOBODY && SeatedIn(s, b, p)
    ensures s.rooms[b].status == Closed || b == Where(s, p)
  {
    if s.rooms[b].status != Closed {
      assert Holds(s, b, p);
      RoomOfIs(s, p, b);
    }
  }

  /** What one poll makes of a belief, case by case of what the belief was. */
  lemma PollDoes(s: StoreState, p: Id, b: Id, refreshed: bool)
    requires StoreInv(s) && p != NOBODY
    ensures var w := Where(s, p);
            Polled(s, p, b, refreshed) ==
              if b == w then b
              else if b != NOBODY && !SeatedIn(s, b, p) then NOBODY
              else if w != NOBODY && refreshed && Refreshes(s, p) then w
              else b
  {
    WhereIsHeld(s, p);
  }

  /** A belief that is right is left alone, whether or not the refresh would work. */
  lemma RightStaysRight(s: StoreState, p: Id, refreshed: bool)
    requires StoreInv(s) && p != NOBODY
    ensures Polled(s, p, Where(s, p), refreshed) == Where(s, p)
  {
    PollDoes(s, p, Where(s, p), refreshed);
  }

  /** Whatever it began with, the app is never left believing in a room its player has no seat in. */
  lemma NeverElsewhere(s: StoreState, p: Id, b: Id, refreshed: bool)
    requires StoreInv(s) && p != NOBODY
    ensures Polled(s, p, b, refreshed) == NOBODY || SeatedIn(s, Polled(s, p, b, refreshed), p)
  {
    PollDoes(s, p, b, refreshed);
    WhereIsHeld(s, p);
  }

  /** From any belief, two polls make it right, exactly when a wrong belief has somewhere to go: a player the
      coordinator has nowhere must not linger in the room believed in, and one it has somewhere must be able to get a
      ticket there. */
  lemma TwoPollsExactly(s: StoreState, p: Id, b: Id)
    requires StoreInv(s) && p != NOBODY
    ensures Polled(s, p, Polled(s, p, b, true), true) == Where(s, p) <==>
              b == Where(s, p) || (if Where(s, p) == NOBODY then !Lingers(s, b, p) else Refreshes(s, p))
  {
    PollDoes(s, p, b, true);
    PollDoes(s, p, Polled(s, p, b, true), true);
    WhereIsHeld(s, p);
    if SeatedIn(s, b, p) { SeatedOpenIsWhere(s, p, b); }
  }

  /** One poll is not enough exactly when, besides, the belief is in a room the player has no seat in while the
      coordinator has them in another: the same poll adopts the one and then clears for the other. */
  lemma OnePollExactly(s: StoreState, p: Id, b: Id)
    requires StoreInv(s) && p != NOBODY
    ensures Polled(s, p, b, true) == Where(s, p) <==>
              || b == Where(s, p)
              || (if Where(s, p) == NOBODY then !Lingers(s, b, p)
                  else Refreshes(s, p) && (b == NOBODY || SeatedIn(s, b, p)))
  {
    PollDoes(s, p, b, true);
    WhereIsHeld(s, p);
    if SeatedIn(s, b, p) { SeatedOpenIsWhere(s, p, b); }
  }

  /** The app itself: whatever it holds and whatever is said meanwhile, after two polls that get through its belief is
      right, exactly as `TwoPollsExactly` has it. */
  lemma AppIsRightAfterTwoPolls(a: AppState, s: StoreState, p: Id, lobby: seq<Message>, talk: seq<Message>,
                                lobby': seq<Message>, talk': seq<Message>)
    requires StoreInv(s) && p != NOBODY
    ensures Synced(Synced(a, s, p, lobby, talk, true), s, p, lobby', talk', true).room == Where(s, p) <==>
              || a.room == Where(s, p)
              || (if Where(s, p) == NOBODY then !Lingers(s, a.room, p) else Refreshes(s, p))
  {
    SyncedRoom(a, s, p, lobby, talk, true);
    SyncedRoom(Synced(a, s, p, lobby, talk, true), s, p, lobby', talk', true);
    TwoPollsExactly(s, p, a.room);
  }

  /** Once the room believed in has been swept, two polls are enough again for a player the coordinator has nowhere. */
  lemma ConvergesAfterSweep(s: StoreState, hosts: Option<map<Id, HostFacts>>, now: int, p: Id, b: Id)
    requires StoreInv(s) && p != NOBODY && b !in Tick(s, hosts, now).rooms
    ensures var after := Tick(s, hosts, now);
            Where(after, p) == NOBODY || Refreshes(after, p) ==>
              Polled(after, p, Polled(after, p, b, true), true) == Where(after, p)
  {
    TickKeeps(s, hosts, now);
    TwoPollsExactly(Tick(s, hosts, now), p, b);
  }

  /** In any run of the coordinator that hands no room over, from any belief at all, two polls make the app right about
      its player, unless the player lingers in an ended room and is in no other. */
  lemma TwoPollsInEveryRun(clock: int, events: seq<SystemModel.Event>, p: Id, b: Id)
    requires FairRun(Start(clock), events) && p != NOBODY
    requires forall e :: e in events ==> !e.act.HandOver?
    ensures var s := After(clock, events).store;
            Polled(s, p, Polled(s, p, b, true), true) == Where(s, p) <==>
              !(Where(s, p) == NOBODY && Lingers(s, b, p))
  {
    Reached(clock, events);
    var s := After(clock, events).store;
    TwoPollsExactly(s, p, b);
    WhereIsHeld(s, p);
    if Where(s, p) != NOBODY {
      WithoutHandOverAllConnect(clock, events, Where(s, p), p);
    }
  }

  /** An answer that crosses a change of mind never moves the app into a room it did not ask about; at worst it clears
      a room just entered, and two more polls put that right. */
  lemma CrossedAnswerHeals(s: StoreState, p: Id, asked: Id, now: Id, later: StoreState)
    requires StoreInv(s) && StoreInv(later) && p != NOBODY && now != asked
    ensures var got := Believed(asked, now, StandingOf(s, p, asked), Refreshes(s, p));
            && got in {now, NOBODY}
            && (Refreshes(later, p) || (Where(later, p) == NOBODY && !Lingers(later, got, p)) ==>
                  Polled(later, p, Polled(later, p, got, true), true) == Where(later, p))
  {
    var got := Believed(asked, now, StandingOf(s, p, asked), Refreshes(s, p));
    TwoPollsExactly(later, p, got);
    WhereIsHeld(later, p);
  }
}

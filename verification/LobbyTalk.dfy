/** What the app shows of the lobby's conversation and of its room's, over any run of lines and polls. */
module LobbyTalk {
  import opened Basics
  import opened Chat
  import RoomModel
  import opened StoreModel
  import opened StoreInvariants
  import opened LobbySync

  /** What can happen to the board and one app: a line said in some channel, a channel dropped with its room, a poll
      that gets through and one that does not, and the player entering or leaving a room of their own accord. */
  datatype Happening =
    | Said(channel: Id, said: Id)
    | Dropped(channel: Id)
    | Polls(st: Standing, refreshed: bool)
    | PollLost
    | Enters(room: Id)

  /** The board's logs and counter, and one app. */
  datatype World = World(logs: map<Id, seq<Message>>, nextID: nat, app: AppState)

  function LogOf(w: World, c: Id): seq<Message> {
    if c in w.logs then w.logs[c] else []
  }

  function Happens(w: World, h: Happening): World {
    match h
    case Said(c, said) =>
      w.(logs := w.logs[c := LogOf(w, c) + [Message(w.nextID + 1, said)]], nextID := w.nextID + 1)
    case Dropped(c) => w.(logs := w.logs - {c})
    case Polls(st, refreshed) =>
      w.(app := Folded(w.app, st, LogOf(w, LOBBY), LogOf(w, w.app.room), refreshed))
    case PollLost => w.(app := Unanswered(w.app))
    case Enters(room) => w.(app := w.app.(room := room))
  }

  function Later(w: World, hs: seq<Happening>): World {
    if hs == [] then w else Happens(Later(w, hs[..|hs| - 1]), hs[|hs| - 1])
  }

  /** What one happening is to a client of one channel. */
  function ToldOne(h: Happening, c: Id): seq<Event> {
    match h
    case Said(channel, said) => if channel == c then [Say(said)] else [SayElsewhere]
    case Polls(_, _) => [Poll]
    case _ => []
  }

  function Told(hs: seq<Happening>, c: Id): seq<Event> {
    if hs == [] then [] else Told(hs[..|hs| - 1], c) + ToldOne(hs[|hs| - 1], c)
  }

  /** Such a client, holding what the app holds. */
  predicate Shows(w: World, c: Id, kept: seq<Message>, cursor: nat, s: Line) {
    s.log == LogOf(w, c) && s.nextID == w.nextID && s.kept == kept && s.cursor == cursor
  }

  lemma RunOneMore(s: Line, events: seq<Event>, more: seq<Event>)
    requires |more| <= 1
    ensures Chat.Run(s, events + more) ==
            if more == [] then Chat.Run(s, events) else Chat.Step(Chat.Run(s, events), more[0])
  {
    if more == [] { assert events + more == events; } else { assert (events + more)[..|events|] == events; }
  }

  /** The app's poll of the real board and the coordinator's real tables is one of these polls. */
  lemma PullIsAPoll(board: Board, a: AppState, s: StoreState, p: Id, reaches: bool)
    ensures Synced(a, s, p, board.Log(LOBBY), board.Log(a.room), reaches) ==
            Happens(World(board.logs, board.nextID, a),
                    Polls(StandingOf(s, p, a.room), reaches && Refreshes(s, p))).app
  {
  }

  /** One poll that gets through does to the lobby's lines and cursor what a client's poll does. */
  lemma PollOfLobby(a: AppState, st: Standing, s: Line, talk: seq<Message>, refreshed: bool)
    requires s.kept == a.lobbyChat && s.cursor == a.lobbyCursor
    ensures var a', s' := Folded(a, st, s.log, talk, refreshed), Chat.Step(s, Poll);
            a'.lobbyChat == s'.kept && a'.lobbyCursor == s'.cursor
  {
  }

  /** And one made while seated in the room asked after does so to that room's, begun afresh when what is held belongs
      to another room. */
  lemma PollOfRoom(a: AppState, st: Standing, lobby: seq<Message>, s: Line, refreshed: bool)
    requires st.seated
    requires if a.talk.room == a.room then s.kept == a.talk.kept && s.cursor == a.talk.cursor
             else s.kept == [] && s.cursor == 0
    ensures var s' := Chat.Step(s, Poll);
            Folded(a, st, lobby, s.log, refreshed).talk == Talk(a.room, s'.kept, s'.cursor)
  {
  }

  lemma LobbyFollowsOne(w: World, h: Happening, s: Line)
    requires h != Dropped(LOBBY) && Shows(w, LOBBY, w.app.lobbyChat, w.app.lobbyCursor, s)
    ensures var w', more := Happens(w, h), ToldOne(h, LOBBY);
            Shows(w', LOBBY, w'.app.lobbyChat, w'.app.lobbyCursor, if more == [] then s else Chat.Step(s, more[0]))
  {
    if h.Polls? { PollOfLobby(w.app, h.st, s, LogOf(w, w.app.room), h.refreshed); }
  }

  /** Whatever happens, the app holds of the lobby what a client of that one channel holds. */
  lemma {:induction false} LobbyFollows(w: World, hs: seq<Happening>, s: Line)
    requires Dropped(LOBBY) !in hs && Shows(w, LOBBY, w.app.lobbyChat, w.app.lobbyCursor, s)
    ensures var w' := Later(w, hs);
            Shows(w', LOBBY, w'.app.lobbyChat, w'.app.lobbyCursor, Chat.Run(s, Told(hs, LOBBY)))
  {
    if hs != [] {
      var front, h := hs[..|hs| - 1], hs[|hs| - 1];
      LobbyFollows(w, front, s);
      LobbyFollowsOne(Later(w, front), h, Chat.Run(s, Told(front, LOBBY)));
      RunOneMore(s, Told(front, LOBBY), ToldOne(h, LOBBY));
    }
  }

  /** Where a client that begins with nothing begins: at most a hundred lines back. */
  function Beginning(log: seq<Message>): nat {
    if |log| <= HISTORY then 0 else |log| - HISTORY
  }

  /** How much of a channel's log has been handed over, when the client had it all at the start. */
  function Upto(log: seq<Message>, nextID: nat, hs: seq<Happening>, c: Id): nat {
    Seen(Chat.Step(Line(log, nextID, 0, [], []), Poll), Told(hs, c), |log|)
  }

  /** At most a hundred lines come in the channel between one poll and the next. */
  predicate Timely(log: seq<Message>, nextID: nat, hs: seq<Happening>, c: Id) {
    Prompt(Chat.Step(Line(log, nextID, 0, [], []), Poll), Told(hs, c), |log|)
  }

  lemma CaughtUp(s: Line, hs: seq<Happening>, c: Id, upto: nat)
    requires hs != [] && hs[|hs| - 1].Polls?
    ensures Seen(s, Told(hs, c), upto) == |Chat.Run(s, Told(hs, c)).log|
  {
    var front := Told(hs[..|hs| - 1], c);
    assert Told(hs, c)[..|front|] == front && Told(hs, c) == front + [Poll];
  }

  /** The lobby, over any run: after a new app's first poll and then any lines, polls, lost polls and comings and
      goings, with at most a hundred lines in the lobby between polls, the app shows exactly the last two hundred lines
      of the lobby's log from where it began to where it last polled: each once, in order, none left out. */
  lemma LobbyIsTheLog(w: World, first: Standing, refreshed: bool, hs: seq<Happening>)
    requires Increasing(LogOf(w, LOBBY)) && NoneAfter(LogOf(w, LOBBY), w.nextID)
    requires w.app.lobbyChat == [] && w.app.lobbyCursor == 0
    requires Dropped(LOBBY) !in hs && Timely(LogOf(w, LOBBY), w.nextID, hs, LOBBY)
    ensures var w', log := Later(Happens(w, Polls(first, refreshed)), hs), LogOf(w, LOBBY);
            var log', upto := LogOf(w', LOBBY), Upto(log, w.nextID, hs, LOBBY);
            && Beginning(log) <= upto <= |log'|
            && w'.app.lobbyChat == LastN(log'[Beginning(log)..upto], CHAT_KEEP)
            && StandsAfter(log', upto, w'.app.lobbyCursor)
            && (hs == [] || hs[|hs| - 1].Polls? ==> upto == |log'|)
  {
    var log := LogOf(w, LOBBY);
    var s := Line(log, w.nextID, 0, [], []);
    LobbyFollowsOne(w, Polls(first, refreshed), s);
    LobbyFollows(Happens(w, Polls(first, refreshed)), hs, Chat.Step(s, Poll));
    FirstPoll(log, w.nextID, Beginning(log));
    EveryLineOnce(Chat.Step(s, Poll), Told(hs, LOBBY), Beginning(log), |log|);
    if hs != [] && hs[|hs| - 1].Polls? { CaughtUp(Chat.Step(s, Poll), hs, LOBBY, |log|); }
  }

  /** The player stays seated in room `b`: every poll finds them there and names no other room that takes them in. */
  predicate StaysOne(h: Happening, b: Id) {
    match h
    case Polls(st, refreshed) => st.seated && !st.gone && (st.room in {NOBODY, b} || !refreshed)
    case Dropped(c) => c != b
    case Enters(room) => room == b
    case _ => true
  }

  /** So says the coordinator's own answer for as long as the player has a seat in the room and the room is open; and
      once it has ended, for as long as they have not sat down elsewhere. */
  lemma SeatedStays(s: StoreState, p: Id, b: Id, refreshed: bool)
    requires StoreInv(s) && p != NOBODY
    ensures StaysOne(Polls(StandingOf(s, p, b), refreshed), b) <==>
              SeatedIn(s, b, p) && (Where(s, p) in {NOBODY, b} || !refreshed)
    ensures SeatedIn(s, b, p) && s.rooms[b].status != RoomModel.Closed ==>
              StaysOne(Polls(StandingOf(s, p, b), refreshed), b)
  {
    if SeatedIn(s, b, p) { SeatedOpenIsWhere(s, p, b); }
  }

  predicate Stays(hs: seq<Happening>, b: Id) {
    forall h :: h in hs ==> StaysOne(h, b)
  }

  predicate InTalk(w: World, b: Id, s: Line) {
    w.app.room == b && w.app.talk.room == b && Shows(w, b, w.app.talk.kept, w.app.talk.cursor, s)
  }

  lemma RoomFollowsOne(w: World, b: Id, h: Happening, s: Line)
    requires StaysOne(h, b) && InTalk(w, b, s)
    ensures InTalk(Happens(w, h), b, if ToldOne(h, b) == [] then s else Chat.Step(s, ToldOne(h, b)[0]))
  {
    if h.Polls? { PollOfRoom(w.app, h.st, LogOf(w, LOBBY), s, h.refreshed); }
  }

  lemma {:induction false} RoomFollows(w: World, b: Id, hs: seq<Happening>, s: Line)
    requires Stays(hs, b) && InTalk(w, b, s)
    ensures InTalk(Later(w, hs), b, Chat.Run(s, Told(hs, b)))
  {
    if hs != [] {
      var front, h := hs[..|hs| - 1], hs[|hs| - 1];
      RoomFollows(w, b, front, s);
      RoomFollowsOne(Later(w, front), b, h, Chat.Run(s, Told(front, b)));
      RunOneMore(s, Told(front, b), ToldOne(h, b));
    }
  }

  lemma RoomBegins(w: World, b: Id, st: Standing, refreshed: bool)
    requires w.app.room == b && w.app.talk.room != b && StaysOne(Polls(st, refreshed), b)
    ensures InTalk(Happens(w, Polls(st, refreshed)), b, Chat.Step(Line(LogOf(w, b), w.nextID, 0, [], []), Poll))
  {
    PollOfRoom(w.app, st, LogOf(w, LOBBY), Line(LogOf(w, b), w.nextID, 0, [], []), refreshed);
  }

  /** A room's conversation, over any run that leaves the player seated there: from the first poll after entering, the
      app shows exactly the last two hundred lines of the room's log from where it began to where it last polled, and
      nothing of the room it was in before. */
  lemma RoomTalkIsTheLog(w: World, b: Id, first: Standing, refreshed: bool, hs: seq<Happening>)
    requires Increasing(LogOf(w, b)) && NoneAfter(LogOf(w, b), w.nextID)
    requires w.app.room == b && w.app.talk.room != b && StaysOne(Polls(first, refreshed), b) && Stays(hs, b)
    requires Timely(LogOf(w, b), w.nextID, hs, b)
    ensures var w', log := Later(Happens(w, Polls(first, refreshed)), hs), LogOf(w, b);
            var log', upto := LogOf(w', b), Upto(log, w.nextID, hs, b);
            && w'.app.room == b && w'.app.talk.room == b && Beginning(log) <= upto <= |log'|
            && w'.app.talk.kept == LastN(log'[Beginning(log)..upto], CHAT_KEEP)
            && StandsAfter(log', upto, w'.app.talk.cursor)
            && (hs == [] || hs[|hs| - 1].Polls? ==> upto == |log'|)
  {
    var log := LogOf(w, b);
    var s := Chat.Step(Line(log, w.nextID, 0, [], []), Poll);
    RoomBegins(w, b, first, refreshed);
    RoomFollows(Happens(w, Polls(first, refreshed)), b, hs, s);
    FirstPoll(log, w.nextID, Beginning(log));
    EveryLineOnce(s, Told(hs, b), Beginning(log), |log|);
    if hs != [] && hs[|hs| - 1].Polls? { CaughtUp(s, hs, b, |log|); }
  }

  /** Whoever is not seated in the room asked after is handed none of its conversation. */
  lemma OutsidersHearNothing(a: AppState, st: Standing, lobby: seq<Message>, talk: seq<Message>, req: Request,
                             refreshed: bool)
    requires !st.seated
    ensures SyncAnswer(st, lobby, talk, req).roomChat == []
    ensures Folded(a, st, lobby, talk, refreshed).talk == Talk(a.room, if a.talk.room == a.room then a.talk.kept
            else [], 0)
  {
  }

  /** An app that is shown nothing of any room stays so for as long as no poll finds its player seated in the room it
      asks after, wherever it goes. */
  lemma {:induction false} NeverSeatedHearsNothing(w: World, hs: seq<Happening>)
    requires w.app.talk.kept == [] && forall h :: h in hs && h.Polls? ==> !h.st.seated
    ensures Later(w, hs).app.talk.kept == []
  {
    if hs != [] {
      NeverSeatedHearsNothing(w, hs[..|hs| - 1]);
    }
  }

  /** A poll that finds the player without a seat in a room that is still held takes the cursor back to nothing and
      leaves the lines on screen. Back in that room before the next poll, they are shown the last hundred lines a second
      time; with a poll in between, only once. */
  lemma BackBeforeTheNextPoll(w: World, b: Id, out: Standing, back: Standing, between: Standing)
    requires b != NOBODY && w.app.room == b && w.app.talk.room == b
    requires !out.seated && out.held && back.seated && !between.seated && between.room == NOBODY
    ensures var removed := Happens(w, Polls(out, false));
            && removed.app.room == NOBODY
            && Later(removed, [Enters(b), Polls(back, false)]).app.talk.kept ==
                 AppendChat(w.app.talk.kept, SinceSpec(LastN(LogOf(w, b), HISTORY), 0))
            && Later(removed, [Polls(between, false), Enters(b), Polls(back, false)]).app.talk.kept ==
                 AppendChat([], SinceSpec(LastN(LogOf(w, b), HISTORY), 0))
  {
    var removed := Happens(w, Polls(out, false));
    var hs, hs' := [Enters(b), Polls(back, false)], [Polls(between, false), Enters(b), Polls(back, false)];
    assert hs[..1] == [Enters(b)] && hs[..1][..0] == [];
    assert hs'[..2] == [Polls(between, false), Enters(b)] && hs'[..2][..1] == [Polls(between, false)];
    assert hs'[..2][..1][..0] == [];
    assert Later(removed, hs[..1]) == Happens(removed, Enters(b));
    assert Later(removed, hs'[..2][..1]) == Happens(removed, Polls(between, false));
    assert Later(removed, hs'[..2]) == Happens(Happens(removed, Polls(between, false)), Enters(b));
  }
}

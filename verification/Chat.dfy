/** The chat board, which keeps the last lines of every channel, and a client that polls it with a cursor. */
module Chat {
  import opened Basics

  const HISTORY: nat := 100
  const CHAT_KEEP: nat := 200

  /** One line; `said` stands for who said it, what, and when. */
  datatype Message = Message(id: nat, said: Id)

  function LastN<T>(s: seq<T>, n: nat): (r: seq<T>)
    ensures |r| == if |s| <= n then |s| else n
  {
    if |s| <= n then s else s[|s| - n..]
  }

  /** The messages newer than a cursor, oldest first. */
  function SinceSpec(msgs: seq<Message>, cursor: nat): seq<Message> {
    if msgs == [] then []
    else
      SinceSpec(msgs[..|msgs| - 1], cursor)
      + if msgs[|msgs| - 1].id > cursor then [msgs[|msgs| - 1]] else []
  }

  predicate Increasing(log: seq<Message>) {
    forall i, j :: 0 <= i < j < |log| ==> log[i].id < log[j].id
  }

  predicate NoneAfter(log: seq<Message>, id: nat) {
    forall i :: 0 <= i < |log| ==> 0 < log[i].id <= id
  }

  /** A channel holds exactly the last hundred lines of its log, with ids that only go up. */
  predicate ChannelOk(msgs: seq<Message>, log: seq<Message>, nextID: nat) {
    msgs == LastN(log, HISTORY) && Increasing(log) && NoneAfter(log, nextID)
  }

  lemma ChannelOkLater(msgs: seq<Message>, log: seq<Message>, nextID: nat)
    requires ChannelOk(msgs, log, nextID)
    ensures ChannelOk(msgs, log, nextID + 1)
  {
  }

  lemma ChannelOkAppend(msgs: seq<Message>, log: seq<Message>, nextID: nat, m: Message)
    requires ChannelOk(msgs, log, nextID) && m.id == nextID + 1
    ensures ChannelOk(LastN(msgs + [m], HISTORY), log + [m], nextID + 1)
  {
    AppendKeepsLast(log, m, HISTORY);
  }

  class Board {
    var channels: map<Id, seq<Message>>
    var nextID: nat
    /** Everything said in each channel since it was last dropped. */
    ghost var logs: map<Id, seq<Message>>

    ghost function Log(c: Id): seq<Message>
      reads this
    {
      if c in logs then logs[c] else []
    }

    ghost predicate Valid()
      reads this
    {
      && logs.Keys == channels.Keys
      && forall c :: c in channels ==> ChannelOk(channels[c], logs[c], nextID)
    }

    constructor ()
      ensures Valid() && logs == map[]
    {
      channels, nextID, logs := map[], 0, map[];
    }

    method Append(c: Id, said: Id) returns (m: Message)
      requires Valid()
      modifies this
      ensures Valid() && nextID == old(nextID) + 1 && m == Message(nextID, said)
      ensures logs == old(logs)[c := old(Log(c)) + [m]]
    {
      nextID := nextID + 1;
      m := Message(nextID, said);
      var msgs := if c in channels then channels[c] else [];
      ChannelOkAppend(msgs, Log(c), old(nextID), m);
      forall b | b in channels ensures ChannelOk(channels[b], logs[b], nextID) {
        ChannelOkLater(channels[b], logs[b], old(nextID));
      }
      msgs := msgs + [m];
      logs := logs[c := Log(c) + [m]];
      if |msgs| > HISTORY {
        msgs := msgs[|msgs| - HISTORY..];
      }
      channels := channels[c := msgs];
    }

    method Since(c: Id, cursor: nat) returns (out: seq<Message>)
      requires Valid()
      ensures out == SinceSpec(LastN(Log(c), HISTORY), cursor)
    {
      out := [];
      if c !in channels {
        return;
      }
      var msgs := channels[c];
      for i := 0 to |msgs|
        invariant out == SinceSpec(msgs[..i], cursor)
      {
        assert msgs[..i + 1][..i] == msgs[..i];
        if msgs[i].id > cursor {
          out := out + [msgs[i]];
        }
      }
      assert msgs[..|msgs|] == msgs;
    }

    method Cursor(c: Id) returns (newest: nat)
      requires Valid()
      ensures newest == CursorAfter(0, Log(c))
    {
      if c !in channels || |channels[c]| == 0 {
        return 0;
      }
      newest := channels[c][|channels[c]| - 1].id;
    }

    method Drop(c: Id)
      requires Valid()
      modifies this
      ensures Valid() && logs == old(logs) - {c} && nextID == old(nextID)
    {
      channels, logs := channels - {c}, logs - {c};
    }
  }

  lemma AppendKeepsLast<T>(log: seq<T>, m: T, n: nat)
    requires n > 0
    ensures LastN(LastN(log, n) + [m], n) == LastN(log + [m], n)
  {
  }

  /** The cursor a poll hands back: the one it came with when nothing new arrived. */
  function CursorAfter(was: nat, msgs: seq<Message>): nat {
    if |msgs| == 0 then was else msgs[|msgs| - 1].id
  }

  function AppendChat(have: seq<Message>, incoming: seq<Message>): seq<Message> {
    if |incoming| == 0 then have else LastN(have + incoming, CHAT_KEEP)
  }

  /** The cursor stands after the first `upto` lines of the log. */
  predicate StandsAfter(log: seq<Message>, upto: nat, cursor: nat) {
    && upto <= |log|
    && (forall i :: 0 <= i < upto ==> log[i].id <= cursor)
    && (forall i :: upto <= i < |log| ==> log[i].id > cursor)
  }

  lemma SinceOneMore(front: seq<Message>, m: Message, cursor: nat)
    ensures SinceSpec(front + [m], cursor) == SinceSpec(front, cursor) + if m.id > cursor then [m] else []
  {
    assert (front + [m])[..|front|] == front;
  }

  lemma StandsBefore(front: seq<Message>, m: Message, k: nat, cursor: nat)
    requires StandsAfter(front + [m], k, cursor)
    ensures if m.id > cursor then StandsAfter(front, k, cursor)
            else k == |front| + 1 && StandsAfter(front, |front|, cursor)
  {
    var msgs := front + [m];
    assert msgs[|front|] == m;
    assert forall i :: 0 <= i < |front| ==> msgs[i] == front[i];
  }

  lemma {:induction false} SinceCuts(msgs: seq<Message>, k: nat, cursor: nat)
    requires StandsAfter(msgs, k, cursor)
    ensures SinceSpec(msgs, cursor) == msgs[k..]
  {
    if msgs != [] {
      var front, last := msgs[..|msgs| - 1], msgs[|msgs| - 1];
      assert msgs == front + [last];
      SinceOneMore(front, last, cursor);
      StandsBefore(front, last, k, cursor);
      SinceCuts(front, if last.id > cursor then k else |front|, cursor);
    }
  }

  /** What a poll brings: of what is new to the client, the last hundred lines. */
  lemma PollBrings(log: seq<Message>, upto: nat, cursor: nat)
    requires StandsAfter(log, upto, cursor)
    ensures SinceSpec(LastN(log, HISTORY), cursor) == LastN(log[upto..], HISTORY)
  {
    var msgs := LastN(log, HISTORY);
    var gone := |log| - |msgs|;
    SinceCuts(msgs, if upto < gone then 0 else upto - gone, cursor);
  }

  /** A poll brings everything new exactly when no more than a hundred lines are. */
  lemma PollMissesNothingExactly(log: seq<Message>, upto: nat, cursor: nat)
    requires StandsAfter(log, upto, cursor)
    ensures SinceSpec(LastN(log, HISTORY), cursor) == log[upto..] <==> |log| - upto <= HISTORY
  {
    PollBrings(log, upto, cursor);
  }

  /** What can happen to one channel and one client of it: a line in the channel, a line in some other channel, a
      poll. */
  datatype Event = Say(said: Id) | SayElsewhere | Poll

  /** The channel's log, the board's counter, and the client; `got` is everything the client was ever handed. */
  datatype Line = Line(log: seq<Message>, nextID: nat, cursor: nat, kept: seq<Message>, got: seq<Message>)

  function Step(s: Line, e: Event): Line {
    match e
    case Say(said) => s.(nextID := s.nextID + 1, log := s.log + [Message(s.nextID + 1, said)])
    case SayElsewhere => s.(nextID := s.nextID + 1)
    case Poll =>
      var incoming := SinceSpec(LastN(s.log, HISTORY), s.cursor);
      s.(cursor := CursorAfter(s.cursor, incoming), kept := AppendChat(s.kept, incoming), got := s.got + incoming)
  }

  function Run(s: Line, events: seq<Event>): Line {
    if events == [] then s else Step(Run(s, events[..|events| - 1]), events[|events| - 1])
  }

  /** The client has been handed every line from the `from`-th up to the `upto`-th, each once and in order, and keeps
      the last two hundred of them. */
  ghost predicate UpTo(s: Line, from: nat, upto: nat) {
    && from <= upto && StandsAfter(s.log, upto, s.cursor)
    && Increasing(s.log) && NoneAfter(s.log, s.nextID) && s.cursor <= s.nextID
    && s.got == s.log[from..upto] && s.kept == LastN(s.got, CHAT_KEEP)
  }

  /** How much of the log a run leaves the client with. */
  function Seen(s: Line, events: seq<Event>, upto: nat): nat {
    if events == [] then upto
    else
      var front := events[..|events| - 1];
      if events[|events| - 1].Poll? then |Run(s, front).log| else Seen(s, front, upto)
  }

  /** At most a hundred lines come between one poll and the next. */
  predicate Prompt(s: Line, events: seq<Event>, upto: nat) {
    events == [] ||
    var front := events[..|events| - 1];
    && Prompt(s, front, upto)
    && (events[|events| - 1].Poll? ==> |Run(s, front).log| - Seen(s, front, upto) <= HISTORY)
  }

  lemma SayKeeps(s: Line, from: nat, upto: nat, said: Id)
    requires UpTo(s, from, upto)
    ensures UpTo(Step(s, Say(said)), from, upto)
  {
    assert Step(s, Say(said)).log[from..upto] == s.log[from..upto];
  }

  lemma KeptAdds(got: seq<Message>, incoming: seq<Message>)
    ensures AppendChat(LastN(got, CHAT_KEEP), incoming) == LastN(got + incoming, CHAT_KEEP)
  {
    if |incoming| == 0 {
      assert got + incoming == got;
    }
  }

  lemma CursorStandsAtEnd(log: seq<Message>, upto: nat, cursor: nat, nextID: nat)
    requires StandsAfter(log, upto, cursor) && Increasing(log) && NoneAfter(log, nextID) && cursor <= nextID
    ensures StandsAfter(log, |log|, CursorAfter(cursor, log[upto..])) && CursorAfter(cursor, log[upto..]) <= nextID
  {
  }

  lemma PollCatchesUp(s: Line, from: nat, upto: nat)
    requires UpTo(s, from, upto) && |s.log| - upto <= HISTORY
    ensures UpTo(Step(s, Poll), from, |s.log|)
  {
    PollMissesNothingExactly(s.log, upto, s.cursor);
    KeptAdds(s.got, s.log[upto..]);
    CursorStandsAtEnd(s.log, upto, s.cursor, s.nextID);
    assert s.log[from..upto] + s.log[upto..] == s.log[from..|s.log|];
  }

  /** A client that polls in time is handed every line exactly once and in order, and what it keeps is the last two
      hundred lines of the log from where it began. */
  lemma {:induction false} EveryLineOnce(s: Line, events: seq<Event>, from: nat, upto: nat)
    requires UpTo(s, from, upto) && Prompt(s, events, upto)
    ensures UpTo(Run(s, events), from, Seen(s, events, upto))
  {
    if events != [] {
      var front := events[..|events| - 1];
      EveryLineOnce(s, front, from, upto);
      match events[|events| - 1] {
        case Say(said) => SayKeeps(Run(s, front), from, Seen(s, front, upto), said);
        case SayElsewhere =>
        case Poll => PollCatchesUp(Run(s, front), from, Seen(s, front, upto));
      }
    }
  }

  lemma LastStands(log: seq<Message>, nextID: nat)
    requires Increasing(log) && NoneAfter(log, nextID)
    ensures StandsAfter(log, 0, 0)
    ensures StandsAfter(log, |log|, CursorAfter(0, log)) && CursorAfter(0, log) <= nextID
  {
  }

  /** A client that opens a channel with nothing begins with the last hundred lines and is up to date. */
  lemma FirstPoll(log: seq<Message>, nextID: nat, from: nat)
    requires Increasing(log) && NoneAfter(log, nextID)
    requires from == if |log| <= HISTORY then 0 else |log| - HISTORY
    ensures UpTo(Step(Line(log, nextID, 0, [], []), Poll), from, |log|)
  {
    LastStands(log, nextID);
    FirstAnswer(log, from);
    KeptAdds([], log[from..]);
  }

  lemma FirstAnswer(log: seq<Message>, from: nat)
    requires StandsAfter(log, 0, 0) && from == if |log| <= HISTORY then 0 else |log| - HISTORY
    ensures SinceSpec(LastN(log, HISTORY), 0) == log[from..] == log[from..|log|]
    ensures CursorAfter(0, log[from..]) == CursorAfter(0, log)
    ensures [] + log[from..] == log[from..]
  {
    PollBrings(log, 0, 0);
    assert log[0..] == log;
  }

  /** A poll that comes too late has lost lines for good: what it leaves out, no later poll brings. */
  lemma LateLinesAreLost(s: Line, from: nat, upto: nat, i: nat)
    requires UpTo(s, from, upto) && upto <= i < |s.log| - HISTORY
    ensures s.log[i] !in Step(s, Poll).got && s.log[i].id < Step(s, Poll).cursor
  {
    PollBrings(s.log, upto, s.cursor);
    var incoming, lost := LastN(s.log[upto..], HISTORY), s.log[i];
    assert incoming == s.log[|s.log| - HISTORY..];
    assert lost !in incoming;
    assert lost !in s.got by {
      forall k | from <= k < upto ensures s.log[k] != lost { }
    }
    assert incoming[|incoming| - 1] == s.log[|s.log| - 1];
  }
}

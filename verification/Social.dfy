/** The friend graph: directed rows, two of them to a friendship, and blocks that outrank them. */
module Social {
  import opened Basics

  const MAX_FRIENDS: nat := 200

  datatype EdgeState = Requested | Accepted

  type Pair = (Id, Id)

  datatype Graph = Graph(edges: map<Pair, EdgeState>, blocks: set<Pair>)

  datatype SocialError = Self | NoRequest | TooManyFriends

  function Rows(edges: map<Pair, EdgeState>, id: Id): set<Pair> {
    set p | p in edges && p.0 == id && edges[p] == Accepted
  }

  function CountFriends(edges: map<Pair, EdgeState>, id: Id): nat {
    |Rows(edges, id)|
  }

  predicate EitherBlocked(blocks: set<Pair>, a: Id, b: Id) {
    (a, b) in blocks || (b, a) in blocks
  }

  predicate HasAccepted(edges: map<Pair, EdgeState>, a: Id, b: Id) {
    (a, b) in edges && edges[(a, b)] == Accepted
  }

  /** A mutual, accepted friendship. */
  predicate AreFriends(g: Graph, a: Id, b: Id) {
    a != b && HasAccepted(g.edges, a, b) && HasAccepted(g.edges, b, a)
  }

  function Befriended(edges: map<Pair, EdgeState>, me: Id, them: Id): map<Pair, EdgeState> {
    edges[(me, them) := Accepted][(them, me) := Accepted]
  }

  function AcceptWithin(edges: map<Pair, EdgeState>, me: Id, them: Id): (map<Pair, EdgeState>, Option<SocialError>) {
    if CountFriends(edges, me) >= MAX_FRIENDS || CountFriends(edges, them) >= MAX_FRIENDS
    then (edges, Some(TooManyFriends))
    else (Befriended(edges, me, them), None)
  }

  datatype Op =
    | Ask(from: Id, to: Id)
    | Accept(me: Id, them: Id)
    | Decline(me: Id, them: Id)
    | Remove(me: Id, them: Id)
    | Block(me: Id, them: Id)
    | Unblock(me: Id, them: Id)

  function AskSpec(g: Graph, from: Id, to: Id): (Graph, Option<SocialError>) {
    if from == to then (g, Some(Self))
    else if EitherBlocked(g.blocks, from, to) then (g, None)
    else if (to, from) in g.edges then
      var (edges, error) := AcceptWithin(g.edges, from, to); (g.(edges := edges), error)
    else if CountFriends(g.edges, from) >= MAX_FRIENDS then (g, Some(TooManyFriends))
    else if (from, to) in g.edges then (g, None)
    else (g.(edges := g.edges[(from, to) := Requested]), None)
  }

  function AcceptSpec(g: Graph, me: Id, them: Id): (Graph, Option<SocialError>) {
    if me == them then (g, Some(Self))
    else if (them, me) !in g.edges then (g, Some(NoRequest))
    else var (edges, error) := AcceptWithin(g.edges, me, them); (g.(edges := edges), error)
  }

  function Apply(g: Graph, op: Op): (Graph, Option<SocialError>) {
    match op
    case Ask(from, to) => AskSpec(g, from, to)
    case Accept(me, them) => AcceptSpec(g, me, them)
    case Decline(me, them) => (g.(edges := g.edges - {(them, me)}), None)
    case Remove(me, them) => (g.(edges := g.edges - {(me, them), (them, me)}), None)
    case Block(me, them) =>
      if me == them then (g, Some(Self))
      else (Graph(g.edges - {(me, them), (them, me)}, g.blocks + {(me, them)}), None)
    case Unblock(me, them) => (g.(blocks := g.blocks - {(me, them)}), None)
  }

  class Store {
    var edges: map<Pair, EdgeState>
    var blocks: set<Pair>

    ghost function View(): Graph
      reads this
    {
      Graph(edges, blocks)
    }

    constructor ()
      ensures View() == EMPTY_GRAPH
    {
      edges, blocks := map[], {};
    }

    method Accepting(me: Id, them: Id) returns (error: Option<SocialError>)
      modifies this`edges
      ensures (edges, error) == AcceptWithin(old(edges), me, them)
    {
      var pairs := [(me, them), (them, me)];
      for i := 0 to 2
        invariant edges == old(edges)
        invariant forall j :: 0 <= j < i ==> CountFriends(edges, pairs[j].0) < MAX_FRIENDS
      {
        if CountFriends(edges, pairs[i].0) >= MAX_FRIENDS {
          return Some(TooManyFriends);
        }
      }
      assert CountFriends(edges, pairs[0].0) < MAX_FRIENDS && CountFriends(edges, pairs[1].0) < MAX_FRIENDS;
      for i := 0 to 2
        invariant i == 0 ==> edges == old(edges)
        invariant i == 1 ==> edges == old(edges)[(me, them) := Accepted]
        invariant i == 2 ==> edges == Befriended(old(edges), me, them)
      {
        edges := edges[pairs[i] := Accepted];
      }
      error := None;
    }

    method Request(from: Id, to: Id) returns (error: Option<SocialError>)
      modifies this`edges
      ensures (View(), error) == Apply(old(View()), Ask(from, to))
    {
      if from == to {
        return Some(Self);
      }
      if EitherBlocked(blocks, from, to) {
        return None;
      }
      if (to, from) in edges {
        error := Accepting(from, to);
        return;
      }
      if CountFriends(edges, from) >= MAX_FRIENDS {
        return Some(TooManyFriends);
      }
      if (from, to) !in edges {
        edges := edges[(from, to) := Requested];
      }
      error := None;
    }

    method Accept(me: Id, them: Id) returns (error: Option<SocialError>)
      modifies this`edges
      ensures (View(), error) == Apply(old(View()), Op.Accept(me, them))
    {
      if me == them {
        return Some(Self);
      }
      if (them, me) !in edges {
        return Some(NoRequest);
      }
      error := Accepting(me, them);
    }

    method Decline(me: Id, them: Id)
      modifies this`edges
      ensures View() == Apply(old(View()), Op.Decline(me, them)).0
    {
      edges := edges - {(them, me)};
    }

    method Remove(me: Id, them: Id)
      modifies this`edges
      ensures View() == Apply(old(View()), Op.Remove(me, them)).0
    {
      edges := edges - {(me, them), (them, me)};
    }

    method Block(me: Id, them: Id) returns (error: Option<SocialError>)
      modifies this
      ensures (View(), error) == Apply(old(View()), Op.Block(me, them))
    {
      if me == them {
        return Some(Self);
      }
      blocks := blocks + {(me, them)};
      edges := edges - {(me, them), (them, me)};
      error := None;
    }

    method Unblock(me: Id, them: Id)
      modifies this`blocks
      ensures View() == Apply(old(View()), Op.Unblock(me, them)).0
    {
      blocks := blocks - {(me, them)};
    }
  }

  const EMPTY_GRAPH: Graph := Graph(map[], {})

  /** Blocked pairs have no row in either direction. */
  ghost predicate BlocksHold(g: Graph) {
    forall p :: p in g.edges ==> !EitherBlocked(g.blocks, p.0, p.1)
  }

  /** Nobody has a row to themselves, and two rows facing each other are both accepted. */
  ghost predicate FacingRowsAgree(g: Graph) {
    forall a, b {:trigger (a, b)} :: (a, b) in g.edges ==>
      a != b && ((b, a) in g.edges ==> g.edges[(a, b)] == Accepted)
  }

  ghost predicate WithinCeiling(edges: map<Pair, EdgeState>) {
    forall id :: CountFriends(edges, id) <= MAX_FRIENDS
  }

  ghost predicate GraphInv(g: Graph) {
    BlocksHold(g) && FacingRowsAgree(g) && WithinCeiling(g.edges)
  }

  lemma FewerRows(edges: map<Pair, EdgeState>, fewer: map<Pair, EdgeState>, id: Id)
    requires forall p :: p in fewer && fewer[p] == Accepted ==> p in edges && edges[p] == Accepted
    ensures CountFriends(fewer, id) <= CountFriends(edges, id)
  {
    SubsetCounts(Rows(fewer, id), Rows(edges, id));
  }

  lemma {:induction false} SubsetCounts<T>(a: set<T>, b: set<T>)
    requires a <= b
    ensures |a| <= |b|
  {
    if a != {} {
      var x :| x in a;
      SubsetCounts(a - {x}, b - {x});
    }
  }

  lemma BefriendedCounts(edges: map<Pair, EdgeState>, me: Id, them: Id, id: Id)
    requires WithinCeiling(edges) && AcceptWithin(edges, me, them).1.None?
    ensures CountFriends(Befriended(edges, me, them), id) <= MAX_FRIENDS
  {
    var more := if id == me then {(me, them)} else if id == them then {(them, me)} else {};
    SubsetCounts(Rows(Befriended(edges, me, them), id), Rows(edges, id) + more);
    assert |Rows(edges, id) + more| <= CountFriends(edges, id) + |more|;
  }

  lemma AcceptWithinKeeps(g: Graph, me: Id, them: Id)
    requires GraphInv(g) && me != them && !EitherBlocked(g.blocks, me, them)
    ensures GraphInv(g.(edges := AcceptWithin(g.edges, me, them).0))
  {
    if AcceptWithin(g.edges, me, them).1.None? {
      forall id ensures CountFriends(Befriended(g.edges, me, them), id) <= MAX_FRIENDS {
        BefriendedCounts(g.edges, me, them, id);
      }
    }
  }

  lemma RemovalKeeps(g: Graph, edges: map<Pair, EdgeState>, blocks: set<Pair>)
    requires GraphInv(g) && forall p :: p in edges ==> p in g.edges && edges[p] == g.edges[p]
    requires forall p :: p in edges ==> !EitherBlocked(blocks, p.0, p.1)
    ensures GraphInv(Graph(edges, blocks))
  {
    forall id ensures CountFriends(edges, id) <= MAX_FRIENDS {
      FewerRows(g.edges, edges, id);
    }
  }

  lemma AskKeeps(g: Graph, from: Id, to: Id)
    requires GraphInv(g)
    ensures GraphInv(AskSpec(g, from, to).0)
  {
    if from != to && !EitherBlocked(g.blocks, from, to) {
      if (to, from) in g.edges {
        AcceptWithinKeeps(g, from, to);
      } else {
        var asked := g.edges[(from, to) := Requested];
        forall id ensures (from, to) !in g.edges ==> CountFriends(asked, id) <= MAX_FRIENDS {
          if (from, to) !in g.edges { FewerRows(g.edges, asked, id); }
        }
      }
    }
  }

  lemma ApplyKeeps(g: Graph, op: Op)
    requires GraphInv(g)
    ensures GraphInv(Apply(g, op).0)
  {
    var g' := Apply(g, op).0;
    match op {
      case Ask(from, to) => AskKeeps(g, from, to);
      case Accept(me, them) => if me != them && (them, me) in g.edges { AcceptWithinKeeps(g, me, them); }
      case _ => RemovalKeeps(g, g'.edges, g'.blocks);
    }
  }

  function Run(g: Graph, ops: seq<Op>): Graph {
    if ops == [] then g else Apply(Run(g, ops[..|ops| - 1]), ops[|ops| - 1]).0
  }

  lemma {:induction false} RunKeeps(g: Graph, ops: seq<Op>)
    requires GraphInv(g)
    ensures GraphInv(Run(g, ops))
  {
    if ops != [] {
      RunKeeps(g, ops[..|ops| - 1]);
      ApplyKeeps(Run(g, ops[..|ops| - 1]), ops[|ops| - 1]);
    }
  }

  lemma EmptyGraphInv()
    ensures GraphInv(EMPTY_GRAPH)
  {
    forall id ensures CountFriends(EMPTY_GRAPH.edges, id) == 0 {
      assert Rows(EMPTY_GRAPH.edges, id) == {};
    }
  }

  /** After any run: a blocked pair has no row either way and is not friends, facing rows are both accepted, and
      nobody has more than two hundred friends. */
  lemma AlwaysInOrder(ops: seq<Op>, a: Id, b: Id)
    ensures var g := Run(EMPTY_GRAPH, ops);
            && (EitherBlocked(g.blocks, a, b) ==> (a, b) !in g.edges && (b, a) !in g.edges && !AreFriends(g, a, b))
            && ((a, b) in g.edges && (b, a) in g.edges ==> AreFriends(g, a, b))
            && CountFriends(g.edges, a) <= MAX_FRIENDS
  {
    EmptyGraphInv();
    RunKeeps(EMPTY_GRAPH, ops);
  }

  /** Friendship is mutual: whoever one side has an accepted row to has one back. */
  ghost predicate Symmetric(g: Graph) {
    forall a, b :: HasAccepted(g.edges, a, b) ==> HasAccepted(g.edges, b, a)
  }

  predicate DeclinesAFriend(g: Graph, op: Op) {
    op.Decline? && HasAccepted(g.edges, op.them, op.me)
  }

  /** Of all operations only one can leave a friendship one-sided, and it always does: declining somebody who is
      already a friend, which deletes their row and not one's own. */
  lemma SymmetryExactly(g: Graph, op: Op)
    requires GraphInv(g) && Symmetric(g)
    ensures Symmetric(Apply(g, op).0) <==> !DeclinesAFriend(g, op)
  {
    var g' := Apply(g, op).0;
    if DeclinesAFriend(g, op) {
      assert HasAccepted(g.edges, op.me, op.them);
      assert op.me != op.them;
      assert HasAccepted(g'.edges, op.me, op.them) && !HasAccepted(g'.edges, op.them, op.me);
    } else {
      forall a, b | HasAccepted(g'.edges, a, b) ensures HasAccepted(g'.edges, b, a) {
        StaysMutual(g, op, a, b);
      }
    }
  }

  lemma StaysMutual(g: Graph, op: Op, a: Id, b: Id)
    requires GraphInv(g) && Symmetric(g) && !DeclinesAFriend(g, op) && HasAccepted(Apply(g, op).0.edges, a, b)
    ensures HasAccepted(Apply(g, op).0.edges, b, a)
  {
    if HasAccepted(g.edges, a, b) {
      assert HasAccepted(g.edges, b, a);
    }
  }

  lemma {:induction false} RunStaysSymmetric(ops: seq<Op>)
    requires forall i :: 0 <= i < |ops| ==> !DeclinesAFriend(Run(EMPTY_GRAPH, ops[..i]), ops[i])
    ensures Symmetric(Run(EMPTY_GRAPH, ops)) && GraphInv(Run(EMPTY_GRAPH, ops))
  {
    EmptyGraphInv();
    RunKeeps(EMPTY_GRAPH, ops);
    if ops != [] {
      var front := ops[..|ops| - 1];
      assert ops[..|ops| - 1] == front;
      forall i | 0 <= i < |front| ensures !DeclinesAFriend(Run(EMPTY_GRAPH, front[..i]), front[i]) {
        assert front[..i] == ops[..i];
      }
      RunStaysSymmetric(front);
      SymmetryExactly(Run(EMPTY_GRAPH, front), ops[|ops| - 1]);
    }
  }

  /** What a one-sided row leads to: the friend who was declined asks again, and is a friend again at once. */
  lemma DeclinedFriendReturns(g: Graph, me: Id, them: Id)
    requires GraphInv(g) && AreFriends(g, me, them)
    ensures var declined := Apply(g, Op.Decline(me, them)).0;
            && !AreFriends(declined, me, them) && HasAccepted(declined.edges, me, them)
            && (Apply(declined, Ask(them, me)).1.None? ==> AreFriends(Apply(declined, Ask(them, me)).0, me, them))
            && (Apply(declined, Ask(them, me)).1.Some? <==> CountFriends(declined.edges, me) == MAX_FRIENDS)
  {
    var declined := Apply(g, Op.Decline(me, them)).0;
    assert (me, them) in g.edges;
    RemovalKeeps(g, declined.edges, declined.blocks);
    var rows := Rows(g.edges, them);
    assert (them, me) in rows && Rows(declined.edges, them) == rows - {(them, me)};
    assert CountFriends(g.edges, them) == |rows| <= MAX_FRIENDS && |rows - {(them, me)}| == |rows| - 1;
    assert CountFriends(declined.edges, me) <= MAX_FRIENDS;
  }

  predicate Reaches(op: Op, a: Id, b: Id) {
    op == Ask(a, b) || op == Op.Accept(a, b)
  }

  lemma RowNeedsReaching(g: Graph, op: Op, a: Id, b: Id)
    ensures (a, b) in Apply(g, op).0.edges ==> (a, b) in g.edges || Reaches(op, a, b)
  {
  }

  /** Nobody is made anybody's friend: a row from one person to another is there only if that person asked or accepted
      them at some time. */
  lemma {:induction false} FriendsHaveBothReached(ops: seq<Op>, a: Id, b: Id)
    ensures (a, b) in Run(EMPTY_GRAPH, ops).edges ==> exists i :: 0 <= i < |ops| && Reaches(ops[i], a, b)
  {
    if ops != [] {
      var front := ops[..|ops| - 1];
      FriendsHaveBothReached(front, a, b);
      RowNeedsReaching(Run(EMPTY_GRAPH, front), ops[|ops| - 1], a, b);
      if (a, b) in Run(EMPTY_GRAPH, front).edges {
        var i :| 0 <= i < |front| && Reaches(front[i], a, b);
        assert Reaches(ops[i], a, b);
      } else if (a, b) in Run(EMPTY_GRAPH, ops).edges {
        assert Reaches(ops[|ops| - 1], a, b);
      }
    }
  }

  /** A block holds until whoever made it takes it back: no run without that makes the two friends or leaves a
      request. */
  lemma {:induction false} BlockHoldsUntilLifted(g: Graph, ops: seq<Op>, me: Id, them: Id)
    requires GraphInv(g) && (me, them) in g.blocks && Op.Unblock(me, them) !in ops
    ensures (me, them) in Run(g, ops).blocks
    ensures (me, them) !in Run(g, ops).edges && (them, me) !in Run(g, ops).edges
  {
    RunKeeps(g, ops);
    if ops != [] {
      BlockHoldsUntilLifted(g, ops[..|ops| - 1], me, them);
    }
  }

  /** From the moment of a block, whatever was between the two before: until whoever made it takes it back, no run
      leaves a row or a friendship between them either way, and asking, by either, is dropped without a word. */
  lemma BlockedFromThenOn(g: Graph, ops: seq<Op>, me: Id, them: Id)
    requires GraphInv(g) && me != them && Op.Unblock(me, them) !in ops
    ensures var after := Run(Apply(g, Op.Block(me, them)).0, ops);
            && (me, them) !in after.edges && (them, me) !in after.edges
            && !AreFriends(after, me, them) && !AreFriends(after, them, me)
            && Apply(after, Ask(them, me)) == (after, None) && Apply(after, Ask(me, them)) == (after, None)
  {
    var blocked := Apply(g, Op.Block(me, them)).0;
    ApplyKeeps(g, Op.Block(me, them));
    assert (me, them) in blocked.blocks;
    BlockHoldsUntilLifted(blocked, ops, me, them);
  }

  /** The run has `a` blocking `b`, and not taking it back since. */
  predicate BlockedSince(ops: seq<Op>, a: Id, b: Id) {
    exists i :: 0 <= i < |ops| && ops[i] == Op.Block(a, b) && Op.Unblock(a, b) !in ops[i + 1..]
  }

  lemma BlockedSinceOneMore(ops: seq<Op>, a: Id, b: Id)
    requires ops != []
    ensures var front, op := ops[..|ops| - 1], ops[|ops| - 1];
            BlockedSince(ops, a, b) <==>
              op == Op.Block(a, b) || (op != Op.Unblock(a, b) && BlockedSince(front, a, b))
  {
    var front, op := ops[..|ops| - 1], ops[|ops| - 1];
    if i :| 0 <= i < |ops| && ops[i] == Op.Block(a, b) && Op.Unblock(a, b) !in ops[i + 1..] {
      if i < |front| {
        assert ops[i + 1..] == front[i + 1..] + [op];
        assert front[i] == Op.Block(a, b) && Op.Unblock(a, b) !in front[i + 1..];
      }
    }
    if op == Op.Block(a, b) {
      assert ops[|front| + 1..] == [];
    } else if i :| 0 <= i < |front| && front[i] == Op.Block(a, b) && Op.Unblock(a, b) !in front[i + 1..] {
      assert ops[i] == Op.Block(a, b) && ops[i + 1..] == front[i + 1..] + [op];
    }
  }

  /** Who has blocked whom after any run, exactly. */
  lemma {:induction false} BlocksExactly(ops: seq<Op>, a: Id, b: Id)
    ensures (a, b) in Run(EMPTY_GRAPH, ops).blocks <==> a != b && BlockedSince(ops, a, b)
  {
    if ops != [] {
      BlocksExactly(ops[..|ops| - 1], a, b);
      BlockedSinceOneMore(ops, a, b);
    }
  }

  /** Asking, exactly: refused to oneself and to a full list; dropped where either has blocked the other; otherwise it
      answers a request that waits the other way, making the two friends, or is left waiting if nothing was there. */
  lemma AskingExactly(g: Graph, from: Id, to: Id)
    requires GraphInv(g)
    ensures var (g', error) := Apply(g, Ask(from, to));
            var answers, shut := (to, from) in g.edges, (from, to) in g.blocks || (to, from) in g.blocks;
            var full := || CountFriends(g.edges, from) == MAX_FRIENDS
                        || (answers && CountFriends(g.edges, to) == MAX_FRIENDS);
            && (error.Some? <==> from == to || (!shut && full))
            && (error.Some? || shut ==> g' == g)
            && (error.None? && !shut ==>
                  && (AreFriends(g', from, to) <==> answers)
                  && (from, to) in g'.edges
                  && (!answers ==> g'.edges[(from, to)] == if (from, to) in g.edges then g.edges[(from, to)]
                      else Requested))
            && g'.blocks == g.blocks && OthersUntouched(g, g', from, to)
  {
    assert CountFriends(g.edges, from) <= MAX_FRIENDS && CountFriends(g.edges, to) <= MAX_FRIENDS;
  }

  /** Rows between other pairs are as they were. */
  ghost predicate OthersUntouched(g: Graph, g': Graph, a: Id, b: Id) {
    forall p: Pair :: p != (a, b) && p != (b, a) ==>
      (p in g'.edges <==> p in g.edges) && (p in g.edges ==> g'.edges[p] == g.edges[p])
  }

  /** Accepting, exactly: it takes a row from the other side and room on both lists, and makes the two friends. */
  lemma AcceptingExactly(g: Graph, me: Id, them: Id)
    requires GraphInv(g)
    ensures var (g', error) := Apply(g, Op.Accept(me, them));
            && (error.None? <==>
                  && (them, me) in g.edges
                  && CountFriends(g.edges, me) < MAX_FRIENDS && CountFriends(g.edges, them) < MAX_FRIENDS)
            && (error.None? ==> AreFriends(g', me, them))
            && (error.Some? ==> g' == g)
            && g'.blocks == g.blocks && OthersUntouched(g, g', me, them)
  {
  }

  /** Removing leaves nothing between the two, and declining nothing of the other's; both leave everybody else alone. */
  lemma RemovingExactly(g: Graph, me: Id, them: Id)
    ensures var removed, declined := Apply(g, Op.Remove(me, them)).0, Apply(g, Op.Decline(me, them)).0;
            && (me, them) !in removed.edges && (them, me) !in removed.edges && !AreFriends(removed, me, them)
            && (them, me) !in declined.edges
            && (me != them ==> ((me, them) in declined.edges <==> (me, them) in g.edges))
            && removed.blocks == declined.blocks == g.blocks
            && OthersUntouched(g, removed, me, them) && OthersUntouched(g, declined, me, them)
  {
  }
}

/** Fixed groups of places, each holding a player id or the empty Id for nobody. */
module Seating {
  import opened Basics

  /** The lowest place holding `id`, or the length of the group when nobody there has it. */
  function FirstIndex(group: seq<Id>, id: Id): (at: nat)
    ensures at <= |group|
    ensures at < |group| ==> group[at] == id
    ensures forall k :: 0 <= k < at ==> group[k] != id
  {
    if group == [] then 0
    else if group[0] == id then 0
    else 1 + FirstIndex(group[1..], id)
  }

  /** The group with everybody of that id gone from it. */
  function Vacate(group: seq<Id>, id: Id): (left: seq<Id>)
    ensures |left| == |group|
    ensures forall k :: 0 <= k < |group| ==> left[k] == if group[k] == id then NOBODY else group[k]
  {
    seq(|group|, k requires 0 <= k < |group| => if group[k] == id then NOBODY else group[k])
  }

  /** Nobody is in the group twice. */
  ghost predicate Distinct(group: seq<Id>) {
    forall i, j :: 0 <= i < j < |group| && group[i] != NOBODY ==> group[i] != group[j]
  }

  /** Nobody is in both groups. */
  ghost predicate Apart(one: seq<Id>, other: seq<Id>) {
    forall p: Id :: p != NOBODY && p in one ==> p !in other
  }

  lemma FirstIndexIs(group: seq<Id>, id: Id, at: nat)
    requires at < |group| && group[at] == id
    requires id != NOBODY ==> Distinct(group)
    ensures FirstIndex(group, id) <= at
    ensures id != NOBODY ==> FirstIndex(group, id) == at
  {
  }

  lemma VacateKeepsDistinct(group: seq<Id>, id: Id)
    requires Distinct(group)
    ensures Distinct(Vacate(group, id))
    ensures forall p: Id :: p != NOBODY ==> (p in Vacate(group, id) <==> p in group && p != id)
  {
    var left := Vacate(group, id);
    forall p: Id | p != NOBODY && p in group && p != id
      ensures p in left
    {
      var k :| 0 <= k < |group| && group[k] == p;
      assert left[k] == p;
    }
  }

  lemma SeatKeepsDistinct(group: seq<Id>, at: nat, id: Id, next: seq<Id>)
    requires at < |group| && group[at] == NOBODY && id != NOBODY && id !in group && Distinct(group)
    requires next == group[at := id]
    ensures Distinct(next)
    ensures forall p: Id :: p != NOBODY ==> (p in next <==> p in group || p == id)
  {
    assert next[at] == id;
    forall p: Id | p != NOBODY && p in group
      ensures p in next
    {
      var k :| 0 <= k < |group| && group[k] == p;
      assert next[k] == p;
    }
  }

  /** Taking somebody out of the one place of a group that holds them. */
  lemma UnseatKeepsDistinct(group: seq<Id>, at: nat, next: seq<Id>)
    requires at < |group| && Distinct(group)
    requires next == group[at := NOBODY]
    ensures Distinct(next)
    ensures forall p: Id :: p != NOBODY ==> (p in next <==> p in group && p != group[at])
  {
    forall p: Id | p != NOBODY && p in group && p != group[at]
      ensures p in next
    {
      var k :| 0 <= k < |group| && group[k] == p;
      assert next[k] == p;
    }
  }

  ghost function People(group: seq<Id>): (people: set<Id>)
    ensures forall p: Id :: p in people <==> p in group && p != NOBODY
  {
    set p: Id | p in group && p != NOBODY
  }

  /** A group seats at most as many people as it has places, and fewer when one of them is free. */
  lemma {:induction false} PeopleBound(group: seq<Id>)
    ensures |People(group)| <= |group|
    ensures NOBODY in group ==> |People(group)| < |group|
  {
    if group == [] {
      assert People(group) == {};
    } else {
      var rest := group[1..];
      PeopleBound(rest);
      assert group == [group[0]] + rest;
      if group[0] == NOBODY {
        assert People(group) == People(rest);
      } else {
        assert People(group) == People(rest) + {group[0]};
      }
    }
  }

  /** A group with no free place and no repeats seats exactly as many people as it has places. */
  lemma {:induction false} PeopleOfFull(group: seq<Id>)
    requires Distinct(group) && NOBODY !in group
    ensures |People(group)| == |group|
  {
    if group == [] {
      assert People(group) == {};
    } else {
      var rest := group[1..];
      PeopleOfFull(rest);
      assert group == [group[0]] + rest;
      assert group[0] !in rest;
      assert People(group) == People(rest) + {group[0]};
    }
  }
}

/** The bits of a 64-bit word, by position, and what shifting and masking do to them. */
module Bits {

  predicate BitAt(b: bv64, k: bv6) {
    (b >> k) & 1 == 1
  }

  function Mask(p: bv6): bv64 {
    1 << p
  }

  /** Positions are counted the same as six-bit words and as numbers. */
  lemma SameNumber(k: nat)
    requires k < 64
    ensures (k as bv6) as int == k
  {
  }

  lemma OrderOfPositions(p: bv6, q: bv6)
    ensures p < q <==> p as int < q as int
  {
  }

  lemma DifferenceOfPositions(p: bv6, q: bv6)
    requires q <= p
    ensures (p - q) as int == p as int - q as int
  {
  }

  lemma SamePosition(p: bv6, q: bv6)
    ensures p == q <==> p as int == q as int
  {
    OrderOfPositions(p, q);
    OrderOfPositions(q, p);
  }

  lemma ShortShiftLands(b: bv64, s: bv6, d: bv6)
    requires s <= d && s < 16
    ensures BitAt(b << s, d) <==> BitAt(b, d - s)
  {
  }

  lemma MiddlingShiftLands(b: bv64, s: bv6, d: bv6)
    requires 16 <= s <= d && s < 32
    ensures BitAt(b << s, d) <==> BitAt(b, d - s)
  {
  }

  lemma LongShiftLands(b: bv64, s: bv6, d: bv6)
    requires 32 <= s <= d
    ensures BitAt(b << s, d) <==> BitAt(b, d - s)
  {
  }

  lemma ShiftVacates(b: bv64, s: bv6, d: bv6)
    requires d < s
    ensures !BitAt(b << s, d)
  {
  }

  /** A shifted word has the bits of the word, moved up, and none below. */
  lemma ShiftMovesBits(b: bv64, s: bv6, d: bv6)
    ensures BitAt(b << s, d) <==> s <= d && BitAt(b, d - s)
  {
    if d < s {
      ShiftVacates(b, s, d);
    } else if s < 16 {
      ShortShiftLands(b, s, d);
    } else if s < 32 {
      MiddlingShiftLands(b, s, d);
    } else {
      LongShiftLands(b, s, d);
    }
  }

  lemma MaskSetsBit(b: bv64, k: bv6, d: bv6)
    ensures BitAt(b | Mask(k), d) <==> d == k || BitAt(b, d)
  {
  }

  lemma MaskTestsBit(b: bv64, k: bv6)
    ensures b & Mask(k) != 0 <==> BitAt(b, k)
  {
  }

  lemma OneSetsLowest(b: bv64, d: bv6)
    ensures BitAt(b | 1, d) <==> d == 0 || BitAt(b, d)
    ensures !BitAt(0, d)
  {
  }

  /** The positions at which a word has a one. */
  ghost function Ones(b: bv64): iset<bv6> {
    iset p: bv6 | BitAt(b, p)
  }

  /** A position that moving up by `s` leads to from one of `ones`. */
  ghost predicate Lands(ones: iset<bv6>, s: bv6, p: bv6) {
    s <= p && p - s in ones
  }

  /** Positions moved up, those past the top lost. */
  ghost function MovedUp(ones: iset<bv6>, s: bv6): iset<bv6> {
    iset p: bv6 | Lands(ones, s, p)
  }

  lemma InOnes(b: bv64, p: bv6)
    ensures p in Ones(b) <==> BitAt(b, p)
  {
  }

  lemma OnesWithLowest(b: bv64)
    ensures Ones(b | 1) == Ones(b) + iset{0} && Ones(0) == iset{}
  {
    forall d: bv6 ensures BitAt(b | 1, d) <==> d == 0 || BitAt(b, d) { OneSetsLowest(b, d); }
    forall d: bv6 ensures !BitAt(0, d) { OneSetsLowest(b, d); }
  }

  lemma OnesWithMask(b: bv64, k: bv6)
    ensures Ones(b | Mask(k)) == Ones(b) + iset{k}
  {
    forall d: bv6 ensures BitAt(b | Mask(k), d) <==> d == k || BitAt(b, d) { MaskSetsBit(b, k, d); }
  }

  lemma OnesShifted(b: bv64, s: bv6)
    ensures Ones(b << s) == MovedUp(Ones(b), s)
  {
    forall d: bv6 ensures d in Ones(b << s) <==> d in MovedUp(Ones(b), s) {
      ShiftMovesBits(b, s, d);
      InOnes(b << s, d);
      if s <= d { InOnes(b, d - s); }
    }
  }
}

/** The replay window of a tunnel session: a 64-bit bitmap that stands for an unbounded set of sequence numbers. */
module Replay {
  import opened Basics
  import opened Bits

  const WINDOW := 64

  /** A sequence number as the packet header carries it. */
  type Number = n: int | 0 <= n < 0x1_0000_0000_0000_0000

  /** What the window is for: a number is taken when it was never taken and none taken is 64 or more ahead of it. */
  ghost predicate Admits(accepted: set<Number>, n: Number) {
    n !in accepted && forall q :: q in accepted ==> q < n || q - n < WINDOW
  }

  /** The ones of the bitmap say of the 64 numbers up to the highest which have been accepted. */
  ghost predicate Represents(highest: Number, ones: iset<bv6>, accepted: set<Number>) {
    && highest in accepted
    && (forall q :: q in accepted ==> q <= highest)
    && (forall p: bv6 :: p as int <= highest ==> (p in ones <==> highest - p as int in accepted))
  }

  lemma FirstRepresents(n: Number)
    ensures Represents(n, iset{0}, {n})
  {
    var ones := iset{0 as bv6};
    forall p: bv6 | p as int <= n ensures p in ones <==> n - p as int in {n} {
      SamePosition(p, 0);
    }
  }

  lemma AdvanceRepresents(highest: Number, ones: iset<bv6>, accepted: set<Number>, n: Number, s: bv6)
    requires Represents(highest, ones, accepted) && n > highest && s as int == n - highest
    ensures Represents(n, MovedUp(ones, s) + iset{0}, accepted + {n})
  {
    forall p: bv6 | p as int <= n
      ensures p in MovedUp(ones, s) + iset{0} <==> n - p as int in accepted + {n}
    {
      SamePosition(p, 0);
      OrderOfPositions(p, s);
      if s <= p {
        DifferenceOfPositions(p, s);
        assert n - p as int == highest - (p - s) as int;
      }
    }
  }

  lemma JumpRepresents(highest: Number, ones: iset<bv6>, accepted: set<Number>, n: Number)
    requires Represents(highest, ones, accepted) && n >= highest + WINDOW
    ensures Represents(n, iset{0}, accepted + {n})
  {
    var lowest := iset{0 as bv6};
    forall p: bv6 | p as int <= n ensures p in lowest <==> n - p as int in accepted + {n} {
      SamePosition(p, 0);
    }
  }

  lemma MarkRepresents(highest: Number, ones: iset<bv6>, accepted: set<Number>, n: Number, k: bv6)
    requires Represents(highest, ones, accepted) && n <= highest && k as int == highest - n
    ensures Represents(highest, ones + iset{k}, accepted + {n})
  {
    forall p: bv6 | p as int <= highest
      ensures p in ones + iset{k} <==> highest - p as int in accepted + {n}
    {
      SamePosition(p, k);
    }
  }

  lemma AdmitsByHighest(highest: Number, ones: iset<bv6>, accepted: set<Number>, n: Number)
    requires Represents(highest, ones, accepted)
    ensures n > highest ==> Admits(accepted, n)
    ensures n + WINDOW <= highest ==> !Admits(accepted, n)
  {
  }

  lemma AdmitsByBit(highest: Number, ones: iset<bv6>, accepted: set<Number>, n: Number, k: bv6)
    requires Represents(highest, ones, accepted) && n <= highest && k as int == highest - n
    ensures Admits(accepted, n) <==> k !in ones
  {
    assert highest - k as int == n;
  }

  type Plain = seq<Byte>

  datatype OpenError = BadHeader | BadSeal | Replayed

  /** What arrives: the sequence number its header carries, if it has a header, and what the sealed part opens to under
      that header, if it opens. */
  datatype Packet = Packet(number: Option<Number>, plain: Option<Plain>)

  predicate Authentic(p: Packet) {
    p.number.Some? && p.plain.Some?
  }

  ghost function OpenSpec(accepted: set<Number>, p: Packet): (set<Number>, Result<Plain, OpenError>) {
    if p.number.None? then (accepted, Err(BadHeader))
    else if p.plain.None? then (accepted, Err(BadSeal))
    else if !Admits(accepted, p.number.value) then (accepted, Err(Replayed))
    else (accepted + {p.number.value}, Ok(p.plain.value))
  }

  class Session {
    var highest: Number
    var bitmap: bv64
    var seen: bool
    ghost var accepted: set<Number>

    ghost predicate Valid()
      reads this
    {
      if seen then Represents(highest, Ones(bitmap), accepted) else accepted == {}
    }

    constructor ()
      ensures Valid() && accepted == {}
    {
      highest, bitmap, seen, accepted := 0, 0, false, {};
    }

    method CheckReplay(n: Number) returns (ok: bool)
      requires Valid()
      modifies this
      ensures Valid() && ok == Admits(old(accepted), n)
      ensures accepted == if ok then old(accepted) + {n} else old(accepted)
    {
      if !seen {
        seen, highest, bitmap, accepted := true, n, 1, {n};
        OnesWithLowest(0);
        FirstRepresents(n);
        return true;
      }
      AdmitsByHighest(highest, Ones(bitmap), accepted, n);
      if n > highest {
        bitmap := MoveUp(highest, bitmap, accepted, n);
        highest, accepted := n, accepted + {n};
        return true;
      }
      if highest - n >= WINDOW {
        return false;
      }
      ok, bitmap := TestAndMark(highest, bitmap, accepted, n);
      if ok {
        accepted := accepted + {n};
      }
    }

    /** The bitmap after a jump ahead: moved up by the distance, or emptied when that is 64 or more. */
    static method MoveUp(highest: Number, b: bv64, ghost accepted: set<Number>, n: Number) returns (moved: bv64)
      requires Represents(highest, Ones(b), accepted) && n > highest
      ensures Represents(n, Ones(moved), accepted + {n})
    {
      var shift := n - highest;
      if shift >= WINDOW {
        moved := 0;
        JumpRepresents(highest, Ones(b), accepted, n);
        OnesWithLowest(0);
      } else {
        moved := ShiftUp(b, shift as bv6);
        SameNumber(shift);
        AdvanceRepresents(highest, Ones(b), accepted, n, shift as bv6);
        OnesWithLowest(moved);
      }
      moved := moved | 1;
    }

    static method ShiftUp(b: bv64, shift: bv6) returns (moved: bv64)
      ensures Ones(moved) == MovedUp(Ones(b), shift)
    {
      moved := b << shift;
      OnesShifted(b, shift);
    }

    /** Whether a number inside the window is new, and the bitmap with it marked. */
    static method TestAndMark(highest: Number, b: bv64, ghost accepted: set<Number>, n: Number)
      returns (clear: bool, marked: bv64)
      requires Represents(highest, Ones(b), accepted) && n <= highest && highest - n < WINDOW
      ensures clear <==> Admits(accepted, n)
      ensures if clear then Represents(highest, Ones(marked), accepted + {n}) else marked == b
    {
      var k := (highest - n) as bv6;
      SameNumber(highest - n);
      AdmitsByBit(highest, Ones(b), accepted, n, k);
      MarkRepresents(highest, Ones(b), accepted, n, k);
      clear, marked := TestAndMarkAt(b, k);
    }

    static method TestAndMarkAt(b: bv64, p: bv6) returns (clear: bool, marked: bv64)
      ensures clear <==> p !in Ones(b)
      ensures if clear then Ones(marked) == Ones(b) + iset{p} else marked == b
    {
      InOnes(b, p);
      OnesWithMask(b, p);
      clear, marked := TestBit(b, p);
    }

    static method TestBit(b: bv64, p: bv6) returns (clear: bool, marked: bv64)
      ensures clear <==> !BitAt(b, p)
      ensures marked == if clear then b | Mask(p) else b
    {
      var mask := Mask(p);
      MaskTestsBit(b, p);
      if b & mask != 0 {
        return false, b;
      }
      clear, marked := true, b | mask;
    }

    /** The seal is checked before the window, so what does not open never moves it. */
    method Open(p: Packet) returns (answer: Result<Plain, OpenError>)
      requires Valid()
      modifies this
      ensures Valid() && (accepted, answer) == OpenSpec(old(accepted), p)
    {
      if p.number.None? {
        return Err(BadHeader);
      }
      if p.plain.None? {
        return Err(BadSeal);
      }
      var ok := CheckReplay(p.number.value);
      answer := if ok then Ok(p.plain.value) else Err(Replayed);
    }
  }

  /** The set of numbers accepted after a whole stream of packets. */
  ghost function AcceptedOf(packets: seq<Packet>): set<Number> {
    if packets == [] then {}
    else OpenSpec(AcceptedOf(packets[..|packets| - 1]), packets[|packets| - 1]).0
  }

  /** The i-th packet of a stream is handed up. */
  ghost predicate Delivered(packets: seq<Packet>, i: nat)
    requires i < |packets|
  {
    OpenSpec(AcceptedOf(packets[..i]), packets[i]).1.Ok?
  }

  ghost predicate Carried(packets: seq<Packet>, n: Number) {
    exists j :: 0 <= j < |packets| && Authentic(packets[j]) && packets[j].number == Some(n)
  }

  /** What was accepted was carried, and what was carried without being accepted is out of reach for good. */
  lemma {:induction false} CarriedOrOutOfReach(packets: seq<Packet>, n: Number)
    ensures n in AcceptedOf(packets) ==> Carried(packets, n)
    ensures Carried(packets, n) && n !in AcceptedOf(packets) ==>
              exists a :: a in AcceptedOf(packets) && a > n && a - n >= WINDOW
  {
    if packets != [] {
      var front, last := packets[..|packets| - 1], packets[|packets| - 1];
      CarriedOrOutOfReach(front, n);
      if Carried(front, n) {
        var j :| 0 <= j < |front| && Authentic(front[j]) && front[j].number == Some(n);
        assert packets[j] == front[j];
      }
      if j :| 0 <= j < |packets| && Authentic(packets[j]) && packets[j].number == Some(n) {
        assert j < |front| ==> front[j] == packets[j];
      }
      if last.number == Some(n) && Authentic(last) {
        assert packets[|front|] == last;
      }
    }
  }

  lemma OutOfReachIsTransitive(a: Number, q: Number, n: Number)
    requires a > q && a - q >= WINDOW && (a < n || a - n < WINDOW)
    ensures q < n
  {
  }

  /** Which packets of any stream are handed up, told from the stream alone: the authentic ones whose number no earlier
      authentic packet carried, and no earlier authentic packet was 64 or more ahead of. */
  lemma DeliveredExactly(packets: seq<Packet>, i: nat)
    requires i < |packets|
    ensures Delivered(packets, i) <==>
              && Authentic(packets[i])
              && !Carried(packets[..i], packets[i].number.value)
              && forall q: Number :: Carried(packets[..i], q) ==>
                    q < packets[i].number.value || q - packets[i].number.value < WINDOW
  {
    if Authentic(packets[i]) {
      var n, before := packets[i].number.value, packets[..i];
      var accepted := AcceptedOf(before);
      CarriedOrOutOfReach(before, n);
      if Admits(accepted, n) {
        forall q: Number | Carried(before, q) ensures q < n || q - n < WINDOW {
          CarriedOrOutOfReach(before, q);
          if q !in accepted {
            var a :| a in accepted && a > q && a - q >= WINDOW;
            OutOfReachIsTransitive(a, q, n);
          }
        }
      } else {
        if n !in accepted {
          var q :| q in accepted && !(q < n || q - n < WINDOW);
          CarriedOrOutOfReach(before, q);
        }
      }
    }
  }

  /** No number is ever handed up twice. */
  lemma DeliveredOnce(packets: seq<Packet>, i: nat, j: nat)
    requires i < j < |packets| && Delivered(packets, i) && Delivered(packets, j)
    ensures packets[i].number != packets[j].number
  {
    DeliveredExactly(packets, j);
    DeliveredExactly(packets, i);
    assert packets[..j][i] == packets[i];
  }

  /** Packets reordered by less than the window, each number once: every one of them is handed up, whatever forgeries
      arrive in between. */
  lemma ReorderingLosesNothing(packets: seq<Packet>, i: nat)
    requires i < |packets| && Authentic(packets[i])
    requires forall j :: 0 <= j < i && Authentic(packets[j]) ==>
               var q, n := packets[j].number.value, packets[i].number.value; q < n || (q != n && q - n < WINDOW)
    ensures Delivered(packets, i)
  {
    DeliveredExactly(packets, i);
    var before := packets[..i];
    forall q: Number | Carried(before, q)
        ensures q != packets[i].number.value && (q < packets[i].number.value || q - packets[i].number.value < WINDOW) {
      var j :| 0 <= j < |before| && Authentic(before[j]) && before[j].number == Some(q);
      assert before[j] == packets[j];
    }
  }
}

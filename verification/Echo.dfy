/** The Internet checksum (sections 1 and 2 of RFC 1071) as the load generator computes it. */
module Checksums {
  import opened Basics

  const WORD: nat := 0x1_0000
  const SUM_MODULUS: nat := 0x1_0000_0000

  /** An octet in the upper half of a word. */
  function High(x: Byte): nat {
    x * 256
  }

  function WordAt(b: seq<Byte>, i: nat): nat
    requires i + 1 < |b|
  {
    High(b[i]) + b[i + 1]
  }

  /** The sum of a buffer's 16-bit words, most significant octet first; an odd octet at the end is padded. */
  function WordSum(b: seq<Byte>): nat {
    if |b| == 0 then 0
    else if |b| == 1 then High(b[0])
    else WordAt(b, 0) + WordSum(b[2..])
  }

  /** The one's-complement value of a sum: congruent to it modulo 65535, and 0 only for 0. */
  function Folded(sum: nat): (r: nat)
    ensures r < WORD && r % 65535 == sum % 65535 && (r == 0 <==> sum == 0)
  {
    if sum == 0 then 0 else (sum - 1) % 65535 + 1
  }

  /** The checksum as computed: the sum is kept in 32 bits. */
  function ChecksumOf(b: seq<Byte>): (c: nat)
    ensures c < WORD
  {
    WORD - 1 - Folded(WordSum(b) % SUM_MODULUS)
  }

  /** Folding a carry back in keeps the one's-complement value. */
  lemma FoldStep(sum: nat)
    requires sum / WORD != 0
    ensures sum % WORD + sum / WORD < sum
    ensures Folded(sum % WORD + sum / WORD) == Folded(sum)
  {
    var high, low := sum / WORD, sum % WORD;
    assert sum == high * 65535 + (high + low);
    assert (sum - 1) % 65535 == (high + low - 1) % 65535 by {
      assert sum - 1 == high * 65535 + (high + low - 1);
    }
  }

  lemma {:induction false} WordSumSplits(a: seq<Byte>, b: seq<Byte>)
    requires |a| % 2 == 0
    ensures WordSum(a + b) == WordSum(a) + WordSum(b)
  {
    if |a| == 0 {
      assert a + b == b;
    } else {
      assert (a + b)[2..] == a[2..] + b;
      WordSumSplits(a[2..], b);
    }
  }

  lemma SumInModulus(sum: nat, more: nat)
    ensures (sum % SUM_MODULUS + more) % SUM_MODULUS == (sum + more) % SUM_MODULUS
  {
  }

  lemma OneWordMore(b: seq<Byte>, i: nat)
    requires i + 1 < |b| && i % 2 == 0
    ensures WordSum(b[..i + 2]) == WordSum(b[..i]) + WordAt(b, i)
  {
    WordSumSplits(b[..i], b[i..i + 2]);
    assert b[..i + 2] == b[..i] + b[i..i + 2];
    assert b[i..i + 2][2..] == [];
  }

  lemma OddOctet(b: seq<Byte>)
    requires |b| % 2 == 1
    ensures WordSum(b) == WordSum(b[..|b| - 1]) + High(b[|b| - 1])
  {
    var front, last := b[..|b| - 1], [b[|b| - 1]];
    WordSumSplits(front, last);
    assert b == front + last;
    assert WordSum(last) == High(last[0]);
  }

  method AddWords(b: seq<Byte>) returns (sum: nat)
    ensures sum == WordSum(b) % SUM_MODULUS
  {
    sum := 0;
    var i := 0;
    while i + 1 < |b|
      invariant i <= |b| && i % 2 == 0 && sum == WordSum(b[..i]) % SUM_MODULUS
    {
      OneWordMore(b, i);
      SumInModulus(WordSum(b[..i]), WordAt(b, i));
      sum := (sum + WordAt(b, i)) % SUM_MODULUS;
      i := i + 2;
    }
    if |b| % 2 == 1 {
      OddOctet(b);
      SumInModulus(WordSum(b[..i]), High(b[i]));
      sum := (sum + High(b[|b| - 1])) % SUM_MODULUS;
    } else {
      assert b == b[..i];
    }
  }

  method Checksum(b: seq<Byte>) returns (c: nat)
    ensures c == ChecksumOf(b)
  {
    var sum: nat := AddWords(b);
    while sum / WORD != 0
      invariant Folded(sum) == Folded(WordSum(b) % SUM_MODULUS)
      decreases sum
    {
      FoldStep(sum);
      sum := sum % WORD + sum / WORD;
    }
    c := WORD - 1 - sum;
  }

  function Put16(b: seq<Byte>, at: nat, v: nat): (r: seq<Byte>)
    requires at + 1 < |b| && v < WORD
    ensures |r| == |b|
  {
    b[at := v / 256][at + 1 := v % 256]
  }

  /** A buffer with the checksum of what it was, zeroed there, put in at a word of its own. */
  function Summed(b: seq<Byte>, at: nat): (r: seq<Byte>)
    requires at + 1 < |b|
    ensures |r| == |b|
  {
    Put16(b, at, ChecksumOf(Put16(b, at, 0)))
  }

  lemma PutAddsToSum(b: seq<Byte>, at: nat, v: nat)
    requires at + 1 < |b| && at % 2 == 0 && v < WORD
    ensures WordSum(Put16(b, at, v)) == WordSum(b[..at]) + v + WordSum(b[at + 2..])
  {
    var word := [v / 256, v % 256];
    var r := Put16(b, at, v);
    assert r == b[..at] + (word + b[at + 2..]);
    WordSumSplits(b[..at], word + b[at + 2..]);
    WordSumSplits(word, b[at + 2..]);
    assert word[2..] == [];
  }

  /** The check a receiver makes that loses no carry, however long the buffer. */
  function FullChecksumOf(b: seq<Byte>): (c: nat)
    ensures c < WORD
  {
    WORD - 1 - Folded(WordSum(b))
  }

  /** One's-complement arithmetic in 32 bits: a sum and its checksum never wrap, and come to all ones. */
  lemma SumAndChecksum(w: nat)
    requires w < SUM_MODULUS
    ensures var c := WORD - 1 - Folded(w);
            w + c < SUM_MODULUS && Folded(w + c) == WORD - 1
  {
    if w != 0 {
      var c := WORD - 1 - Folded(w);
      var q := (w - 1) / 65535;
      assert w - 1 == q * 65535 + (w - 1) % 65535;
      assert w + c == (q + 1) * 65535;
      assert (w + c - 1) % 65535 == 65534 by {
        assert w + c - 1 == q * 65535 + 65534;
      }
    }
  }

  /** Carries lost beyond 32 bits are worth one each. */
  lemma LostCarries(w: nat, lost: nat)
    requires 0 < w && w % 65535 == 0
    ensures Folded(lost * SUM_MODULUS + w) == WORD - 1 <==> lost % 65535 == 0
  {
    var m := w / 65535;
    var total := lost * SUM_MODULUS + w;
    assert total == (lost * 65537 + m) * 65535 + lost;
    RestOf(lost * 65537 + m, lost);
  }

  lemma RestOf(q: nat, r: nat)
    ensures (q * 65535 + r) % 65535 == r % 65535
  {
  }

  lemma SummedSum(b: seq<Byte>, at: nat)
    requires at + 1 < |b| && at % 2 == 0
    ensures WordSum(Summed(b, at)) == WordSum(Put16(b, at, 0)) + ChecksumOf(Put16(b, at, 0))
  {
    PutAddsToSum(b, at, 0);
    PutAddsToSum(b, at, ChecksumOf(Put16(b, at, 0)));
  }

  lemma SumRechecks(sum: nat, c: nat)
    requires c == WORD - 1 - Folded(sum % SUM_MODULUS)
    ensures Folded((sum + c) % SUM_MODULUS) == WORD - 1
  {
    SumAndChecksum(sum % SUM_MODULUS);
    SumInModulus(sum, c);
  }

  /** A buffer with its checksum in place comes to zero, whatever its length. */
  lemma Rechecks(b: seq<Byte>, at: nat)
    requires at + 1 < |b| && at % 2 == 0
    ensures ChecksumOf(Summed(b, at)) == 0
  {
    SummedSum(b, at);
    var sum := WordSum(Put16(b, at, 0));
    SumRechecks(sum, ChecksumOf(Put16(b, at, 0)));
  }

  /** A receiver that loses no carry agrees exactly when the carries the 32-bit sum lost are worth nothing. */
  lemma RechecksInFullExactly(b: seq<Byte>, at: nat)
    requires at + 1 < |b| && at % 2 == 0
    ensures FullChecksumOf(Summed(b, at)) == 0 <==> WordSum(Put16(b, at, 0)) / SUM_MODULUS % 65535 == 0
  {
    SummedSum(b, at);
    var sum := WordSum(Put16(b, at, 0));
    var c := ChecksumOf(Put16(b, at, 0));
    SumAndChecksum(sum % SUM_MODULUS);
    LostCarries(sum % SUM_MODULUS + c, sum / SUM_MODULUS);
  }

  lemma {:induction false} SumBound(b: seq<Byte>)
    ensures WordSum(b) <= (|b| + 1) / 2 * 65535
  {
    if |b| > 1 {
      SumBound(b[2..]);
    }
  }

  /** Up to 131074 octets, which is more than any datagram holds, no carry is lost. */
  lemma ShortBuffersLoseNothing(b: seq<Byte>, at: nat)
    requires at + 1 < |b| <= 131074 && at % 2 == 0
    ensures FullChecksumOf(Summed(b, at)) == 0
  {
    SumBound(Put16(b, at, 0));
    RechecksInFullExactly(b, at);
  }
}

/** The load generator's answer to a ping: RFC 792 echo reply in an RFC 791 header. */
module Echo {
  import opened Basics
  import opened Checksums
  import Ipam
  import RelayRoute

  const ICMP: Byte := 1
  const ECHO_REQUEST: Byte := 8
  const ECHO_REPLY: Byte := 0

  function HeaderLength(pkt: seq<Byte>): nat
    requires |pkt| > 0
  {
    pkt[0] % 16 * 4
  }

  /** What is answered at all: an echo request, whole, addressed to us. */
  predicate Answerable(pkt: seq<Byte>, self: Ipam.Address) {
    && |pkt| >= 28 && pkt[0] / 16 == 4
    && HeaderLength(pkt) >= 20 && |pkt| >= HeaderLength(pkt) + 8
    && pkt[9] == ICMP
    && RelayRoute.AddressAt(pkt, 16) == self
    && pkt[HeaderLength(pkt)] == ECHO_REQUEST
  }

  /** What a good reply is: the same packet back to where it came from, of the reply type, with both checksums
      computed over what is sent. */
  ghost predicate IsReply(pkt: seq<Byte>, out: seq<Byte>)
    requires |pkt| >= 28 && HeaderLength(pkt) >= 20 && |pkt| >= HeaderLength(pkt) + 8
  {
    var n := HeaderLength(pkt);
    && |out| == |pkt|
    && RelayRoute.AddressAt(out, 12) == RelayRoute.AddressAt(pkt, 16)
    && RelayRoute.AddressAt(out, 16) == RelayRoute.AddressAt(pkt, 12)
    && out[n] == ECHO_REPLY
    && (forall i :: 0 <= i < |pkt| && !(10 <= i < 20) && i != n && i != n + 2 && i != n + 3 ==> out[i] == pkt[i])
    && out[..n] == Summed(out[..n], 10)
    && out[n..] == Summed(out[n..], 2)
  }

  /** The request turned round: addresses swapped, type changed, checksums as they were. */
  function Turned(pkt: seq<Byte>): (r: seq<Byte>)
    requires |pkt| >= 28 && HeaderLength(pkt) >= 20 && |pkt| >= HeaderLength(pkt) + 8
    ensures |r| == |pkt|
  {
    (pkt[..12] + pkt[16..20] + pkt[12..16] + pkt[20..])[HeaderLength(pkt) := ECHO_REPLY]
  }

  lemma TurnedAndSummed(pkt: seq<Byte>, out: seq<Byte>)
    requires |pkt| >= 28 && HeaderLength(pkt) >= 20 && |pkt| >= HeaderLength(pkt) + 8 && |out| == |pkt|
    requires var n := HeaderLength(pkt);
             out[..n] == Summed(Turned(pkt)[..n], 10) && out[n..] == Summed(Turned(pkt)[n..], 2)
    ensures IsReply(pkt, out)
  {
    var n, turned := HeaderLength(pkt), Turned(pkt);
    SummedTwice(turned[..n], 10);
    SummedTwice(turned[n..], 2);
    forall i | 0 <= i < |pkt| && i != 10 && i != 11 && i != n + 2 && i != n + 3 ensures out[i] == turned[i] {
      SummedElsewhere(pkt, out, n, i);
    }
  }

  lemma SummedElsewhere(pkt: seq<Byte>, out: seq<Byte>, n: nat, i: nat)
    requires 20 <= n && n + 8 <= |pkt| && |out| == |pkt| && n == HeaderLength(pkt)
    requires out[..n] == Summed(Turned(pkt)[..n], 10) && out[n..] == Summed(Turned(pkt)[n..], 2)
    requires i < |pkt| && i != 10 && i != 11 && i != n + 2 && i != n + 3
    ensures out[i] == Turned(pkt)[i]
  {
    if i < n {
      assert out[i] == out[..n][i];
    } else {
      assert out[i] == out[n..][i - n];
    }
  }

  lemma SummedTwice(b: seq<Byte>, at: nat)
    requires at + 1 < |b|
    ensures Summed(Summed(b, at), at) == Summed(b, at)
  {
    assert Put16(Summed(b, at), at, 0) == Put16(b, at, 0);
  }

  method Put(out: array<Byte>, at: nat, v: nat)
    requires at + 1 < out.Length && v < WORD
    modifies out
    ensures out[..] == Put16(old(out[..]), at, v)
  {
    out[at], out[at + 1] := v / 256, v % 256;
  }

  /** Zeroes a checksum and computes it again over the stretch it stands in. */
  method Resum(out: array<Byte>, from: nat, to: nat, at: nat)
    requires from + at + 1 < to <= out.Length
    modifies out
    ensures out[from..to] == Summed(old(out[from..to]), at)
    ensures out[..from] == old(out[..from]) && out[to..] == old(out[to..])
  {
    Put(out, from + at, 0);
    assert out[from..to] == Put16(old(out[from..to]), at, 0);
    var c := Checksum(out[from..to]);
    Put(out, from + at, c);
    assert out[from..to] == Put16(old(out[from..to]), at, c);
  }

  method CopyInto(out: array<Byte>, at: nat, pkt: array<Byte>, from: nat, n: nat)
    requires out != pkt && at + n <= out.Length && from + n <= pkt.Length
    modifies out
    ensures out[..] == old(out[..at]) + pkt[from..from + n] + old(out[at + n..])
  {
    forall i | 0 <= i < n {
      out[at + i] := pkt[from + i];
    }
  }

  lemma SwapComposes(pkt: seq<Byte>, once: seq<Byte>, twice: seq<Byte>)
    requires |pkt| >= 28 && once == pkt[..12] + pkt[16..20] + pkt[16..]
             && twice == once[..16] + pkt[12..16] + once[20..]
    ensures twice == pkt[..12] + pkt[16..20] + pkt[12..16] + pkt[20..]
  {
  }

  method CopyTurned(pkt: array<Byte>, n: nat) returns (out: array<Byte>)
    requires pkt.Length >= 28 && n == HeaderLength(pkt[..]) && n >= 20 && pkt.Length >= n + 8
    ensures fresh(out) && out[..] == Turned(pkt[..])
  {
    out := new Byte[pkt.Length](i requires 0 <= i < pkt.Length reads pkt => pkt[i]);
    assert out[..] == pkt[..];
    CopyInto(out, 12, pkt, 16, 4);
    ghost var once := out[..];
    CopyInto(out, 16, pkt, 12, 4);
    SwapComposes(pkt[..], once, out[..]);
    out[n] := ECHO_REPLY;
  }

  /** The test, in the order the source makes it. */
  method IsRequest(pkt: array<Byte>, self: Ipam.Address) returns (yes: bool)
    ensures yes <==> Answerable(pkt[..], self)
  {
    if pkt.Length < 28 || pkt[0] / 16 != 4 {
      return false;
    }
    var n := HeaderLength(pkt[..]);
    if n < 20 || pkt.Length < n + 8 {
      return false;
    }
    if pkt[9] != ICMP {
      return false;
    }
    if Ipam.Address(pkt[16], pkt[17], pkt[18], pkt[19]) != self {
      return false;
    }
    yes := pkt[n] == ECHO_REQUEST;
  }

  method EchoReply(pkt: array<Byte>, self: Ipam.Address) returns (ok: bool, out: array<Byte>)
    ensures ok <==> Answerable(pkt[..], self)
    ensures ok ==> fresh(out) && IsReply(pkt[..], out[..])
  {
    out := pkt;
    ok := IsRequest(pkt, self);
    if ok {
      var n := HeaderLength(pkt[..]);
      out := CopyTurned(pkt, n);
      ghost var turned := out[..];
      Resum(out, 0, n, 10);
      ghost var headed := out[..];
      assert headed[n..] == turned[n..] && headed[..n] == Summed(turned[..n], 10);
      Resum(out, n, pkt.Length, 2);
      ghost var done := out[..];
      assert headed[n..pkt.Length] == headed[n..] && done[n..pkt.Length] == done[n..];
      assert done[..n] == headed[..n] && done[n..] == Summed(headed[n..], 2);
      TurnedAndSummed(pkt[..], done);
    }
  }

  /** The receiver's two checks of any reply come to zero. One that loses no carry agrees on the header always, and on
      the message for every packet of up to 131074 octets. */
  lemma ReplyChecksOut(pkt: seq<Byte>, self: Ipam.Address, out: seq<Byte>)
    requires Answerable(pkt, self) && IsReply(pkt, out)
    ensures var n := HeaderLength(pkt);
            && ChecksumOf(out[..n]) == 0 && ChecksumOf(out[n..]) == 0
            && FullChecksumOf(out[..n]) == 0 && (|pkt| <= 131074 ==> FullChecksumOf(out[n..]) == 0)
  {
    var n := HeaderLength(pkt);
    Rechecks(out[..n], 10);
    Rechecks(out[n..], 2);
    ShortBuffersLoseNothing(out[..n], 10);
    if |pkt| <= 131074 { ShortBuffersLoseNothing(out[n..], 2); }
  }

  /** A reply is never answered in its turn, by anybody. */
  lemma RepliesAreNotAnswered(pkt: seq<Byte>, self: Ipam.Address, out: seq<Byte>, other: Ipam.Address)
    requires Answerable(pkt, self) && IsReply(pkt, out)
    ensures HeaderLength(out) == HeaderLength(pkt) && !Answerable(out, other)
  {
    assert out[0] == pkt[0];
  }

  /** There is one reply to a request, so the conditions leave nothing open. */
  lemma OneReply(pkt: seq<Byte>, self: Ipam.Address, a: seq<Byte>, b: seq<Byte>)
    requires Answerable(pkt, self) && IsReply(pkt, a) && IsReply(pkt, b)
    ensures a == b
  {
    var n := HeaderLength(pkt);
    assert RelayRoute.AddressAt(a, 12) == RelayRoute.AddressAt(b, 12);
    assert RelayRoute.AddressAt(a, 16) == RelayRoute.AddressAt(b, 16);
    OneSum(a[..n], b[..n], 10);
    OneSum(a[n..], b[n..], 2);
    assert a == a[..n] + a[n..] && b == b[..n] + b[n..];
  }

  lemma OneSum(a: seq<Byte>, b: seq<Byte>, at: nat)
    requires at + 1 < |a| == |b| && a == Summed(a, at) && b == Summed(b, at)
    requires forall i :: 0 <= i < |a| && i != at && i != at + 1 ==> a[i] == b[i]
    ensures a == b
  {
    assert Put16(a, at, 0) == Put16(b, at, 0);
  }
}

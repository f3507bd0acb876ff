/** The Internet checksum in its two forms, and the echo reply that carries it. */
module Checksum {
  import opened Bytes

  /** A little-endian word. */
  function Word(lo: nat, hi: nat): nat
  {
    lo + 256 * hi
  }

  /** The sum of the little-endian 16-bit words; a trailing byte counts as it stands. */
  function WordSum(s: seq<Byte>): (r: nat)
    ensures r <= 65535 * (|s| / 2) + 255 * (|s| % 2)
  {
    if |s| == 0 then 0 else if |s| == 1 then s[0] else Word(s[0], s[1]) + WordSum(s[2..])
  }

  /** The ones' complement sum: the residue modulo 65535, zero only for zero. */
  function Residue(s: nat): nat
  {
    if s == 0 then 0 else (s - 1) % 65535 + 1
  }

  /** The checksum of section 1 of RFC 1071. */
  function Checksum(s: seq<Byte>): nat
  {
    65535 - Residue(WordSum(s))
  }

  const INT_MAX := 0x7fff_ffff

  /** A 32-bit two's complement `int`. */
  function AsInt(x: int): int
  {
    (x + INT_MAX + 1) % U32 - INT_MAX - 1
  }

  /** Lines 231-232: high half plus low half, then the carry once. */
  function FoldTwice(sum: int): int
  {
    var once := sum / 65536 + sum % 65536;
    once + once / 65536
  }

  lemma ResidueOf(s: nat, r: nat, k: int)
    requires r <= 65535 && s == r + 65535 * k && (r == 0 <==> s == 0)
    ensures Residue(s) == r
  {
    if s > 0 {
      assert s - 1 == 65535 * k + (r - 1);
    }
  }

  lemma ResidueIs(s: nat) returns (k: int)
    ensures s == Residue(s) + 65535 * k
    ensures Residue(s) <= 65535 && (Residue(s) == 0 <==> s == 0)
  {
    k := if s > 0 then (s - 1) / 65535 else 0;
  }

  /** One carry round keeps the value modulo 65535, and the second never carries out of 16 bits. */
  lemma FoldsKeep(x: int) returns (folded: nat, k: int)
    requires -INT_MAX - 1 <= x <= INT_MAX
    ensures folded == FoldTwice(x) % 65536 && x == folded + 65535 * k
    ensures x >= 0 ==> (folded == 0 <==> x == 0)
  {
    var hi, lo := x / 65536, x % 65536;
    folded, k := FoldTwice(x) % 65536, hi;
    if hi + lo < 0 {
      k := hi - 1;
    } else if hi + lo >= 65536 {
      k := hi + 1;
    }
  }

  lemma Wraps(sum: nat) returns (wraps: nat)
    requires sum <= 65535 * 0x4000_0000
    ensures wraps < 65535 && AsInt(sum) == sum - U32 * wraps
    ensures wraps == 0 <==> sum <= INT_MAX
  {
    wraps := (sum + INT_MAX + 1) / U32;
  }

  lemma SameResidue(sum: nat, x: nat, k: int, y: nat, l: int)
    requires sum == x + 65535 * k && x <= 65535 && (x == 0 <==> sum == 0)
    requires sum == y + 65535 * l && y <= 65535 && (y == 0 <==> sum == 0)
    ensures x == y
  {
  }

  lemma NotMultiple(w: nat, k: int)
    requires 1 <= w < 65535
    ensures w + 65535 * k != 0
  {
    assert (w + 65535 * k) % 65535 == w;
  }

  /** Each wrap takes one from the value modulo 65535. */
  lemma WrapShows(sum: nat, wrapped: int, wraps: nat, folded: nat, k: int, residue: nat, l: int)
    requires wrapped == sum - U32 * wraps && wraps < 65535
    requires wrapped == folded + 65535 * k && folded <= 65535 && (wrapped >= 0 ==> (folded == 0 <==> wrapped == 0))
    requires sum == residue + 65535 * l && residue <= 65535 && (residue == 0 <==> sum == 0)
    ensures folded == residue <==> wraps == 0
  {
    if wraps == 0 {
      SameResidue(sum, folded, k, residue, l);
    } else {
      NotMultiple(wraps, 65537 * wraps + k - l);
    }
  }

  /** Over every buffer an `int` length can name, the fold of the wrapped sum is right exactly when
      the sum did not overflow. */
  lemma TwoStepIsExact(s: seq<Byte>)
    requires |s| <= INT_MAX
    ensures FoldTwice(AsInt(WordSum(s))) % 65536 == Residue(WordSum(s)) <==> WordSum(s) <= INT_MAX
  {
    var folded, k := FoldsKeep(AsInt(WordSum(s)));
    var l := ResidueIs(WordSum(s));
    var wraps := Wraps(WordSum(s));
    WrapShows(WordSum(s), AsInt(WordSum(s)), wraps, folded, k, Residue(WordSum(s)), l);
  }

  /** Up to 65537 bytes the sum fits, so the forms agree; 65538 bytes of ones are the first to fail. */
  lemma FormsAgreeOnPackets(s: seq<Byte>)
    requires |s| <= 65537
    ensures WordSum(s) <= INT_MAX && FoldTwice(AsInt(WordSum(s))) % 65536 == Residue(WordSum(s))
  {
    TwoStepIsExact(s);
  }

  lemma {:induction false} OnesSum(n: nat)
    ensures WordSum(seq(2 * n, _ => 255)) == 65535 * n
  {
    if n == 0 {
    } else {
      assert seq(2 * n, _ => 255 as Byte)[2..] == seq(2 * (n - 1), _ => 255);
      OnesSum(n - 1);
    }
  }

  lemma FormsDifferBeyond()
    ensures var s: seq<Byte> := seq(65538, _ => 255);
      FoldTwice(AsInt(WordSum(s))) % 65536 != Residue(WordSum(s))
  {
    OnesSum(32769);
    TwoStepIsExact(seq(65538, _ => 255));
  }

  lemma TakeWord(s: seq<Byte>, i: nat)
    requires i + 1 < |s|
    ensures WordSum(s[i..]) == Word(s[i], s[i + 1]) + WordSum(s[i + 2..])
  {
    assert s[i..][2..] == s[i + 2..];
  }

  lemma SameWrap(x: int, k: int)
    ensures AsInt(x - U32 * k) == AsInt(x)
  {
    var q, r := (x + INT_MAX + 1) / U32, (x + INT_MAX + 1) % U32;
    assert x - U32 * k + INT_MAX + 1 == U32 * (q - k) + r;
  }

  lemma AddWraps(x: int, y: int)
    ensures AsInt(AsInt(x) + y) == AsInt(x + y)
  {
    var k := (x + INT_MAX + 1) / U32;
    assert AsInt(x) == x - U32 * k;
    SameWrap(x + y, k);
  }

  /** Lines 223-230 of ustack.c: the words are added in an `int`. */
  method SumWords(msg: array<Byte>, from: nat, len: nat) returns (sum: int)
    requires from + len <= msg.Length
    ensures sum == AsInt(WordSum(msg[from..from + len]))
  {
    ghost var s := msg[from..from + len];
    var addr, left := from, len;
    sum := 0;
    while left > 1
      invariant 0 <= left <= len && addr + left == from + len
      invariant sum == AsInt(WordSum(s) - WordSum(s[addr - from..]))
    {
      TakeWord(s, addr - from);
      AddWraps(WordSum(s) - WordSum(s[addr - from..]), Word(msg[addr], msg[addr + 1]));
      sum := AsInt(sum + Word(msg[addr], msg[addr + 1]));
      addr, left := addr + 2, left - 2;
    }
    if left == 1 {
      AddWraps(WordSum(s) - WordSum(s[addr - from..]), msg[addr]);
      sum := AsInt(sum + msg[addr]);
    }
  }

  /** Lines 222-234 of ustack.c. */
  method TwoStep(msg: array<Byte>, from: nat, len: nat) returns (c: nat)
    requires from + len <= msg.Length && len <= INT_MAX
    ensures c <= 65535
    ensures c == Checksum(msg[from..from + len]) <==> WordSum(msg[from..from + len]) <= INT_MAX
  {
    var sum := SumWords(msg, from, len);
    TwoStepIsExact(msg[from..from + len]);
    ghost var k := ResidueIs(WordSum(msg[from..from + len]));
    sum := sum / 65536 + sum % 65536;
    sum := sum + sum / 65536;
    c := 65535 - sum % 65536;
  }

  /** Lines 607-627 of tcp_from_king.c: a 64-bit sum, folded until no carry is left. */
  method Looped(msg: array<Byte>, from: nat, count: nat) returns (c: nat)
    requires from + count <= msg.Length && count <= INT_MAX
    ensures c == Checksum(msg[from..from + count])
  {
    ghost var s := msg[from..from + count];
    var sum: nat, addr, left := 0, from, count;
    while left > 1
      invariant 0 <= left <= count && addr + left == from + count
      invariant sum + WordSum(s[addr - from..]) == WordSum(s)
    {
      TakeWord(s, addr - from);
      sum := sum + Word(msg[addr], msg[addr + 1]);
      addr, left := addr + 2, left - 2;
    }
    if left > 0 {
      sum := sum + msg[addr];
    }
    assert sum == WordSum(s);
    while sum / 65536 != 0
      invariant Residue(sum) == Residue(WordSum(s))
      decreases sum
    {
      ghost var k := ResidueIs(sum);
      ghost var carry := sum / 65536;
      ghost var before := sum;
      sum := sum % 65536 + sum / 65536;
      ResidueOf(sum, Residue(before), k - carry);
    }
    ResidueOf(sum, sum, 0);
    c := 65535 - sum;
  }

  /** A word stored low byte first. */
  function Stored(s: seq<Byte>, at: nat, w: nat): seq<Byte>
    requires at + 1 < |s| && w <= 65535
  {
    s[at := w % 256][at + 1 := w / 256]
  }

  /** Writing a word into a zeroed field at an even place adds it to the sum. */
  lemma {:induction false} StoreAdds(s: seq<Byte>, at: nat, c: nat)
    requires at % 2 == 0 && at + 1 < |s| && s[at] == s[at + 1] == 0 && c <= 65535
    ensures WordSum(Stored(s, at, c)) == WordSum(s) + c
  {
    var t := Stored(s, at, c);
    if at == 0 {
      assert t[2..] == s[2..];
    } else {
      assert t[2..] == Stored(s[2..], at - 2, c);
      StoreAdds(s[2..], at - 2, c);
    }
  }

  /** The stored checksum makes the whole sum to zero, as the receiver checks it. */
  lemma StoredChecksumVerifies(s: seq<Byte>, at: nat)
    requires at % 2 == 0 && at + 1 < |s| && s[at] == s[at + 1] == 0
    ensures var c := Checksum(s); c <= 65535 && Checksum(Stored(s, at, c)) == 0
  {
    var k := ResidueIs(WordSum(s));
    StoreAdds(s, at, Checksum(s));
    ResidueOf(WordSum(s) + Checksum(s), 65535, k);
  }

  lemma OnlyTheZeros(sum: nat, v: nat, w: nat, x: nat, k: int, y: nat, l: int)
    requires v < w <= 65535
    requires sum + v == x + 65535 * k && x <= 65535 && (x == 0 <==> sum + v == 0)
    requires sum + w == y + 65535 * l && y <= 65535 && (y == 0 <==> sum + w == 0)
    ensures x == y <==> v == 0 && w == 65535 && sum > 0
  {
  }

  lemma SameResidueSums(sum: nat, v: nat, w: nat)
    requires v < w <= 65535
    ensures Residue(sum + v) == Residue(sum + w) <==> v == 0 && w == 65535 && sum > 0
  {
    var k := ResidueIs(sum + v);
    var l := ResidueIs(sum + w);
    OnlyTheZeros(sum, v, w, Residue(sum + v), k, Residue(sum + w), l);
  }

  lemma SameChecksum(t: seq<Byte>, u: seq<Byte>, sum: nat, v: nat, w: nat)
    requires v < w <= 65535 && WordSum(t) == sum + v && WordSum(u) == sum + w
    ensures Checksum(t) == Checksum(u) <==> v == 0 && w == 65535 && sum > 0
  {
    SameResidueSums(sum, v, w);
  }

  /** A change of one word is noticed, except between the two zeros of ones' complement. */
  lemma OneWordChange(s: seq<Byte>, at: nat, v: nat, w: nat)
    requires at % 2 == 0 && at + 1 < |s| && s[at] == s[at + 1] == 0 && v < w <= 65535
    ensures Checksum(Stored(s, at, v)) == Checksum(Stored(s, at, w))
      <==> v == 0 && w == 65535 && WordSum(s) > 0
  {
    StoreAdds(s, at, v);
    StoreAdds(s, at, w);
    SameChecksum(Stored(s, at, v), Stored(s, at, w), WordSum(s), v, w);
  }

  /** Every word with its bytes exchanged. */
  function Swapped(s: seq<Byte>): (r: seq<Byte>)
    requires |s| % 2 == 0
    ensures |r| == |s|
  {
    if s == [] then [] else [s[1], s[0]] + Swapped(s[2..])
  }

  function SwapWord(w: nat): nat
    requires w <= 65535
  {
    256 * (w % 256) + w / 256
  }

  lemma {:induction false} SwappedSum(s: seq<Byte>) returns (k: int)
    requires |s| % 2 == 0
    ensures WordSum(Swapped(s)) == 256 * WordSum(s) + 65535 * k
    ensures WordSum(Swapped(s)) == 0 <==> WordSum(s) == 0
  {
    k := 0;
    if s == [] {
    } else {
      var rest := SwappedSum(s[2..]);
      var t := Swapped(s);
      assert t[2..] == Swapped(s[2..]);
      assert WordSum(t) == Word(s[1], s[0]) + WordSum(t[2..]);
      k := rest - s[1];
    }
  }

  lemma SwapScales(r: nat)
    requires r <= 65535
    ensures 256 * r == SwapWord(r) + 65535 * (r / 256)
    ensures SwapWord(r) <= 65535 && (SwapWord(r) == 0 <==> r == 0)
  {
  }

  lemma SwapResidue(sum: nat, r: nat, l: int, other: nat, k: int)
    requires sum == r + 65535 * l && r <= 65535 && (r == 0 <==> sum == 0)
    requires other == 256 * sum + 65535 * k && (other == 0 <==> sum == 0)
    ensures Residue(other) == SwapWord(r)
  {
    SwapScales(r);
    ResidueOf(other, SwapWord(r), k + 256 * l + r / 256);
  }

  lemma Complement(r: nat, c: nat)
    requires r <= 65535 && c == 65535 - r
    ensures SwapWord(c) == 65535 - SwapWord(r)
  {
    var hi, lo := r / 256, r % 256;
    assert c == 256 * (255 - hi) + (255 - lo);
  }

  /** Section 2(B) of RFC 1071: on a machine of the other byte order the same bytes come out. */
  lemma ByteOrderIndependent(s: seq<Byte>)
    requires |s| % 2 == 0
    ensures Checksum(s) <= 65535 && Checksum(Swapped(s)) == SwapWord(Checksum(s))
  {
    var l := ResidueIs(WordSum(s));
    var k := SwappedSum(s);
    SwapResidue(WordSum(s), Residue(WordSum(s)), l, WordSum(Swapped(s)), k);
    var r := Residue(WordSum(s));
    Complement(r, Checksum(s));
  }

  /** The trailing byte of an odd buffer counts as if a zero byte followed. */
  lemma {:induction false} OddIsPadded(s: seq<Byte>)
    requires |s| % 2 == 1
    ensures WordSum(s + [0]) == WordSum(s)
  {
    if |s| == 1 {
    } else {
      assert (s + [0])[2..] == s[2..] + [0];
      OddIsPadded(s[2..]);
    }
  }

  /** A pointer to 8-byte headers advanced by the 14 + 20 bytes of the headers before it. */
  const ICMP := 8 * (14 + 20)
  const ECHO_REPLY: Byte := 0

  /** Lines 255-262 of ustack.c: the echo reply, with its checksum stored low byte first. */
  method EncodeIcmp(msg: array<Byte>, id: nat, seqnum: nat)
    requires msg.Length >= ICMP + 8 && id <= 65535 && seqnum <= 65535
    modifies msg
    ensures msg[..ICMP] == old(msg[..ICMP]) && msg[ICMP + 8..] == old(msg[ICMP + 8..])
    ensures msg[ICMP] == ECHO_REPLY && msg[ICMP + 1] == 0
    ensures Word(msg[ICMP + 4], msg[ICMP + 5]) == id && Word(msg[ICMP + 6], msg[ICMP + 7]) == seqnum
    ensures Checksum(msg[ICMP..ICMP + 8]) == 0
  {
    msg[ICMP], msg[ICMP + 1] := ECHO_REPLY, 0;
    msg[ICMP + 4], msg[ICMP + 5] := id % 256, id / 256;
    msg[ICMP + 6], msg[ICMP + 7] := seqnum % 256, seqnum / 256;
    msg[ICMP + 2], msg[ICMP + 3] := 0, 0;
    ghost var zeroed: seq<Byte> := msg[ICMP..ICMP + 8];
    var c := TwoStep(msg, ICMP, 8);
    StoredChecksumVerifies(zeroed, 2);
    msg[ICMP + 2], msg[ICMP + 3] := c % 256, c / 256;
    assert msg[ICMP..ICMP + 8] == Stored(zeroed, 2, c);
  }
}

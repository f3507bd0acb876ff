/** The word-parallel bit counter, against counting bit by bit. */
module CountBit {
  import opened Bytes

  const U64 := 0x1_0000_0000_0000_0000
  const M1 := 0x5555_5555_5555_5555
  const M2 := 0x3333_3333_3333_3333
  const M4 := 0x0F0F_0F0F_0F0F_0F0F
  const TOP := 0x100_0000_0000_0000
  const H01 := 0x0101_0101_0101_0101

  function Both(a: nat, b: nat): nat
  {
    if a == 1 && b == 1 then 1 else 0
  }

  /** C's `&` on unsigned words. */
  function And(x: nat, y: nat): (r: nat)
    ensures r <= x && r <= y
  {
    if x == 0 || y == 0 then 0 else 2 * And(x / 2, y / 2) + Both(x % 2, y % 2)
  }

  /** The sum of the fields of v, each `base` wide. */
  function Fields(v: nat, base: nat): nat
    requires base >= 2
  {
    if v == 0 then 0 else v % base + Fields(v / base, base)
  }

  /** The one bits, counted one by one. */
  function Ones(v: nat): nat
  {
    Fields(v, 2)
  }

  function OnesIn(s: seq<Byte>): nat
  {
    if s == [] then 0 else Ones(s[0]) + OnesIn(s[1..])
  }

  ghost predicate AtMost(v: nat, base: nat, max: nat)
    requires base >= 2
  {
    v == 0 || (v % base <= max && AtMost(v / base, base, max))
  }

  /** n fields, each holding u. */
  function Repeat(u: nat, base: nat, n: nat): nat
  {
    if n == 0 then 0 else u + base * Repeat(u, base, n - 1)
  }

  lemma Masks()
    ensures M1 == Repeat(1, 4, 32) && M2 == Repeat(3, 16, 16) && M4 == Repeat(15, 256, 8)
  {
    assert Repeat(1, 4, 4) == 0x55;
    assert Repeat(1, 4, 8) == 0x5555;
    assert Repeat(1, 4, 12) == 0x555555;
    assert Repeat(1, 4, 16) == 0x55555555;
    assert Repeat(1, 4, 20) == 0x5555555555;
    assert Repeat(1, 4, 24) == 0x555555555555;
    assert Repeat(1, 4, 28) == 0x55555555555555;
    assert Repeat(3, 16, 4) == 0x3333;
    assert Repeat(3, 16, 8) == 0x33333333;
    assert Repeat(3, 16, 12) == 0x333333333333;
    assert Repeat(15, 256, 4) == 0xf0f0f0f;
  }

  lemma Widths()
    ensures U64 - 1 == Repeat(3, 4, 32) == Repeat(15, 16, 16) == Repeat(255, 256, 8)
  {
    assert Repeat(3, 4, 4) == 0xff;
    assert Repeat(3, 4, 8) == 0xffff;
    assert Repeat(3, 4, 12) == 0xffffff;
    assert Repeat(3, 4, 16) == 0xffffffff;
    assert Repeat(3, 4, 20) == 0xffffffffff;
    assert Repeat(3, 4, 24) == 0xffffffffffff;
    assert Repeat(3, 4, 28) == 0xffffffffffffff;
    assert Repeat(15, 16, 4) == 0xffff;
    assert Repeat(15, 16, 8) == 0xffffffff;
    assert Repeat(15, 16, 12) == 0xffffffffffff;
    assert Repeat(255, 256, 4) == 0xffffffff;
  }

  // ---- masking, one field at a time ----

  lemma KeepBit(a: nat, x: nat, y: nat)
    requires a < 2
    ensures And(a + 2 * x, 1 + 2 * y) == a + 2 * And(x, y)
  {
    var l, r := a + 2 * x, 1 + 2 * y;
    assert l / 2 == x && l % 2 == a && r / 2 == y && r % 2 == 1;
  }

  lemma DropBit(a: nat, x: nat, y: nat)
    requires a < 2
    ensures And(a + 2 * x, 2 * y) == 2 * And(x, y)
  {
    var l, r := a + 2 * x, 2 * y;
    assert l / 2 == x && l % 2 == a && r / 2 == y && r % 2 == 0;
  }

  lemma Grows(b: nat, w: nat)
    requires b >= 2
    ensures b * w >= 2 * w
  {
  }

  lemma TakeField(v: nat, b: nat) returns (d: nat, w: nat)
    requires b >= 2
    ensures d < b && v == d + b * w && v / b == w && (v > 0 ==> w < v)
  {
    d, w := v % b, v / b;
    Grows(b, w);
  }

  lemma Keep2(a: nat, x: nat, y: nat)
    requires a < 4
    ensures And(a + 4 * x, 3 + 4 * y) == a + 4 * And(x, y)
  {
    var lo, hi := TakeField(a, 2);
    KeepBit(lo, hi + 2 * x, 1 + 2 * y);
    KeepBit(hi, x, y);
  }

  lemma Drop2(a: nat, x: nat, y: nat)
    requires a < 4
    ensures And(a + 4 * x, 4 * y) == 4 * And(x, y)
  {
    var lo, hi := TakeField(a, 2);
    DropBit(lo, hi + 2 * x, 2 * y);
    DropBit(hi, x, y);
  }

  lemma Keep4(a: nat, x: nat, y: nat)
    requires a < 16
    ensures And(a + 16 * x, 15 + 16 * y) == a + 16 * And(x, y)
  {
    var lo, hi := TakeField(a, 4);
    Keep2(lo, hi + 4 * x, 3 + 4 * y);
    Keep2(hi, x, y);
  }

  lemma Drop4(a: nat, x: nat, y: nat)
    requires a < 16
    ensures And(a + 16 * x, 16 * y) == 16 * And(x, y)
  {
    var lo, hi := TakeField(a, 4);
    Drop2(lo, hi + 4 * x, 4 * y);
    Drop2(hi, x, y);
  }

  lemma Multiple(base: int, k: int)
    requires base > 0
    ensures k >= 1 ==> base * k >= base
    ensures k <= -1 ==> base * k <= -base
  {
    if k >= 1 {
      assert base * k == base + base * (k - 1);
    } else if k <= -1 {
      assert base * k == -base + base * (k + 1);
    }
  }

  lemma Divided(d: nat, w: nat, base: nat)
    requires d < base
    ensures (d + base * w) % base == d && (d + base * w) / base == w
  {
    var v := d + base * w;
    var q, r := v / base, v % base;
    assert v == base * q + r;
    assert base * (q - w) == d - r;
    Multiple(base, q - w);
  }

  lemma FieldsStep(d: nat, w: nat, base: nat, max: nat)
    requires 2 <= base && d < base
    ensures Fields(d + base * w, base) == d + Fields(w, base)
    ensures d <= max && AtMost(w, base, max) ==> AtMost(d + base * w, base, max)
    ensures AtMost(d + base * w, base, max) ==> d <= max && AtMost(w, base, max)
  {
    Divided(d, w, base);
    if d + base * w == 0 {
      assert d == 0 && base * w == 0;
      Multiple(base, w);
    }
  }

  lemma Keep(a: nat, x: nat, y: nat, b: nat)
    requires b in {2, 4, 16} && a < b
    ensures And(a + b * x, (b - 1) + b * y) == a + b * And(x, y)
  {
    if b == 2 {
      KeepBit(a, x, y);
    } else if b == 4 {
      Keep2(a, x, y);
    } else {
      Keep4(a, x, y);
    }
  }

  lemma Drop(a: nat, x: nat, y: nat, b: nat)
    requires b in {2, 4, 16} && a < b
    ensures And(a + b * x, b * y) == b * And(x, y)
  {
    if b == 2 {
      DropBit(a, x, y);
    } else if b == 4 {
      Drop2(a, x, y);
    } else {
      Drop4(a, x, y);
    }
  }

  // ---- adding neighbouring fields ----

  /** Every other field of v, each b wide, with zeros for the rest. */
  function Alternate(v: nat, b: nat, keep: bool): nat
    requires b >= 2
  {
    if v == 0 then 0 else (if keep then v % b else 0) + b * Alternate(v / b, b, !keep)
  }

  lemma AlternateStep(d: nat, w: nat, b: nat, keep: bool)
    requires d < b && b >= 2
    ensures Alternate(d + b * w, b, keep) == (if keep then d else 0) + b * Alternate(w, b, !keep)
  {
    Divided(d, w, b);
    if d + b * w == 0 {
      Multiple(b, w);
    }
  }

  lemma Regroup(b: int, x: int)
    ensures b * (b * x) == (b * b) * x
  {
  }

  lemma AlternateStep2(lo: nat, hi: nat, w: nat, b: nat, sq: nat)
    requires lo < b && hi < b && b >= 2 && sq == b * b
    ensures Alternate(lo + b * (hi + b * w), b, true) == lo + sq * Alternate(w, b, true)
  {
    AlternateStep(lo, hi + b * w, b, true);
    AlternateStep(hi, w, b, false);
    Regroup(b, Alternate(w, b, true));
  }

  lemma Distribute(a: int, x: int, y: int)
    ensures a * (x + y) == a * x + a * y
  {
  }

  /** The two halves of every double field, added in place. */
  function Paired(v: nat, b: nat): nat
    requires b >= 2
  {
    Alternate(v, b, true) + Alternate(v / b, b, true)
  }

  lemma PairedStep(lo: nat, hi: nat, w: nat, b: nat, sq: nat)
    requires lo < b && hi < b && b >= 2 && sq == b * b
    ensures Paired(lo + b * (hi + b * w), b) == (lo + hi) + sq * Paired(w, b)
  {
    AlternateStep2(lo, hi, w, b, sq);
    Divided(lo, hi + b * w, b);
    var next, rest := TakeField(w, b);
    AlternateStep2(hi, next, rest, b, sq);
    assert Paired(w, b) == Alternate(w, b, true) + Alternate(rest, b, true);
    Distribute(sq, Alternate(w, b, true), Alternate(rest, b, true));
  }

  lemma PairedZero(b: nat)
    requires b >= 2
    ensures Paired(0, b) == 0
  {
  }

  lemma PairedTotalStep(v: nat, lo: nat, high: nat, hi: nat, w: nat, b: nat, max: nat, sq: nat)
    requires b >= 2 && sq == b * b >= 2 && 2 * max < sq && lo < b && hi < b && lo <= max && hi <= max
    requires v == lo + b * high && high == hi + b * w
    requires Fields(Paired(w, b), sq) == Fields(w, b) && AtMost(Paired(w, b), sq, 2 * max)
    ensures Fields(Paired(v, b), sq) == Fields(v, b) && AtMost(Paired(v, b), sq, 2 * max)
  {
    FieldsStep(lo, high, b, max);
    FieldsStep(hi, w, b, max);
    PairedStep(lo, hi, w, b, sq);
    FieldsStep(lo + hi, Paired(w, b), sq, 2 * max);
  }

  lemma Square(b: nat)
    requires b >= 2
    ensures b * b >= 2
  {
    Grows(b, b);
  }

  /** Adding neighbours keeps the total, as long as a double field can hold the sum. */
  lemma {:induction false} PairedTotal(v: nat, b: nat, max: nat, sq: nat)
    requires b >= 2 && sq == b * b && 2 * max < sq && AtMost(v, b, max)
    ensures sq >= 2 && Fields(Paired(v, b), sq) == Fields(v, b) && AtMost(Paired(v, b), sq, 2 * max)
    decreases v
  {
    Square(b);
    if v == 0 {
      PairedZero(b);
    } else {
      var lo, high := TakeField(v, b);
      var hi, w := TakeField(high, b);
      FieldsStep(lo, high, b, max);
      FieldsStep(hi, w, b, max);
      PairedTotal(w, b, max, sq);
      PairedTotalStep(v, lo, high, hi, w, b, max, sq);
    }
  }

  lemma MaskStep(v: nat, lo: nat, high: nat, hi: nat, w: nat, mask: nat, upper: nat, m: nat, b: nat)
    requires b in {2, 4, 16} && lo < b && hi < b
    requires v == lo + b * high && high == hi + b * w && mask == (b - 1) + b * upper && upper == b * m
    ensures And(v, mask) == lo + b * (b * And(w, m))
  {
    Keep(lo, high, upper, b);
    Drop(hi, w, m, b);
    assert And(high, upper) == b * And(w, m);
  }

  lemma Fits(lo: nat, hi: nat, w: nat, b: nat, sq: nat, most: nat)
    requires b >= 2 && sq == b * b && lo + b * (hi + b * w) <= (sq - 1) + sq * most
    ensures w <= most
  {
    Distribute(b, hi, b * w);
    Regroup(b, w);
    if w > most {
      Multiple(sq, w - most);
    }
  }

  /** Masking with every other field of ones keeps every other field. */
  lemma {:induction false} Masked(v: nat, b: nat, sq: nat, n: nat)
    requires b in {2, 4, 16} && sq == b * b && v <= Repeat(sq - 1, sq, n)
    ensures And(v, Repeat(b - 1, sq, n)) == Alternate(v, b, true)
    decreases n
  {
    if v == 0 {
    } else {
      var lo, high := TakeField(v, b);
      var hi, w := TakeField(high, b);
      Fits(lo, hi, w, b, sq, Repeat(sq - 1, sq, n - 1));
      Masked(w, b, sq, n - 1);
      var m := Repeat(b - 1, sq, n - 1);
      Regroup(b, m);
      MaskStep(v, lo, high, hi, w, Repeat(b - 1, sq, n), b * m, m, b);
      Regroup(b, And(w, m));
      AlternateStep2(lo, hi, w, b, sq);
    }
  }

  // ---- the four stages ----

  /** The kept and the skipped fields make up the number. */
  lemma {:induction false} KeptAndSkipped(v: nat, b: nat)
    requires b >= 2
    ensures Alternate(v, b, true) + Alternate(v, b, false) == v
    ensures Alternate(v, b, false) == b * Alternate(v / b, b, true)
    decreases v
  {
    if v == 0 {
    } else {
      var d, w := TakeField(v, b);
      KeptAndSkipped(w, b);
      AlternateStep(d, w, b, true);
      AlternateStep(d, w, b, false);
      Distribute(b, Alternate(w, b, true), Alternate(w, b, false));
    }
  }

  /** Line 2525: subtracting the odd bits leaves the pairs added. */
  lemma SubtractOdd(v: nat)
    ensures v - Alternate(v / 2, 2, true) == Paired(v, 2)
  {
    KeptAndSkipped(v, 2);
  }

  lemma NoCarry(lo: nat, hi: nat, w: nat, next: nat, rest: nat, b: nat)
    requires w == next + b * rest
    ensures lo + b * (hi + b * w) + (hi + b * w) == (lo + hi) + b * ((hi + next) + b * (w + rest))
  {
    Distribute(b, hi, b * w);
    Distribute(b, w, rest);
    Distribute(b, hi + next, b * (w + rest));
    Distribute(b, b * w, b * rest);
    Distribute(b, hi, next);
    Distribute(b, next, b * rest);
  }

  lemma MaskSums(v: nat, lo: nat, high: nat, hi: nat, w: nat, next: nat, rest: nat, b: nat)
    requires lo + hi < b && hi + next < b && b >= 2 && w == next + b * rest
    requires v == lo + b * high && high == hi + b * w
    requires Alternate(w + rest, b, true) == Paired(w, b)
    ensures Alternate(v + high, b, true) == Paired(v, b)
  {
    NoCarry(lo, hi, w, next, rest, b);
    AlternateStep2(lo + hi, hi + next, w + rest, b, b * b);
    PairedStep(lo, hi, w, b, b * b);
  }

  /** Line 2527: small fields can be added before the mask, since nothing carries. */
  lemma {:induction false} AddThenMask(v: nat, b: nat, max: nat)
    requires b >= 2 && 2 * max < b && AtMost(v, b, max)
    ensures Alternate(v + v / b, b, true) == Paired(v, b)
    decreases v
  {
    if v == 0 {
    } else {
      var lo, high := TakeField(v, b);
      var hi, w := TakeField(high, b);
      var next, rest := TakeField(w, b);
      FieldsStep(lo, high, b, max);
      FieldsStep(hi, w, b, max);
      AddThenMask(w, b, max);
      FieldsStep(next, rest, b, max);
      MaskSums(v, lo, high, hi, w, next, rest, b);
    }
  }

  lemma TopByte(product: nat, low: nat, sum: nat, top: nat)
    requires product == low + TOP * sum + U64 * top && low < TOP && sum < 256
    ensures product % U64 / TOP == sum
  {
    assert product == (low + TOP * sum) + U64 * top && low + TOP * sum < U64;
    Divided(low + TOP * sum, top, U64);
    Divided(low, sum, TOP);
  }

  /** The multiplication adds the eight bytes in the top byte. */
  lemma SumByMultiply(a: nat, b: nat, c: nat, d: nat, e: nat, f: nat, g: nat, h: nat, v: nat)
    requires a <= 8 && b <= 8 && c <= 8 && d <= 8 && e <= 8 && f <= 8 && g <= 8 && h <= 8
    requires v == a + 256 * (b + 256 * (c + 256 * (d + 256 * (e + 256 * (f + 256 * (g + 256 * h))))))
    ensures v * H01 % U64 / TOP == a + b + c + d + e + f + g + h
  {
    var low := a + 256 * ((a + b) + 256 * ((a + b + c) + 256 * ((a + b + c + d) + 256 * ((a + b + c + d + e)
      + 256 * ((a + b + c + d + e + f) + 256 * (a + b + c + d + e + f + g))))));
    var top := (b + c + d + e + f + g + h) + 256 * ((c + d + e + f + g + h) + 256 * ((d + e + f + g + h)
      + 256 * ((e + f + g + h) + 256 * ((f + g + h) + 256 * ((g + h) + 256 * h)))));
    TopByte(v * H01, low, a + b + c + d + e + f + g + h, top);
  }

  lemma TakeBytes(v: nat) returns (a: nat, b: nat, c: nat, d: nat, rest: nat)
    requires AtMost(v, 256, 8)
    ensures a <= 8 && b <= 8 && c <= 8 && d <= 8 && AtMost(rest, 256, 8)
    ensures v == a + 256 * (b + 256 * (c + 256 * (d + 256 * rest)))
    ensures Fields(v, 256) == a + b + c + d + Fields(rest, 256)
  {
    var v1, v2, v3;
    a, v1 := TakeField(v, 256);
    FieldsStep(a, v1, 256, 8);
    b, v2 := TakeField(v1, 256);
    FieldsStep(b, v2, 256, 8);
    c, v3 := TakeField(v2, 256);
    FieldsStep(c, v3, 256, 8);
    d, rest := TakeField(v3, 256);
    FieldsStep(d, rest, 256, 8);
  }

  /** Line 2528. */
  lemma BytesAdded(v: nat)
    requires v < U64 && AtMost(v, 256, 8)
    ensures v * H01 % U64 / TOP == Fields(v, 256)
  {
    var a, b, c, d, v4 := TakeBytes(v);
    var e, f, g, h, v8 := TakeBytes(v4);
    assert v8 == 0;
    SumByMultiply(a, b, c, d, e, f, g, h, v);
  }

  /** Line 2525: every pair of bits becomes the number of its ones. */
  function Stage1(v: nat): nat
    requires v < U64
  {
    (v - And(v / 2, M1)) % U64
  }

  /** Line 2526: every nibble becomes the sum of its pairs. */
  function Stage2(v: nat): nat
  {
    (And(v, M2) + And(v / 4, M2)) % U64
  }

  /** Line 2527: every byte becomes the sum of its nibbles. */
  function Stage3(v: nat): nat
  {
    And((v + v / 16) % U64, M4)
  }

  /** Line 2528: the top byte becomes the sum of all bytes. */
  function Stage4(v: nat): nat
  {
    v * H01 % U64 / TOP
  }

  lemma MaskM1(v: nat)
    requires v < U64
    ensures And(v, M1) == Alternate(v, 2, true)
  {
    Masks();
    Widths();
    Masked(v, 2, 4, 32);
  }

  lemma MaskM2(v: nat)
    requires v < U64
    ensures And(v, M2) == Alternate(v, 4, true)
  {
    Masks();
    Widths();
    Masked(v, 4, 16, 16);
  }

  lemma MaskM4(v: nat)
    requires v < U64
    ensures And(v, M4) == Alternate(v, 16, true)
  {
    Masks();
    Widths();
    Masked(v, 16, 256, 8);
  }

  lemma NoWrap(x: nat)
    requires x < U64
    ensures x % U64 == x
  {
  }

  lemma StageOneAdds(v: nat)
    requires v < U64
    ensures Stage1(v) == Paired(v, 2) <= v
  {
    MaskM1(v / 2);
    SubtractOdd(v);
    NoWrap(v - And(v / 2, M1));
  }

  lemma StageTwoAdds(v: nat)
    requires v < U64
    ensures Stage2(v) == Paired(v, 4) <= 2 * M2
  {
    MaskM2(v);
    MaskM2(v / 4);
    NoWrap(And(v, M2) + And(v / 4, M2));
  }

  lemma StageThreeAdds(v: nat)
    requires v <= 2 * M2 && AtMost(v, 16, 4)
    ensures Stage3(v) == Paired(v, 16) <= M4
  {
    MaskM4(v + v / 16);
    AddThenMask(v, 16, 4);
    NoWrap(v + v / 16);
  }

  lemma {:induction false} BitsAtMost(v: nat)
    ensures AtMost(v, 2, 1)
    decreases v
  {
    if v == 0 {
    } else {
      BitsAtMost(v / 2);
    }
  }

  lemma StageOne(v: nat)
    requires v < U64
    ensures Stage1(v) < U64 && Fields(Stage1(v), 4) == Ones(v) && AtMost(Stage1(v), 4, 2)
  {
    StageOneAdds(v);
    BitsAtMost(v);
    PairedTotal(v, 2, 1, 4);
  }

  lemma StageTwo(v: nat)
    requires v < U64 && AtMost(v, 4, 2)
    ensures Stage2(v) <= 2 * M2 && Fields(Stage2(v), 16) == Fields(v, 4) && AtMost(Stage2(v), 16, 4)
  {
    StageTwoAdds(v);
    PairedTotal(v, 4, 2, 16);
  }

  lemma StageThree(v: nat)
    requires v <= 2 * M2 && AtMost(v, 16, 4)
    ensures Stage3(v) <= M4 && Fields(Stage3(v), 256) == Fields(v, 16) && AtMost(Stage3(v), 256, 8)
  {
    StageThreeAdds(v);
    PairedTotal(v, 16, 4, 256);
  }

  /** The word-parallel count is the count of one bits. */
  lemma StagesCountOnes(v: nat)
    requires v < U64
    ensures Stage4(Stage3(Stage2(Stage1(v)))) == Ones(v)
  {
    StageOne(v);
    StageTwo(Stage1(v));
    StageThree(Stage2(Stage1(v)));
    BytesAdded(Stage3(Stage2(Stage1(v))));
  }

  // ---- the buffer ----

  /** A word as a little-endian machine loads it. */
  function Load(s: seq<Byte>): nat
  {
    if s == [] then 0 else s[0] + 256 * Load(s[1..])
  }

  lemma LoadFour(s: seq<Byte>)
    requires |s| == 4
    ensures Load(s) < U32
  {
    assert s[1..][1..] == s[2..] && s[2..][1..] == s[3..] && s[3..][1..] == [];
    assert Load(s[3..]) < 0x100 && Load(s[2..]) < 0x1_0000 && Load(s[1..]) < 0x100_0000;
  }

  lemma LoadMore(s: seq<Byte>)
    requires |s| == 8 && Load(s[4..]) < U32
    ensures Load(s) < U64
  {
    assert s[1..][1..] == s[2..] && s[2..][1..] == s[3..] && s[3..][1..] == s[4..];
    assert Load(s[3..]) < 0x100 * U32 && Load(s[2..]) < 0x1_0000 * U32 && Load(s[1..]) < 0x100_0000 * U32;
  }

  lemma LoadFits(s: seq<Byte>)
    requires |s| == 8
    ensures Load(s) < U64
  {
    assert Load(s[4..]) < U32 by {
      LoadFour(s[4..]);
    }
    LoadMore(s);
  }

  lemma OneBit(b: nat)
    requires b < 2
    ensures Ones(b) == b
  {
    FieldsStep(b, 0, 2, 1);
  }

  lemma OnesOfPair(d: nat, w: nat)
    requires d < 4
    ensures Ones(d + 4 * w) == Ones(d) + Ones(w)
  {
    var a, b := TakeField(d, 2);
    FieldsStep(a, b + 2 * w, 2, 1);
    FieldsStep(b, w, 2, 1);
    FieldsStep(a, b, 2, 1);
    OneBit(b);
  }

  lemma OnesOfNibble(d: nat, w: nat)
    requires d < 16
    ensures Ones(d + 16 * w) == Ones(d) + Ones(w)
  {
    var lo, hi := TakeField(d, 4);
    OnesOfPair(lo, hi + 4 * w);
    OnesOfPair(hi, w);
    OnesOfPair(lo, hi);
  }

  lemma OnesOfByte(d: nat, w: nat)
    requires d < 256
    ensures Ones(d + 256 * w) == Ones(d) + Ones(w)
  {
    var lo, hi := TakeField(d, 16);
    OnesOfNibble(lo, hi + 16 * w);
    OnesOfNibble(hi, w);
    OnesOfNibble(lo, hi);
  }

  lemma OnesUpTo4(d: nat)
    requires d < 16
    ensures Ones(d) <= 4 && (Ones(d) == 0 <==> d == 0)
  {
    var a, d1 := TakeField(d, 2);
    var b, d2 := TakeField(d1, 2);
    var c, e := TakeField(d2, 2);
    FieldsStep(a, d1, 2, 1);
    FieldsStep(b, d2, 2, 1);
    FieldsStep(c, e, 2, 1);
    FieldsStep(e, 0, 2, 1);
  }

  lemma OnesUpTo(d: nat)
    requires d < 256
    ensures Ones(d) <= 8 && (Ones(d) == 0 <==> d == 0)
  {
    var lo, hi := TakeField(d, 16);
    OnesOfNibble(lo, hi);
    OnesUpTo4(lo);
    OnesUpTo4(hi);
  }

  lemma {:induction false} OnesOfWord(s: seq<Byte>)
    ensures Ones(Load(s)) == OnesIn(s)
  {
    if s == [] {
    } else {
      OnesOfWord(s[1..]);
      OnesOfByte(s[0], Load(s[1..]));
    }
  }

  lemma {:induction false} OnesOfBoth(s: seq<Byte>, t: seq<Byte>)
    ensures OnesIn(s + t) == OnesIn(s) + OnesIn(t)
  {
    if s == [] {
      assert s + t == t;
    } else {
      assert (s + t)[1..] == s[1..] + t;
      OnesOfBoth(s[1..], t);
    }
  }

  lemma {:induction false} OnesBounded(s: seq<Byte>)
    ensures OnesIn(s) <= 8 * |s|
    ensures OnesIn(s) == 0 <==> forall i :: 0 <= i < |s| ==> s[i] == 0
  {
    if s == [] {
    } else {
      OnesUpTo(s[0]);
      OnesBounded(s[1..]);
      assert forall i :: 1 <= i < |s| ==> s[i] == s[1..][i - 1];
    }
  }

  /** The bytes the loop reads: whole words, and at least one. */
  function Covered(length: nat): (n: nat)
    ensures n >= length && n % 8 == 0
  {
    if length == 0 then 8 else (length + 7) / 8 * 8
  }

  /** Lines 2525-2528. */
  method CountWord(word: nat) returns (c: nat)
    requires word < U64
    ensures c == Ones(word)
  {
    StagesCountOnes(word);
    var v := Stage1(word);
    v := Stage2(v);
    v := Stage3(v);
    c := Stage4(v);
  }

  lemma WordAdded(s: seq<Byte>, word: seq<Byte>)
    requires |s| <= U32 && |word| == 8
    ensures Load(word) < U64
    ensures (OnesIn(s) + Ones(Load(word))) % U64 == OnesIn(s + word)
  {
    LoadFits(word);
    OnesOfWord(word);
    OnesOfBoth(s, word);
    OnesBounded(s + word);
    NoWrap(OnesIn(s + word));
  }

  method AddWord(msg: array<Byte>, ptr: nat, total: nat) returns (sum: nat)
    requires ptr + 8 <= msg.Length && ptr <= U32 && total == OnesIn(msg[..ptr])
    ensures sum == OnesIn(msg[..ptr + 8])
  {
    assert msg[..ptr + 8] == msg[..ptr] + msg[ptr..ptr + 8];
    WordAdded(msg[..ptr], msg[ptr..ptr + 8]);
    var c := CountWord(Load(msg[ptr..ptr + 8]));
    sum := (total + c) % U64;
  }

  /** Lines 2519-2533 for a 32-bit length: every one bit of the words read, as a 32-bit number. */
  method CountBit(msg: array<Byte>, length: nat) returns (setBits: nat)
    requires length < U32 && Covered(length) <= msg.Length
    ensures setBits == OnesIn(msg[..Covered(length)]) % U32
  {
    var ptr, total := 0, 0;
    var more := true;
    while more
      invariant 0 <= ptr <= Covered(length) && ptr % 8 == 0
      invariant more <==> ptr == 0 || ptr < length
      invariant total == OnesIn(msg[..ptr])
      decreases Covered(length) - ptr
    {
      total := AddWord(msg, ptr, total);
      ptr := ptr + 8;
      more := length > ptr;
    }
    setBits := total % U32;
  }

  lemma Truncated(n: nat, extra: nat)
    requires extra < U32
    ensures (n + extra) % U32 == n % U32 <==> extra == 0
  {
  }

  /** The result is the number of ones in the buffer, as a 32-bit number, exactly when whatever was
      read behind the buffer is zero; a positive multiple of 8 reads nothing behind it. */
  lemma ReadsBehind(s: seq<Byte>, length: nat)
    requires |s| == Covered(length)
    ensures OnesIn(s) % U32 == OnesIn(s[..length]) % U32 <==> forall i :: length <= i < |s| ==> s[i] == 0
    ensures length > 0 && length % 8 == 0 ==> |s| == length
  {
    assert s == s[..length] + s[length..];
    OnesOfBoth(s[..length], s[length..]);
    OnesBounded(s[length..]);
    assert forall i :: length <= i < |s| ==> s[i] == s[length..][i - length];
    Truncated(OnesIn(s[..length]), OnesIn(s[length..]));
  }
}

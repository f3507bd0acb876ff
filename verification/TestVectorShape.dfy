/** The shape of the printed text, and which texts are read as which numbers and fields. */
module TestVectorShape {
  import opened Bytes
  import opened TestVector

  // ---------------------------------------------------------------- the printed values

  const DIGITS := "0123456789abcdef"

  /** Where the text of value i starts. */
  function At(i: nat): nat { 6 * i + i / 32 }

  lemma {:induction false} LengthBefore(data: seq<Byte>, n: nat)
    requires n < |data|
    ensures |ValuesText(data, n)| == if n == 0 then 0 else 6 * n + (n - 1) / 32
  {
    if n == 0 {
    } else {
      LengthBefore(data, n - 1);
    }
  }

  lemma {:induction false} Prefix(data: seq<Byte>, n: nat, m: nat)
    requires n <= m <= |data|
    ensures ValuesText(data, n) <= ValuesText(data, m)
  {
    if n == m {
    } else {
      Prefix(data, n, m - 1);
      assert ValuesText(data, m)[..|ValuesText(data, m - 1)|] == ValuesText(data, m - 1);
    }
  }

  lemma DigitIs(n: nat)
    requires n < 16
    ensures HexDigit(n) == DIGITS[n]
  {
  }

  function Lead(i: nat): nat { if i % 32 == 0 && i != 0 then 1 else 0 }

  lemma OwnText(data: seq<Byte>, i: nat)
    requires i < |data|
    ensures var own, at := ValueText(data, i), Lead(i);
            && |own| == at + 4 + (if i == |data| - 1 then 0 else 2)
            && own[at..at + 4] == ByteText(data[i])
            && (at == 1 ==> own[0..1] == "\n")
            && (i < |data| - 1 ==> own[at + 4..at + 6] == ", ")
  {
  }

  lemma Digits(b: Byte)
    ensures ByteText(b) == ['0', 'x', DIGITS[b / 16], DIGITS[b % 16]]
  {
    DigitIs(b / 16);
    DigitIs(b % 16);
  }

  lemma Place(i: nat)
    ensures (if i == 0 then 0 else 6 * i + (i - 1) / 32) + Lead(i) == At(i)
  {
  }

  lemma Inside(text: string, before: string, own: string, at: nat, n: nat)
    requires before + own <= text && at + n <= |own|
    ensures |before| + at + n <= |text|
    ensures text[|before| + at..|before| + at + n] == own[at..at + n]
  {
    assert own[at..at + n] == (before + own)[|before| + at..|before| + at + n];
  }

  lemma Placed(data: seq<Byte>, i: nat)
    requires i < |data|
    ensures |ValuesText(data, i)| + Lead(i) == At(i)
    ensures ValuesText(data, i) + ValueText(data, i) <= ValuesText(data, |data|)
  {
    LengthBefore(data, i);
    Place(i);
    Prefix(data, i + 1, |data|);
  }

  lemma PieceStands(data: seq<Byte>, i: nat, at: nat, n: nat)
    requires i < |data| && Lead(i) + at + n <= |ValueText(data, i)|
    ensures At(i) + at + n <= |ValuesText(data, |data|)|
    ensures ValuesText(data, |data|)[At(i) + at..At(i) + at + n]
         == ValueText(data, i)[Lead(i) + at..Lead(i) + at + n]
  {
    Placed(data, i);
    Inside(ValuesText(data, |data|), ValuesText(data, i), ValueText(data, i), Lead(i) + at, n);
  }

  lemma WholeLength(data: seq<Byte>)
    requires data != []
    ensures |ValuesText(data, |data|)| == 6 * |data| - 2 + (|data| - 1) / 32
  {
    LengthBefore(data, |data| - 1);
    OwnText(data, |data| - 1);
    Place(|data| - 1);
  }

  lemma DigitsStand(data: seq<Byte>, i: nat)
    requires i < |data|
    ensures At(i) + 4 <= |ValuesText(data, |data|)|
    ensures ValuesText(data, |data|)[At(i)..At(i) + 4] == ['0', 'x', DIGITS[data[i] / 16], DIGITS[data[i] % 16]]
  {
    OwnText(data, i);
    PieceStands(data, i, 0, 4);
    Digits(data[i]);
  }

  lemma CommaStands(data: seq<Byte>, i: nat)
    requires i < |data| - 1
    ensures At(i) + 6 <= |ValuesText(data, |data|)|
    ensures ValuesText(data, |data|)[At(i) + 4..At(i) + 6] == ", "
  {
    OwnText(data, i);
    PieceStands(data, i, 4, 2);
  }

  lemma LineStands(data: seq<Byte>, i: nat)
    requires 0 < i < |data| && i % 32 == 0
    ensures 0 < At(i) <= |ValuesText(data, |data|)| && ValuesText(data, |data|)[At(i) - 1..At(i)] == "\n"
  {
    OwnText(data, i);
    Placed(data, i);
    Inside(ValuesText(data, |data|), ValuesText(data, i), ValueText(data, i), 0, 1);
  }

  /** Every value stands at its place, as 0x and two lower-case digits, followed by a comma and a
      space unless it is the last; a new line starts before every 32nd value, and there is nothing
      else. */
  lemma ValueStands(data: seq<Byte>, i: nat)
    requires i < |data|
    ensures var text := ValuesText(data, |data|);
            && |text| == 6 * |data| - 2 + (|data| - 1) / 32
            && At(i) + 4 <= |text|
            && text[At(i)..At(i) + 4] == ['0', 'x', DIGITS[data[i] / 16], DIGITS[data[i] % 16]]
            && (i < |data| - 1 ==> At(i) + 6 <= |text| && text[At(i) + 4..At(i) + 6] == ", ")
            && (i > 0 && i % 32 == 0 ==> text[At(i) - 1..At(i)] == "\n")
  {
    DigitsStand(data, i);
    if i < |data| - 1 {
      CommaStands(data, i);
    }
    if i > 0 && i % 32 == 0 {
      LineStands(data, i);
    }
    WholeLength(data);
  }

  function Printed(name: string, s: Slot): string
    requires s.Present? ==> s.length <= |s.data|
  {
    if s.Absent? then ""
    else "\n" + name + " =\n" + ValuesText(s.data[..s.length], s.length) + "\n"
  }

  lemma SlotIsPrinted(k: nat, s: Slot)
    requires k < 10 && (s.Present? ==> s.length <= |s.data|)
    ensures SlotText(k, s) == Printed(NAMES[k], s)
  {
    if s.Present? {
      assert |s.data[..s.length]| == s.length;
    }
  }

  /** From every field on, the text is that field with its name in front, nothing when it is absent,
      and then the fields behind it. */
  lemma FieldsStand(v: seq<Slot>, k: nat)
    requires |v| == 10 && k < 10 && forall i :: 0 <= i < 10 ==> v[i].Present? ==> v[i].length <= |v[i].data|
    ensures ShowFrom(v, k) == Printed(NAMES[k], v[k]) + ShowFrom(v, k + 1)
    ensures ShowFrom(v, 10) == ""
  {
    SlotIsPrinted(k, v[k]);
  }

  // ---------------------------------------------------------------- keys

  lemma {:induction false} FieldMeans(key: string, from: nat)
    requires from <= 10
    ensures match FieldFrom(key, from)
            case None => forall j :: from <= j < 10 ==> !Contains(key, NAMES[j])
            case Some(k) => from <= k < 10 && Contains(key, NAMES[k]) && forall j :: from <= j < k ==> !Contains(key, NAMES[j])
    decreases 10 - from
  {
    if from == 10 {
    } else {
      FieldMeans(key, from + 1);
    }
  }

  /** A key sets the first field whose name it contains, and none when it contains no name. */
  lemma FieldIsFirst(key: string, k: nat)
    requires k < 10
    ensures FieldFrom(key, 0) == Some(k) <==>
              Contains(key, NAMES[k]) && forall j :: 0 <= j < k ==> !Contains(key, NAMES[j])
    ensures FieldFrom(key, 0) == None <==> forall j :: 0 <= j < 10 ==> !Contains(key, NAMES[j])
  {
    FieldMeans(key, 0);
  }

  // ---------------------------------------------------------------- numbers

  lemma {:induction false} OneMoreDigit(s: string, c: char, base: nat, acc: nat)
    ensures DigitsValue(s + [c], base, acc) ==
      match DigitsValue(s, base, acc)
      case None => None
      case Some(v) => if DigitValue(c) < base then Some(v * base + DigitValue(c)) else None
  {
    if s == "" {
      assert s + [c] == [c] && [c][1..] == "";
    } else {
      assert (s + [c])[1..] == s[1..] + [c];
      OneMoreDigit(s[1..], c, base, acc * base + DigitValue(s[0]));
    }
  }

  lemma DigitCounts(n: nat)
    requires n < 16
    ensures DigitValue(HexDigit(n)) == n && !IsSpace(HexDigit(n)) && HexDigit(n) != '-' && HexDigit(n) != '+'
    ensures HexDigit(n) == '0' <==> n == 0
    ensures HexDigit(n) != 'x' && HexDigit(n) != 'X'
  {
  }

  lemma {:induction false} HexValue(n: nat)
    ensures DigitsValue(Hex(n), 16, 0) == Some(n) && Hex(n) != ""
  {
    DigitCounts(n % 16);
    if n < 16 {
      OneMoreDigit("", HexDigit(n), 16, 0);
    } else {
      HexValue(n / 16);
      OneMoreDigit(Hex(n / 16), HexDigit(n % 16), 16, 0);
    }
  }

  lemma {:induction false} DecValue(n: nat)
    ensures DigitsValue(Dec(n), 10, 0) == Some(n) && Dec(n) != "" && (Dec(n)[0] == '0' <==> n == 0)
    ensures forall i :: 0 <= i < |Dec(n)| ==> exists d: nat :: d < 10 && Dec(n)[i] == HexDigit(d)
  {
    DigitCounts(n % 10);
    if n < 10 {
      assert Dec(n) == [HexDigit(n)];
      OneMoreDigit("", HexDigit(n), 10, 0);
    } else {
      DecValue(n / 10);
      OneMoreDigit(Dec(n / 10), HexDigit(n % 10), 10, 0);
    }
  }

  /** Hexadecimal and decimal numbers of 64 bits are read as their low eight bits. */
  lemma NumbersRead(n: nat)
    requires n < U64
    ensures StrToByte("0x" + Hex(n)) == Some(n % 256)
    ensures StrToByte(Dec(n)) == Some(n % 256)
  {
    HexValue(n);
    assert ("0x" + Hex(n))[2..] == Hex(n);
    DecValue(n);
    var t := Dec(n);
    var d: nat :| d < 10 && t[0] == HexDigit(d);
    DigitCounts(d);
    if n == 0 {
      assert t == "0";
      assert DigitsValue("0", 8, 0) == DigitsValue("", 8, 0) == Some(0);
    }
  }

  /** A digit that the base does not have makes the token no number. */
  lemma {:induction false} BadDigit(s: string, base: nat, acc: nat)
    ensures DigitsValue(s, base, acc) == None <==> exists i :: 0 <= i < |s| && DigitValue(s[i]) >= base
  {
    if s == "" {
    } else {
      BadDigit(s[1..], base, acc * base + DigitValue(s[0]));
      assert forall i :: 1 <= i < |s| ==> s[i] == s[1..][i - 1];
    }
  }
}

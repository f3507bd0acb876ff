module Bytes {
  type Byte = x: int | 0 <= x < 256

  datatype Option<+T> = None | Some(value: T)

  const U32 := 0x1_0000_0000

  function HexDigit(n: nat): char
    requires n < 16
  {
    if n < 10 then '0' + n as char else 'a' + (n - 10) as char
  }

  /** printf("%x", n) */
  function Hex(n: nat): string {
    (if n < 16 then "" else Hex(n / 16)) + [HexDigit(n % 16)]
  }

  /** printf("%d", n) */
  function Dec(n: nat): string {
    (if n < 10 then "" else Dec(n / 10)) + [HexDigit(n % 10)]
  }

  function Min(a: nat, b: nat): nat { if a <= b then a else b }

  lemma Assoc<T>(a: seq<T>, b: seq<T>, c: seq<T>)
    ensures a + (b + c) == a + b + c
  {
  }

  lemma SameTail<T>(a: seq<T>, b: seq<T>, c: seq<T>)
    ensures a + b == a + c <==> b == c
  {
    if a + b == a + c {
      assert b == (a + b)[|a|..] == (a + c)[|a|..] == c;
    }
  }
}

/** Byte strings, the fixed-width integer fields of the wire formats, and concatenation. */
module Bytes {
  newtype byte = x: int | 0 <= x < 0x100

  type Bytes = seq<byte>

  datatype Option<+T> = None | Some(value: T)

  datatype Result<+T, +E> = Ok(value: T) | Err(error: E)

  const U16 := 0x1_0000
  const U32 := 0x1_0000_0000

  /** Go's conversion of an integer to `byte`: only the low eight bits survive. */
  function LowByte(n: nat): byte {
    (n % 0x100) as byte
  }

  /** `binary.BigEndian` and `binary.LittleEndian`, after the truncating cast to the field's width. */
  function PutBE16(n: nat): (s: Bytes)
    ensures |s| == 2
  {
    [LowByte(n / 0x100), LowByte(n)]
  }

  function GetBE16(s: Bytes): nat
    requires |s| == 2
  {
    s[0] as int * 0x100 + s[1] as int
  }

  function PutBE32(n: nat): (s: Bytes)
    ensures |s| == 4
  {
    PutBE16(n / U16) + PutBE16(n)
  }

  function GetBE32(s: Bytes): nat
    requires |s| == 4
  {
    GetBE16(s[..2]) * U16 + GetBE16(s[2..])
  }

  function PutLE32(n: nat): (s: Bytes)
    ensures |s| == 4
  {
    [LowByte(n), LowByte(n / 0x100), LowByte(n / U16), LowByte(n / U16 / 0x100)]
  }

  function GetLE32(s: Bytes): nat
    requires |s| == 4
  {
    GetBE16([s[1], s[0]]) + GetBE16([s[3], s[2]]) * U16
  }

  lemma BE16RoundTrip(n: nat)
    ensures GetBE16(PutBE16(n)) == n % U16
  {
    var hi := n / 0x100;
    TwoDigits(n % 0x100, hi % 0x100, hi / 0x100);
    assert n == (hi / 0x100) * U16 + ((hi % 0x100) * 0x100 + n % 0x100);
  }

  lemma TwoDigits(lo: nat, mid: nat, high: nat)
    requires lo < 0x100 && mid < 0x100
    ensures (high * U16 + (mid * 0x100 + lo)) % U16 == mid * 0x100 + lo
  {
  }

  lemma BE32RoundTrip(n: nat)
    ensures GetBE32(PutBE32(n)) == n % U32
  {
    BE16RoundTrip(n);
    BE16RoundTrip(n / U16);
    assert PutBE32(n)[..2] == PutBE16(n / U16) && PutBE32(n)[2..] == PutBE16(n);
    var hi := n / U16;
    assert n == (hi / U16) * U32 + (hi % U16) * U16 + n % U16;
  }

  lemma LE32RoundTrip(n: nat)
    ensures GetLE32(PutLE32(n)) == n % U32
  {
    BE32RoundTrip(n);
    var b, l := PutBE32(n), PutLE32(n);
    assert [l[1], l[0]] == b[2..] && [l[3], l[2]] == b[..2];
  }

  /** The digits of the big-endian fields, most significant first, whatever bytes they are. */
  lemma BigEndianDigits(s: Bytes)
    ensures |s| == 2 ==> GetBE16(s) == 0x100 * s[0] as int + s[1] as int
    ensures |s| == 4 ==>
              GetBE32(s) == 0x100_0000 * s[0] as int + 0x1_0000 * s[1] as int + 0x100 * s[2] as int + s[3] as int
  {
  }

  /** The digits of the little-endian field, least significant first. */
  lemma LittleEndianDigits(s: Bytes)
    requires |s| == 4
    ensures GetLE32(s) == s[0] as int + 0x100 * s[1] as int + 0x1_0000 * s[2] as int + 0x100_0000 * s[3] as int
  {
  }

  function Concat(parts: seq<Bytes>): Bytes {
    if parts == [] then [] else parts[0] + Concat(parts[1..])
  }

  lemma {:induction false} ConcatAppend(a: seq<Bytes>, b: seq<Bytes>)
    ensures Concat(a + b) == Concat(a) + Concat(b)
  {
    hide Concat;
    if a == [] {
      assert a + b == b;
      ConcatNone();
    } else {
      ConcatAppend(a[1..], b);
      assert (a + b)[1..] == a[1..] + b;
      ConcatFirst(a);
      ConcatFirst(a + b);
      assert a[0] + (Concat(a[1..]) + Concat(b)) == (a[0] + Concat(a[1..])) + Concat(b);
    }
  }

  lemma ConcatNone()
    ensures Concat([]) == []
  {
  }

  lemma ConcatFirst(parts: seq<Bytes>)
    requires parts != []
    ensures Concat(parts) == parts[0] + Concat(parts[1..])
  {
  }

  /** Concatenating strings of one fixed positive width loses nothing. */
  lemma {:induction false} ConcatFixedWidthInjective(a: seq<Bytes>, b: seq<Bytes>, width: nat)
    requires width > 0
    requires forall s | s in a :: |s| == width
    requires forall s | s in b :: |s| == width
    requires Concat(a) == Concat(b)
    ensures a == b
  {
    assert a != [] ==> a[0] in a && |Concat(a)| >= width;
    assert b != [] ==> b[0] in b && |Concat(b)| >= width;
    if a != [] {
      var x, y := Concat(a), Concat(b);
      assert a[0] == x[..width] == y[..width] == b[0];
      assert Concat(a[1..]) == x[width..] == y[width..] == Concat(b[1..]);
      ConcatFixedWidthInjective(a[1..], b[1..], width);
      assert a == [a[0]] + a[1..] && b == [b[0]] + b[1..];
    }
  }
}

/** Octets and the fixed-width integers AMS packs into them. */
module Bytes {

  type byte = b: int | 0 <= b < 256

  /** Two octets in network order as an unsigned number. */
  function U16(hi: byte, lo: byte): nat { 256 * hi + lo }

  /** Four octets in network order as an unsigned number. */
  function U32(a: byte, b: byte, c: byte, d: byte): nat { 0x1000000 * a + 0x10000 * b + 256 * c + d }

  /** An octet read through a plain (signed) `char`. */
  function SignedByte(b: byte): int { if b < 128 then b else b - 256 }

  /** A 16-bit pattern read as a `short`. */
  function SignedShort(n: nat): int { if n < 0x8000 then n else n - 0x10000 }

  /** A 32-bit pattern read as an `int`. */
  function SignedWord(n: nat): int { if n < 0x8000_0000 then n else n - 0x1_0000_0000 }

  /** x modulo m, by wrapping around. */
  function Residue(x: int, m: nat): (r: nat)
    requires m > 0
    ensures r < m
    decreases if x < 0 then m - x else x
  {
    if x < 0 then Residue(x + m, m) else if x < m then x else Residue(x - m, m)
  }

  /** Residue(x, m) differs from x by a multiple of m: it is the remainder. */
  lemma {:induction false} ResidueIsRemainder(x: int, m: nat) returns (k: int)
    requires m > 0
    ensures x == k * m + Residue(x, m)
    decreases if x < 0 then m - x else x
  {
    if x < 0 {
      var l := ResidueIsRemainder(x + m, m);
      k := l - 1;
    } else if x < m {
      k := 0;
    } else {
      var l := ResidueIsRemainder(x - m, m);
      k := l + 1;
    }
  }

  /** Multiples of 256 do not matter to the low octet. */
  lemma {:induction false} LowOctetOfSum(x: int, n: nat)
    ensures Residue(x + 0x100 * n, 0x100) == Residue(x, 0x100)
  {
    if n > 0 { LowOctetOfSum(x, n - 1); }
  }

  /** The low octet of x: C's `x & 0xff`. */
  function Lo(x: int): byte { Residue(x, 0x100) }

  /** The octet above it: C's `(x >> 8) & 0xff`. */
  function Hi(x: int): byte { U16Bytes(x)[0] }

  /** An octet without its top bit: C's `b & 0x7f`. */
  function Low7(b: byte): byte { if b < 0x80 then b else b - 0x80 }

  /** The two octets that hold x modulo 65536 in network order. */
  function U16Bytes(x: int): (s: seq<byte>)
    ensures |s| == 2 && U16(s[0], s[1]) == Residue(x, 0x10000) && s[1] == Lo(x)
  {
    NestedResidues(x);
    var r := Residue(x, 0x10000);
    Digits(r);
    var hi: byte, lo: byte :| U16(hi, lo) == r;
    [hi, lo]
  }

  /** The four octets that hold x modulo 2 to the 32. */
  function U32Bytes(x: int): (s: seq<byte>)
    ensures |s| == 4 && U32(s[0], s[1], s[2], s[3]) == Residue(x, 0x1_0000_0000)
  {
    var r := Residue(x, 0x1_0000_0000);
    var hi, lo := U16Bytes(r / 0x10000), U16Bytes(r % 0x10000);
    Joined(r, hi, lo);
    hi + lo
  }

  lemma Joined(r: nat, hi: seq<byte>, lo: seq<byte>)
    requires r < 0x1_0000_0000 && |hi| == 2 && |lo| == 2
    requires U16(hi[0], hi[1]) == Residue(r / 0x10000, 0x10000) && U16(lo[0], lo[1]) == Residue(r % 0x10000, 0x10000)
    ensures U32(hi[0], hi[1], lo[0], lo[1]) == r
  {
    ResidueKeeps(r / 0x10000, 0x10000);
    ResidueKeeps(r % 0x10000, 0x10000);
    hide Residue;
    assert r == 0x10000 * (r / 0x10000) + r % 0x10000;
  }

  lemma Digits(r: nat)
    requires r < 0x10000
    ensures exists hi: byte, lo: byte :: U16(hi, lo) == r
    ensures forall hi: byte, lo: byte :: U16(hi, lo) == r ==> lo == Residue(r, 0x100)
  {
    assert U16(r / 256, r % 256) == r;
    forall hi: byte, lo: byte | U16(hi, lo) == r ensures lo == Residue(r, 0x100) {
      LowOctetOfSum(lo, hi);
    }
  }

  lemma ResidueKeeps(x: int, m: nat)
    requires m > 0
    ensures Residue(x, m) == x <==> 0 <= x < m
    ensures 0 - m <= x < 0 ==> Residue(x, m) == x + m
  {
  }

  /** A 15-bit number is its two octets. */
  lemma FifteenBits(x: int)
    requires 0 <= x < 0x8000
    ensures Low7(Hi(x)) as nat * 256 + Lo(x) == x
  {
    ResidueKeeps(x, 0x10000);
    hide Residue, U16Bytes;
    assert U16(Hi(x), Lo(x)) == x;
  }

  /** A residue modulo a multiple has the same residues. */
  lemma {:induction false} NestedResidues(x: int)
    ensures Residue(Residue(x, 0x10000), 0x100) == Residue(x, 0x100)
    ensures Residue(Residue(x, 0x8000), 0x100) == Residue(x, 0x100)
    ensures Residue(x, 0x8000) == var r := Residue(x, 0x10000); if r < 0x8000 then r else r - 0x8000
  {
    LowOctetOfWord(x);
    LowOctetOf15Bits(x);
    HalfOfWord(x);
  }

  lemma {:induction false} LowOctetOfWord(x: int)
    ensures Residue(Residue(x, 0x10000), 0x100) == Residue(x, 0x100)
    decreases if x < 0 then 0x10000 - x else x
  {
    if x < 0 {
      LowOctetOfSum(x, 0x100);
      LowOctetOfWord(x + 0x10000);
    } else if x >= 0x10000 {
      LowOctetOfSum(x - 0x10000, 0x100);
      LowOctetOfWord(x - 0x10000);
    }
  }

  lemma {:induction false} LowOctetOf15Bits(x: int)
    ensures Residue(Residue(x, 0x8000), 0x100) == Residue(x, 0x100)
    decreases if x < 0 then 0x8000 - x else x
  {
    if x < 0 {
      LowOctetOfSum(x, 0x80);
      LowOctetOf15Bits(x + 0x8000);
    } else if x >= 0x8000 {
      LowOctetOfSum(x - 0x8000, 0x80);
      LowOctetOf15Bits(x - 0x8000);
    }
  }

  lemma {:induction false} HalfOfWord(x: int)
    ensures Residue(x, 0x8000) == var r := Residue(x, 0x10000); if r < 0x8000 then r else r - 0x8000
    decreases if x < 0 then 0x10000 - x else x
  {
    if x < 0 {
      TwoHalves(x);
      HalfOfWord(x + 0x10000);
    } else if x >= 0x10000 {
      TwoHalves(x - 0x10000);
      HalfOfWord(x - 0x10000);
    }
  }

  lemma TwoHalves(x: int)
    ensures Residue(x + 0x10000, 0x8000) == Residue(x, 0x8000)
  {
    assert Residue(x + 0x8000, 0x8000) == Residue(x, 0x8000);
    assert Residue(x + 0x8000 + 0x8000, 0x8000) == Residue(x + 0x8000, 0x8000);
  }
}

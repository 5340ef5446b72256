/** Fixed-width integers as byte strings, in the two byte orders UniFlow uses:
    little-endian in the checksummed packet header and the counter file,
    big-endian in the length prefix of a framed message. */
module Octets {
  import opened Basics

  /** The byte with value n, built from its two hexadecimal digits. */
  function ByteOf(n: nat): bv8
    requires n < 256
  {
    Join((n / 16) as bv8, (n % 16) as bv8)
  }

  function Join(high: bv8, low: bv8): bv8 {
    (high << 4) | low
  }

  lemma DigitRoundTrip(n: nat)
    requires n < 16
    ensures (n as bv8) as nat == n
  {
  }

  lemma JoinValue(high: bv8, low: bv8)
    requires high < 16 && low < 16
    ensures Join(high, low) as nat == 16 * (high as nat) + low as nat
  {
  }

  lemma SplitValue(b: bv8)
    ensures b as nat / 16 == (b >> 4) as nat && b as nat % 16 == (b & 0x0f) as nat
  {
  }

  lemma ByteRoundTrip(n: nat)
    requires n < 256
    ensures ByteOf(n) as nat == n
  {
    DigitRoundTrip(n / 16);
    DigitRoundTrip(n % 16);
    JoinValue((n / 16) as bv8, (n % 16) as bv8);
  }

  lemma NatRoundTrip(b: bv8)
    ensures b as nat < 256 && ByteOf(b as nat) == b
  {
    SplitValue(b);
    assert Join(b >> 4, b & 0x0f) == b;
  }

  function Pow256(width: nat): nat {
    if width == 0 then 1 else 256 * Pow256(width - 1)
  }

  /** The low `width` bytes of n, least significant first. */
  function LittleEndian(n: nat, width: nat): (b: Bytes)
    ensures |b| == width
    decreases width, n
  {
    if width == 0 then [] else [ByteOf(n % 256)] + LittleEndian(n / 256, width - 1)
  }

  function FromLittleEndian(b: Bytes): nat {
    if b == [] then 0 else b[0] as nat + 256 * FromLittleEndian(b[1..])
  }

  /** The low `width` bytes of n, most significant first. */
  function BigEndian(n: nat, width: nat): (b: Bytes)
    ensures |b| == width
    decreases width, n
  {
    if width == 0 then [] else BigEndian(n / 256, width - 1) + [ByteOf(n % 256)]
  }

  function FromBigEndian(b: Bytes): nat {
    if b == [] then 0 else 256 * FromBigEndian(b[..|b| - 1]) + b[|b| - 1] as nat
  }

  /** Writing keeps exactly the low bytes, as Go's PutUint does. */
  lemma {:induction false} LittleEndianRoundTrip(n: nat, width: nat)
    ensures Pow256(width) > 0
    ensures FromLittleEndian(LittleEndian(n, width)) == n % Pow256(width)
    decreases width
  {
    if width == 0 {
    } else {
      LittleEndianRoundTrip(n / 256, width - 1);
      ByteRoundTrip(n % 256);
      var b := LittleEndian(n, width);
      assert b[1..] == LittleEndian(n / 256, width - 1);
      ModSplit(n, Pow256(width - 1));
    }
  }

  lemma {:induction false} BigEndianRoundTrip(n: nat, width: nat)
    ensures Pow256(width) > 0
    ensures FromBigEndian(BigEndian(n, width)) == n % Pow256(width)
    decreases width
  {
    if width == 0 {
    } else {
      BigEndianRoundTrip(n / 256, width - 1);
      ByteRoundTrip(n % 256);
      var b := BigEndian(n, width);
      assert b[..|b| - 1] == BigEndian(n / 256, width - 1);
      ModSplit(n, Pow256(width - 1));
    }
  }

  /** Byte i is the i-th digit to the base 256, counted from the least significant. */
  lemma {:induction false} LittleEndianDigit(n: nat, width: nat, i: nat)
    requires i < width
    ensures Pow256(i) > 0 && LittleEndian(n, width)[i] as nat == n / Pow256(i) % 256
    decreases i
  {
    if i == 0 {
      ByteRoundTrip(n % 256);
    } else {
      LittleEndianDigit(n / 256, width - 1, i - 1);
      ModSplit(n, Pow256(i - 1));
    }
  }

  /** The two orders mirror each other. */
  lemma {:induction false} BigEndianMirrors(n: nat, width: nat, i: nat)
    requires i < width
    ensures BigEndian(n, width)[i] == LittleEndian(n, width)[width - 1 - i]
    decreases width
  {
    if i == width - 1 {
    } else {
      BigEndianMirrors(n / 256, width - 1, i);
    }
  }

  lemma ModSplit(n: nat, p: nat)
    requires p > 0
    ensures n % (256 * p) == n % 256 + 256 * ((n / 256) % p) && n / (256 * p) == n / 256 / p
  {
    var q, r := n / 256 / p, n / 256 % p;
    assert n / 256 == q * p + r;
    var low := n % 256 + 256 * r;
    assert n == q * (256 * p) + low by {
      assert 256 * (q * p) == q * (256 * p);
    }
    DivModUnique(n, 256 * p, q, low);
  }

  lemma Pow256Values()
    ensures Pow256(4) == TWO_32 && Pow256(8) == TWO_64
  {
    assert Pow256(1) == 256 * Pow256(0);
    assert Pow256(2) == 256 * Pow256(1);
    assert Pow256(3) == 256 * Pow256(2);
    assert Pow256(4) == 256 * Pow256(3);
    assert Pow256(5) == 256 * Pow256(4);
    assert Pow256(6) == 256 * Pow256(5);
    assert Pow256(7) == 256 * Pow256(6);
    assert Pow256(8) == 256 * Pow256(7);
  }
}

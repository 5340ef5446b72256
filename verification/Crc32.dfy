/** Strings of bits as numbers and as bytes, lowest bit first. */
module BitStrings {
  import opened Basics
  import opened Octets
  import opened CyclicCode

  function Pow2(w: nat): (p: nat)
    ensures p > 0
  {
    if w == 0 then 1 else 2 * Pow2(w - 1)
  }

  /** The low w bits of n. */
  function BitsOf(n: nat, w: nat): (x: Bits)
    ensures |x| == w
    decreases w, n
  {
    if w == 0 then [] else [n % 2 == 1] + BitsOf(n / 2, w - 1)
  }

  function ToNat(x: Bits): (n: nat)
    ensures n < Pow2(|x|)
  {
    if x == [] then 0 else (if x[0] then 1 else 0) + 2 * ToNat(x[1..])
  }

  lemma {:induction false} BitsRoundTrip(x: Bits)
    ensures BitsOf(ToNat(x), |x|) == x
  {
    if x == [] {
    } else {
      BitsRoundTrip(x[1..]);
      assert ToNat(x) / 2 == ToNat(x[1..]);
    }
  }

  lemma {:induction false} NatRoundTripBits(n: nat, w: nat)
    requires n < Pow2(w)
    ensures ToNat(BitsOf(n, w)) == n
    decreases w
  {
    if w == 0 {
    } else {
      NatRoundTripBits(n / 2, w - 1);
      assert BitsOf(n, w)[1..] == BitsOf(n / 2, w - 1);
    }
  }

  lemma Pow2Byte(w: nat)
    ensures Pow2(w + 8) == 256 * Pow2(w)
  {
    assert Pow2(w + 2) == 4 * Pow2(w);
    assert Pow2(w + 4) == 4 * Pow2(w + 2);
    assert Pow2(w + 6) == 4 * Pow2(w + 4);
  }

  lemma Pow2Values()
    ensures Pow2(8) == 256 && Pow2(32) == TWO_32
  {
    Pow2Byte(0);
    Pow2Byte(8);
    Pow2Byte(16);
    Pow2Byte(24);
  }

  function Complement(x: Bits): (y: Bits)
    ensures |y| == |x|
  {
    seq(|x|, i requires 0 <= i < |x| => !x[i])
  }

  lemma ComplementTwice(x: Bits)
    ensures Complement(Complement(x)) == x
  {
  }

  function ByteBits(b: bv8): (x: Bits)
    ensures |x| == 8
  {
    BitsOf(b as nat, 8)
  }

  function ByteFrom(x: Bits): bv8
    requires |x| == 8
  {
    Pow2Values();
    ByteOf(ToNat(x))
  }

  lemma ByteBitsRoundTrip(b: bv8)
    ensures ByteFrom(ByteBits(b)) == b
  {
    Pow2Values();
    NatRoundTrip(b);
    NatRoundTripBits(b as nat, 8);
  }

  lemma ByteFromRoundTrip(x: Bits)
    requires |x| == 8
    ensures ByteBits(ByteFrom(x)) == x
  {
    Pow2Values();
    ByteRoundTrip(ToNat(x));
    BitsRoundTrip(x);
  }

  /** The bits of a byte string in the order a reflected check consumes them. */
  function DataBits(data: Bytes): (x: Bits)
    ensures |x| == 8 * |data|
  {
    if data == [] then [] else ByteBits(data[0]) + DataBits(data[1..])
  }

  function DataFrom(x: Bits): (data: Bytes)
    requires |x| % 8 == 0
    ensures 8 * |data| == |x|
    decreases |x|
  {
    if x == [] then [] else [ByteFrom(x[..8])] + DataFrom(x[8..])
  }

  lemma {:induction false} DataBitsConcat(a: Bytes, b: Bytes)
    ensures DataBits(a + b) == DataBits(a) + DataBits(b)
  {
    if a == [] {
      assert a + b == b;
    } else {
      DataBitsConcat(a[1..], b);
      assert (a + b)[1..] == a[1..] + b;
      BitsRegroup(ByteBits(a[0]), DataBits(a[1..]), DataBits(b));
    }
  }

  lemma BitsRegroup(x: Bits, y: Bits, z: Bits)
    ensures x + (y + z) == x + y + z
  {
  }

  lemma {:induction false} DataBitsRoundTrip(data: Bytes)
    ensures DataFrom(DataBits(data)) == data
  {
    if data == [] {
    } else {
      var x := DataBits(data);
      assert x[..8] == ByteBits(data[0]) && x[8..] == DataBits(data[1..]);
      ByteBitsRoundTrip(data[0]);
      DataBitsRoundTrip(data[1..]);
    }
  }

  lemma {:induction false} DataFromRoundTrip(x: Bits)
    requires |x| % 8 == 0
    ensures DataBits(DataFrom(x)) == x
    decreases |x|
  {
    if x == [] {
    } else {
      var data := DataFrom(x);
      assert data[0] == ByteFrom(x[..8]) && data[1..] == DataFrom(x[8..]);
      ByteFromRoundTrip(x[..8]);
      DataFromRoundTrip(x[8..]);
    }
  }
}

/** 32-bit cyclic checksums as Go's hash/crc32 package computes them, for any table. */
module Crc32 {
  import opened Basics
  import opened CyclicCode
  import opened BitStrings

  /** The register a checksum stands for: it is kept complemented. */
  function Register(crc: u32): (s: Bits)
    ensures |s| == 32
  {
    Complement(BitsOf(crc, 32))
  }

  function Value(s: Bits): u32
    requires |s| == 32
  {
    Pow2Values();
    ToNat(Complement(s))
  }

  lemma RegisterOfValue(s: Bits)
    requires |s| == 32
    ensures Register(Value(s)) == s
  {
    BitsRoundTrip(Complement(s));
    ComplementTwice(s);
  }

  /** The checksum of everything summed so far followed by data. */
  function Update(poly: Bits, crc: u32, data: Bytes): u32
    requires |poly| == 32
  {
    Value(Run(poly, Register(crc), DataBits(data)))
  }

  /** Summing in two pieces is summing in one. */
  lemma UpdateConcat(poly: Bits, crc: u32, a: Bytes, b: Bytes)
    requires |poly| == 32
    ensures Update(poly, Update(poly, crc, a), b) == Update(poly, crc, a + b)
  {
    DataBitsConcat(a, b);
    RunConcat(poly, Register(crc), DataBits(a), DataBits(b));
    RegisterOfValue(Run(poly, Register(crc), DataBits(a)));
  }

  /** Checksums agree exactly when the registers do. */
  lemma SameUpdate(poly: Bits, crc: u32, a: Bytes, b: Bytes)
    requires |poly| == 32
    ensures Update(poly, crc, a) == Update(poly, crc, b) <==>
            Run(poly, Register(crc), DataBits(a)) == Run(poly, Register(crc), DataBits(b))
  {
    RegisterOfValue(Run(poly, Register(crc), DataBits(a)));
    RegisterOfValue(Run(poly, Register(crc), DataBits(b)));
  }

  /** Two byte strings that differ only within 32 consecutive bits have different checksums,
      from any checksum so far. */
  lemma BurstDetected(poly: Bits, crc: u32, a: Bytes, b: Bytes, at: nat, n: nat)
    requires |poly| == 32 && Proper(poly)
    requires ApartIn(DataBits(a), DataBits(b), at, n) && n <= 32 && a != b
    ensures Update(poly, crc, a) != Update(poly, crc, b)
  {
    DataBitsRoundTrip(a);
    DataBitsRoundTrip(b);
    SameUpdate(poly, crc, a, b);
    BurstSeen(poly, Register(crc), DataBits(a), DataBits(b), at, n);
  }

  /** An odd number of flipped bits, anywhere, changes the checksum. */
  lemma OddFlipsChange(poly: Bits, crc: u32, a: Bytes, b: Bytes)
    requires |poly| == 32 && Parity(poly)
    requires |a| == |b| && Flips(DataBits(a), DataBits(b)) % 2 == 1
    ensures Update(poly, crc, a) != Update(poly, crc, b)
  {
    SameUpdate(poly, crc, a, b);
    OddFlipsDetected(poly, Register(crc), DataBits(a), DataBits(b));
  }

  /** The 32 bits of BurstDetected are exact: any 33 consecutive bits can be changed without
      changing the checksum. */
  lemma LongerBurstEscapes(poly: Bits, crc: u32, a: Bytes, at: nat) returns (b: Bytes)
    requires |poly| == 32 && at + |poly| + 1 <= 8 * |a|
    ensures b != a && ApartIn(DataBits(a), DataBits(b), at, |poly| + 1)
    ensures Update(poly, crc, b) == Update(poly, crc, a)
  {
    var y := LongerBurstUnseen(poly, Register(crc), DataBits(a), at);
    b := Decoded(y, |a|);
    SameUpdate(poly, crc, b, a);
  }

  lemma Decoded(y: Bits, n: nat) returns (b: Bytes)
    requires |y| == 8 * n
    ensures DataBits(b) == y
  {
    b := DataFrom(y);
    DataFromRoundTrip(y);
  }
}

/** The polynomial of CRC-32C, section 12.1 of RFC 3720. */
module Castagnoli {
  import opened CyclicCode
  import opened BitStrings

  /** A hexadecimal digit, lowest bit first. */
  datatype Digit = Digit(a: bool, b: bool, c: bool, d: bool) {
    function Value(): nat {
      (if a then 1 else 0) + (if b then 2 else 0) + (if c then 4 else 0) + (if d then 8 else 0)
    }

    function Odd(): bool {
      a != (b != (c != d))
    }

    function Before(x: Bits): Bits {
      [a] + ([b] + ([c] + ([d] + x)))
    }
  }

  /** The bits of a number written in hexadecimal, lowest digit first. */
  function FromDigits(ds: seq<Digit>): Bits {
    if ds == [] then [] else ds[0].Before(FromDigits(ds[1..]))
  }

  /** The digits of the reflected polynomial, 0x82F63B78. */
  const DIGITS: seq<Digit> := [
    Digit(false, false, false, true), Digit(true, true, true, false),
    Digit(true, true, false, true), Digit(true, true, false, false),
    Digit(false, true, true, false), Digit(true, true, true, true),
    Digit(false, true, false, false), Digit(false, false, false, true)
  ]

  const CASTAGNOLI: Bits := FromDigits(DIGITS)

  predicate Last(x: Bits) {
    |x| > 0 && x[|x| - 1]
  }

  lemma BitValue(b: bool, x: Bits)
    ensures ToNat([b] + x) == (if b then 1 else 0) + 2 * ToNat(x)
  {
    assert ([b] + x)[1..] == x;
  }

  lemma BitParity(b: bool, x: Bits)
    ensures Parity([b] + x) == (b != Parity(x))
  {
    assert ([b] + x)[1..] == x;
  }

  lemma DigitValue(n: Digit, x: Bits)
    ensures ToNat(n.Before(x)) == n.Value() + 16 * ToNat(x)
  {
    BitValue(n.d, x);
    BitValue(n.c, [n.d] + x);
    BitValue(n.b, [n.c] + ([n.d] + x));
    BitValue(n.a, [n.b] + ([n.c] + ([n.d] + x)));
  }

  lemma DigitParity(n: Digit, x: Bits)
    ensures Parity(n.Before(x)) == (n.Odd() != Parity(x))
  {
    BitParity(n.d, x);
    BitParity(n.c, [n.d] + x);
    BitParity(n.b, [n.c] + ([n.d] + x));
    BitParity(n.a, [n.b] + ([n.c] + ([n.d] + x)));
  }

  lemma DigitEnd(n: Digit, x: Bits)
    ensures Last(n.Before(x)) == if x == [] then n.d else Last(x)
    ensures |n.Before(x)| == 4 + |x|
  {
  }

  function Number(ds: seq<Digit>): nat {
    if ds == [] then 0 else ds[0].Value() + 16 * Number(ds[1..])
  }

  function OddDigits(ds: seq<Digit>): bool {
    if ds == [] then false else ds[0].Odd() != OddDigits(ds[1..])
  }

  lemma {:induction false} FromDigitsValue(ds: seq<Digit>)
    ensures ToNat(FromDigits(ds)) == Number(ds)
  {
    if ds == [] {
    } else {
      FromDigitsValue(ds[1..]);
      DigitValue(ds[0], FromDigits(ds[1..]));
    }
  }

  lemma {:induction false} FromDigitsParity(ds: seq<Digit>)
    ensures Parity(FromDigits(ds)) == OddDigits(ds)
  {
    if ds == [] {
    } else {
      FromDigitsParity(ds[1..]);
      DigitParity(ds[0], FromDigits(ds[1..]));
    }
  }

  lemma {:induction false} FromDigitsEnd(ds: seq<Digit>)
    ensures |FromDigits(ds)| == 4 * |ds|
    ensures ds != [] ==> Last(FromDigits(ds)) == ds[|ds| - 1].d
  {
    if ds == [] {
    } else {
      FromDigitsEnd(ds[1..]);
      DigitEnd(ds[0], FromDigits(ds[1..]));
    }
  }

  lemma SuffixFacts(ds: seq<Digit>, k: nat)
    requires k < |ds|
    ensures Number(ds[k..]) == ds[k].Value() + 16 * Number(ds[k + 1..])
    ensures OddDigits(ds[k..]) == (ds[k].Odd() != OddDigits(ds[k + 1..]))
  {
    assert ds[k..][0] == ds[k] && ds[k..][1..] == ds[k + 1..];
  }

  lemma HighDigits(ds: seq<Digit>)
    requires ds == DIGITS
    ensures Number(ds[4..]) == 0x82F6 && !OddDigits(ds[4..])
  {
    SuffixFacts(ds, 7);
    SuffixFacts(ds, 6);
    SuffixFacts(ds, 5);
    SuffixFacts(ds, 4);
  }

  lemma AllDigits(ds: seq<Digit>)
    requires ds == DIGITS
    ensures Number(ds) == 0x82F6_3B78 && OddDigits(ds)
  {
    HighDigits(ds);
    SuffixFacts(ds, 3);
    SuffixFacts(ds, 2);
    SuffixFacts(ds, 1);
    SuffixFacts(ds, 0);
    assert ds[0..] == ds;
  }

  /** The bits spell the polynomial; its constant term is set, and x + 1 divides it. */
  lemma CastagnoliFacts()
    ensures ToNat(CASTAGNOLI) == 0x82F6_3B78
    ensures |CASTAGNOLI| == 32 && Proper(CASTAGNOLI) && Parity(CASTAGNOLI)
  {
    AllDigits(DIGITS);
    FromDigitsValue(DIGITS);
    FromDigitsParity(DIGITS);
    FromDigitsEnd(DIGITS);
  }
}

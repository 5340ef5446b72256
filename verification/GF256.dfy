/** The byte operations that multiplication in GF(2^8) is made of, and the facts
    about them that are settled bit by bit.  Bytes are polynomials over GF(2),
    reduced by x^8 + x^4 + x^3 + x^2 + 1. */
module ByteFacts {

  /** Multiplication by x: a shift, with the bit shifted out replaced by
      x^4 + x^3 + x^2 + 1. */
  function Double(b: bv8): bv8 {
    (b << 1) ^ (b >> 7) ^ ((b >> 7) << 2) ^ ((b >> 7) << 3) ^ ((b >> 7) << 4)
  }

  function Half(a: bv8): bv8 {
    a >> 1
  }

  function Xor(a: bv8, b: bv8): bv8 {
    a ^ b
  }

  /** b when the lowest bit of a is set. */
  function Pick(a: bv8, b: bv8): bv8 {
    if a & 1 != 0 then b else 0
  }

  lemma XorAssociate(p: bv8, q: bv8, r: bv8)
    ensures Xor(Xor(p, q), r) == Xor(p, Xor(q, r))
  {
  }

  lemma XorCommute(p: bv8, q: bv8)
    ensures Xor(p, q) == Xor(q, p)
    ensures Xor(p, 0) == p && Xor(0, p) == p && Xor(p, p) == 0
    ensures Xor(p, q) == 0 ==> p == q
  {
  }

  lemma DoubleXor(u: bv8, v: bv8)
    ensures Double(Xor(u, v)) == Xor(Double(u), Double(v))
  {
  }

  lemma PickXorRight(a: bv8, b: bv8, c: bv8)
    ensures Pick(a, Xor(b, c)) == Xor(Pick(a, b), Pick(a, c))
  {
  }

  lemma PickXorLeft(a: bv8, b: bv8, c: bv8)
    ensures Pick(Xor(a, b), c) == Xor(Pick(a, c), Pick(b, c))
  {
  }

  lemma PickCases(a: bv8, b: bv8)
    ensures Pick(a, b) == if Pick(a, 1) == 0 then 0 else b
  {
  }

  lemma PickConstants(b: bv8)
    ensures Pick(0, b) == 0 && Pick(1, b) == b
    ensures Half(0) == 0 && Half(1) == 0 && Double(0) == 0
  {
  }

  lemma EightHalves(a: bv8)
    ensures Half(Half(Half(Half(Half(Half(Half(Half(a)))))))) == 0
  {
  }

  lemma HalfXor(a: bv8, b: bv8)
    ensures Half(Xor(a, b)) == Xor(Half(a), Half(b))
  {
  }

  /** A byte is its lowest bit plus twice its upper half. */
  lemma Rebuild(a: bv8)
    ensures Xor(Pick(a, 1), Double(Half(a))) == a
  {
  }

  lemma DoubleNonzero(a: bv8)
    requires a != 0
    ensures Double(a) != 0
  {
  }

  /** Two odd bytes have a nonzero product: settled by search over their bits. */
  lemma OddProduct(a: bv8, a1: bv8, a2: bv8, a3: bv8, a4: bv8, a5: bv8, a6: bv8, a7: bv8,
                   b: bv8, b1: bv8, b2: bv8, b3: bv8, b4: bv8, b5: bv8, b6: bv8, b7: bv8)
    requires a & 1 == 1 && b & 1 == 1
    requires a1 == Half(a) && a2 == Half(a1) && a3 == Half(a2) && a4 == Half(a3)
    requires a5 == Half(a4) && a6 == Half(a5) && a7 == Half(a6)
    requires b1 == Double(b) && b2 == Double(b1) && b3 == Double(b2) && b4 == Double(b3)
    requires b5 == Double(b4) && b6 == Double(b5) && b7 == Double(b6)
    ensures Xor(Pick(a, b), Xor(Pick(a1, b1), Xor(Pick(a2, b2), Xor(Pick(a3, b3),
            Xor(Pick(a4, b4), Xor(Pick(a5, b5), Xor(Pick(a6, b6), Xor(Pick(a7, b7), 0)))))))) != 0
  {
  }

  lemma EvenIsDouble(a: bv8)
    requires a & 1 != 1
    ensures Double(Half(a)) == a
  {
  }
}

/** Shift-and-add multiplication, proved bilinear, commutative and associative from
    the laws of its byte operations alone. */
module ShiftAndAdd {

  datatype Ring<!T> = Ring(
    zero: T,
    one: T,
    width: nat,
    add: (T, T) -> T,
    double: T -> T,
    half: T -> T,
    pick: (T, T) -> T
  )

  /** a has no bits above the low n. */
  ghost predicate Fits<T>(r: Ring<T>, a: T, n: nat)
    decreases n
  {
    if n == 0 then a == r.zero else Fits(r, r.half(a), n - 1)
  }

  ghost predicate FitsWidth<T>(r: Ring<T>, a: T) {
    Fits(r, a, r.width)
  }

  ghost predicate Law1<T>(r: Ring<T>, x: T) {
    && r.add(x, r.zero) == x
    && r.add(r.zero, x) == x
    && r.add(r.pick(x, r.one), r.double(r.half(x))) == x
    && r.pick(r.zero, x) == r.zero
    && r.pick(r.one, x) == x
    && FitsWidth(r, x)
  }

  ghost predicate Law2<T>(r: Ring<T>, x: T, y: T) {
    && r.add(x, y) == r.add(y, x)
    && r.double(r.add(x, y)) == r.add(r.double(x), r.double(y))
    && r.half(r.add(x, y)) == r.add(r.half(x), r.half(y))
    && r.pick(x, y) == (if r.pick(x, r.one) == r.zero then r.zero else y)
  }

  ghost predicate Law3<T>(r: Ring<T>, x: T, y: T, z: T) {
    && r.add(r.add(x, y), z) == r.add(x, r.add(y, z))
    && r.pick(x, r.add(y, z)) == r.add(r.pick(x, y), r.pick(x, z))
    && r.pick(r.add(x, y), z) == r.add(r.pick(x, z), r.pick(y, z))
  }

  ghost predicate Laws<T(!new)>(r: Ring<T>) {
    && r.width > 0
    && r.half(r.zero) == r.zero && r.half(r.one) == r.zero && r.double(r.zero) == r.zero
    && (forall x :: Law1(r, x))
    && (forall x, y :: Law2(r, x, y))
    && (forall x, y, z :: Law3(r, x, y, z))
  }

  /** The product of b with the low n bits of a. */
  function MulBits<T>(r: Ring<T>, a: T, b: T, n: nat): T
    decreases n
  {
    if n == 0 then r.zero else r.add(r.pick(a, b), r.double(MulBits(r, r.half(a), b, n - 1)))
  }

  function Mul<T>(r: Ring<T>, a: T, b: T): T {
    MulBits(r, a, b, r.width)
  }

  lemma Regroup<T(!new)>(r: Ring<T>, p: T, q: T, s: T, t: T)
    requires Laws(r)
    ensures r.add(r.add(p, q), r.add(s, t)) == r.add(r.add(p, s), r.add(q, t))
  {
    assert Law3(r, p, q, r.add(s, t)) && Law3(r, q, s, t) && Law2(r, q, s) && Law3(r, s, q, t) && Law3(r, p, s, r.add(q, t));
  }

  // ----- multiplication is bilinear

  lemma {:induction false} AddRight<T(!new)>(r: Ring<T>, a: T, b: T, c: T, n: nat)
    requires Laws(r)
    ensures MulBits(r, a, r.add(b, c), n) == r.add(MulBits(r, a, b, n), MulBits(r, a, c, n))
    decreases n
  {
    if n == 0 {
      assert Law1(r, r.zero);
    } else {
      var h := r.half(a);
      AddRight(r, h, b, c, n - 1);
      var x, y := MulBits(r, h, b, n - 1), MulBits(r, h, c, n - 1);
      assert Law2(r, x, y) && Law3(r, a, b, c);
      Regroup(r, r.pick(a, b), r.pick(a, c), r.double(x), r.double(y));
    }
  }

  lemma {:induction false} AddLeft<T(!new)>(r: Ring<T>, a: T, b: T, c: T, n: nat)
    requires Laws(r)
    ensures MulBits(r, r.add(a, b), c, n) == r.add(MulBits(r, a, c, n), MulBits(r, b, c, n))
    decreases n
  {
    if n == 0 {
      assert Law1(r, r.zero);
    } else {
      assert Law2(r, a, b);
      AddLeft(r, r.half(a), r.half(b), c, n - 1);
      var x, y := MulBits(r, r.half(a), c, n - 1), MulBits(r, r.half(b), c, n - 1);
      assert Law2(r, x, y) && Law3(r, a, b, c);
      Regroup(r, r.pick(a, c), r.pick(b, c), r.double(x), r.double(y));
    }
  }

  lemma {:induction false} DoubleRight<T(!new)>(r: Ring<T>, a: T, b: T, n: nat)
    requires Laws(r)
    ensures MulBits(r, a, r.double(b), n) == r.double(MulBits(r, a, b, n))
    decreases n
  {
    if n == 0 {
    } else {
      DoubleRight(r, r.half(a), b, n - 1);
      assert Law2(r, r.pick(a, b), r.double(MulBits(r, r.half(a), b, n - 1)));
      assert Law2(r, a, b) && Law2(r, a, r.double(b));
    }
  }

  lemma {:induction false} ZeroLeft<T(!new)>(r: Ring<T>, b: T, n: nat)
    requires Laws(r)
    ensures MulBits(r, r.zero, b, n) == r.zero
    decreases n
  {
    if n == 0 {
    } else {
      ZeroLeft(r, b, n - 1);
      assert Law1(r, b) && Law1(r, r.zero);
    }
  }

  lemma {:induction false} ZeroRight<T(!new)>(r: Ring<T>, a: T, n: nat)
    requires Laws(r)
    ensures MulBits(r, a, r.zero, n) == r.zero
    decreases n
  {
    if n == 0 {
    } else {
      ZeroRight(r, r.half(a), n - 1);
      assert Law1(r, r.zero) && Law2(r, a, r.zero);
    }
  }

  lemma OneLeft<T(!new)>(r: Ring<T>, b: T)
    requires Laws(r)
    ensures Mul(r, r.one, b) == b
  {
    ZeroLeft(r, b, r.width - 1);
    assert Law1(r, b);
  }

  // ----- commutativity

  lemma {:induction false} OneRight<T(!new)>(r: Ring<T>, a: T, n: nat)
    requires Laws(r) && Fits(r, a, n)
    ensures MulBits(r, a, r.one, n) == a
    decreases n
  {
    if n == 0 {
    } else {
      OneRight(r, r.half(a), n - 1);
      assert Law1(r, a);
    }
  }

  lemma {:induction false} CommuteBits<T(!new)>(r: Ring<T>, a: T, b: T, n: nat)
    requires Laws(r) && Fits(r, a, n)
    ensures MulBits(r, a, b, n) == Mul(r, b, a)
    decreases n
  {
    if n == 0 {
      ZeroRight(r, b, r.width);
    } else {
      var low, h := r.pick(a, r.one), r.half(a);
      CommuteBits(r, h, b, n - 1);
      assert Law1(r, a);
      AddRight(r, b, low, r.double(h), r.width);
      DoubleRight(r, b, h, r.width);
      assert Mul(r, b, low) == r.pick(a, b) by {
        assert Law1(r, b) && FitsWidth(r, b);
        OneRight(r, b, r.width);
        ZeroRight(r, b, r.width);
        assert Law2(r, a, b) && Law2(r, a, r.one);
      }
    }
  }

  lemma Commute<T(!new)>(r: Ring<T>, a: T, b: T)
    requires Laws(r)
    ensures Mul(r, a, b) == Mul(r, b, a)
  {
    assert Law1(r, a) && FitsWidth(r, a);
    CommuteBits(r, a, b, r.width);
  }

  // ----- associativity

  lemma DoubleLeft<T(!new)>(r: Ring<T>, a: T, b: T)
    requires Laws(r)
    ensures Mul(r, r.double(a), b) == r.double(Mul(r, a, b))
  {
    Commute(r, r.double(a), b);
    DoubleRight(r, b, a, r.width);
    Commute(r, a, b);
  }

  lemma PickLeft<T(!new)>(r: Ring<T>, a: T, b: T, c: T)
    requires Laws(r)
    ensures Mul(r, r.pick(a, b), c) == r.pick(a, Mul(r, b, c))
  {
    ZeroLeft(r, c, r.width);
    assert Law2(r, a, b) && Law2(r, a, Mul(r, b, c));
  }

  lemma AssociateStep<T(!new)>(r: Ring<T>, a: T, b: T, c: T, rest: T)
    requires Laws(r)
    ensures Mul(r, r.add(r.pick(a, b), r.double(rest)), c) ==
            r.add(r.pick(a, Mul(r, b, c)), r.double(Mul(r, rest, c)))
  {
    AddLeft(r, r.pick(a, b), r.double(rest), c, r.width);
    DoubleLeft(r, rest, c);
    PickLeft(r, a, b, c);
  }

  lemma {:induction false} AssociateBits<T(!new)>(r: Ring<T>, a: T, b: T, c: T, n: nat)
    requires Laws(r)
    ensures Mul(r, MulBits(r, a, b, n), c) == MulBits(r, a, Mul(r, b, c), n)
    decreases n
  {
    if n == 0 {
      ZeroLeft(r, c, r.width);
    } else {
      AssociateBits(r, r.half(a), b, c, n - 1);
      AssociateStep(r, a, b, c, MulBits(r, r.half(a), b, n - 1));
    }
  }

  /** Doubling b instead of the partial product. */
  lemma PeelLow<T(!new)>(r: Ring<T>, a: T, b: T, n: nat)
    requires Laws(r) && n > 0
    ensures MulBits(r, a, b, n) == r.add(r.pick(a, b), MulBits(r, r.half(a), r.double(b), n - 1))
  {
    DoubleRight(r, r.half(a), b, n - 1);
  }

  /** The product as the sum of the doublings of b that the bits of a select. */
  lemma UnrollEight<T(!new)>(r: Ring<T>, a: T, b: T)
    requires Laws(r)
    ensures var a1, b1 := r.half(a), r.double(b);
            var a2, b2 := r.half(a1), r.double(b1);
            var a3, b3 := r.half(a2), r.double(b2);
            var a4, b4 := r.half(a3), r.double(b3);
            var a5, b5 := r.half(a4), r.double(b4);
            var a6, b6 := r.half(a5), r.double(b5);
            var a7, b7 := r.half(a6), r.double(b6);
            MulBits(r, a, b, 8) ==
            r.add(r.pick(a, b), r.add(r.pick(a1, b1), r.add(r.pick(a2, b2), r.add(r.pick(a3, b3),
            r.add(r.pick(a4, b4), r.add(r.pick(a5, b5), r.add(r.pick(a6, b6), r.add(r.pick(a7, b7), r.zero))))))))
  {
    var a1, b1 := r.half(a), r.double(b);
    var a2, b2 := r.half(a1), r.double(b1);
    var a3, b3 := r.half(a2), r.double(b2);
    var a4, b4 := r.half(a3), r.double(b3);
    var a5, b5 := r.half(a4), r.double(b4);
    var a6, b6 := r.half(a5), r.double(b5);
    var a7, b7 := r.half(a6), r.double(b6);
    PeelLow(r, a7, b7, 1);
    PeelLow(r, a6, b6, 2);
    PeelLow(r, a5, b5, 3);
    PeelLow(r, a4, b4, 4);
    PeelLow(r, a3, b3, 5);
    PeelLow(r, a2, b2, 6);
    PeelLow(r, a1, b1, 7);
    PeelLow(r, a, b, 8);
  }
}

/** Multiplication of bytes, with its laws. */
module ByteProduct {
  import opened ByteFacts
  import R = ShiftAndAdd

  function Ring(): R.Ring<bv8> {
    R.Ring(0, 1, 8, (a, b) => Xor(a, b), b => Double(b), a => Half(a), (a, b) => Pick(a, b))
  }

  function Mul(a: bv8, b: bv8): bv8 {
    R.Mul(Ring(), a, b)
  }

  lemma RingLaw1(x: bv8)
    ensures R.Law1(Ring(), x)
  {
    XorCommute(x, x);
    Rebuild(x);
    PickConstants(x);
    AllFit(x);
  }

  lemma RingLaw2(x: bv8, y: bv8)
    ensures R.Law2(Ring(), x, y)
  {
    XorCommute(x, y);
    DoubleXor(x, y);
    HalfXor(x, y);
    PickCases(x, y);
  }

  lemma RingLaw3(x: bv8, y: bv8, z: bv8)
    ensures R.Law3(Ring(), x, y, z)
  {
    XorAssociate(x, y, z);
    PickXorRight(x, y, z);
    PickXorLeft(x, y, z);
  }

  lemma RingLaws()
    ensures R.Laws(Ring())
  {
    var r := Ring();
    PickConstants(0);
    forall x
      ensures R.Law1(r, x)
    {
      RingLaw1(x);
    }
    forall x, y
      ensures R.Law2(r, x, y)
    {
      RingLaw2(x, y);
    }
    forall x, y, z
      ensures R.Law3(r, x, y, z)
    {
      RingLaw3(x, y, z);
    }
  }

  lemma AllFit(a: bv8)
    ensures R.Fits(Ring(), a, 8)
  {
    var r := Ring();
    EightHalves(a);
    var a1 := Half(a);
    var a2 := Half(a1);
    var a3 := Half(a2);
    var a4 := Half(a3);
    var a5 := Half(a4);
    var a6 := Half(a5);
    var a7 := Half(a6);
    assert R.Fits(r, Half(a7), 0);
    assert R.Fits(r, a7, 1);
    assert R.Fits(r, a6, 2);
    assert R.Fits(r, a5, 3);
    assert R.Fits(r, a4, 4);
    assert R.Fits(r, a3, 5);
    assert R.Fits(r, a2, 6);
    assert R.Fits(r, a1, 7);
  }

  lemma MulLaws(a: bv8, b: bv8, c: bv8)
    ensures Mul(a, b) == Mul(b, a)
    ensures Mul(Mul(a, b), c) == Mul(a, Mul(b, c))
    ensures Mul(a, Xor(b, c)) == Xor(Mul(a, b), Mul(a, c))
    ensures Mul(a, 1) == a && Mul(1, a) == a
    ensures Mul(a, 0) == 0 && Mul(0, a) == 0
  {
    RingLaws();
    R.Commute(Ring(), a, b);
    R.AssociateBits(Ring(), a, b, c, 8);
    R.AddRight(Ring(), a, b, c, 8);
    R.OneLeft(Ring(), a);
    R.Commute(Ring(), a, 1);
    R.ZeroLeft(Ring(), a, 8);
    R.ZeroRight(Ring(), a, 8);
  }

  lemma DoubleMul(a: bv8, b: bv8)
    ensures Mul(Double(a), b) == Double(Mul(a, b))
    ensures Mul(a, Double(b)) == Double(Mul(a, b))
  {
    RingLaws();
    R.DoubleLeft(Ring(), a, b);
    R.DoubleRight(Ring(), a, b, 8);
  }

  lemma OddTimesOdd(a: bv8, b: bv8)
    requires a & 1 == 1 && b & 1 == 1
    ensures Mul(a, b) != 0
  {
    var a1, b1 := Half(a), Double(b);
    var a2, b2 := Half(a1), Double(b1);
    var a3, b3 := Half(a2), Double(b2);
    var a4, b4 := Half(a3), Double(b3);
    var a5, b5 := Half(a4), Double(b4);
    var a6, b6 := Half(a5), Double(b5);
    var a7, b7 := Half(a6), Double(b6);
    RingLaws();
    R.UnrollEight(Ring(), a, b);
    OddProduct(a, a1, a2, a3, a4, a5, a6, a7, b, b1, b2, b3, b4, b5, b6, b7);
  }

  lemma {:induction false} NoZeroDivisorsBits(a: bv8, b: bv8, n: nat)
    requires R.Fits(Ring(), a, n) && a != 0 && b & 1 == 1
    ensures Mul(a, b) != 0
    decreases n
  {
    if a & 1 == 1 {
      OddTimesOdd(a, b);
    } else {
      EvenIsDouble(a);
      PickConstants(0);
      NoZeroDivisorsBits(Half(a), b, n - 1);
      DoubleMul(Half(a), b);
      DoubleNonzero(Mul(Half(a), b));
    }
  }

  lemma {:induction false} NoZeroDivisors(a: bv8, b: bv8, n: nat)
    requires R.Fits(Ring(), b, n) && a != 0 && b != 0
    ensures Mul(a, b) != 0
    decreases n
  {
    if b & 1 == 1 {
      AllFit(a);
      NoZeroDivisorsBits(a, b, 8);
    } else {
      EvenIsDouble(b);
      PickConstants(0);
      NoZeroDivisors(a, Half(b), n - 1);
      DoubleMul(a, Half(b));
      DoubleNonzero(Mul(a, Half(b)));
    }
  }
}

/** GF(2^8) is a field. */
module GF256 {
  import opened Basics
  import opened Octets
  import opened ByteFacts
  import opened ByteProduct
  import I = Interpolation

  /** Every byte. */
  ghost function AllBytes(): (s: set<bv8>) {
    set n | n in Range(256) :: ByteOf(n)
  }

  lemma AllBytesComplete(b: bv8)
    ensures b in AllBytes()
  {
    NatRoundTrip(b);
    assert b as nat in Range(256);
  }

  lemma MulCancels(a: bv8, b: bv8, c: bv8)
    requires a != 0 && Mul(a, b) == Mul(a, c)
    ensures b == c
  {
    MulLaws(a, b, c);
    XorCommute(Mul(a, b), Mul(a, c));
    XorCommute(b, c);
    if b != c {
      AllFit(Xor(b, c));
      NoZeroDivisors(a, Xor(b, c), 8);
    }
  }

  /** Multiplying by a permutes the 256 bytes, so some byte is sent to 1. */
  lemma InverseExists(a: bv8)
    requires a != 0
    ensures exists b :: Mul(a, b) == 1
  {
    var all := AllBytes();
    var image := set b | b in all :: Mul(a, b);
    forall b, c | b in all && c in all && Mul(a, b) == Mul(a, c)
      ensures b == c
    {
      MulCancels(a, b, c);
    }
    ImageSize(all, b => Mul(a, b), image);
    forall b | b in image
      ensures b in all
    {
      AllBytesComplete(b);
    }
    SubsetSize(image, all);
    AllBytesComplete(1);
    assert 1 in image;
  }

  ghost function Inverse(a: bv8): (b: bv8)
    ensures a != 0 ==> Mul(a, b) == 1
  {
    if a == 0 then 0 else
      InverseExists(a);
      var b :| Mul(a, b) == 1;
      b
  }

  ghost function Field(): I.Field<bv8> {
    I.Field(0, 1, (a, b) => Xor(a, b), a => a, (a, b) => Mul(a, b), a => Inverse(a))
  }

  lemma FieldLaw1(x: bv8)
    ensures I.Law1(Field(), x)
  {
    XorCommute(x, x);
    MulLaws(x, x, x);
  }

  lemma FieldLaw2(x: bv8, y: bv8)
    ensures I.Law2(Field(), x, y)
  {
    XorCommute(x, y);
    MulLaws(x, y, y);
  }

  lemma FieldLaw3(x: bv8, y: bv8, z: bv8)
    ensures I.Law3(Field(), x, y, z)
  {
    XorAssociate(x, y, z);
    MulLaws(x, y, z);
  }

  lemma FieldLaws()
    ensures I.IsField(Field())
  {
    var f := Field();
    forall x
      ensures I.Law1(f, x)
    {
      FieldLaw1(x);
    }
    forall x, y
      ensures I.Law2(f, x, y)
    {
      FieldLaw2(x, y);
    }
    forall x, y, z
      ensures I.Law3(f, x, y, z)
    {
      FieldLaw3(x, y, z);
    }
  }
}

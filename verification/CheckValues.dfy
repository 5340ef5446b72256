/** The checksum register as a 32-bit word, shifted right, and some of its values. */
module ShiftRegister {

  const POLYNOMIAL: bv32 := 0x82F6_3B78

  function Half(x: bv32): bv32 {
    x >> 1
  }

  function Quarter(x: bv32): bv32 {
    x >> 4
  }

  predicate Odd(x: bv32) {
    x & 1 == 1
  }

  function Xor(x: bv32, y: bv32): bv32 {
    x ^ y
  }

  function Step(s: bv32, b: bool): bv32 {
    if Odd(s) != b then Xor(Half(s), POLYNOMIAL) else Half(s)
  }

  /** Four bits, lowest first. */
  function Four(s: bv32, a: bool, b: bool, c: bool, d: bool): bv32 {
    Step(Step(Step(Step(s, a), b), c), d)
  }

  /** Bit i of a word. */
  predicate BitAt(x: bv32, i: nat)
    decreases i, x
  {
    if i == 0 then Odd(x) else BitAt(Half(x), i - 1)
  }

  lemma HalfXor(x: bv32, y: bv32)
    ensures Half(Xor(x, y)) == Xor(Half(x), Half(y)) && Odd(Xor(x, y)) == (Odd(x) != Odd(y))
  {
  }

  lemma {:induction false} BitXorAll(i: nat)
    ensures forall x, y :: BitAt(Xor(x, y), i) == (BitAt(x, i) != BitAt(y, i))
    decreases i
  {
    if i == 0 {
      forall x, y
        ensures BitAt(Xor(x, y), i) == (BitAt(x, i) != BitAt(y, i))
      {
        HalfXor(x, y);
      }
    } else {
      BitXorAll(i - 1);
      forall x, y
        ensures BitAt(Xor(x, y), i) == (BitAt(x, i) != BitAt(y, i))
      {
        HalfXor(x, y);
        assert BitAt(Xor(Half(x), Half(y)), i - 1) == (BitAt(Half(x), i - 1) != BitAt(Half(y), i - 1));
      }
    }
  }

  lemma BitXor(x: bv32, y: bv32, i: nat)
    ensures BitAt(Xor(x, y), i) == (BitAt(x, i) != BitAt(y, i))
  {
    BitXorAll(i);
  }

  lemma FourHalves(x: bv32)
    ensures Half(Half(Half(Half(x)))) == Quarter(x)
  {
  }

  lemma BitQuarter(x: bv32, i: nat)
    ensures BitAt(x, i + 4) == BitAt(Quarter(x), i)
  {
    FourHalves(x);
    var x1 := Half(x);
    var x2 := Half(x1);
    var x3 := Half(x2);
    assert BitAt(x, i + 4) == BitAt(x1, i + 3);
    assert BitAt(x1, i + 3) == BitAt(x2, i + 2);
    assert BitAt(x2, i + 2) == BitAt(x3, i + 1);
  }

  lemma EightQuarters(x: bv32)
    ensures Quarter(Quarter(Quarter(Quarter(Quarter(Quarter(Quarter(Quarter(x)))))))) == 0
  {
  }

  lemma ZeroBit(x: bv32)
    requires x == 0
    ensures !BitAt(x, 0)
  {
  }

  lemma {:induction false} ZeroBits(i: nat)
    ensures !BitAt(0, i)
  {
    if i == 0 {
    } else {
      assert Half(0) == 0;
      ZeroBits(i - 1);
    }
  }

  /** There is nothing above the word. */
  lemma NoMoreBits(x: bv32)
    ensures !BitAt(x, 32)
  {
    var x1 := Quarter(x);
    var x2 := Quarter(x1);
    var x3 := Quarter(x2);
    var x4 := Quarter(x3);
    var x5 := Quarter(x4);
    var x6 := Quarter(x5);
    var x7 := Quarter(x6);
    EightQuarters(x);
    BitQuarter(x, 28);
    BitQuarter(x1, 24);
    BitQuarter(x2, 20);
    BitQuarter(x3, 16);
    BitQuarter(x4, 12);
    BitQuarter(x5, 8);
    BitQuarter(x6, 4);
    BitQuarter(x7, 0);
    ZeroBit(Quarter(x7));
  }

  /** The bytes "123", from all ones. */
  lemma DigitsOne()
    ensures Four(0xFFFF_FFFF, true, false, false, false) == 0xECCF_57E5
    ensures Four(0xECCF_57E5, true, true, false, false) == 0x6F0A_661C
    ensures Four(0x6F0A_661C, false, true, false, false) == 0xE5C0_0E7B
    ensures Four(0xE5C0_0E7B, true, true, false, false) == 0x8CAA_3B9F
    ensures Four(0x8CAA_3B9F, true, true, false, false) == 0xCB47_857D
    ensures Four(0xCB47_857D, true, true, false, false) == 0xEF84_D04D
  {
  }

  /** Then "456". */
  lemma DigitsTwo()
    ensures Four(0xEF84_D04D, false, false, true, false) == 0x9C50_B113
    ensures Four(0x9C50_B113, true, true, false, false) == 0x09C5_0B11
    ensures Four(0x09C5_0B11, true, false, true, false) == 0x41E7_4D0D
    ensures Four(0x41E7_4D0D, true, true, false, false) == 0xE72E_DCCA
    ensures Four(0xE72E_DCCA, false, true, true, false) == 0xCDFF_CB08
    ensures Four(0xCDFF_CB08, true, true, false, false) == 0xBECA_8E79
  {
  }

  /** Then "789". */
  lemma DigitsThree()
    ensures Four(0xBECA_8E79, true, true, true, false) == 0xE8DC_00FD
    ensures Four(0xE8DC_00FD, true, true, false, false) == 0xEDBD_6815
    ensures Four(0xEDBD_6815, false, false, false, true) == 0xDD08_372A
    ensures Four(0xDD08_372A, true, true, false, false) == 0x9F78_7F65
    ensures Four(0x9F78_7F65, true, false, false, true) == 0xCA7A_A132
    ensures Four(0xCA7A_A132, true, true, false, false) == 0x1CF9_6D7C
  {
  }

  /** Thirty-two ones, from zero. */
  lemma OnesFromZero()
    ensures Four(0x0000_0000, true, true, true, true) == 0xF36E_6F75
    ensures Four(0xF36E_6F75, true, true, true, true) == 0xAD7D_5351
    ensures Four(0xAD7D_5351, true, true, true, true) == 0xE9E7_7D2F
    ensures Four(0xE9E7_7D2F, true, true, true, true) == 0x0E9E_77D2
    ensures Four(0x0E9E_77D2, true, true, true, true) == 0xD33A_06D6
    ensures Four(0xD33A_06D6, true, true, true, true) == 0x9F9B_5C7A
    ensures Four(0x9F9B_5C7A, true, true, true, true) == 0x58DC_6F14
    ensures Four(0x58DC_6F14, true, true, true, true) == 0xB798_B438
  {
  }

  /** A zero byte, from all ones. */
  lemma ZeroByte()
    ensures Four(0xFFFF_FFFF, false, false, false, false) == 0xFC91_908A
    ensures Four(0xFC91_908A, false, false, false, false) == 0xAD82_ACAE
  {
  }

  lemma ZeroByteOdd()
    ensures Odd(0xFFFF_FFFF) && !Odd(0xAD82_ACAE)
  {
  }

  /** The low digit of x, lowest bit first. */
  predicate LowDigit(x: bv32, a: bool, b: bool, c: bool, d: bool) {
    Odd(x) == a && Odd(Half(x)) == b && Odd(Half(Half(x))) == c && Odd(Half(Half(Half(x)))) == d
  }

  /** The digits of the polynomial. */
  lemma PolynomialDigits(x: bv32)
    requires x == 0x82F6_3B78
    ensures var x1 := Quarter(x);
            var x2 := Quarter(x1);
            var x3 := Quarter(x2);
            var x4 := Quarter(x3);
            var x5 := Quarter(x4);
            var x6 := Quarter(x5);
            var x7 := Quarter(x6);
            && LowDigit(x, false, false, false, true)
            && LowDigit(x1, true, true, true, false)
            && LowDigit(x2, true, true, false, true)
            && LowDigit(x3, true, true, false, false)
            && LowDigit(x4, false, true, true, false)
            && LowDigit(x5, true, true, true, true)
            && LowDigit(x6, false, true, false, false)
            && LowDigit(x7, false, false, false, true)
  {
  }

  /** The digits of all ones. */
  lemma OnesDigits(x: bv32)
    requires x == 0xFFFF_FFFF
    ensures var x1 := Quarter(x);
            var x2 := Quarter(x1);
            var x3 := Quarter(x2);
            var x4 := Quarter(x3);
            var x5 := Quarter(x4);
            var x6 := Quarter(x5);
            var x7 := Quarter(x6);
            && LowDigit(x, true, true, true, true)
            && LowDigit(x1, true, true, true, true)
            && LowDigit(x2, true, true, true, true)
            && LowDigit(x3, true, true, true, true)
            && LowDigit(x4, true, true, true, true)
            && LowDigit(x5, true, true, true, true)
            && LowDigit(x6, true, true, true, true)
            && LowDigit(x7, true, true, true, true)
  {
  }

  /** The digits of the register after "123456789". */
  lemma CheckDigits(x: bv32)
    requires x == 0x1CF9_6D7C
    ensures var x1 := Quarter(x);
            var x2 := Quarter(x1);
            var x3 := Quarter(x2);
            var x4 := Quarter(x3);
            var x5 := Quarter(x4);
            var x6 := Quarter(x5);
            var x7 := Quarter(x6);
            && LowDigit(x, false, false, true, true)
            && LowDigit(x1, true, true, true, false)
            && LowDigit(x2, true, false, true, true)
            && LowDigit(x3, false, true, true, false)
            && LowDigit(x4, true, false, false, true)
            && LowDigit(x5, true, true, true, true)
            && LowDigit(x6, false, false, true, true)
            && LowDigit(x7, true, false, false, false)
  {
  }

  /** The digits of the register after thirty-two ones from zero. */
  lemma ResidueDigits(x: bv32)
    requires x == 0xB798_B438
    ensures var x1 := Quarter(x);
            var x2 := Quarter(x1);
            var x3 := Quarter(x2);
            var x4 := Quarter(x3);
            var x5 := Quarter(x4);
            var x6 := Quarter(x5);
            var x7 := Quarter(x6);
            && LowDigit(x, false, false, false, true)
            && LowDigit(x1, true, true, false, false)
            && LowDigit(x2, false, false, true, false)
            && LowDigit(x3, true, true, false, true)
            && LowDigit(x4, false, false, false, true)
            && LowDigit(x5, true, false, false, true)
            && LowDigit(x6, true, true, true, false)
            && LowDigit(x7, true, true, false, true)
  {
  }
}

/** The register as a string of bits and as a word are the same machine. */
module RegisterWords {
  import opened CyclicCode
  import opened Castagnoli
  import W = ShiftRegister

  /** The low n bits of a word, lowest first. */
  function Word(x: bv32, n: nat): (bits: Bits)
    ensures |bits| == n
  {
    seq(n, i requires 0 <= i < n => W.BitAt(x, i))
  }

  lemma WordXor(x: bv32, y: bv32, n: nat)
    ensures Word(W.Xor(x, y), n) == Xor(Word(x, n), Word(y, n))
  {
    forall i: nat | i < n
      ensures Word(W.Xor(x, y), n)[i] == (Word(x, n)[i] != Word(y, n)[i])
    {
      W.BitXor(x, y, i);
    }
  }

  lemma WordHalf(x: bv32, n: nat)
    requires n == 32
    ensures Word(W.Half(x), n) == Half(Word(x, n))
  {
    W.NoMoreBits(x);
  }

  /** A digit and the word above it. */
  lemma WordDigit(x: bv32, n: nat, d: Digit)
    requires W.LowDigit(x, d.a, d.b, d.c, d.d)
    ensures Word(x, n + 4) == d.Before(Word(W.Quarter(x), n))
  {
    var x1 := W.Half(x);
    var x2 := W.Half(x1);
    var x3 := W.Half(x2);
    assert W.BitAt(x, 0) == d.a && W.BitAt(x, 1) == W.BitAt(x1, 0) == d.b;
    assert W.BitAt(x, 2) == W.BitAt(x1, 1) == W.BitAt(x2, 0) == d.c;
    assert W.BitAt(x, 3) == W.BitAt(x1, 2) == W.BitAt(x2, 1) == W.BitAt(x3, 0) == d.d;
    forall i: nat | i < n
      ensures W.BitAt(x, i + 4) == W.BitAt(W.Quarter(x), i)
    {
      W.BitQuarter(x, i);
    }
  }

  lemma DigitsFrom(ds: seq<Digit>, k: nat)
    requires k < |ds|
    ensures FromDigits(ds[k..]) == ds[k].Before(FromDigits(ds[k + 1..]))
  {
    assert ds[k..][0] == ds[k] && ds[k..][1..] == ds[k + 1..];
  }

  /** One more digit in front. */
  lemma WordMore(x: bv32, ds: seq<Digit>, k: nat, n: nat)
    requires k < |ds| && n == 4 * (|ds| - k - 1) && W.LowDigit(x, ds[k].a, ds[k].b, ds[k].c, ds[k].d)
    requires Word(W.Quarter(x), n) == FromDigits(ds[k + 1..])
    ensures Word(x, n + 4) == FromDigits(ds[k..])
  {
    WordDigit(x, n, ds[k]);
    DigitsFrom(ds, k);
  }

  predicate Reads(x: bv32, d: Digit) {
    W.LowDigit(x, d.a, d.b, d.c, d.d)
  }

  /** A word of eight digits. */
  lemma WordOfDigits(x: bv32, ds: seq<Digit>, n: nat)
    requires |ds| == 8 && n == 32
    requires var x1 := W.Quarter(x);
             var x2 := W.Quarter(x1);
             var x3 := W.Quarter(x2);
             var x4 := W.Quarter(x3);
             var x5 := W.Quarter(x4);
             var x6 := W.Quarter(x5);
             var x7 := W.Quarter(x6);
             && Reads(x, ds[0]) && Reads(x1, ds[1]) && Reads(x2, ds[2]) && Reads(x3, ds[3])
             && Reads(x4, ds[4]) && Reads(x5, ds[5]) && Reads(x6, ds[6]) && Reads(x7, ds[7])
    ensures Word(x, n) == FromDigits(ds)
  {
    var x1 := W.Quarter(x);
    var x2 := W.Quarter(x1);
    var x3 := W.Quarter(x2);
    var x4 := W.Quarter(x3);
    var x5 := W.Quarter(x4);
    var x6 := W.Quarter(x5);
    var x7 := W.Quarter(x6);
    var none := n - 32;
    assert Word(W.Quarter(x7), none) == FromDigits(ds[8..]);
    WordMore(x7, ds, 7, none);
    WordMore(x6, ds, 6, none + 4);
    WordMore(x5, ds, 5, none + 8);
    WordMore(x4, ds, 4, none + 12);
    WordMore(x3, ds, 3, none + 16);
    WordMore(x2, ds, 2, none + 20);
    WordMore(x1, ds, 1, none + 24);
    WordMore(x, ds, 0, none + 28);
    assert ds[0..] == ds;
  }

  const CHECK: seq<Digit> := [
    Digit(false, false, true, true), Digit(true, true, true, false),
    Digit(true, false, true, true), Digit(false, true, true, false),
    Digit(true, false, false, true), Digit(true, true, true, true),
    Digit(false, false, true, true), Digit(true, false, false, false)
  ]

  const RESIDUE: seq<Digit> := [
    Digit(false, false, false, true), Digit(true, true, false, false),
    Digit(false, false, true, false), Digit(true, true, false, true),
    Digit(false, false, false, true), Digit(true, false, false, true),
    Digit(true, true, true, false), Digit(true, true, false, true)
  ]

  const ONES: seq<Digit> := [
    Digit(true, true, true, true), Digit(true, true, true, true),
    Digit(true, true, true, true), Digit(true, true, true, true),
    Digit(true, true, true, true), Digit(true, true, true, true),
    Digit(true, true, true, true), Digit(true, true, true, true)
  ]

  /** The polynomial as a word. */
  lemma PolynomialWord(x: bv32, n: nat, ds: seq<Digit>)
    requires x == 0x82F6_3B78 && n == 32 && ds == DIGITS
    ensures Word(x, n) == FromDigits(ds)
  {
    W.PolynomialDigits(x);
    WordOfDigits(x, ds, n);
  }

  /** The register after "123456789". */
  lemma CheckWord(x: bv32, n: nat, ds: seq<Digit>)
    requires x == 0x1CF9_6D7C && n == 32 && ds == CHECK
    ensures Word(x, n) == FromDigits(ds)
  {
    W.CheckDigits(x);
    WordOfDigits(x, ds, n);
  }

  /** The register after thirty-two ones from zero. */
  lemma ResidueWord(x: bv32, n: nat, ds: seq<Digit>)
    requires x == 0xB798_B438 && n == 32 && ds == RESIDUE
    ensures Word(x, n) == FromDigits(ds)
  {
    W.ResidueDigits(x);
    WordOfDigits(x, ds, n);
  }

  /** All ones. */
  lemma OnesWord(x: bv32, n: nat, ds: seq<Digit>)
    requires x == 0xFFFF_FFFF && n == 32 && ds == ONES
    ensures Word(x, n) == FromDigits(ds)
  {
    W.OnesDigits(x);
    WordOfDigits(x, ds, n);
  }

  /** A step of the word is a step of its bits. */
  lemma WordStep(x: bv32, b: bool, n: nat)
    requires n == 32
    ensures |CASTAGNOLI| == n && Word(W.Step(x, b), n) == Step(CASTAGNOLI, Word(x, n), b)
  {
    CastagnoliFacts();
    WordHalf(x, n);
    PolynomialWord(W.POLYNOMIAL, n, DIGITS);
    WordXor(W.Half(x), W.POLYNOMIAL, n);
    FirstBit(x, n);
  }

  lemma FirstBit(x: bv32, n: nat)
    requires n > 0
    ensures Word(x, n)[0] == W.Odd(x)
  {
  }

  lemma RunFirst(poly: Bits, s: Bits, b: bool, u: Bits)
    requires |s| == |poly| > 0
    ensures Run(poly, s, [b] + u) == Run(poly, Step(poly, s, b), u)
  {
    assert ([b] + u)[1..] == u;
  }

  /** Four steps of the word consume a digit. */
  lemma WordFour(x: bv32, d: Digit, u: Bits, n: nat)
    requires n == 32
    ensures |CASTAGNOLI| == n
    ensures Run(CASTAGNOLI, Word(x, n), d.Before(u)) == Run(CASTAGNOLI, Word(W.Four(x, d.a, d.b, d.c, d.d), n), u)
  {
    CastagnoliFacts();
    var x1 := W.Step(x, d.a);
    var x2 := W.Step(x1, d.b);
    var x3 := W.Step(x2, d.c);
    WordStep(x, d.a, n);
    WordStep(x1, d.b, n);
    WordStep(x2, d.c, n);
    WordStep(x3, d.d, n);
    RunFirst(CASTAGNOLI, Word(x, n), d.a, [d.b] + ([d.c] + ([d.d] + u)));
    RunFirst(CASTAGNOLI, Word(x1, n), d.b, [d.c] + ([d.d] + u));
    RunFirst(CASTAGNOLI, Word(x2, n), d.c, [d.d] + u);
    RunFirst(CASTAGNOLI, Word(x3, n), d.d, u);
  }

  /** A byte takes the word through two digits. */
  lemma WordByte(x: bv32, y: bv32, z: bv32, lo: Digit, hi: Digit, u: Bits, n: nat)
    requires y == W.Four(x, lo.a, lo.b, lo.c, lo.d) && z == W.Four(y, hi.a, hi.b, hi.c, hi.d) && n == 32
    ensures |CASTAGNOLI| == n
    ensures Run(CASTAGNOLI, Word(x, n), lo.Before(hi.Before(u))) == Run(CASTAGNOLI, Word(z, n), u)
  {
    WordFour(x, lo, hi.Before(u), n);
    WordFour(y, hi, u, n);
  }

  /** The bytes "123". */
  lemma FirstThreeDigits(x: bv32, y: bv32, u: Bits, n: nat)
    requires x == 0xFFFF_FFFF && y == 0xEF84_D04D && n == 32
    ensures |CASTAGNOLI| == n
    ensures Run(CASTAGNOLI, Word(x, n), Digit(true, false, false, false).Before(Digit(true, true, false, false).Before(
            Digit(false, true, false, false).Before(Digit(true, true, false, false).Before(
            Digit(true, true, false, false).Before(Digit(true, true, false, false).Before(u))))))) == Run(CASTAGNOLI, Word(y, n), u)
  {
    W.DigitsOne();
    var u2 := Digit(true, true, false, false).Before(Digit(true, true, false, false).Before(u));
    var u1 := Digit(false, true, false, false).Before(Digit(true, true, false, false).Before(u2));
    WordByte(x, 0xECCF_57E5, 0x6F0A_661C, Digit(true, false, false, false), Digit(true, true, false, false), u1, n);
    WordByte(0x6F0A_661C, 0xE5C0_0E7B, 0x8CAA_3B9F, Digit(false, true, false, false), Digit(true, true, false, false), u2, n);
    WordByte(0x8CAA_3B9F, 0xCB47_857D, y, Digit(true, true, false, false), Digit(true, true, false, false), u, n);
  }

  /** The bytes "456". */
  lemma NextThreeDigits(x: bv32, y: bv32, u: Bits, n: nat)
    requires x == 0xEF84_D04D && y == 0xBECA_8E79 && n == 32
    ensures |CASTAGNOLI| == n
    ensures Run(CASTAGNOLI, Word(x, n), Digit(false, false, true, false).Before(Digit(true, true, false, false).Before(
            Digit(true, false, true, false).Before(Digit(true, true, false, false).Before(
            Digit(false, true, true, false).Before(Digit(true, true, false, false).Before(u))))))) == Run(CASTAGNOLI, Word(y, n), u)
  {
    W.DigitsTwo();
    var u2 := Digit(false, true, true, false).Before(Digit(true, true, false, false).Before(u));
    var u1 := Digit(true, false, true, false).Before(Digit(true, true, false, false).Before(u2));
    WordByte(x, 0x9C50_B113, 0x09C5_0B11, Digit(false, false, true, false), Digit(true, true, false, false), u1, n);
    WordByte(0x09C5_0B11, 0x41E7_4D0D, 0xE72E_DCCA, Digit(true, false, true, false), Digit(true, true, false, false), u2, n);
    WordByte(0xE72E_DCCA, 0xCDFF_CB08, y, Digit(false, true, true, false), Digit(true, true, false, false), u, n);
  }

  /** The bytes "789". */
  lemma LastThreeDigits(x: bv32, y: bv32, u: Bits, n: nat)
    requires x == 0xBECA_8E79 && y == 0x1CF9_6D7C && n == 32
    ensures |CASTAGNOLI| == n
    ensures Run(CASTAGNOLI, Word(x, n), Digit(true, true, true, false).Before(Digit(true, true, false, false).Before(
            Digit(false, false, false, true).Before(Digit(true, true, false, false).Before(
            Digit(true, false, false, true).Before(Digit(true, true, false, false).Before(u))))))) == Run(CASTAGNOLI, Word(y, n), u)
  {
    W.DigitsThree();
    var u2 := Digit(true, false, false, true).Before(Digit(true, true, false, false).Before(u));
    var u1 := Digit(false, false, false, true).Before(Digit(true, true, false, false).Before(u2));
    WordByte(x, 0xE8DC_00FD, 0xEDBD_6815, Digit(true, true, true, false), Digit(true, true, false, false), u1, n);
    WordByte(0xEDBD_6815, 0xDD08_372A, 0x9F78_7F65, Digit(false, false, false, true), Digit(true, true, false, false), u2, n);
    WordByte(0x9F78_7F65, 0xCA7A_A132, y, Digit(true, false, false, true), Digit(true, true, false, false), u, n);
  }

  lemma FalseBits(x: bv32, i: nat)
    requires x == 0
    ensures !W.BitAt(x, i)
  {
    W.ZeroBits(i);
  }

  /** Sixteen ones, from zero. */
  lemma OnesLow(x: bv32, y: bv32, one: Digit, u: Bits, n: nat)
    requires x == 0 && y == 0x0E9E_77D2 && one == Digit(true, true, true, true) && n == 32
    ensures |CASTAGNOLI| == n
    ensures Run(CASTAGNOLI, Word(x, n), one.Before(one.Before(one.Before(one.Before(u))))) ==
            Run(CASTAGNOLI, Word(y, n), u)
  {
    W.OnesFromZero();
    WordByte(x, 0xF36E_6F75, 0xAD7D_5351, one, one, one.Before(one.Before(u)), n);
    WordByte(0xAD7D_5351, 0xE9E7_7D2F, y, one, one, u, n);
  }

  /** Sixteen more. */
  lemma OnesHigh(x: bv32, y: bv32, one: Digit, u: Bits, n: nat)
    requires x == 0x0E9E_77D2 && y == 0xB798_B438 && one == Digit(true, true, true, true) && n == 32
    ensures |CASTAGNOLI| == n
    ensures Run(CASTAGNOLI, Word(x, n), one.Before(one.Before(one.Before(one.Before(u))))) ==
            Run(CASTAGNOLI, Word(y, n), u)
  {
    W.OnesFromZero();
    WordByte(x, 0xD33A_06D6, 0x9F9B_5C7A, one, one, one.Before(one.Before(u)), n);
    WordByte(0x9F9B_5C7A, 0x58DC_6F14, y, one, one, u, n);
  }

  lemma OnesLowRun(x: bv32, y: bv32, one: Digit, ds: seq<Digit>, k: nat, n: nat)
    requires x == 0 && y == 0x0E9E_77D2 && one == Digit(true, true, true, true) && n == 32
    requires k + 4 <= |ds| && forall i :: 0 <= i < |ds| ==> ds[i] == one
    ensures |CASTAGNOLI| == n
    ensures Run(CASTAGNOLI, Word(x, n), FromDigits(ds[k..])) == Run(CASTAGNOLI, Word(y, n), FromDigits(ds[k + 4..]))
  {
    FourAlike(ds, one, k);
    OnesLow(x, y, one, FromDigits(ds[k + 4..]), n);
  }

  lemma OnesHighRun(x: bv32, y: bv32, one: Digit, ds: seq<Digit>, k: nat, n: nat)
    requires x == 0x0E9E_77D2 && y == 0xB798_B438 && one == Digit(true, true, true, true) && n == 32
    requires k + 4 <= |ds| && forall i :: 0 <= i < |ds| ==> ds[i] == one
    ensures |CASTAGNOLI| == n
    ensures Run(CASTAGNOLI, Word(x, n), FromDigits(ds[k..])) == Run(CASTAGNOLI, Word(y, n), FromDigits(ds[k + 4..]))
  {
    FourAlike(ds, one, k);
    OnesHigh(x, y, one, FromDigits(ds[k + 4..]), n);
  }

  /** Thirty-two ones, from zero. */
  lemma OnesRun(x: bv32, y: bv32, one: Digit, ds: seq<Digit>, n: nat)
    requires x == 0 && y == 0xB798_B438 && one == Digit(true, true, true, true) && n == 32
    requires |ds| == 8 && forall i :: 0 <= i < |ds| ==> ds[i] == one
    ensures |CASTAGNOLI| == n && Run(CASTAGNOLI, Word(x, n), FromDigits(ds)) == Word(y, n)
  {
    CastagnoliFacts();
    OnesLowRun(x, 0x0E9E_77D2, one, ds, 0, n);
    OnesHighRun(0x0E9E_77D2, y, one, ds, 4, n);
    assert ds[0..] == ds && ds[8..] == [];
  }

  lemma FourAlike(ds: seq<Digit>, d: Digit, k: nat)
    requires k + 4 <= |ds| && forall i :: 0 <= i < |ds| ==> ds[i] == d
    ensures FromDigits(ds[k..]) == d.Before(d.Before(d.Before(d.Before(FromDigits(ds[k + 4..])))))
  {
    DigitsFrom(ds, k);
    DigitsFrom(ds, k + 1);
    DigitsFrom(ds, k + 2);
    DigitsFrom(ds, k + 3);
  }
}

/** Values that single out CRC-32C among the checks with its polynomial: they fix the register it
    starts from, the inversion at its end and the order of its bits. */
module Crc32cValues {
  import opened Basics
  import opened Octets
  import opened CyclicCode
  import opened BitStrings
  import opened Crc32
  import opened Castagnoli
  import opened RegisterWords
  import W = ShiftRegister

  // ----- bytes and digits

  lemma ByteOfDigits(lo: Digit, hi: Digit, b: bv8)
    requires b as nat == lo.Value() + 16 * hi.Value()
    ensures ByteBits(b) == lo.Before(hi.Before([]))
  {
    var x := lo.Before(hi.Before([]));
    DigitValue(hi, []);
    DigitValue(lo, hi.Before([]));
    BitsRoundTrip(x);
  }

  /** The bits of a text that begins with a byte of two known digits. */
  lemma FirstByte(lo: Digit, hi: Digit, data: Bytes)
    requires data != [] && data[0] as nat == lo.Value() + 16 * hi.Value()
    ensures DataBits(data) == lo.Before(hi.Before(DataBits(data[1..])))
  {
    ByteOfDigits(lo, hi, data[0]);
    DigitsThen(lo, hi, DataBits(data[1..]));
  }

  lemma DigitsThen(lo: Digit, hi: Digit, u: Bits)
    ensures lo.Before(hi.Before([])) + u == lo.Before(hi.Before(u))
  {
    DigitThen(hi, [], u);
    DigitThen(lo, hi.Before([]), u);
    assert [] + u == u;
  }

  lemma DigitThen(d: Digit, x: Bits, u: Bits)
    ensures d.Before(x) + u == d.Before(x + u)
  {
  }

  /** The bits of a text that begins with three bytes of known digits. */
  lemma ThreeBytes(d0: Digit, d1: Digit, d2: Digit, d3: Digit, d4: Digit, d5: Digit, data: Bytes)
    requires |data| >= 3
    requires data[0] as nat == d0.Value() + 16 * d1.Value()
    requires data[1] as nat == d2.Value() + 16 * d3.Value()
    requires data[2] as nat == d4.Value() + 16 * d5.Value()
    ensures DataBits(data) ==
            d0.Before(d1.Before(d2.Before(d3.Before(d4.Before(d5.Before(DataBits(data[3..])))))))
  {
    var one, two := data[1..], data[2..];
    assert one[1..] == two && two[1..] == data[3..];
    FirstByte(d0, d1, data);
    FirstByte(d2, d3, one);
    FirstByte(d4, d5, two);
  }

  function Flip(d: Digit): Digit {
    Digit(!d.a, !d.b, !d.c, !d.d)
  }

  function FlipAll(ds: seq<Digit>): (r: seq<Digit>)
    ensures |r| == |ds| && forall i :: 0 <= i < |ds| ==> r[i] == Flip(ds[i])
  {
    seq(|ds|, i requires 0 <= i < |ds| => Flip(ds[i]))
  }

  lemma {:induction false} ComplementDigits(ds: seq<Digit>)
    ensures Complement(FromDigits(ds)) == FromDigits(FlipAll(ds))
  {
    if ds == [] {
    } else {
      ComplementDigits(ds[1..]);
      assert FlipAll(ds)[1..] == FlipAll(ds[1..]);
      FlipBefore(ds[0], FromDigits(ds[1..]));
    }
  }

  lemma FlipBefore(d: Digit, x: Bits)
    ensures Complement(d.Before(x)) == Flip(d).Before(Complement(x))
  {
  }

  lemma NumberOfFour(ds: seq<Digit>, k: nat)
    requires k + 4 <= |ds|
    ensures Number(ds[k..]) == ds[k].Value() + 16 * (ds[k + 1].Value() + 16 * (ds[k + 2].Value()
                               + 16 * (ds[k + 3].Value() + 16 * Number(ds[k + 4..]))))
  {
    SuffixFacts(ds, k + 3);
    SuffixFacts(ds, k + 2);
    SuffixFacts(ds, k + 1);
    SuffixFacts(ds, k);
  }

  lemma NumberOfEight(ds: seq<Digit>)
    requires |ds| == 8
    ensures Number(ds) ==
            ds[0].Value() + 16 * (ds[1].Value() + 16 * (ds[2].Value() + 16 * (ds[3].Value() + 16 * (ds[4].Value()
            + 16 * (ds[5].Value() + 16 * (ds[6].Value() + 16 * ds[7].Value()))))))
  {
    NumberOfFour(ds, 4);
    NumberOfFour(ds, 0);
    assert ds[0..] == ds;
  }

  /** The checksum a register of eight digits stands for. */
  lemma ValueOfDigits(s: Bits, ds: seq<Digit>)
    requires |s| == 32 && s == FromDigits(ds)
    ensures Value(s) == Number(FlipAll(ds))
  {
    ComplementDigits(ds);
    FromDigitsValue(FlipAll(ds));
  }

  // ----- where the register starts

  lemma {:induction false} ZeroBits(w: nat)
    ensures forall i :: 0 <= i < w ==> !BitsOf(0, w)[i]
  {
    if w == 0 {
    } else {
      ZeroBits(w - 1);
    }
  }

  lemma {:induction false} AllOnes(ds: seq<Digit>)
    requires forall i :: 0 <= i < |ds| ==> ds[i] == Digit(true, true, true, true)
    ensures |FromDigits(ds)| == 4 * |ds| && forall i :: 0 <= i < |FromDigits(ds)| ==> FromDigits(ds)[i]
  {
    if ds == [] {
    } else {
      AllOnes(ds[1..]);
    }
  }

  /** A fresh checksum starts from all ones. */
  lemma StartsFromOnes(x: bv32, n: nat)
    requires x == 0xFFFF_FFFF && n == 32
    ensures Register(0) == Word(x, n)
  {
    OnesWord(x, n, ONES);
    AllOnes(ONES);
    ZeroBits(n);
  }

  // ----- the published value

  /** The nine characters 1 to 9. */
  const DIGITS_1_TO_9: Bytes := [0x31, 0x32, 0x33, 0x34, 0x35, 0x36, 0x37, 0x38, 0x39]

  lemma FirstThree(x: bv32, y: bv32, data: Bytes, n: nat)
    requires x == 0xFFFF_FFFF && y == 0xEF84_D04D && n == 32
    requires |data| >= 3 && data[0] == 0x31 && data[1] == 0x32 && data[2] == 0x33
    ensures |CASTAGNOLI| == n
    ensures Run(CASTAGNOLI, Word(x, n), DataBits(data)) == Run(CASTAGNOLI, Word(y, n), DataBits(data[3..]))
  {
    CastagnoliFacts();
    ThreeBytes(Digit(true, false, false, false), Digit(true, true, false, false), Digit(false, true, false, false),
               Digit(true, true, false, false), Digit(true, true, false, false), Digit(true, true, false, false), data);
    FirstThreeDigits(x, y, DataBits(data[3..]), n);
  }

  lemma NextThree(x: bv32, y: bv32, data: Bytes, n: nat)
    requires x == 0xEF84_D04D && y == 0xBECA_8E79 && n == 32
    requires |data| >= 3 && data[0] == 0x34 && data[1] == 0x35 && data[2] == 0x36
    ensures |CASTAGNOLI| == n
    ensures Run(CASTAGNOLI, Word(x, n), DataBits(data)) == Run(CASTAGNOLI, Word(y, n), DataBits(data[3..]))
  {
    CastagnoliFacts();
    ThreeBytes(Digit(false, false, true, false), Digit(true, true, false, false), Digit(true, false, true, false),
               Digit(true, true, false, false), Digit(false, true, true, false), Digit(true, true, false, false), data);
    NextThreeDigits(x, y, DataBits(data[3..]), n);
  }

  lemma LastThree(x: bv32, y: bv32, data: Bytes, n: nat)
    requires x == 0xBECA_8E79 && y == 0x1CF9_6D7C && n == 32
    requires |data| >= 3 && data[0] == 0x37 && data[1] == 0x38 && data[2] == 0x39
    ensures |CASTAGNOLI| == n
    ensures Run(CASTAGNOLI, Word(x, n), DataBits(data)) == Run(CASTAGNOLI, Word(y, n), DataBits(data[3..]))
  {
    CastagnoliFacts();
    ThreeBytes(Digit(true, true, true, false), Digit(true, true, false, false), Digit(false, false, false, true),
               Digit(true, true, false, false), Digit(true, false, false, true), Digit(true, true, false, false), data);
    LastThreeDigits(x, y, DataBits(data[3..]), n);
  }

  /** The check value of CRC-32C: the checksum of "123456789". */
  lemma CheckValue()
    ensures |CASTAGNOLI| == 32 && Update(CASTAGNOLI, 0, DIGITS_1_TO_9) == 0xE306_9283
  {
    var n := 32;
    CastagnoliFacts();
    StartsFromOnes(0xFFFF_FFFF, n);
    var data := DIGITS_1_TO_9;
    assert data[3..][3..] == data[6..] && data[6..][3..] == [];
    FirstThree(0xFFFF_FFFF, 0xEF84_D04D, data, n);
    NextThree(0xEF84_D04D, 0xBECA_8E79, data[3..], n);
    LastThree(0xBECA_8E79, 0x1CF9_6D7C, data[6..], n);
    CheckWord(0x1CF9_6D7C, n, CHECK);
    ValueOfDigits(Word(0x1CF9_6D7C, n), CHECK);
    NumberOfEight(FlipAll(CHECK));
  }

  // ----- laws

  /** Zero bytes at the front are not lost: one more always changes the checksum. */
  lemma LeadingZeroSeen(data: Bytes)
    ensures |CASTAGNOLI| == 32 && Update(CASTAGNOLI, 0, [0] + data) != Update(CASTAGNOLI, 0, data)
  {
    var n := 32;
    CastagnoliFacts();
    var x, longer := 0xFFFF_FFFF as bv32, [0] + data;
    StartsFromOnes(x, n);
    W.ZeroByte();
    var after := 0xAD82_ACAE as bv32;
    var none := Digit(false, false, false, false);
    FirstByte(none, none, longer);
    assert longer[1..] == data;
    WordByte(x, 0xFC91_908A, after, none, none, DataBits(data), n);
    SameUpdate(CASTAGNOLI, 0, longer, data);
    if Update(CASTAGNOLI, 0, longer) == Update(CASTAGNOLI, 0, data) {
      RunInjective(CASTAGNOLI, Word(after, n), Word(x, n), DataBits(data));
      FirstBit(after, n);
      FirstBit(x, n);
      W.ZeroByteOdd();
    }
  }

  // ----- the residue

  lemma Combine(p: nat, q: nat, low: nat, high: nat, all: nat, b: nat)
    requires q == 2 * p && all == low + p * high
    ensures b + 2 * all == b + 2 * low + q * high
  {
  }

  lemma {:induction false} ToNatConcat(x: Bits, y: Bits, w: nat)
    requires w == |x|
    ensures ToNat(x + y) == ToNat(x) + Pow2(w) * ToNat(y)
  {
    if x == [] {
      assert x + y == y;
    } else {
      var rest := x[1..];
      assert (x + y)[1..] == rest + y;
      ToNatConcat(rest, y, w - 1);
      Combine(Pow2(w - 1), Pow2(w), ToNat(rest), ToNat(y), ToNat(rest + y), if x[0] then 1 else 0);
    }
  }

  lemma ByteThen(x: Bits, y: Bits)
    requires |x| == 8
    ensures ToNat(x + y) == ToNat(x) + 256 * ToNat(y)
  {
    Pow2Values();
    ToNatConcat(x, y, |x|);
  }

  lemma ByteValue(b: bv8)
    ensures ToNat(ByteBits(b)) == b as nat
  {
    Pow2Values();
    NatRoundTrip(b);
    NatRoundTripBits(b as nat, 8);
  }

  /** Bytes and bits are ordered alike: the bits of a text, read as a number, are its bytes read
      least significant first. */
  lemma {:induction false} DataValue(data: Bytes)
    ensures ToNat(DataBits(data)) == FromLittleEndian(data)
  {
    if data == [] {
    } else {
      DataValue(data[1..]);
      ByteValue(data[0]);
      ByteThen(ByteBits(data[0]), DataBits(data[1..]));
    }
  }

  /** A number written least significant byte first is written least significant bit first. */
  lemma WrittenBits(v: nat, w: nat)
    requires v < Pow256(w)
    ensures DataBits(LittleEndian(v, w)) == BitsOf(v, 8 * w)
  {
    var written := LittleEndian(v, w);
    LittleEndianRoundTrip(v, w);
    SmallRemainder(v, Pow256(w));
    DataValue(written);
    BitsRoundTrip(DataBits(written));
  }

  lemma SmallRemainder(v: nat, p: nat)
    requires v < p
    ensures v % p == v
  {
  }

  /** From any register, its own complement leads where all ones lead from zero. */
  lemma OwnComplement(poly: Bits, s: Bits, zeros: Bits, ones: Bits)
    requires |s| == |zeros| == |ones| == |poly| > 0
    requires forall i :: 0 <= i < |poly| ==> !zeros[i] && ones[i]
    ensures Run(poly, s, Complement(s)) == Run(poly, zeros, ones)
  {
    var u := Complement(s);
    assert Xor(s, zeros) == s;
    assert s[..|u|] == s && Xor(u, s) == ones;
    DifferenceCancels(poly, s, zeros, u);
  }

  lemma ComplementRun(s: Bits, zero: bv32, ones: seq<Digit>, n: nat)
    requires |s| == n && n == 32 && zero == 0 && |ones| == 8
    requires forall i :: 0 <= i < |ones| ==> ones[i] == Digit(true, true, true, true)
    ensures |CASTAGNOLI| == n
    ensures Run(CASTAGNOLI, s, Complement(s)) == Run(CASTAGNOLI, Word(zero, n), FromDigits(ones))
  {
    CastagnoliFacts();
    forall i: nat | i < n
      ensures !Word(zero, n)[i]
    {
      FalseBits(zero, i);
    }
    AllOnes(ones);
    OwnComplement(CASTAGNOLI, s, Word(zero, n), FromDigits(ones));
  }

  lemma OwnRun(s: Bits, zero: bv32, end: bv32, ones: seq<Digit>, n: nat)
    requires |s| == n && n == 32 && zero == 0 && end == 0xB798_B438 && |ones| == 8
    requires forall i :: 0 <= i < |ones| ==> ones[i] == Digit(true, true, true, true)
    ensures |CASTAGNOLI| == n && Run(CASTAGNOLI, s, Complement(s)) == Word(end, n)
  {
    ComplementRun(s, zero, ones, n);
    OnesRun(zero, end, Digit(true, true, true, true), ones, n);
  }

  /** A checksum continued with its own bytes always comes to the same value. */
  lemma OwnBytes(v: u32, w: nat)
    requires w == 4
    ensures |CASTAGNOLI| == 32 && Update(CASTAGNOLI, v, LittleEndian(v, w)) == 0x4867_4BC7
  {
    Pow256Values();
    WrittenBits(v, w);
    ComplementTwice(BitsOf(v, 8 * w));
    OwnRun(Register(v), 0, 0xB798_B438, ONES, 8 * w);
    ResidueValue(0xB798_B438, 8 * w);
  }

  /** The residue of CRC-32C: a text followed by its own checksum always sums to the same value. */
  lemma Residue(data: Bytes)
    ensures |CASTAGNOLI| == 32
    ensures Update(CASTAGNOLI, 0, data + LittleEndian(Update(CASTAGNOLI, 0, data), 4)) == 0x4867_4BC7
  {
    var w := 4;
    CastagnoliFacts();
    var v := Update(CASTAGNOLI, 0, data);
    UpdateConcat(CASTAGNOLI, 0, data, LittleEndian(v, w));
    OwnBytes(v, w);
  }

  lemma ResidueValue(x: bv32, n: nat)
    requires x == 0xB798_B438 && n == 32
    ensures Value(Word(x, n)) == 0x4867_4BC7
  {
    ResidueWord(x, n, RESIDUE);
    ValueOfDigits(Word(x, n), RESIDUE);
    NumberOfEight(FlipAll(RESIDUE));
  }
}

/** Cyclic redundancy checks, for any generator polynomial.  A register is a string of bits,
    lowest power of the reflected form first, and a message is fed to it bit by bit. */
module CyclicCode {

  type Bits = seq<bool>

  function Xor(x: Bits, y: Bits): (z: Bits)
    requires |x| == |y|
    ensures |z| == |x|
    ensures forall i :: 0 <= i < |x| ==> z[i] == (x[i] != y[i])
  {
    seq(|x|, i requires 0 <= i < |x| => x[i] != y[i])
  }

  function Half(x: Bits): (y: Bits)
    requires |x| > 0
    ensures |y| == |x|
  {
    x[1..] + [false]
  }

  /** One bit of the message: the register moves down by one place, and the polynomial is
      added when the bit that falls out and the bit that comes in differ. */
  function Step(poly: Bits, s: Bits, b: bool): (t: Bits)
    requires |s| == |poly| > 0
    ensures |t| == |s|
  {
    if s[0] != b then Xor(Half(s), poly) else Half(s)
  }

  /** The register after a string of bits. */
  function Run(poly: Bits, s: Bits, u: Bits): (t: Bits)
    requires |s| == |poly| > 0
    ensures |t| == |s|
    decreases |u|
  {
    if u == [] then s else Run(poly, Step(poly, s, u[0]), u[1..])
  }

  /** No bit of x is set from place n on. */
  predicate Low(x: Bits, n: nat) {
    forall i :: n <= i < |x| ==> !x[i]
  }

  /** A generator whose constant term is not zero, so that a step loses nothing. */
  predicate Proper(poly: Bits) {
    |poly| > 0 && poly[|poly| - 1]
  }

  // ----- steps and runs

  /** The difference between two steps is a step of the difference. */
  lemma StepDifference(poly: Bits, s: Bits, t: Bits, b: bool, c: bool)
    requires |s| == |t| == |poly| > 0
    ensures Xor(Step(poly, s, b), Step(poly, t, c)) == Step(poly, Xor(s, t), b != c)
  {
  }

  /** A step that ends in the low n places added nothing back: the bit that fell out was the
      bit fed in, and the register before it filled at most one place more. */
  lemma StepBack(poly: Bits, d: Bits, b: bool, n: nat)
    requires Proper(poly) && |d| == |poly| && n < |d|
    requires Low(Step(poly, d, b), n)
    ensures d[0] == b && Low(d, n + 1)
  {
    var e := Step(poly, d, b);
    assert !e[|d| - 1];
    forall i | n + 1 <= i < |d|
      ensures !d[i]
    {
      assert Half(d)[i - 1] == d[i];
    }
  }

  lemma {:induction false} RunConcat(poly: Bits, s: Bits, u: Bits, v: Bits)
    requires |s| == |poly| > 0
    ensures Run(poly, s, u + v) == Run(poly, Run(poly, s, u), v)
    decreases |u|
  {
    if u == [] {
      assert u + v == v;
    } else {
      assert (u + v)[1..] == u[1..] + v;
      RunConcat(poly, Step(poly, s, u[0]), u[1..], v);
    }
  }

  lemma RunThrough(poly: Bits, s: Bits, before: Bits, u: Bits, after: Bits)
    requires |s| == |poly| > 0
    ensures Run(poly, s, before + u + after) == Run(poly, Run(poly, Run(poly, s, before), u), after)
  {
    RunConcat(poly, s, before + u, after);
    RunConcat(poly, s, before, u);
  }

  /** Two strings that bring two registers together within the width of the register: the
      registers differed only in that many low places, and equal registers mean equal
      strings. */
  lemma {:induction false} ShortStringsDiffer(poly: Bits, s: Bits, t: Bits, u: Bits, v: Bits)
    requires Proper(poly) && |s| == |t| == |poly|
    requires |u| == |v| <= |poly| && Run(poly, s, u) == Run(poly, t, v)
    ensures Low(Xor(s, t), |u|)
    ensures s == t ==> u == v
    decreases |u|
  {
    if u == [] {
    } else {
      ShortStringsDiffer(poly, Step(poly, s, u[0]), Step(poly, t, v[0]), u[1..], v[1..]);
      StepDifference(poly, s, t, u[0], v[0]);
      StepBack(poly, Xor(s, t), u[0] != v[0], |u| - 1);
    }
  }

  /** For a fixed string, running is injective on the register. */
  lemma {:induction false} RunInjective(poly: Bits, s: Bits, t: Bits, u: Bits)
    requires Proper(poly) && |s| == |t| == |poly| && Run(poly, s, u) == Run(poly, t, u)
    ensures s == t
    decreases |u|
  {
    if u == [] {
    } else {
      var s', t' := Step(poly, s, u[0]), Step(poly, t, u[0]);
      RunInjective(poly, s', t', u[1..]);
      StepDifference(poly, s, t, u[0], u[0]);
      StepBack(poly, Xor(s, t), false, 0);
      assert forall i :: 0 <= i < |s| ==> !Xor(s, t)[i];
    }
  }

  // ----- bursts

  /** Two strings that differ only inside a window no wider than the register, and do differ
      there, never leave the register the same. */
  lemma WindowDetected(poly: Bits, s: Bits, before: Bits, u: Bits, v: Bits, after: Bits)
    requires Proper(poly) && |s| == |poly|
    requires |u| == |v| <= |poly| && u != v
    ensures Run(poly, s, before + u + after) != Run(poly, s, before + v + after)
  {
    RunThrough(poly, s, before, u, after);
    RunThrough(poly, s, before, v, after);
    var r := Run(poly, s, before);
    if Run(poly, s, before + u + after) == Run(poly, s, before + v + after) {
      RunInjective(poly, Run(poly, r, u), Run(poly, r, v), after);
      ShortStringsDiffer(poly, r, r, u, v);
    }
  }

  /** Feeding two registers bits that differ as they do adds nothing back. */
  lemma StepCancels(poly: Bits, s: Bits, t: Bits, b: bool)
    requires |s| == |t| == |poly| > 0
    ensures Xor(Step(poly, s, b), Step(poly, t, b != Xor(s, t)[0])) == Half(Xor(s, t))
  {
    StepDifference(poly, s, t, b, b != Xor(s, t)[0]);
  }

  lemma XorTail(u: Bits, d: Bits)
    requires 0 < |u| <= |d|
    ensures Xor(u, d[..|u|]) == [u[0] != d[0]] + Xor(u[1..], Half(d)[..|u[1..]|])
  {
  }

  /** Flipping the places in which two registers differ brings them together. */
  lemma {:induction false} DifferenceCancels(poly: Bits, s: Bits, t: Bits, u: Bits)
    requires |s| == |t| == |poly| > 0 && |u| <= |poly| && Low(Xor(s, t), |u|)
    ensures Run(poly, s, u) == Run(poly, t, Xor(u, Xor(s, t)[..|u|]))
    decreases |u|
  {
    var d := Xor(s, t);
    if u == [] {
      assert forall i :: 0 <= i < |s| ==> !d[i];
      assert s == t;
    } else {
      StepCancels(poly, s, t, u[0]);
      XorTail(u, d);
      DifferenceCancels(poly, Step(poly, s, u[0]), Step(poly, t, u[0] != d[0]), u[1..]);
      var v := [u[0] != d[0]] + Xor(u[1..], Half(d)[..|u[1..]|]);
      assert v[1..] == Xor(u[1..], Half(d)[..|u[1..]|]);
    }
  }

  /** The generator with its leading term: a change one bit wider than the register. */
  function Unseen(poly: Bits): (e: Bits)
    ensures |e| == |poly| + 1 && e[0]
  {
    [true] + poly
  }

  lemma StepsApart(poly: Bits, s: Bits, b: bool)
    requires |s| == |poly| > 0
    ensures Xor(Step(poly, s, b), Step(poly, s, !b)) == poly
  {
  }

  lemma UnseenParts(poly: Bits, u: Bits)
    requires |u| == |poly| + 1
    ensures Xor(u, Unseen(poly)) == [!u[0]] + Xor(u[1..], poly)
  {
  }

  lemma UnseenEscapes(poly: Bits, s: Bits, u: Bits)
    requires |s| == |poly| > 0 && |u| == |poly| + 1
    ensures Run(poly, s, Xor(u, Unseen(poly))) == Run(poly, s, u)
  {
    var rest := u[1..];
    UnseenParts(poly, u);
    var v := [!u[0]] + Xor(rest, poly);
    assert v[1..] == Xor(rest, poly);
    StepsApart(poly, s, u[0]);
    assert poly[..|rest|] == poly;
    DifferenceCancels(poly, Step(poly, s, u[0]), Step(poly, s, !u[0]), rest);
  }

  /** The bound of WindowDetected is exact: every window one bit wider than the register has
      a change that leaves the register the same. */
  lemma WiderWindowEscapes(poly: Bits, s: Bits, before: Bits, u: Bits, after: Bits)
    requires |s| == |poly| > 0 && |u| == |poly| + 1
    ensures Xor(u, Unseen(poly)) != u
    ensures Run(poly, s, before + Xor(u, Unseen(poly)) + after) == Run(poly, s, before + u + after)
  {
    var v := Xor(u, Unseen(poly));
    assert v[0] != u[0];
    UnseenEscapes(poly, Run(poly, s, before), u);
    RunThrough(poly, s, before, u, after);
    RunThrough(poly, s, before, v, after);
  }

  /** x and y are equally long and agree outside n bits from place `at`. */
  predicate ApartIn(x: Bits, y: Bits, at: nat, n: nat) {
    |x| == |y| && at + n <= |x| && x[..at] == y[..at] && x[at + n..] == y[at + n..]
  }

  lemma Splice(x: Bits, at: nat, n: nat)
    requires at + n <= |x|
    ensures x[..at] + x[at..at + n] + x[at + n..] == x
  {
  }

  lemma BurstSeen(poly: Bits, s: Bits, x: Bits, y: Bits, at: nat, n: nat)
    requires Proper(poly) && |s| == |poly|
    requires ApartIn(x, y, at, n) && n <= |poly| && x != y
    ensures Run(poly, s, x) != Run(poly, s, y)
  {
    Splice(x, at, n);
    Splice(y, at, n);
    WindowDetected(poly, s, x[..at], x[at..at + n], y[at..at + n], x[at + n..]);
  }

  lemma Apart(before: Bits, u: Bits, v: Bits, after: Bits)
    requires |u| == |v|
    ensures ApartIn(before + u + after, before + v + after, |before|, |u|)
    ensures u != v ==> before + u + after != before + v + after
  {
    var x, y := before + u + after, before + v + after;
    assert x[|before|..|before| + |u|] == u && y[|before|..|before| + |u|] == v;
  }

  lemma LongerBurstUnseen(poly: Bits, s: Bits, x: Bits, at: nat) returns (y: Bits)
    requires |s| == |poly| > 0 && at + |poly| + 1 <= |x|
    ensures ApartIn(x, y, at, |poly| + 1) && y != x
    ensures Run(poly, s, y) == Run(poly, s, x)
  {
    var n := |poly| + 1;
    var u := x[at..at + n];
    Splice(x, at, n);
    WiderWindowEscapes(poly, s, x[..at], u, x[at + n..]);
    Apart(x[..at], u, Xor(u, Unseen(poly)), x[at + n..]);
    y := x[..at] + Xor(u, Unseen(poly)) + x[at + n..];
  }

  // ----- parity

  /** Whether an odd number of bits are set. */
  function Parity(x: Bits): bool {
    if x == [] then false else x[0] != Parity(x[1..])
  }

  lemma {:induction false} ParityXor(x: Bits, y: Bits)
    requires |x| == |y|
    ensures Parity(Xor(x, y)) == (Parity(x) != Parity(y))
  {
    if x == [] {
    } else {
      ParityXor(x[1..], y[1..]);
      assert Xor(x, y)[1..] == Xor(x[1..], y[1..]);
    }
  }

  lemma {:induction false} ParityAppendFalse(x: Bits)
    ensures Parity(x + [false]) == Parity(x)
  {
    if x == [] {
    } else {
      ParityAppendFalse(x[1..]);
      assert (x + [false])[1..] == x[1..] + [false];
    }
  }

  /** When x + 1 divides the generator, each bit fed in flips the parity of the register
      exactly when it is set. */
  lemma {:induction false} RunParity(poly: Bits, s: Bits, u: Bits)
    requires |s| == |poly| > 0 && Parity(poly)
    ensures Parity(Run(poly, s, u)) == (Parity(s) != Parity(u))
    decreases |u|
  {
    if u == [] {
    } else {
      RunParity(poly, Step(poly, s, u[0]), u[1..]);
      ParityAppendFalse(s[1..]);
      ParityXor(Half(s), poly);
    }
  }

  /** In how many places two strings differ. */
  function Flips(u: Bits, v: Bits): nat
    requires |u| == |v|
  {
    if u == [] then 0 else (if u[0] != v[0] then 1 else 0) + Flips(u[1..], v[1..])
  }

  lemma {:induction false} FlipsParity(u: Bits, v: Bits)
    requires |u| == |v|
    ensures Flips(u, v) % 2 == 1 <==> Parity(u) != Parity(v)
  {
    if u == [] {
    } else {
      FlipsParity(u[1..], v[1..]);
    }
  }

  /** An odd number of flipped bits, anywhere, always changes the register. */
  lemma OddFlipsDetected(poly: Bits, s: Bits, u: Bits, v: Bits)
    requires |s| == |poly| > 0 && Parity(poly)
    requires |u| == |v| && Flips(u, v) % 2 == 1
    ensures Run(poly, s, u) != Run(poly, s, v)
  {
    FlipsParity(u, v);
    RunParity(poly, s, u);
    RunParity(poly, s, v);
  }
}

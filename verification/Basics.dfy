/** Vocabulary shared by every other module: bytes, the fixed-width integers of
    the wire format, optional values, concatenation and the counting facts that
    the completion and erasure-coding arguments rest on. */
module Basics {

  type Bytes = seq<bv8>

  const TWO_32: nat := 0x1_0000_0000
  const TWO_64: nat := 0x1_0000_0000_0000_0000

  type u32 = x: nat | x < 0x1_0000_0000
  type u64 = x: nat | x < 0x1_0000_0000_0000_0000

  datatype Option<+T> = None | Some(value: T)

  datatype Result<+T> = Ok(value: T) | Err(message: string)

  function Min(x: int, y: int): int {
    if x < y then x else y
  }

  function CeilDiv(x: nat, y: nat): nat
    requires y > 0
  {
    (x + y - 1) / y
  }

  function Zeros(n: nat): (r: Bytes)
    ensures |r| == n
  {
    seq(n, _ => 0)
  }

  /** The indices 0..n-1. */
  ghost function Range(n: nat): (r: set<nat>)
    ensures forall i: nat :: i in r <==> i < n
  {
    if n == 0 then {} else Range(n - 1) + {n - 1}
  }

  ghost predicate Distinct<T>(s: seq<T>) {
    forall i, j :: 0 <= i < j < |s| ==> s[i] != s[j]
  }

  ghost function Elements<T(!new)>(s: seq<T>): (e: set<T>)
    ensures forall x :: x in e <==> x in s
  {
    set x | x in s
  }

  // ----- concatenation

  function Concat<T>(parts: seq<seq<T>>): seq<T> {
    if parts == [] then [] else parts[0] + Concat(parts[1..])
  }

  lemma {:induction false} ConcatAppend<T>(a: seq<seq<T>>, b: seq<seq<T>>)
    ensures Concat(a + b) == Concat(a) + Concat(b)
  {
    if a == [] {
      assert a + b == b;
    } else {
      assert (a + b)[1..] == a[1..] + b;
      ConcatAppend(a[1..], b);
    }
  }

  lemma ConcatSnoc<T>(a: seq<seq<T>>, x: seq<T>)
    ensures Concat(a + [x]) == Concat(a) + x
  {
    ConcatAppend(a, [x]);
    assert Concat([x]) == x + Concat([x][1..]);
  }

  lemma ConcatNext<T>(parts: seq<seq<T>>, j: nat)
    requires j < |parts|
    ensures Concat(parts[..j + 1]) == Concat(parts[..j]) + parts[j]
  {
    assert parts[..j + 1] == parts[..j] + [parts[j]];
    ConcatSnoc(parts[..j], parts[j]);
  }

  /** Item q of part j, in the whole. */
  lemma ConcatSegment<T>(parts: seq<seq<T>>, j: nat, q: nat)
    requires j < |parts| && q < |parts[j]|
    ensures |Concat(parts[..j])| + q < |Concat(parts)|
    ensures Concat(parts)[|Concat(parts[..j])| + q] == parts[j][q]
  {
    var before, after := parts[..j], parts[j + 1..];
    assert parts == (before + [parts[j]]) + after;
    ConcatAppend(before + [parts[j]], after);
    ConcatSnoc(before, parts[j]);
  }

  /** Every item of the whole is an item of some part. */
  lemma {:induction false} ConcatPlace<T>(parts: seq<seq<T>>, place: nat) returns (j: nat, q: nat)
    requires place < |Concat(parts)|
    ensures j < |parts| && q < |parts[j]| && place == |Concat(parts[..j])| + q
  {
    var n := |parts| - 1;
    var front := parts[..n];
    assert parts == front + [parts[n]];
    ConcatSnoc(front, parts[n]);
    if place < |Concat(front)| {
      j, q := ConcatPlace(front, place);
      assert front[..j] == parts[..j];
    } else {
      j, q := n, place - |Concat(front)|;
    }
  }

  // ----- counting

  lemma {:induction false} RangeSize(n: nat)
    ensures |Range(n)| == n
  {
    if n == 0 {
    } else {
      RangeSize(n - 1);
      var front := Range(n - 1);
      assert n - 1 !in front;
      assert |front + {n - 1}| == |front| + 1;
    }
  }

  /** The indices lo..hi-1. */
  ghost function Between(lo: nat, hi: nat): (r: set<nat>)
    ensures forall i: nat :: i in r <==> lo <= i < hi
  {
    Range(hi) - Range(lo)
  }

  lemma BetweenSize(lo: nat, hi: nat)
    requires lo <= hi
    ensures |Between(lo, hi)| == hi - lo
  {
    RangeSize(lo);
    RangeSize(hi);
    assert Range(hi) == Between(lo, hi) + Range(lo);
  }

  lemma {:induction false} SubsetSize<T>(a: set<T>, b: set<T>)
    requires a <= b
    ensures |a| <= |b|
    ensures |a| == |b| ==> a == b
  {
    if a == {} {
      assert |b| == 0 ==> b == {};
    } else {
      var x :| x in a;
      SubsetSize(a - {x}, b - {x});
      assert a == (a - {x}) + {x} && b == (b - {x}) + {x};
    }
  }

  /** Pigeonhole: n distinct indices below n are all of them. */
  lemma FullRange(s: set<nat>, n: nat)
    requires forall i :: i in s ==> i < n
    ensures |s| <= n
    ensures |s| == n <==> s == Range(n)
  {
    RangeSize(n);
    SubsetSize(s, Range(n));
  }

  lemma {:induction false} ImageSize<A, B>(s: set<A>, f: A -> B, image: set<B>)
    requires forall x, y :: x in s && y in s && f(x) == f(y) ==> x == y
    requires image == set x | x in s :: f(x)
    ensures |image| == |s|
  {
    if s == {} {
    } else {
      var x :| x in s;
      var rest := set y | y in s - {x} :: f(y);
      ImageSize(s - {x}, f, rest);
      assert image == rest + {f(x)};
      assert f(x) !in rest;
    }
  }

  lemma {:induction false} DistinctSize<T(!new)>(s: seq<T>)
    requires Distinct(s)
    ensures |Elements(s)| == |s|
  {
    if s == [] {
      assert Elements(s) == {};
    } else {
      var front, last := s[..|s| - 1], s[|s| - 1];
      DistinctSize(front);
      assert Elements(s) == Elements(front) + {last};
    }
  }

  // ----- arithmetic

  lemma MulMono(a: int, b: int, c: nat)
    requires a <= b
    ensures a * c <= b * c
  {
    assert b * c - a * c == (b - a) * c;
  }

  /** Quotient and remainder are unique. */
  lemma DivModUnique(n: int, m: nat, q: int, r: nat)
    requires r < m && n == q * m + r
    ensures n / m == q && n % m == r
  {
    var q', r' := n / m, n % m;
    assert (q - q') * m == r' - r by {
      assert (q - q') * m == q * m - q' * m;
    }
    if q > q' {
      MulMono(1, q - q', m);
    } else if q < q' {
      MulMono(q - q', -1, m);
    }
  }

  lemma ModSmall(n: nat, m: nat)
    requires n < m
    ensures n % m == n
  {
    DivModUnique(n, m, 0, n);
  }

  lemma DivBounds(n: nat, d: nat)
    requires d > 0
    ensures n / d * d <= n < n / d * d + d
  {
  }
}

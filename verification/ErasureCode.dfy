/** What UniFlow asks of the Reed-Solomon library it injects, stated as a
    predicate on an arbitrary implementation rather than assumed of one. */
module ErasureCode {
  import opened Basics

  /** A library: `encode` turns k data shards into all k+m, `reconstruct` fills
      the missing (empty) entries of k+m shards, `verify` checks the parity. */
  datatype Library = Library(
    encode: (nat, nat, seq<Bytes>) -> seq<Bytes>,
    reconstruct: (nat, nat, seq<Bytes>) -> Option<seq<Bytes>>,
    verify: (nat, nat, seq<Bytes>) -> bool
  )

  ghost predicate Uniform(shards: seq<Bytes>, count: nat, size: nat) {
    |shards| == count && forall i :: 0 <= i < |shards| ==> |shards[i]| == size
  }

  /** The positions that hold a shard; a missing one is an empty slice. */
  function Present(shards: seq<Bytes>): (p: set<nat>)
    ensures forall i: nat :: i in p <==> i < |shards| && shards[i] != []
  {
    set i: nat | i < |shards| && shards[i] != []
  }

  /** What is left of `code` after some shards were lost. */
  ghost predicate SurvivorsOf(got: seq<Bytes>, code: seq<Bytes>) {
    && |got| == |code|
    && forall i :: 0 <= i < |got| && got[i] != [] ==> got[i] == code[i]
  }

  ghost predicate Encodes(lib: Library, k: nat, m: nat, size: nat, data: seq<Bytes>) {
    size > 0 && Uniform(data, k, size) ==>
      var code := lib.encode(k, m, data);
      && Uniform(code, k + m, size)
      && code[..k] == data
      && lib.verify(k, m, code)
  }

  ghost predicate Recovers(lib: Library, k: nat, m: nat, size: nat, data: seq<Bytes>, got: seq<Bytes>) {
    size > 0 && Uniform(data, k, size) && SurvivorsOf(got, lib.encode(k, m, data)) && |Present(got)| >= k ==>
      lib.reconstruct(k, m, got) == Some(lib.encode(k, m, data))
  }

  ghost predicate Refuses(lib: Library, k: nat, m: nat, got: seq<Bytes>) {
    |Present(got)| < k ==> lib.reconstruct(k, m, got) == None
  }

  /** Any k of the k+m symbols determine the data, and fewer are refused. */
  ghost predicate AnyKOfN(lib: Library, k: nat, m: nat) {
    && (forall size: nat, data: seq<Bytes> :: Encodes(lib, k, m, size, data))
    && (forall size: nat, data: seq<Bytes>, got: seq<Bytes> :: Recovers(lib, k, m, size, data, got))
    && (forall got: seq<Bytes> :: Refuses(lib, k, m, got))
  }
}

/** The Vandermonde construction over GF(2^8) meets the contract for every k and m
    with k + m <= 256: symbol i of a codeword is the value at point i of the
    polynomial of degree below k whose values at points 0..k-1 are the data. */
module ReedSolomon {
  import opened Basics
  import opened Octets
  import opened ErasureCode
  import I = Interpolation
  import GF256

  ghost function Point(i: nat): bv8 {
    if i < 256 then ByteOf(i) else 0
  }

  ghost function Points(at: seq<nat>): (p: seq<bv8>)
    ensures |p| == |at|
  {
    seq(|at|, j requires 0 <= j < |at| => Point(at[j]))
  }

  /** Byte c of each of the shards listed in `at`. */
  ghost function Column(shards: seq<Bytes>, at: seq<nat>, c: nat): (col: seq<bv8>)
    requires forall j :: 0 <= j < |at| ==> at[j] < |shards| && c < |shards[at[j]]|
    ensures |col| == |at|
  {
    seq(|at|, j requires 0 <= j < |at| => shards[at[j]][c])
  }

  /** The polynomial of degree below |at| through column c of the shards in `at`. */
  ghost function Poly(shards: seq<Bytes>, at: seq<nat>, c: nat): (p: seq<bv8>)
    requires forall j :: 0 <= j < |at| ==> at[j] < |shards| && c < |shards[at[j]]|
    ensures |p| == |at|
  {
    I.Interpolate(GF256.Field(), Points(at), Column(shards, at, c))
  }

  ghost function Value(p: seq<bv8>, i: nat): bv8 {
    I.Eval(GF256.Field(), p, Point(i))
  }

  /** The n shards whose column c is the codeword through the shards in `at`. */
  ghost function Extend(shards: seq<Bytes>, at: seq<nat>, size: nat, n: nat): (code: seq<Bytes>)
    requires forall j :: 0 <= j < |at| ==> at[j] < |shards| && |shards[at[j]]| == size
    ensures Uniform(code, n, size)
    ensures forall i, c :: 0 <= i < n && 0 <= c < size ==> code[i][c] == Value(Poly(shards, at, c), i)
  {
    seq(n, i requires 0 <= i < n =>
      seq(size, c requires 0 <= c < size => Value(Poly(shards, at, c), i)))
  }

  // ----- interpolation at shard positions

  /** Positions below 256 without repeats. */
  ghost predicate Positions(at: seq<nat>) {
    Distinct(at) && forall j :: 0 <= j < |at| ==> at[j] < 256
  }

  lemma PointsDistinct(at: seq<nat>)
    requires Positions(at)
    ensures Distinct(Points(at))
  {
    forall i, j | 0 <= i < j < |at|
      ensures Points(at)[i] != Points(at)[j]
    {
      ByteRoundTrip(at[i]);
      ByteRoundTrip(at[j]);
    }
  }

  lemma PolyHits(shards: seq<Bytes>, at: seq<nat>, c: nat, j: nat)
    requires Positions(at) && j < |at|
    requires forall j :: 0 <= j < |at| ==> at[j] < |shards| && c < |shards[at[j]]|
    ensures Value(Poly(shards, at, c), at[j]) == shards[at[j]][c]
  {
    GF256.FieldLaws();
    PointsDistinct(at);
    I.InterpolateHits(GF256.Field(), Points(at), Column(shards, at, c), j);
  }

  /** Two k-coefficient polynomials that agree at k positions agree at every position. */
  lemma PolyUnique(p: seq<bv8>, q: seq<bv8>, at: seq<nat>, i: nat)
    requires Positions(at) && |p| == |q| == |at|
    requires forall j :: 0 <= j < |at| ==> Value(p, at[j]) == Value(q, at[j])
    ensures Value(p, i) == Value(q, i)
  {
    GF256.FieldLaws();
    PointsDistinct(at);
    var xs := Points(at);
    forall j | 0 <= j < |xs|
      ensures I.Eval(GF256.Field(), p, xs[j]) == I.Eval(GF256.Field(), q, xs[j])
    {
      assert xs[j] == Point(at[j]);
      assert Value(p, at[j]) == Value(q, at[j]);
    }
    I.Agreement(GF256.Field(), p, q, xs, Point(i));
  }

  // ----- the library

  ghost function Upto(k: nat): (at: seq<nat>)
    ensures |at| == k && forall j :: 0 <= j < k ==> at[j] == j
  {
    seq(k, j => j)
  }

  /** The positions below i that hold a shard, in increasing order. */
  ghost function FirstPresent(got: seq<Bytes>, i: nat): (at: seq<nat>)
    requires i <= |got|
    ensures Distinct(at)
    ensures forall j :: 0 <= j < |at| ==> at[j] < i && got[at[j]] != []
    ensures forall x: nat :: x < i && got[x] != [] ==> x in at
  {
    if i == 0 then []
    else if got[i - 1] != [] then FirstPresent(got, i - 1) + [i - 1]
    else FirstPresent(got, i - 1)
  }

  ghost function Encode(k: nat, m: nat, data: seq<Bytes>): seq<Bytes> {
    if data != [] && Uniform(data, k, |data[0]|) then Extend(data, Upto(k), |data[0]|, k + m) else data
  }

  ghost function Reconstruct(k: nat, m: nat, got: seq<Bytes>): Option<seq<Bytes>> {
    var at := FirstPresent(got, |got|);
    if |at| < k || k == 0 then None
    else if forall j :: 0 <= j < |at| ==> |got[at[j]]| == |got[at[0]]|
    then Some(Extend(got, at[..k], |got[at[0]]|, k + m))
    else None
  }

  ghost function Codec(): Library {
    Library(
      (k: nat, m: nat, data: seq<Bytes>) => Encode(k, m, data),
      (k: nat, m: nat, got: seq<Bytes>) => Reconstruct(k, m, got),
      (k: nat, m: nat, code: seq<Bytes>) => k <= |code| && Encode(k, m, code[..k]) == code
    )
  }

  lemma EncodeIsSystematic(k: nat, m: nat, size: nat, data: seq<Bytes>)
    requires 0 < k && k + m <= 256 && size > 0 && Uniform(data, k, size)
    ensures Uniform(Encode(k, m, data), k + m, size) && Encode(k, m, data)[..k] == data
  {
    var code := Encode(k, m, data);
    var at := Upto(k);
    forall i | 0 <= i < k
      ensures code[i] == data[i]
    {
      forall c | 0 <= c < size
        ensures code[i][c] == data[i][c]
      {
        PolyHits(data, at, c, i);
      }
    }
    assert code[..k] == data;
  }

  lemma PresentCount(got: seq<Bytes>)
    ensures |FirstPresent(got, |got|)| == |Present(got)|
  {
    var at := FirstPresent(got, |got|);
    DistinctSize(at);
    forall x: nat
      ensures x in at <==> x in Present(got)
    {
      if x in at {
        var j :| 0 <= j < |at| && at[j] == x;
      }
    }
    assert Elements(at) == Present(got);
  }

  /** Column c of the survivors determines column c of the codeword. */
  lemma ColumnRecovered(k: nat, m: nat, size: nat, data: seq<Bytes>, got: seq<Bytes>, at: seq<nat>, c: nat, i: nat)
    requires 0 < k && k + m <= 256 && size > 0 && Uniform(data, k, size)
    requires SurvivorsOf(got, Encode(k, m, data))
    requires |at| == k && Distinct(at) && c < size && i < k + m
    requires forall j :: 0 <= j < |at| ==> at[j] < |got| && |got[at[j]]| == size
    ensures Value(Poly(got, at, c), i) == Encode(k, m, data)[i][c]
  {
    var code := Encode(k, m, data);
    var p, q := Poly(data, Upto(k), c), Poly(got, at, c);
    forall j | 0 <= j < |at|
      ensures Value(q, at[j]) == Value(p, at[j])
    {
      PolyHits(got, at, c, j);
      assert got[at[j]] == code[at[j]];
    }
    PolyUnique(q, p, at, i);
  }

  lemma AllPresentSized(size: nat, code: seq<Bytes>, got: seq<Bytes>, at: seq<nat>)
    requires Uniform(code, |got|, size) && SurvivorsOf(got, code)
    requires forall j :: 0 <= j < |at| ==> at[j] < |got| && got[at[j]] != []
    ensures forall j :: 0 <= j < |at| ==> |got[at[j]]| == size
  {
    forall j | 0 <= j < |at|
      ensures |got[at[j]]| == size
    {
      assert got[at[j]] == code[at[j]];
    }
  }

  lemma ReconstructRecovers(k: nat, m: nat, size: nat, data: seq<Bytes>, got: seq<Bytes>)
    requires 0 < k && k + m <= 256 && size > 0 && Uniform(data, k, size)
    requires SurvivorsOf(got, Encode(k, m, data)) && |Present(got)| >= k
    ensures Reconstruct(k, m, got) == Some(Encode(k, m, data))
  {
    var code := Encode(k, m, data);
    var all := FirstPresent(got, |got|);
    PresentCount(got);
    EncodeIsSystematic(k, m, size, data);
    AllPresentSized(size, code, got, all);
    var at := all[..k];
    var again := Extend(got, at, size, k + m);
    forall i | 0 <= i < k + m
      ensures again[i] == code[i]
    {
      forall c | 0 <= c < size
        ensures again[i][c] == code[i][c]
      {
        ColumnRecovered(k, m, size, data, got, at, c, i);
      }
    }
    assert again == code;
  }

  /** The contract holds of a real code, for every k >= 1 and k + m <= 256. */
  lemma CodecMeetsContract(k: nat, m: nat)
    requires 0 < k && k + m <= 256
    ensures AnyKOfN(Codec(), k, m)
  {
    forall size: nat, data: seq<Bytes>
      ensures Encodes(Codec(), k, m, size, data)
    {
      if size > 0 && Uniform(data, k, size) {
        EncodeIsSystematic(k, m, size, data);
      }
    }
    forall size: nat, data: seq<Bytes>, got: seq<Bytes>
      ensures Recovers(Codec(), k, m, size, data, got)
    {
      if size > 0 && Uniform(data, k, size) && SurvivorsOf(got, Encode(k, m, data)) && |Present(got)| >= k {
        ReconstructRecovers(k, m, size, data, got);
      }
    }
    forall got: seq<Bytes>
      ensures Refuses(Codec(), k, m, got)
    {
      PresentCount(got);
    }
  }
}

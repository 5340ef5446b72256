/** The packet checksum: CRC-32C over a fixed 36-byte header followed by the content.  The
    sender and the receiver each have their own code for it. */
module PacketChecksum {
  import opened Basics
  import opened Octets
  import opened Wire
  import opened CyclicCode
  import opened BitStrings
  import opened Crc32
  import opened Castagnoli

  const HEADER_SIZE := 36

  /** The checked fields and their widths in bytes, in their fixed order. */
  function Fields(p: Packet): seq<(nat, nat)> {
    [(p.fileHash, 8), (p.blockId, 4), (p.totalBlocks, 4), (p.symbolId, 4), (p.kSymbols, 4), (p.nSymbols, 4),
     (p.fileSize, 8)]
  }

  function FieldCode(p: Packet, k: nat): Bytes
    requires k < 7
  {
    LittleEndian(Fields(p)[k].0, Fields(p)[k].1)
  }

  /** The first n fields, each little-endian. */
  function Prefix(p: Packet, n: nat): Bytes
    requires n <= 7
    decreases n, p
  {
    if n == 0 then [] else Prefix(p, n - 1) + FieldCode(p, n - 1)
  }

  function Header(p: Packet): Bytes {
    Prefix(p, 7)
  }

  /** The bytes the checksum covers. */
  function Checked(p: Packet): Bytes {
    Header(p) + p.content
  }

  /** The checksum of a packet, in one pass. */
  function Sum(p: Packet): u32 {
    CastagnoliFacts();
    Update(CASTAGNOLI, 0, Checked(p))
  }

  // ----- the two computations

  /** Go's PutUint32 and PutUint64: the low bytes of n from place `at` on. */
  method PutUint(buf: array<bv8>, at: nat, n: nat, width: nat, ghost done: Bytes)
    requires at + width <= buf.Length && buf[..at] == done
    modifies buf
    ensures buf[..at + width] == done + LittleEndian(n, width)
  {
    var i, rest := 0, n;
    while i < width
      invariant 0 <= i <= width
      invariant buf[..at + i] + LittleEndian(rest, width - i) == done + LittleEndian(n, width)
    {
      ghost var before := buf[..at + i];
      var b := ByteOf(rest % 256);
      assert LittleEndian(rest, width - i) == [b] + LittleEndian(rest / 256, width - i - 1);
      buf[at + i] := b;
      assert buf[..at + i + 1] == before + [b];
      i, rest := i + 1, rest / 256;
    }
  }

  /** The write of field k, after the fields before it. */
  method PutField(header: array<bv8>, at: nat, n: nat, width: nat, ghost p: Packet, ghost k: nat)
    requires k < 7 && Fields(p)[k] == (n, width)
    requires at + width <= header.Length && header[..at] == Prefix(p, k)
    modifies header
    ensures header[..at + width] == Prefix(p, k + 1)
  {
    PutUint(header, at, n, width, Prefix(p, k));
  }

  /** The seven writes that open both computations. */
  method FillHeader(header: array<bv8>, p: Packet)
    requires header.Length == HEADER_SIZE
    modifies header
    ensures header[..] == Header(p)
  {
    PutField(header, 0, p.fileHash, 8, p, 0);
    PutField(header, 8, p.blockId, 4, p, 1);
    PutField(header, 12, p.totalBlocks, 4, p, 2);
    PutField(header, 16, p.symbolId, 4, p, 3);
    PutField(header, 20, p.kSymbols, 4, p, 4);
    PutField(header, 24, p.nSymbols, 4, p, 5);
    PutField(header, 28, p.fileSize, 8, p, 6);
    assert header[..] == header[..36];
  }

  /** The receiver's computation: one checksum of the header, then the content added to it. */
  method ChecksumPacket(p: Packet) returns (crc: u32)
    ensures crc == Sum(p)
  {
    CastagnoliFacts();
    var header := new bv8[HEADER_SIZE];
    FillHeader(header, p);
    crc := Update(CASTAGNOLI, 0, header[..]);
    crc := Update(CASTAGNOLI, crc, p.content);
    UpdateConcat(CASTAGNOLI, 0, Header(p), p.content);
  }

  method VerifyPacket(p: Packet, checksum: u32) returns (ok: bool)
    ensures ok <==> checksum == Sum(p)
  {
    var crc := ChecksumPacket(p);
    ok := crc == checksum;
  }

  /** The running hash object the sender writes to. */
  class Digest {
    const table: Bits
    var crc: u32

    ghost predicate Valid() {
      |table| == 32
    }

    constructor (table: Bits)
      requires |table| == 32
      ensures Valid() && this.table == table && crc == 0
    {
      this.table := table;
      crc := 0;
    }

    method Write(data: Bytes)
      requires Valid()
      modifies this
      ensures crc == Update(table, old(crc), data)
    {
      crc := Update(table, crc, data);
    }
  }

  /** The sender's computation: the header and the content written to a running hash. */
  method CalculateCRC(p: Packet) returns (crc: u32)
    ensures crc == Sum(p)
  {
    CastagnoliFacts();
    var h := new Digest(CASTAGNOLI);
    var metaBuf := new bv8[HEADER_SIZE];
    FillHeader(metaBuf, p);
    h.Write(metaBuf[..]);
    h.Write(p.content);
    UpdateConcat(CASTAGNOLI, 0, Header(p), p.content);
    crc := h.crc;
  }

  // ----- the header layout

  /** Where field k starts. */
  function Offset(p: Packet, k: nat): nat
    requires k <= 7
  {
    |Prefix(p, k)|
  }

  lemma Offsets(p: Packet)
    ensures Offset(p, 0) == 0 && Offset(p, 1) == 8 && Offset(p, 2) == 12 && Offset(p, 3) == 16
    ensures Offset(p, 4) == 20 && Offset(p, 5) == 24 && Offset(p, 6) == 28 && Offset(p, 7) == HEADER_SIZE
  {
  }

  lemma {:induction false} PrefixExtends(p: Packet, k: nat, m: nat)
    requires k <= m <= 7
    ensures Prefix(p, k) <= Prefix(p, m)
    decreases m
  {
    if k < m {
      PrefixExtends(p, k, m - 1);
    }
  }

  /** The bytes of field k stand at its offset. */
  lemma FieldBytes(p: Packet, k: nat)
    requires k < 7
    ensures Offset(p, k + 1) == Offset(p, k) + Fields(p)[k].1 <= |Checked(p)|
    ensures Checked(p)[Offset(p, k)..Offset(p, k + 1)] == LittleEndian(Fields(p)[k].0, Fields(p)[k].1)
  {
    PrefixExtends(p, k + 1, 7);
    var next := Prefix(p, k + 1);
    assert Checked(p)[..|next|] == next;
    assert next[Offset(p, k)..] == LittleEndian(Fields(p)[k].0, Fields(p)[k].1);
  }

  /** Reading field k back gives its value. */
  lemma FieldDecodes(p: Packet, k: nat)
    requires k < 7
    ensures Offset(p, k) <= Offset(p, k + 1) <= |Checked(p)|
    ensures FromLittleEndian(Checked(p)[Offset(p, k)..Offset(p, k + 1)]) == Fields(p)[k].0
  {
    FieldBytes(p, k);
    FieldFits(p, k);
  }

  lemma FieldFits(p: Packet, k: nat)
    requires k < 7
    ensures FromLittleEndian(LittleEndian(Fields(p)[k].0, Fields(p)[k].1)) == Fields(p)[k].0
  {
    var (n, width) := Fields(p)[k];
    LittleEndianRoundTrip(n, width);
    Pow256Values();
    assert n < Pow256(width);
    ModSmall(n, Pow256(width));
  }

  /** The checked bytes decode back to the whole packet. */
  lemma CheckedDecodes(p: Packet)
    ensures |Checked(p)| == HEADER_SIZE + |p.content|
    ensures FromLittleEndian(Checked(p)[0..8]) == p.fileHash
    ensures FromLittleEndian(Checked(p)[8..12]) == p.blockId
    ensures FromLittleEndian(Checked(p)[12..16]) == p.totalBlocks
    ensures FromLittleEndian(Checked(p)[16..20]) == p.symbolId
    ensures FromLittleEndian(Checked(p)[20..24]) == p.kSymbols
    ensures FromLittleEndian(Checked(p)[24..28]) == p.nSymbols
    ensures FromLittleEndian(Checked(p)[28..36]) == p.fileSize
    ensures Checked(p)[36..] == p.content
  {
    Offsets(p);
    FieldDecodes(p, 0);
    FieldDecodes(p, 1);
    FieldDecodes(p, 2);
    FieldDecodes(p, 3);
    FieldDecodes(p, 4);
    FieldDecodes(p, 5);
    FieldDecodes(p, 6);
  }

  lemma CheckedInjective(p: Packet, q: Packet)
    requires Checked(p) == Checked(q)
    ensures p == q
  {
    CheckedDecodes(p);
    CheckedDecodes(q);
  }

  // ----- what the checksum detects

  /** A packet changed only within 32 consecutive bits of its checked bytes is rejected. */
  lemma BurstRejected(p: Packet, q: Packet, at: nat, n: nat)
    requires ApartIn(DataBits(Checked(p)), DataBits(Checked(q)), at, n) && n <= 32 && p != q
    ensures Sum(p) != Sum(q)
  {
    if Checked(p) == Checked(q) {
      CheckedInjective(p, q);
    } else {
      CastagnoliFacts();
      BurstDetected(CASTAGNOLI, 0, Checked(p), Checked(q), at, n);
    }
  }

  /** A packet with an odd number of flipped bits is rejected. */
  lemma OddFlipsRejected(p: Packet, q: Packet)
    requires |Checked(p)| == |Checked(q)| && Flips(DataBits(Checked(p)), DataBits(Checked(q))) % 2 == 1
    ensures Sum(p) != Sum(q)
  {
    CastagnoliFacts();
    OddFlipsChange(CASTAGNOLI, 0, Checked(p), Checked(q));
  }

  /** The packets differ at most in field k. */
  predicate OnlyField(p: Packet, q: Packet, k: nat) {
    p.content == q.content && forall j :: 0 <= j < 7 && j != k ==> Fields(p)[j] == Fields(q)[j]
  }

  lemma {:induction false} SamePrefix(p: Packet, q: Packet, m: nat)
    requires m <= 7 && Fields(p)[..m] == Fields(q)[..m]
    ensures Prefix(p, m) == Prefix(q, m)
    decreases m
  {
    if m == 0 {
    } else {
      assert Fields(p)[..m - 1] == Fields(p)[..m][..m - 1];
      assert Fields(q)[..m - 1] == Fields(q)[..m][..m - 1];
      assert Fields(p)[..m][m - 1] == Fields(q)[..m][m - 1];
      SamePrefix(p, q, m - 1);
    }
  }

  lemma {:induction false} SameAfter(p: Packet, q: Packet, k: nat, m: nat) returns (rest: Bytes)
    requires OnlyField(p, q, k) && k < m <= 7
    ensures Prefix(p, m) == Prefix(p, k + 1) + rest && Prefix(q, m) == Prefix(q, k + 1) + rest
    decreases m
  {
    if m == k + 1 {
      rest := [];
    } else {
      var r := SameAfter(p, q, k, m - 1);
      rest := Grown(Prefix(p, k + 1), Prefix(q, k + 1), r, FieldCode(p, m - 1));
    }
  }

  lemma Grown(a: Bytes, b: Bytes, rest: Bytes, last: Bytes) returns (longer: Bytes)
    ensures a + rest + last == a + longer && b + rest + last == b + longer
  {
    longer := rest + last;
  }

  lemma BytesApart(before: Bytes, x: Bytes, y: Bytes, after: Bytes)
    requires |x| == |y|
    ensures ApartIn(DataBits(before + x + after), DataBits(before + y + after), 8 * |before|, 8 * |x|)
  {
    DataBitsConcat(before + x, after);
    DataBitsConcat(before, x);
    DataBitsConcat(before + y, after);
    DataBitsConcat(before, y);
    Apart(DataBits(before), DataBits(x), DataBits(y), DataBits(after));
  }

  /** A packet changed only in one 32-bit header field is rejected. */
  lemma FieldChangeRejected(p: Packet, q: Packet, k: nat)
    requires k < 7 && Fields(p)[k].1 == 4 && OnlyField(p, q, k) && p != q
    ensures Sum(p) != Sum(q)
  {
    assert Fields(p)[..k] == Fields(q)[..k];
    SamePrefix(p, q, k);
    var rest := SameAfter(p, q, k, 7);
    var x, y := LittleEndian(Fields(p)[k].0, 4), LittleEndian(Fields(q)[k].0, 4);
    SplicesRejected(p, q, Prefix(p, k), x, y, rest, p.content);
  }

  lemma SplicesRejected(p: Packet, q: Packet, before: Bytes, x: Bytes, y: Bytes, between: Bytes, after: Bytes)
    requires |x| == |y| <= 4 && p != q
    requires Checked(p) == before + x + between + after
    requires Checked(q) == before + y + between + after
    ensures Sum(p) != Sum(q)
  {
    assert before + x + between + after == before + x + (between + after);
    assert before + y + between + after == before + y + (between + after);
    BytesApart(before, x, y, between + after);
    BurstRejected(p, q, 8 * |before|, 8 * |x|);
  }

  /** A packet changed only in four consecutive content bytes is rejected. */
  lemma ContentChangeRejected(p: Packet, before: Bytes, x: Bytes, y: Bytes, after: Bytes)
    requires |x| == |y| <= 4 && x != y
    ensures Sum(p.(content := before + x + after)) != Sum(p.(content := before + y + after))
  {
    var q, r := p.(content := before + x + after), p.(content := before + y + after);
    SamePrefix(p, q, 7);
    SamePrefix(p, r, 7);
    SplicedContent(Header(p), before, x, y, after);
    SplicesRejected(q, r, Header(p) + before, x, y, [], after);
  }

  lemma SplicedContent(header: Bytes, before: Bytes, x: Bytes, y: Bytes, after: Bytes)
    requires |x| == |y| && x != y
    ensures before + x + after != before + y + after
    ensures header + (before + x + after) == header + before + x + [] + after
    ensures header + (before + y + after) == header + before + y + [] + after
  {
    var c, d := before + x + after, before + y + after;
    assert c[|before|..|before| + |x|] == x && d[|before|..|before| + |x|] == y;
  }

  /** Thirty-two bits is exact: within any 33 consecutive content bits some change passes. */
  lemma LongerBurstAccepted(p: Packet, at: nat) returns (content: Bytes)
    requires at + 33 <= 8 * |p.content|
    ensures content != p.content && ApartIn(DataBits(p.content), DataBits(content), at, 33)
    ensures Sum(p.(content := content)) == Sum(p)
  {
    CastagnoliFacts();
    var sofar := Update(CASTAGNOLI, 0, Header(p));
    content := LongerBurstEscapes(CASTAGNOLI, sofar, p.content, at);
    UpdateConcat(CASTAGNOLI, 0, Header(p), p.content);
    UpdateConcat(CASTAGNOLI, 0, Header(p), content);
    SamePrefix(p, p.(content := content), 7);
  }
}

/** Length-prefixed messages over a byte stream, from a receiver to the session manager. */
module Framing {
  import opened Basics
  import opened Octets

  const PREFIX := 4

  /** A message on the wire: its length, modulo 2^32, in four big-endian bytes, then itself. */
  function Frame(payload: Bytes): Bytes {
    BigEndian(|payload|, PREFIX) + payload
  }

  function Frames(payloads: seq<Bytes>): Bytes {
    if payloads == [] then [] else Frame(payloads[0]) + Frames(payloads[1..])
  }

  /** The first message of a stream and what follows it, if a whole message is there. */
  function NextFrame(stream: Bytes): (r: Option<(Bytes, Bytes)>)
    ensures r.Some? ==> |r.value.1| < |stream|
  {
    if |stream| < PREFIX then
      None
    else
      var length := FromBigEndian(stream[..PREFIX]);
      if |stream| < PREFIX + length then None
      else Some((stream[PREFIX..PREFIX + length], stream[PREFIX + length..]))
  }

  /** The messages read from a stream until it ends. */
  function Parse(stream: Bytes): seq<Bytes>
    decreases |stream|
  {
    match NextFrame(stream)
    case None => []
    case Some((payload, rest)) => [payload] + Parse(rest)
  }

  // ----- the writing end

  class Writer {
    /** Everything written to the connection so far. */
    var sent: Bytes

    constructor ()
      ensures sent == []
    {
      sent := [];
    }

    method SendBatch(payload: Bytes)
      modifies this
      ensures sent == old(sent) + Frame(payload)
    {
      var header := BigEndian(|payload|, PREFIX);
      sent := sent + header;
      sent := sent + payload;
      assert sent == old(sent) + (header + payload);
    }
  }

  // ----- the reading end

  class Connection {
    /** The bytes the peer sends before closing that have not been read yet. */
    var stream: Bytes

    constructor (stream: Bytes)
      ensures this.stream == stream
    {
      this.stream := stream;
    }

    /** At most n bytes, as many as the socket pleases, and none only at the end. */
    method Recv(n: nat) returns (chunk: Bytes)
      requires n > 0
      modifies this
      ensures |chunk| <= n && chunk + stream == old(stream)
      ensures chunk == [] <==> old(stream) == []
    {
      if stream == [] {
        return [];
      }
      var k :| 0 < k <= n && k <= |stream|;
      chunk, stream := stream[..k], stream[k..];
    }

    /** Exactly n bytes, or nothing when the stream ends first. */
    method RecvExact(n: nat) returns (r: Option<Bytes>)
      modifies this
      ensures n <= |old(stream)| ==> r == Some(old(stream)[..n]) && stream == old(stream)[n..]
      ensures n > |old(stream)| ==> r == None && stream == []
    {
      var chunks: seq<Bytes> := [];
      var remaining := n;
      while remaining > 0
        invariant Concat(chunks) + stream == old(stream)
        invariant remaining == n - |Concat(chunks)| >= 0
        decreases remaining
      {
        var chunk := Recv(remaining);
        if chunk == [] {
          return None;
        }
        ConcatSnoc(chunks, chunk);
        assert Concat(chunks) + chunk + stream == Concat(chunks) + (chunk + stream);
        chunks := chunks + [chunk];
        remaining := remaining - |chunk|;
      }
      assert (Concat(chunks) + stream)[..n] == Concat(chunks) && (Concat(chunks) + stream)[n..] == stream;
      r := Some(Concat(chunks));
    }

    method ReadBatch() returns (r: Option<Bytes>)
      modifies this
      ensures match NextFrame(old(stream))
              case None => r == None
              case Some((payload, rest)) => r == Some(payload) && stream == rest
    {
      var header := RecvExact(PREFIX);
      if header == None {
        return None;
      }
      var length := FromBigEndian(header.value);
      r := RecvExact(length);
      assert r.Some? ==> old(stream)[PREFIX..PREFIX + length] == old(stream)[PREFIX..][..length];
    }

    /** The connection loop: every message is passed on, in order, until the end. */
    method HandleConnection() returns (batches: seq<Bytes>)
      modifies this
      ensures batches == Parse(old(stream))
    {
      batches := [];
      while true
        invariant batches + Parse(stream) == Parse(old(stream))
        decreases |stream|
      {
        ghost var before := stream;
        var batch := ReadBatch();
        if batch == None {
          assert Parse(before) == [];
          break;
        }
        assert Parse(before) == [batch.value] + Parse(stream);
        assert batches + Parse(before) == batches + [batch.value] + Parse(stream);
        batches := batches + [batch.value];
      }
    }
  }

  // ----- what the reader makes of what was written

  lemma FrameShape(payload: Bytes)
    ensures |Frame(payload)| == PREFIX + |payload|
    ensures FromBigEndian(Frame(payload)[..PREFIX]) == |payload| % TWO_32
    ensures Frame(payload)[PREFIX..] == payload
  {
    assert Frame(payload)[..PREFIX] == BigEndian(|payload|, PREFIX);
    BigEndianRoundTrip(|payload|, PREFIX);
    Pow256Values();
  }

  /** Byte by byte: the length, most significant byte first, then the message. */
  lemma FrameBytes(payload: Bytes, i: nat)
    requires i < 4
    ensures |Frame(payload)| == 4 + |payload| && Frame(payload)[4..] == payload
    ensures Pow256(3 - i) > 0 && Frame(payload)[i] as nat == |payload| / Pow256(3 - i) % 256
  {
    BigEndianMirrors(|payload|, PREFIX, i);
    LittleEndianDigit(|payload|, PREFIX, 3 - i);
  }

  lemma NextOfFrame(payload: Bytes, more: Bytes)
    requires |payload| < TWO_32
    ensures NextFrame(Frame(payload) + more) == Some((payload, more))
  {
    FrameShape(payload);
    var stream := Frame(payload) + more;
    assert stream[..PREFIX] == Frame(payload)[..PREFIX];
    assert stream[PREFIX..PREFIX + |payload|] == payload;
    assert stream[PREFIX + |payload|..] == more;
  }

  lemma NextOfCut(payload: Bytes, n: nat)
    requires |payload| < TWO_32 && n < |Frame(payload)|
    ensures NextFrame(Frame(payload)[..n]) == None
  {
    FrameShape(payload);
    if n >= PREFIX {
      assert Frame(payload)[..n][..PREFIX] == Frame(payload)[..PREFIX];
    }
  }

  predicate Sendable(payloads: seq<Bytes>) {
    forall p :: p in payloads ==> |p| < TWO_32
  }

  /** These are the messages of which all bytes are among the first n. */
  ghost predicate Whole(payloads: seq<Bytes>, n: nat, got: seq<Bytes>) {
    && got <= payloads && |Frames(got)| <= n
    && (|got| < |payloads| ==> n < |Frames(payloads[..|got| + 1])|)
  }

  lemma {:induction false} CutWhole(payloads: seq<Bytes>, n: nat)
    requires Sendable(payloads) && n <= |Frames(payloads)|
    ensures Whole(payloads, n, Parse(Frames(payloads)[..n]))
  {
    if payloads == [] {
    } else if n < |Frame(payloads[0])| {
      CutFirst(payloads, n);
    } else {
      var left := n - |Frame(payloads[0])|;
      CutWhole(payloads[1..], left);
      CutLater(payloads, n);
      Advance(payloads, Parse(Frames(payloads[1..])[..left]), left);
    }
  }

  /** A stream cut after n bytes gives exactly the messages that are complete by then. */
  lemma CutStream(payloads: seq<Bytes>, n: nat)
    requires Sendable(payloads) && n <= |Frames(payloads)|
    ensures var j := |Parse(Frames(payloads)[..n])|;
            && j <= |payloads|
            && Parse(Frames(payloads)[..n]) == payloads[..j]
            && |Frames(payloads[..j])| <= n
            && (j < |payloads| ==> n < |Frames(payloads[..j + 1])|)
  {
    CutWhole(payloads, n);
  }

  lemma CutFirst(payloads: seq<Bytes>, n: nat)
    requires Sendable(payloads) && payloads != [] && n < |Frame(payloads[0])|
    ensures n <= |Frames(payloads)| && Parse(Frames(payloads)[..n]) == [] && n < |Frames(payloads[..1])|
  {
    var p := payloads[0];
    assert Frames(payloads)[..n] == Frame(p)[..n];
    NextOfCut(p, n);
    assert payloads[..1] == [p];
    assert Frames([p]) == Frame(p) + Frames([]);
  }

  lemma CutLater(payloads: seq<Bytes>, n: nat)
    requires Sendable(payloads) && payloads != [] && |Frame(payloads[0])| <= n <= |Frames(payloads)|
    ensures Parse(Frames(payloads)[..n]) ==
            [payloads[0]] + Parse(Frames(payloads[1..])[..n - |Frame(payloads[0])|])
  {
    var p := payloads[0];
    var cut := Frames(payloads[1..])[..n - |Frame(p)|];
    assert Frames(payloads)[..n] == Frame(p) + cut;
    NextOfFrame(p, cut);
  }

  /** What is complete in the rest is complete behind the first message. */
  lemma Advance(payloads: seq<Bytes>, got: seq<Bytes>, left: nat)
    requires payloads != [] && Whole(payloads[1..], left, got)
    ensures Whole(payloads, |Frame(payloads[0])| + left, [payloads[0]] + got)
  {
    var all := [payloads[0]] + got;
    assert all == payloads[..|got| + 1] && got == payloads[1..][..|got|];
    FramesFirst(payloads, |got|);
    if |got| + 1 < |payloads| {
      FramesFirst(payloads, |got| + 1);
    }
  }

  lemma FramesFirst(payloads: seq<Bytes>, j: nat)
    requires j < |payloads|
    ensures payloads[..j + 1] == [payloads[0]] + payloads[1..][..j]
    ensures |Frames(payloads[..j + 1])| == |Frame(payloads[0])| + |Frames(payloads[1..][..j])|
  {
    var first := payloads[..j + 1];
    assert first[0] == payloads[0] && first[1..] == payloads[1..][..j];
  }

  /** The reader recovers what was sent exactly when every message is shorter than 2^32. */
  lemma {:induction false} RoundTrip(payloads: seq<Bytes>)
    ensures Parse(Frames(payloads)) == payloads <==> Sendable(payloads)
  {
    if payloads == [] {
    } else {
      var p, rest := payloads[0], payloads[1..];
      RoundTrip(rest);
      if |p| < TWO_32 {
        NextOfFrame(p, Frames(rest));
        assert payloads == [p] + rest;
        assert Parse(Frames(payloads)) == [p] + Parse(Frames(rest));
        if Parse(Frames(payloads)) == payloads {
          assert Parse(Frames(rest)) == Parse(Frames(payloads))[1..];
        }
      } else {
        LongPayload(p, Frames(rest));
        assert p in payloads;
      }
    }
  }

  /** A message of 2^32 bytes or more is cut short. */
  lemma LongPayload(p: Bytes, more: Bytes)
    requires |p| >= TWO_32
    ensures var got := Parse(Frame(p) + more);
            got != [] && |got[0]| == |p| % TWO_32 < |p|
  {
    FrameShape(p);
    var stream := Frame(p) + more;
    assert stream[..PREFIX] == Frame(p)[..PREFIX];
  }
}

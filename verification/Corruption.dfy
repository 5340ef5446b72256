/** A channel that also damages packets: whatever the receivers forward was really sent, so the
    end-to-end theorem needs no assumption that what arrives is honest. */
module Corruption {
  import opened Basics
  import opened Wire
  import opened CyclicCode
  import opened BitStrings
  import opened PacketChecksum
  import opened Reassembly
  import opened Transmission
  import opened Streams
  import opened Completion
  import opened HonestFile
  import opened EndToEnd
  import opened IntakeIntegrity
  import V = Receiving
  import R = ReceiverSafety
  import N = NonInterference
  import C = Claims

  // ----- what the channel may do

  /** p is symbol i of block b of the file registered under `hash`, as its senders send it. */
  ghost predicate IsSymbol(env: Env, hash: nat, p: Packet, b: nat, i: nat) {
    Sendable(env, hash) && b < Total(env, hash) && i < env.p.N() && p == PacketOf(env, hash, b, i)
  }

  /** A packet that was sent for the file, or any packet at all under another hash. */
  ghost predicate Genuine(env: Env, hash: nat, p: Packet) {
    p.fileHash != hash || exists b, i :: IsSymbol(env, hash, p, b, i)
  }

  /** What the channel may make of a stamped packet: its checksum alone is damaged; or the rest
      is, within 32 consecutive bits; or an odd number of bits anywhere in the rest is flipped. */
  ghost predicate Becomes(p: Packet, m: V.Message) {
    || m.packet == p
    || (m.crc == Sum(p) && exists at: nat, n: nat :: n <= 32 && NearMiss(p, m.packet, at, n))
    || (m.crc == Sum(p) && OddMiss(p, m.packet))
  }

  ghost predicate NearMiss(p: Packet, q: Packet, at: nat, n: nat) {
    ApartIn(DataBits(Checked(p)), DataBits(Checked(q)), at, n)
  }

  ghost predicate OddMiss(p: Packet, q: Packet) {
    |Checked(p)| == |Checked(q)| && Flips(DataBits(Checked(p)), DataBits(Checked(q))) % 2 == 1
  }

  /** A datagram that the channel may bring: what it decodes to, if anything, is a genuine
      packet or what became of one. */
  ghost predicate OnChannel(env: Env, hash: nat, c: V.Config, d: Bytes) {
    c.decode(d).Some? ==> exists p :: Genuine(env, hash, p) && Becomes(p, c.decode(d).value)
  }

  // ----- what the receivers make of it

  /** A receiver process: how it is set up and the steps its two loops took. */
  datatype Receiver = Receiver(config: V.Config, events: seq<V.Event<nat>>)

  ghost predicate Working(r: Receiver) {
    ChecksSums(r.config) && R.Possible(r.config, R.Start<nat>(), r.events)
  }

  ghost function HistoryOf(r: Receiver): R.System<nat>
    requires Working(r)
  {
    R.Run(r.config, R.Start<nat>(), r.events)
  }

  /** Everything the receiver read came over the channel. */
  ghost predicate Listens(env: Env, hash: nat, r: Receiver) {
    Working(r) && forall d :: d in HistoryOf(r).read ==> OnChannel(env, hash, r.config, d)
  }

  /** A stamped message that became of a packet is that packet, undamaged. */
  lemma StampedIsWhole(p: Packet, m: V.Message)
    requires Becomes(p, m) && Stamped(m)
    ensures m.packet == p
  {
    if m.packet != p {
      if at: nat, n: nat :| n <= 32 && NearMiss(p, m.packet, at, n) {
        BurstRejected(p, m.packet, at, n);
      } else {
        OddFlipsRejected(p, m.packet);
      }
    }
  }

  /** In every interleaving of its loops, a receiver forwards only genuine packets. */
  lemma ForwardsGenuine(env: Env, hash: nat, r: Receiver, m: V.Message)
    requires Listens(env, hash, r) && m in Concat(HistoryOf(r).flushed)
    ensures Genuine(env, hash, m.packet)
  {
    OnlyStampedForwarded(r.config, r.events, m);
    var d := R.FlushedWasRead(r.config, r.events, m);
    assert OnChannel(env, hash, r.config, d);
    var p :| Genuine(env, hash, p) && Becomes(p, m);
    StampedIsWhole(p, m);
  }

  lemma GenuineIsHonest(env: Env, hash: nat, p: Packet)
    requires Genuine(env, hash, p) && p.fileHash == hash
    ensures Honest(env, p)
  {
    var b, i :| IsSymbol(env, hash, p, b, i);
  }

  // ----- what the session manager makes of that

  /** The packet is in a batch that the receiver handed on. */
  ghost predicate Forwarded(receivers: map<nat, Receiver>, id: nat, p: Packet) {
    && id in receivers && Working(receivers[id])
    && exists m :: m in Concat(HistoryOf(receivers[id]).flushed) && m.packet == p
  }

  /** Every packet the session manager takes in was handed on by the receiver it is from. */
  ghost predicate Fed(receivers: map<nat, Receiver>, events: seq<Event>) {
    forall i :: 0 <= i < |events| && events[i].Arrive? ==> Forwarded(receivers, events[i].receiver, events[i].packet)
  }

  /** So the run is honest for the file: that is earned, not assumed. */
  lemma ChecksumsMakeHonest(env: Env, hash: nat, receivers: map<nat, Receiver>, events: seq<Event>, states: seq<State>)
    requires Sendable(env, hash) && N.Run(env, events, states) && Fed(receivers, events)
    requires forall id :: id in receivers ==> Listens(env, hash, receivers[id])
    ensures HonestFor(env, events, states, hash)
  {
    forall i | 0 <= i < |events| && events[i].Arrive? && events[i].packet.fileHash == hash
      ensures Honest(env, events[i].packet)
    {
      var id, p := events[i].receiver, events[i].packet;
      assert Forwarded(receivers, id, p);
      var m :| m in Concat(HistoryOf(receivers[id]).flushed) && m.packet == p;
      ForwardsGenuine(env, hash, receivers[id], m);
      GenuineIsHonest(env, hash, p);
    }
  }

  /** End to end over a channel that loses, repeats, reorders and damages: a file divided by its
      senders, of which every block loses at most M symbols to loss and damage together, is
      delivered exactly once, byte for byte, whatever else the receivers were sent. */
  lemma FileSurvivesDamage(env: Env, hash: nat,
                           sendEvents: seq<C.Event>, sendStates: seq<C.State>, tasks: nat,
                           lost: set<(nat, nat)>, receivers: map<nat, Receiver>,
                           events: seq<Event>, states: seq<State>)
    requires Sendable(env, hash) && env.files[hash] != []
    requires Divided(env, hash, sendEvents, sendStates, tasks)
    requires forall id :: id in receivers ==> Listens(env, hash, receivers[id])
    requires N.Run(env, events, states) && Fed(receivers, events)
    requires HelperReached(events, states, |events|, hash) && Quiet(states[|events|], hash)
    requires var claims := sendStates[|sendEvents|].claims;
             && Inside(env, hash, claims) && Recoverable(env, hash, claims, lost)
             && RestArrived(env, hash, claims, lost, states[|events|].log)
    ensures Deliveries(states[|events|].delivered, hash) == 1
    ensures forall d :: d in states[|events|].delivered && d.hash == hash ==> d.bytes == env.files[hash]
  {
    ChecksumsMakeHonest(env, hash, receivers, events, states);
    FileGetsThrough(env, hash, sendEvents, sendStates, tasks, lost, events, states);
  }

  /** And whatever is lost or damaged, no delivery of the file is ever anything but the file. */
  lemma DamageNeverDelivered(env: Env, hash: nat, receivers: map<nat, Receiver>, events: seq<Event>, states: seq<State>,
                             i: nat, d: Delivery)
    requires Sendable(env, hash) && N.Run(env, events, states) && Fed(receivers, events)
    requires forall id :: id in receivers ==> Listens(env, hash, receivers[id])
    requires i < |states| && d in states[i].delivered && d.hash == hash
    ensures d.bytes == env.files[hash]
  {
    ChecksumsMakeHonest(env, hash, receivers, events, states);
    DeliveredExactly(env, events, states, i, d);
  }
}

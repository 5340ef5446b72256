/** The session manager's aggregator: it pools symbols by block, whichever receiver
    reported them, and hands a block off once enough distinct symbols have arrived. */
module Aggregation {
  import opened Basics
  import opened Wire

  datatype Key = Key(hash: nat, block: nat)

  datatype Meta = Meta(kSymbols: nat, nSymbols: nat, fileSize: nat, totalBlocks: nat)

  /** What the aggregator passes on for a block that reached its threshold. */
  datatype HandOff = HandOff(key: Key, meta: Meta, shards: map<nat, Bytes>, receivers: set<nat>)

  datatype Pools = Pools(
    shards: map<Key, map<nat, Bytes>>,
    meta: map<Key, Meta>,
    receivers: map<Key, set<nat>>,
    completed: set<Key>
  )

  const EMPTY := Pools(map[], map[], map[], {})

  function KeyOf(p: Packet): Key {
    Key(p.fileHash, p.blockId)
  }

  function MetaOf(p: Packet): Meta {
    Meta(p.kSymbols, p.nSymbols, p.fileSize, p.totalBlocks)
  }

  /** The value held for a key, or a default, like Python's defaultdict. */
  function Get<K, V>(m: map<K, V>, k: K, default: V): V {
    if k in m then m[k] else default
  }

  /** The pools after filing a packet of a block that is still pending: the first content
      of a symbol is kept. */
  function File(a: Pools, receiver: nat, p: Packet): Pools {
    var key := KeyOf(p);
    var before: map<nat, Bytes> := Get(a.shards, key, map[]);
    var receivers := a.receivers[key := Get(a.receivers, key, {}) + {receiver}];
    if p.symbolId in before then
      Pools(a.shards[key := before], a.meta, receivers, a.completed)
    else
      Pools(a.shards[key := before[p.symbolId := p.content]], a.meta[key := MetaOf(p)], receivers, a.completed)
  }

  function Close(a: Pools, key: Key): Pools {
    Pools(a.shards - {key}, a.meta - {key}, a.receivers - {key}, a.completed + {key})
  }

  /** One call of add_packet under the lock. */
  function Add(a: Pools, receiver: nat, p: Packet): (Pools, Option<HandOff>)
    requires Consistent(a)
  {
    var key := KeyOf(p);
    if key in a.completed then (a, None)
    else
      var filed := File(a, receiver, p);
      if |filed.shards[key]| < p.kSymbols then (filed, None)
      else (Close(a, key), Some(HandOff(key, filed.meta[key], filed.shards[key], filed.receivers[key])))
  }

  /** The aggregator object; the lock makes each AddPacket one atomic step. */
  class Aggregator {
    var pendingShards: map<Key, map<nat, Bytes>>
    var pendingMeta: map<Key, Meta>
    var contributingReceivers: map<Key, set<nat>>
    var completed: set<Key>

    ghost function State(): Pools
      reads this
    {
      Pools(pendingShards, pendingMeta, contributingReceivers, completed)
    }

    /** The dictionaries move in step, so every lookup made under the lock succeeds. */
    ghost predicate Valid()
      reads this
    {
      Consistent(State())
    }

    constructor ()
      ensures Valid() && State() == EMPTY
    {
      pendingShards := map[];
      pendingMeta := map[];
      contributingReceivers := map[];
      completed := {};
    }

    method AddPacket(receiver: nat, packet: Packet) returns (ready: Option<HandOff>)
      requires Valid()
      modifies this
      ensures Valid()
      ensures (State(), ready) == Add(old(State()), receiver, packet)
    {
      ghost var before := State();
      ready := None;
      var key := KeyOf(packet);
      if key in completed {
        return;
      }
      var shards: map<nat, Bytes> := if key in pendingShards then pendingShards[key] else map[];
      var isNew := packet.symbolId !in shards;
      if isNew {
        shards := shards[packet.symbolId := packet.content];
      }
      var receivers := if key in contributingReceivers then contributingReceivers[key] else {};
      receivers := receivers + {receiver};
      if |shards| < packet.kSymbols {
        pendingShards := pendingShards[key := shards];
        if isNew {
          pendingMeta := pendingMeta[key := MetaOf(packet)];
        }
        contributingReceivers := contributingReceivers[key := receivers];
        assert State() == File(before, receiver, packet);
        FileConsistent(before, receiver, packet);
        return;
      }
      var meta := if isNew then MetaOf(packet) else pendingMeta[key];
      pendingMeta := pendingMeta - {key};
      pendingShards := pendingShards - {key};
      contributingReceivers := contributingReceivers - {key};
      completed := completed + {key};
      assert State() == Close(before, key);
      CloseConsistent(before, key);
      ready := Some(HandOff(key, meta, shards, receivers));
    }
  }

  /** The three pending maps share one key set, disjoint from the completed blocks. */
  ghost predicate Consistent(a: Pools) {
    && a.shards.Keys == a.meta.Keys == a.receivers.Keys
    && a.shards.Keys !! a.completed
    && forall key :: key in a.shards ==> a.shards[key] != map[]
  }

  lemma FileConsistent(a: Pools, receiver: nat, p: Packet)
    requires Consistent(a) && KeyOf(p) !in a.completed
    ensures Consistent(File(a, receiver, p))
  {
  }

  lemma CloseConsistent(a: Pools, key: Key)
    requires Consistent(a)
    ensures Consistent(Close(a, key))
  {
  }

  /** Whatever arrives, the pools stay consistent. */
  lemma AddConsistent(a: Pools, receiver: nat, p: Packet)
    requires Consistent(a)
    ensures Consistent(Add(a, receiver, p).0)
  {
    if KeyOf(p) !in a.completed {
      FileConsistent(a, receiver, p);
      CloseConsistent(a, KeyOf(p));
    }
  }

  /** Two pools hold the same for a block. */
  ghost predicate SameAt(a: Pools, b: Pools, key: Key)
    requires Consistent(a) && Consistent(b)
  {
    && (key in a.completed <==> key in b.completed)
    && (key in a.shards <==> key in b.shards)
    && (key in a.shards ==>
          a.shards[key] == b.shards[key] && a.meta[key] == b.meta[key] && a.receivers[key] == b.receivers[key])
  }

  lemma FileElsewhere(a: Pools, receiver: nat, p: Packet, other: Key)
    requires Consistent(a) && KeyOf(p) !in a.completed && other != KeyOf(p)
    ensures Consistent(File(a, receiver, p)) && SameAt(File(a, receiver, p), a, other)
  {
    FileConsistent(a, receiver, p);
  }

  lemma CloseElsewhere(a: Pools, key: Key, other: Key)
    requires Consistent(a) && other != key
    ensures Consistent(Close(a, key)) && SameAt(Close(a, key), a, other)
  {
    CloseConsistent(a, key);
  }

  /** A packet of one block leaves every other block as it was. */
  lemma AddElsewhere(a: Pools, receiver: nat, p: Packet, other: Key)
    requires Consistent(a) && other != KeyOf(p)
    ensures Consistent(Add(a, receiver, p).0) && SameAt(Add(a, receiver, p).0, a, other)
  {
    AddConsistent(a, receiver, p);
    if KeyOf(p) !in a.completed {
      FileElsewhere(a, receiver, p, other);
      CloseElsewhere(a, KeyOf(p), other);
    }
  }

  // ----- what the pools mean, in terms of everything that was ever reported

  datatype Report = Report(receiver: nat, packet: Packet)

  /** For each symbol of a block, the content of the first packet that carried it. */
  ghost function Received(log: seq<Report>, key: Key): map<nat, Bytes> {
    if log == [] then map[]
    else
      var front, p := Received(log[..|log| - 1], key), log[|log| - 1].packet;
      if KeyOf(p) == key && p.symbolId !in front then front[p.symbolId := p.content] else front
  }

  /** Every receiver that reported a packet of the block. */
  ghost function Reporters(log: seq<Report>, key: Key): set<nat> {
    if log == [] then {}
    else
      var front, last := Reporters(log[..|log| - 1], key), log[|log| - 1];
      if KeyOf(last.packet) == key then front + {last.receiver} else front
  }

  /** Some packet of the block found at least as many distinct symbols as it asks for. */
  ghost predicate HandedOff(log: seq<Report>, key: Key) {
    log != [] &&
    var p := log[|log| - 1].packet;
    || HandedOff(log[..|log| - 1], key)
    || (KeyOf(p) == key && |Received(log, key)| >= p.kSymbols)
  }

  /** The metadata of the last packet that brought a new symbol. */
  ghost function LatestMeta(log: seq<Report>, key: Key): Option<Meta> {
    if log == [] then None
    else
      var front, p := log[..|log| - 1], log[|log| - 1].packet;
      if KeyOf(p) == key && p.symbolId !in Received(front, key) then Some(MetaOf(p))
      else LatestMeta(front, key)
  }

  /** What the pools hold for one block is what the log determines. */
  ghost predicate RepresentsAt(a: Pools, log: seq<Report>, key: Key)
    requires Consistent(a)
  {
    && (key in a.completed <==> HandedOff(log, key))
    && (key in a.shards <==> !HandedOff(log, key) && Received(log, key) != map[])
    && (key in a.shards ==>
          && a.shards[key] == Received(log, key)
          && a.receivers[key] == Reporters(log, key)
          && LatestMeta(log, key) == Some(a.meta[key]))
  }

  ghost predicate Represents(a: Pools, log: seq<Report>) {
    Consistent(a) && forall key :: RepresentsAt(a, log, key)
  }

  /** How one more report changes what the log determines for a block. */
  lemma Append(log: seq<Report>, receiver: nat, p: Packet, key: Key)
    ensures var log' := log + [Report(receiver, p)];
            var isNew := KeyOf(p) == key && p.symbolId !in Received(log, key);
            && Received(log', key) == (if isNew then Received(log, key)[p.symbolId := p.content] else Received(log, key))
            && LatestMeta(log', key) == (if isNew then Some(MetaOf(p)) else LatestMeta(log, key))
            && Reporters(log', key) == (if KeyOf(p) == key then Reporters(log, key) + {receiver} else Reporters(log, key))
            && HandedOff(log', key) == (HandedOff(log, key) || (KeyOf(p) == key && |Received(log', key)| >= p.kSymbols))
  {
    var log' := log + [Report(receiver, p)];
    assert log'[..|log'| - 1] == log;
  }

  /** A packet of one block changes nothing recorded for another. */
  lemma OtherBlock(a: Pools, log: seq<Report>, receiver: nat, p: Packet, other: Key)
    requires Represents(a, log) && KeyOf(p) != other
    ensures Consistent(Add(a, receiver, p).0)
    ensures RepresentsAt(Add(a, receiver, p).0, log + [Report(receiver, p)], other)
  {
    Append(log, receiver, p, other);
    AddElsewhere(a, receiver, p, other);
    assert RepresentsAt(a, log, other);
  }

  lemma {:induction false} NoPacketsNoReporters(log: seq<Report>, key: Key)
    requires Received(log, key) == map[]
    ensures Reporters(log, key) == {} && LatestMeta(log, key) == None
  {
    if log == [] {
    } else {
      var front, p := log[..|log| - 1], log[|log| - 1].packet;
      assert Received(front, key) == map[];
      NoPacketsNoReporters(front, key);
    }
  }

  /** The hand-off carries the first-received content of every symbol, everyone who
      reported one, and the metadata of the last packet that brought a new symbol. */
  ghost predicate CarriesLog(h: HandOff, log: seq<Report>, key: Key) {
    && h.key == key
    && h.shards == Received(log, key)
    && h.receivers == Reporters(log, key)
    && LatestMeta(log, key) == Some(h.meta)
  }

  lemma FiledMatchesLog(a: Pools, log: seq<Report>, receiver: nat, p: Packet)
    requires Represents(a, log) && KeyOf(p) !in a.completed
    ensures var filed := File(a, receiver, p);
            var log' := log + [Report(receiver, p)];
            var key := KeyOf(p);
            && key in filed.meta
            && filed.shards[key] == Received(log', key) != map[]
            && filed.receivers[key] == Reporters(log', key)
            && LatestMeta(log', key) == Some(filed.meta[key])
  {
    var key := KeyOf(p);
    Append(log, receiver, p, key);
    assert RepresentsAt(a, log, key);
    if key !in a.shards {
      NoPacketsNoReporters(log, key);
    }
  }

  lemma SameBlock(a: Pools, log: seq<Report>, receiver: nat, p: Packet)
    requires Represents(a, log)
    ensures Consistent(Add(a, receiver, p).0)
    ensures var (a', ready) := Add(a, receiver, p);
            var log' := log + [Report(receiver, p)];
            && RepresentsAt(a', log', KeyOf(p))
            && (ready.Some? <==> !HandedOff(log, KeyOf(p)) && HandedOff(log', KeyOf(p)))
            && (ready.Some? ==> CarriesLog(ready.value, log', KeyOf(p)))
  {
    Append(log, receiver, p, KeyOf(p));
    AddConsistent(a, receiver, p);
    assert RepresentsAt(a, log, KeyOf(p));
    if KeyOf(p) !in a.completed {
      FiledMatchesLog(a, log, receiver, p);
    }
  }

  /** Adding a packet keeps the pools equal to what the log determines, and a hand-off
      happens exactly when the block first reaches its threshold. */
  lemma AddRepresents(a: Pools, log: seq<Report>, receiver: nat, p: Packet)
    requires Represents(a, log)
    ensures var (a', ready) := Add(a, receiver, p);
            var log' := log + [Report(receiver, p)];
            && Represents(a', log')
            && (ready.Some? <==> !HandedOff(log, KeyOf(p)) && HandedOff(log', KeyOf(p)))
            && (ready.Some? ==> CarriesLog(ready.value, log', KeyOf(p)))
  {
    SameBlock(a, log, receiver, p);
    forall key
      ensures RepresentsAt(Add(a, receiver, p).0, log + [Report(receiver, p)], key)
    {
      if key != KeyOf(p) {
        OtherBlock(a, log, receiver, p, key);
      }
    }
  }

  lemma EmptyRepresents()
    ensures Represents(EMPTY, [])
  {
  }
}

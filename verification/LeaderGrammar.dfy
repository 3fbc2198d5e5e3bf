/** What `parseMetadataResponseV0` (internal/pool/leader_cache.go) computes from a
    version 0 Metadata body: for every topic, the address of each partition's
    leader.  This reader is independent of the one in `MetadataGrammar`: it takes
    lengths and counts as unsigned, fills maps instead of lists, and skips the
    partitions of a topic in error without checking that they are all there. */
module LeaderGrammar {
  import opened Wire
  import opened WireArrays

  type BrokerMap = map<int32, Bytes>
  type PartitionMap = map<int32, Bytes>
  type LeaderMap = map<Bytes, PartitionMap>

  const COLON: byte := 58
  const ZERO: byte := 48

  function Decimal(n: nat): Bytes {
    if n < 10 then [(ZERO as int + n) as byte] else Decimal(n / 10) + [(ZERO as int + n % 10) as byte]
  }

  /** Go's "%s:%d". */
  function Address(host: Bytes, port: nat): (a: Bytes)
    ensures a != []
  {
    host + [COLON] + Decimal(port)
  }

  /** Adds one broker; a later entry with the same node id replaces an earlier one. */
  function BrokerStep(d: Bytes, acc: BrokerMap): Result<(BrokerMap, Bytes)> {
    if |d| < 10 then Err(TooShort) else
    var (nodeId, d1) :- ReadI32(d);
    var (hostLen, d2) :- ReadU16(d1);
    var (host, d3) :- Take(d2, hostLen);
    var (port, d4) :- ReadU32(d3);
    Ok((acc[nodeId := Address(host, port)], d4))
  }

  const BrokerStepper: (Bytes, BrokerMap) -> Result<(BrokerMap, Bytes)> := (d, acc) => BrokerStep(d, acc)

  /** Unread input after moving `n` bytes on; nothing when that is past the end. */
  function Beyond(d: Bytes, n: nat): Bytes {
    if n <= |d| then d[n..] else []
  }

  /** An unsigned count and that many int32 values. */
  function SkipInts(d: Bytes): Result<Bytes> {
    var (count, d1) :- ReadU32(d);
    var (_, d2) :- Take(d1, count * 4);
    Ok(d2)
  }

  /** The same without checking that the values are there. */
  function SkipIntsBlindly(d: Bytes): Result<Bytes> {
    var (count, d1) :- ReadU32(d);
    Ok(Beyond(d1, count * 4))
  }

  lemma BeyondBeyond(d: Bytes, m: nat, n: nat)
    ensures Beyond(Beyond(d, m), n) == Beyond(d, m + n)
  {
  }

  datatype PartitionStart = PartitionStart(errorCode: int16, index: int32, leaderId: int32)

  function ReadPartitionStart(d: Bytes): Result<(PartitionStart, Bytes)> {
    var (errorCode, d1) :- ReadI16(d);
    var (index, d2) :- ReadI32(d1);
    var (leaderId, d3) :- ReadI32(d2);
    Ok((PartitionStart(errorCode, index, leaderId), d3))
  }

  /** The replica and ISR lists of a partition. */
  function SkipLists(d: Bytes): Result<Bytes> {
    var d1 :- SkipInts(d);
    SkipInts(d1)
  }

  /** A whole partition: what is kept of it, and where it ends. */
  function ReadPartitionFields(d: Bytes): Result<(PartitionStart, Bytes)> {
    var (p, d1) :- ReadPartitionStart(d);
    var rest :- SkipLists(d1);
    Ok((p, rest))
  }

  function LeaderOf(p: PartitionStart, brokers: BrokerMap): Result<Option<Bytes>> {
    if p.errorCode != 0 then Ok(None)
    else if p.leaderId !in brokers then Err(UnknownLeader)
    else Ok(Some(brokers[p.leaderId]))
  }

  /** A partition's index and the address of its leader, None when the partition is
      in error. */
  function LeaderPartition(d: Bytes, brokers: BrokerMap): Result<((int32, Option<Bytes>), Bytes)> {
    var (p, rest) :- ReadPartitionFields(d);
    var leader :- LeaderOf(p, brokers);
    Ok(((p.index, leader), rest))
  }

  function WithLeader(m: PartitionMap, index: int32, leader: Option<Bytes>): PartitionMap {
    match leader
    case None => m
    case Some(a) => m[index := a]
  }

  function PartitionStep(d: Bytes, acc: PartitionMap, brokers: BrokerMap): Result<(PartitionMap, Bytes)> {
    var ((index, leader), d1) :- LeaderPartition(d, brokers);
    Ok((WithLeader(acc, index, leader), d1))
  }

  function PartitionStepper(brokers: BrokerMap): (Bytes, PartitionMap) -> Result<(PartitionMap, Bytes)> {
    (d, acc) => PartitionStep(d, acc, brokers)
  }

  /** Passes over a partition of a topic in error. */
  function SkipPartition(d: Bytes): Result<Bytes> {
    var (_, d1) :- Take(d, 10);
    var d2 :- SkipIntsBlindly(d1);
    SkipIntsBlindly(d2)
  }

  function SkipStep(d: Bytes): Result<((), Bytes)> {
    var d1 :- SkipPartition(d);
    Ok(((), d1))
  }

  const SkipStepper: (Bytes, ()) -> Result<((), Bytes)> := (d, _) => SkipStep(d)

  datatype TopicStart = TopicStart(errorCode: int16, name: Bytes, partitionCount: nat)

  function ReadTopicStart(d: Bytes): Result<(TopicStart, Bytes)> {
    var (errorCode, d1) :- ReadI16(d);
    var (nameLen, d2) :- ReadU16(d1);
    var (name, d3) :- Take(d2, nameLen);
    var (count, d4) :- ReadU32(d3);
    Ok((TopicStart(errorCode, name, count), d4))
  }

  /** A topic in error contributes nothing; a later topic replaces an earlier one of
      the same name. */
  function TopicStep(d: Bytes, acc: LeaderMap, brokers: BrokerMap): Result<(LeaderMap, Bytes)> {
    var (t, d1) :- ReadTopicStart(d);
    if t.errorCode != 0 then
      var (_, d2) :- FoldMany(d1, t.partitionCount, (), SkipStepper);
      Ok((acc, d2))
    else
      var (partitions, d2) :- FoldMany(d1, t.partitionCount, map[], PartitionStepper(brokers));
      Ok((acc[t.name := partitions], d2))
  }

  function TopicStepper(brokers: BrokerMap): (Bytes, LeaderMap) -> Result<(LeaderMap, Bytes)> {
    (d, acc) => TopicStep(d, acc, brokers)
  }

  function LeaderTopicArray(d: Bytes, brokers: BrokerMap): Result<LeaderMap> {
    var (count, d1) :- ReadU32(d);
    var (leaders, _) :- FoldMany(d1, count, map[], TopicStepper(brokers));
    Ok(leaders)
  }

  /** `body` starts with the correlation id. */
  function ParseLeaders(body: Bytes): Result<LeaderMap> {
    var (_, d1) :- ReadI32(body);
    var (count, d2) :- ReadU32(d1);
    var (brokers, d3) :- FoldMany(d2, count, map[], BrokerStepper);
    LeaderTopicArray(d3, brokers)
  }
}

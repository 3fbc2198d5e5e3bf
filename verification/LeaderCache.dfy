/** The cursor loops of internal/pool/leader_cache.go, each proved to compute what
    `LeaderGrammar` defines.  The cursor may move past the end of the body when a
    topic in error is skipped. */
module LeaderCache {
  import opened Wire
  import opened WireArrays
  import opened LeaderGrammar

  /** Steps over an array without checking that its values are there. */
  method SkipIntsBlindlyV0(body: Bytes, start: nat) returns (r: Result<nat>)
    ensures r.Err? ==> SkipIntsBlindly(Beyond(body, start)) == Err(r.error)
    ensures r.Ok? ==> SkipIntsBlindly(Beyond(body, start)) == Ok(Beyond(body, r.value)) && r.value >= start
  {
    if start + 4 > |body| {
      return Err(TooShort);
    }
    var count := Get32(body[start..]);
    BeyondBeyond(body, start, 4);
    BeyondBeyond(body, start + 4, count * 4);
    r := Ok(start + 4 + count * 4);
  }

  /** Steps over an array whose values must all be there. */
  method SkipIntsV0(body: Bytes, start: nat) returns (r: Result<nat>)
    ensures r.Err? ==> SkipInts(Beyond(body, start)) == Err(r.error)
    ensures r.Ok? ==> r.value <= |body| && SkipInts(Beyond(body, start)) == Ok(body[r.value..]) && r.value >= start
  {
    var pos: nat := start;
    if pos + 4 > |body| {
      return Err(TooShort);
    }
    var count := Get32(body[pos..]);
    pos := pos + 4;
    if pos + count * 4 > |body| {
      return Err(TooShort);
    }
    DropDrop(body, pos, count * 4);
    pos := pos + count * 4;
    r := Ok(pos);
  }

  method SkipPartitionV0(body: Bytes, start: nat) returns (r: Result<nat>)
    ensures r.Err? ==> SkipPartition(Beyond(body, start)) == Err(r.error)
    ensures r.Ok? ==> SkipPartition(Beyond(body, start)) == Ok(Beyond(body, start + r.value))
  {
    var pos: nat := start;
    if pos + 10 > |body| {
      return Err(TooShort);
    }
    BeyondBeyond(body, pos, 10);
    pos := pos + 10;
    var next := SkipIntsBlindlyV0(body, pos);
    if next.Err? {
      return next;
    }
    next := SkipIntsBlindlyV0(body, next.value);
    if next.Err? {
      return next;
    }
    r := Ok(next.value - start);
  }

  method ParsePartitionStartV0(body: Bytes, start: nat) returns (r: Result<(PartitionStart, nat)>)
    ensures r.Err? ==> ReadPartitionStart(Beyond(body, start)) == Err(r.error)
    ensures r.Ok? ==> r.value.1 == start + 10 <= |body|
    ensures r.Ok? ==> ReadPartitionStart(Beyond(body, start)) == Ok((r.value.0, body[start + 10..]))
  {
    var pos: nat := start;
    if pos + 2 > |body| {
      return Err(TooShort);
    }
    var partErr := Signed16(Get16(body[pos..]));
    pos := pos + 2;
    if pos + 4 > |body| {
      return Err(TooShort);
    }
    var partIdx := Signed32(Get32(body[pos..]));
    pos := pos + 4;
    if pos + 4 > |body| {
      return Err(TooShort);
    }
    var leaderId := Signed32(Get32(body[pos..]));
    pos := pos + 4;
    r := Ok((PartitionStart(partErr, partIdx, leaderId), pos));
  }

  /** Every known broker has an address; it holds at least a colon. */
  predicate HasAddresses(brokers: BrokerMap) {
    forall id :: id in brokers ==> |brokers[id]| > 0
  }

  /** The source's empty address stands for "no leader". */
  function AsLeader(addr: Bytes): Option<Bytes> {
    if |addr| == 0 then None else Some(addr)
  }

  /** Steps over the replica and ISR lists. */
  method SkipReplicasV0(body: Bytes, start: nat) returns (r: Result<nat>)
    ensures r.Err? ==> SkipLists(Beyond(body, start)) == Err(r.error)
    ensures r.Ok? ==> r.value >= start && SkipLists(Beyond(body, start)) == Ok(Beyond(body, r.value))
  {
    var next := SkipIntsV0(body, start);
    if next.Err? {
      return next;
    }
    assert SkipInts(Beyond(body, start)) == Ok(Beyond(body, next.value));
    r := SkipIntsV0(body, next.value);
  }

  /** The fields of one partition and the position after it. */
  method ParsePartitionFieldsV0(body: Bytes, start: nat) returns (r: Result<(PartitionStart, nat)>)
    ensures r.Err? ==> ReadPartitionFields(Beyond(body, start)) == Err(r.error)
    ensures r.Ok? ==> r.value.1 >= start
    ensures r.Ok? ==> ReadPartitionFields(Beyond(body, start)) == Ok((r.value.0, Beyond(body, r.value.1)))
  {
    var head := ParsePartitionStartV0(body, start);
    if head.Err? {
      return Err(head.error);
    }
    var (p, pos) := head.value;
    assert body[start + 10..] == Beyond(body, pos);
    var next := SkipReplicasV0(body, pos);
    if next.Err? {
      return Err(next.error);
    }
    r := Ok((p, next.value));
  }

  method LookUpLeader(p: PartitionStart, brokerMap: BrokerMap) returns (r: Result<Bytes>)
    requires HasAddresses(brokerMap)
    ensures r.Err? ==> LeaderOf(p, brokerMap) == Err(r.error)
    ensures r.Ok? ==> LeaderOf(p, brokerMap) == Ok(AsLeader(r.value))
  {
    if p.errorCode != 0 {
      return Ok([]);
    }
    if p.leaderId !in brokerMap {
      return Err(UnknownLeader);
    }
    return Ok(brokerMap[p.leaderId]);
  }

  /** A partition is its index, its leader's address ("" for a partition in error) and
      the position after it. */
  ghost predicate ParsesPartition(r: Result<(int32, Bytes, nat)>, body: Bytes, start: nat, brokerMap: BrokerMap) {
    var read := LeaderPartition(Beyond(body, start), brokerMap);
    match r
    case Err(e) => read == Err(e)
    case Ok((index, addr, next)) =>
      read.Ok? && read.value.0 == (index, AsLeader(addr)) && read.value.1 == Beyond(body, next) && next >= start
  }

  method ParsePartitionAt(body: Bytes, start: nat, brokerMap: BrokerMap) returns (r: Result<(int32, Bytes, nat)>)
    requires HasAddresses(brokerMap)
    ensures ParsesPartition(r, body, start, brokerMap)
  {
    var fields := ParsePartitionFieldsV0(body, start);
    if fields.Err? {
      return Err(fields.error);
    }
    var (p, pos) := fields.value;
    var addr := LookUpLeader(p, brokerMap);
    if addr.Err? {
      return Err(addr.error);
    }
    return Ok((p.index, addr.value, pos));
  }

  /** The number of bytes consumed, from the position reached. */
  method Consumed(parsed: (int32, Bytes, nat), start: nat) returns (r: (int32, Bytes, nat))
    requires parsed.2 >= start
    ensures parsed == (r.0, r.1, start + r.2)
  {
    r := (parsed.0, parsed.1, parsed.2 - start);
  }

  method ParsePartitionV0(body: Bytes, start: nat, brokerMap: BrokerMap) returns (r: Result<(int32, Bytes, nat)>)
    requires HasAddresses(brokerMap)
    ensures r.Err? ==> ParsesPartition(r, body, start, brokerMap)
    ensures r.Ok? ==> ParsesPartition(Ok((r.value.0, r.value.1, start + r.value.2)), body, start, brokerMap)
  {
    var parsed := ParsePartitionAt(body, start, brokerMap);
    if parsed.Err? {
      return parsed;
    }
    var consumed := Consumed(parsed.value, start);
    r := Ok(consumed);
  }

  // The loops below are stated over a step function `step`; the triggers keep them
  // from looking inside one step.

  ghost predicate StepsPartitions(step: (Bytes, PartitionMap) -> Result<(PartitionMap, Bytes)>, brokers: BrokerMap) {
    forall d, acc {:trigger PartitionStep(d, acc, brokers)} :: step(d, acc) == PartitionStep(d, acc, brokers)
  }

  method AddNextPartition(
      body: Bytes, start: nat, brokerMap: BrokerMap, partitions: PartitionMap,
      ghost step: (Bytes, PartitionMap) -> Result<(PartitionMap, Bytes)>)
    returns (r: Result<(PartitionMap, nat)>)
    requires HasAddresses(brokerMap) && StepsPartitions(step, brokerMap)
    ensures r.Err? ==> step(Beyond(body, start), partitions) == Err(r.error)
    ensures r.Ok? ==> step(Beyond(body, start), partitions) == Ok((r.value.0, Beyond(body, r.value.1)))
  {
    assert step(Beyond(body, start), partitions) == PartitionStep(Beyond(body, start), partitions, brokerMap);
    var one := ParsePartitionV0(body, start, brokerMap);
    if one.Err? {
      return Err(one.error);
    }
    var (partIdx, leaderAddr, adv) := one.value;
    if |leaderAddr| > 0 {
      r := Ok((partitions[partIdx := leaderAddr], start + adv));
    } else {
      r := Ok((partitions, start + adv));
    }
  }

  /** Reads the partitions of a topic without error. */
  method ParsePartitionsV0(
      body: Bytes, start: nat, partCount: nat, brokerMap: BrokerMap,
      ghost step: (Bytes, PartitionMap) -> Result<(PartitionMap, Bytes)>)
    returns (r: Result<(PartitionMap, nat)>)
    requires HasAddresses(brokerMap) && StepsPartitions(step, brokerMap)
    ensures r.Err? ==> FoldMany(Beyond(body, start), partCount, map[], step) == Err(r.error)
    ensures r.Ok? ==> FoldMany(Beyond(body, start), partCount, map[], step) == Ok((r.value.0, Beyond(body, r.value.1)))
  {
    var pos: nat := start;
    var partitions: PartitionMap := map[];
    for j := 0 to partCount
      invariant FoldMany(Beyond(body, start), partCount, map[], step)
             == FoldMany(Beyond(body, pos), partCount - j, partitions, step)
    {
      FoldManyStep(Beyond(body, pos), partCount - j, partitions, step);
      var next := AddNextPartition(body, pos, brokerMap, partitions, step);
      if next.Err? {
        return Err(next.error);
      }
      partitions, pos := next.value.0, next.value.1;
    }
    r := Ok((partitions, pos));
  }

  ghost predicate StepsOver(step: (Bytes, ()) -> Result<((), Bytes)>) {
    forall d {:trigger SkipStep(d)} :: step(d, ()) == SkipStep(d)
  }

  method SkipNextPartition(body: Bytes, start: nat, ghost step: (Bytes, ()) -> Result<((), Bytes)>)
    returns (r: Result<nat>)
    requires StepsOver(step)
    ensures r.Err? ==> step(Beyond(body, start), ()) == Err(r.error)
    ensures r.Ok? ==> step(Beyond(body, start), ()) == Ok(((), Beyond(body, r.value)))
  {
    assert step(Beyond(body, start), ()) == SkipStep(Beyond(body, start));
    var adv := SkipPartitionV0(body, start);
    if adv.Err? {
      return adv;
    }
    r := Ok(start + adv.value);
  }

  /** Skips the partitions of a topic in error. */
  method SkipPartitionsV0(body: Bytes, start: nat, partCount: nat, ghost step: (Bytes, ()) -> Result<((), Bytes)>)
    returns (r: Result<nat>)
    requires StepsOver(step)
    ensures r.Err? ==> FoldMany(Beyond(body, start), partCount, (), step) == Err(r.error)
    ensures r.Ok? ==> FoldMany(Beyond(body, start), partCount, (), step) == Ok(((), Beyond(body, r.value)))
  {
    var pos: nat := start;
    for j := 0 to partCount
      invariant FoldMany(Beyond(body, start), partCount, (), step)
             == FoldMany(Beyond(body, pos), partCount - j, (), step)
    {
      FoldManyStep(Beyond(body, pos), partCount - j, (), step);
      var next := SkipNextPartition(body, pos, step);
      if next.Err? {
        return next;
      }
      pos := next.value;
    }
    r := Ok(pos);
  }

  ghost predicate StepsBrokers(step: (Bytes, BrokerMap) -> Result<(BrokerMap, Bytes)>) {
    forall d, acc {:trigger BrokerStep(d, acc)} :: step(d, acc) == BrokerStep(d, acc)
  }

  method AddNextBroker(
      body: Bytes, start: nat, brokerMap: BrokerMap, ghost step: (Bytes, BrokerMap) -> Result<(BrokerMap, Bytes)>)
    returns (r: Result<(BrokerMap, nat)>)
    requires start <= |body| && HasAddresses(brokerMap) && StepsBrokers(step)
    ensures r.Err? ==> step(body[start..], brokerMap) == Err(r.error)
    ensures r.Ok? ==> r.value.1 <= |body| && HasAddresses(r.value.0)
    ensures r.Ok? ==> step(body[start..], brokerMap) == Ok((r.value.0, body[r.value.1..]))
  {
    ghost var d := body[start..];
    assert step(d, brokerMap) == BrokerStep(d, brokerMap);
    var pos: nat := start;
    if pos + 10 > |body| {
      return Err(TooShort);
    }
    var nodeId := Signed32(Get32(body[pos..]));
    pos := pos + 4;
    var hostLen := Get16(body[pos..]);
    pos := pos + 2;
    assert body[pos..] == d[4..][2..];
    if pos + hostLen > |body| {
      return Err(TooShort);
    }
    var host := body[pos..][..hostLen];
    DropDrop(body, pos, hostLen);
    pos := pos + hostLen;
    if pos + 4 > |body| {
      return Err(TooShort);
    }
    var port := Get32(body[pos..]);
    pos := pos + 4;
    r := Ok((brokerMap[nodeId := Address(host, port)], pos));
  }

  method ParseBrokersV0(
      body: Bytes, start: nat, brokerCount: nat, ghost step: (Bytes, BrokerMap) -> Result<(BrokerMap, Bytes)>)
    returns (r: Result<(BrokerMap, nat)>)
    requires start <= |body| && StepsBrokers(step)
    ensures r.Err? ==> FoldMany(body[start..], brokerCount, map[], step) == Err(r.error)
    ensures r.Ok? ==> r.value.1 <= |body| && HasAddresses(r.value.0)
    ensures r.Ok? ==> FoldMany(body[start..], brokerCount, map[], step) == Ok((r.value.0, body[r.value.1..]))
  {
    var pos: nat := start;
    var brokerMap: BrokerMap := map[];
    for i := 0 to brokerCount
      invariant pos <= |body| && HasAddresses(brokerMap)
      invariant FoldMany(body[start..], brokerCount, map[], step)
             == FoldMany(body[pos..], brokerCount - i, brokerMap, step)
    {
      FoldManyStep(body[pos..], brokerCount - i, brokerMap, step);
      var next := AddNextBroker(body, pos, brokerMap, step);
      if next.Err? {
        return Err(next.error);
      }
      brokerMap, pos := next.value.0, next.value.1;
    }
    r := Ok((brokerMap, pos));
  }

  method ParseTopicStartV0(body: Bytes, start: nat) returns (r: Result<(TopicStart, nat)>)
    ensures r.Err? ==> ReadTopicStart(Beyond(body, start)) == Err(r.error)
    ensures r.Ok? ==> ReadTopicStart(Beyond(body, start)) == Ok((r.value.0, Beyond(body, r.value.1)))
  {
    var pos: nat := start;
    if pos + 2 > |body| {
      return Err(TooShort);
    }
    var topicErr := Signed16(Get16(body[pos..]));
    pos := pos + 2;
    if pos + 2 > |body| {
      return Err(TooShort);
    }
    var nameLen := Get16(body[pos..]);
    pos := pos + 2;
    if pos + nameLen > |body| {
      return Err(TooShort);
    }
    var topicName := body[pos..][..nameLen];
    DropDrop(body, pos, nameLen);
    pos := pos + nameLen;
    if pos + 4 > |body| {
      return Err(TooShort);
    }
    var partCount := Get32(body[pos..]);
    pos := pos + 4;
    r := Ok((TopicStart(topicErr, topicName, partCount), pos));
  }

  ghost predicate StepsTopics(step: (Bytes, LeaderMap) -> Result<(LeaderMap, Bytes)>, brokers: BrokerMap) {
    forall d, acc {:trigger TopicStep(d, acc, brokers)} :: step(d, acc) == TopicStep(d, acc, brokers)
  }

  method AddNextTopic(
      body: Bytes, start: nat, brokerMap: BrokerMap, leaders: LeaderMap,
      ghost step: (Bytes, LeaderMap) -> Result<(LeaderMap, Bytes)>)
    returns (r: Result<(LeaderMap, nat)>)
    requires HasAddresses(brokerMap) && StepsTopics(step, brokerMap)
    ensures r.Err? ==> step(Beyond(body, start), leaders) == Err(r.error)
    ensures r.Ok? ==> step(Beyond(body, start), leaders) == Ok((r.value.0, Beyond(body, r.value.1)))
  {
    assert step(Beyond(body, start), leaders) == TopicStep(Beyond(body, start), leaders, brokerMap);
    var head := ParseTopicStartV0(body, start);
    if head.Err? {
      return Err(head.error);
    }
    var (t, pos) := head.value;
    if t.errorCode != 0 {
      var next := SkipPartitionsV0(body, pos, t.partitionCount, SkipStepper);
      if next.Err? {
        return Err(next.error);
      }
      r := Ok((leaders, next.value));
    } else {
      var partitions := ParsePartitionsV0(body, pos, t.partitionCount, brokerMap, PartitionStepper(brokerMap));
      if partitions.Err? {
        return Err(partitions.error);
      }
      r := Ok((leaders[t.name := partitions.value.0], partitions.value.1));
    }
  }

  method ParseTopicsV0(
      body: Bytes, start: nat, topicCount: nat, brokerMap: BrokerMap,
      ghost step: (Bytes, LeaderMap) -> Result<(LeaderMap, Bytes)>)
    returns (r: Result<LeaderMap>)
    requires HasAddresses(brokerMap) && StepsTopics(step, brokerMap)
    ensures match FoldMany(Beyond(body, start), topicCount, map[], step)
            case Err(e) => r == Err(e)
            case Ok((leaders, _)) => r == Ok(leaders)
  {
    var pos: nat := start;
    var leaders: LeaderMap := map[];
    for i := 0 to topicCount
      invariant FoldMany(Beyond(body, start), topicCount, map[], step)
             == FoldMany(Beyond(body, pos), topicCount - i, leaders, step)
    {
      FoldManyStep(Beyond(body, pos), topicCount - i, leaders, step);
      var next := AddNextTopic(body, pos, brokerMap, leaders, step);
      if next.Err? {
        return Err(next.error);
      }
      leaders, pos := next.value.0, next.value.1;
    }
    r := Ok(leaders);
  }

  method ParseMetadataResponseV0(body: Bytes) returns (r: Result<LeaderMap>)
    ensures r == ParseLeaders(body)
  {
    if |body| < 4 {
      return Err(TooShort);
    }
    var pos: nat := 4;
    if pos + 4 > |body| {
      return Err(TooShort);
    }
    var brokerCount := Get32(body[pos..]);
    pos := pos + 4;
    var brokers := ParseBrokersV0(body, pos, brokerCount, BrokerStepper);
    if brokers.Err? {
      return Err(brokers.error);
    }
    pos := brokers.value.1;
    if pos + 4 > |body| {
      return Err(TooShort);
    }
    var topicCount := Get32(body[pos..]);
    pos := pos + 4;
    r := ParseTopicsV0(body, pos, topicCount, brokers.value.0, TopicStepper(brokers.value.0));
  }
}

/** What the leader map means, and how the independent version 0 leader parser
    agrees with the metadata rewriter and the synthesiser on the same bytes. */
module LeaderLaws {
  import opened Wire
  import opened WireArrays
  import opened MetadataGrammar
  import opened TopicGrammar
  import opened LeaderGrammar
  import opened LastWins
  import opened Addresses

  // ------------------------------------------- the meaning of a v0 response

  function Unsigned32(n: int32): nat {
    n % 0x1_0000_0000
  }

  const BrokerEntry: Broker -> Option<(int32, Bytes)> :=
    (b: Broker) => Some((b.nodeId, Address(b.host, Unsigned32(b.port))))

  function BrokersByNode(bs: seq<Broker>): BrokerMap {
    Fill(bs, map[], BrokerEntry)
  }

  /** A partition without error whose leader nobody announced. */
  predicate Leaderless(p: Partition, brokers: BrokerMap) {
    p.header.errorCode == 0 && p.header.leaderId !in brokers
  }

  function PartitionEntry(brokers: BrokerMap): Partition -> Option<(int32, Bytes)> {
    (p: Partition) =>
      if p.header.errorCode == 0 && p.header.leaderId in brokers
      then Some((p.header.index, brokers[p.header.leaderId]))
      else None
  }

  function IsLeaderless(brokers: BrokerMap): Partition -> bool {
    (p: Partition) => Leaderless(p, brokers)
  }

  ghost predicate BadTopic(t: Topic, brokers: BrokerMap) {
    t.header.errorCode == 0 && AnyBad(t.partitions, IsLeaderless(brokers))
  }

  ghost function IsBadTopic(brokers: BrokerMap): Topic -> bool {
    (t: Topic) => BadTopic(t, brokers)
  }

  function PartitionLeaders(t: Topic, brokers: BrokerMap): PartitionMap {
    Fill(t.partitions, map[], PartitionEntry(brokers))
  }

  function TopicLeaderEntry(brokers: BrokerMap): Topic -> Option<(Bytes, PartitionMap)> {
    (t: Topic) => if t.header.errorCode == 0 then Some((t.header.name, PartitionLeaders(t, brokers))) else None
  }

  /** The leaders a response announces: an error when an error-free partition of an
      error-free topic names an unknown broker; otherwise topics and partitions in
      error contribute nothing and the last of several with one name or index
      counts. */
  ghost function Leaders(bs: seq<Broker>, ts: seq<Topic>): Result<LeaderMap> {
    var brokers := BrokersByNode(bs);
    if AnyBad(ts, IsBadTopic(brokers)) then Err(UnknownLeader)
    else Ok(Fill(ts, map[], TopicLeaderEntry(brokers)))
  }

  // ------------------------------------------------ what the parser can read

  /** The parser takes lengths as unsigned 16-bit and counts as unsigned 32-bit. */
  predicate ReadableBroker(b: Broker) {
    |b.host| < 0x1_0000
  }

  predicate ReadablePartition(p: Partition) {
    |p.replicas| < 0x1_0000_0000 && |p.isr| < 0x1_0000_0000
  }

  const IsReadableBroker: Broker -> bool := (b: Broker) => ReadableBroker(b)
  const IsReadablePartition: Partition -> bool := (p: Partition) => ReadablePartition(p)

  ghost predicate ReadableTopic(t: Topic) {
    && |t.header.name| < 0x1_0000 && |t.partitions| < 0x1_0000_0000
    && AllValid(t.partitions, IsReadablePartition)
  }

  ghost const IsReadableTopic: Topic -> bool := (t: Topic) => ReadableTopic(t)

  lemma BrokerStepOfPrinted(b: Broker, rest: Bytes, acc: BrokerMap)
    requires ReadableBroker(b)
    ensures BrokerStep(EncodeBroker(b, 0) + rest, acc) == Ok((Add(acc, BrokerEntry(b)), rest))
  {
    var d3 := Put32(b.port) + rest;
    var d2 := b.host + d3;
    var d1 := Put16(|b.host|) + d2;
    assert Put32(b.port) + EncodeRack(b.rack, 0) == Put32(b.port);
    AppendAssoc4(Put32(b.nodeId), Put16(|b.host|), b.host, Put32(b.port), rest);
    Read32Inverts(b.nodeId, d1);
    ReadU16Inverts(|b.host|, d2);
    TakeInverts(b.host, d3);
    Get32OfPut32(b.port, rest);
    assert d3[4..] == rest;
  }

  /** A list is skipped with the check that its values are there, or, in a topic in
      error, without. */
  lemma SkipsOnBytes(count: nat, rest: Bytes)
    requires count < 0x1_0000_0000
    ensures SkipInts(Put32(count) + rest) == if |rest| < 4 * count then Err(TooShort) else Ok(rest[4 * count..])
    ensures SkipIntsBlindly(Put32(count) + rest) == Ok(if |rest| < 4 * count then [] else rest[4 * count..])
  {
    ReadU32Inverts(count, rest);
  }

  lemma SkipIntsOfPrinted(xs: seq<int32>, rest: Bytes)
    requires |xs| < 0x1_0000_0000
    ensures SkipInts(EncodeIntArray(xs) + rest) == Ok(rest)
    ensures SkipIntsBlindly(EncodeIntArray(xs) + rest) == Ok(rest)
  {
    var values := PrintMany(xs, IntPrinter);
    AppendAssoc(Put32(|xs|), values, rest);
    ReadU32Inverts(|xs|, values + rest);
    IntsTakeSpace(xs);
    TakeInverts(values, rest);
  }

  lemma PrintedPartitionSplits(p: Partition, rest: Bytes)
    ensures EncodePartition(p, 0) + rest
         == EncodePartitionHeader(p.header, 0) + (EncodeIntArray(p.replicas) + (EncodeIntArray(p.isr) + rest))
    ensures EncodePartitionHeader(p.header, 0)
         == Put16(p.header.errorCode) + (Put32(p.header.index) + Put32(p.header.leaderId))
  {
    var header, replicas, isr := EncodePartitionHeader(p.header, 0), EncodeIntArray(p.replicas), EncodeIntArray(p.isr);
    assert isr + [] == isr;
    AppendAssoc3(header, replicas, isr, rest);
    assert Put32(p.header.leaderId) + [] == Put32(p.header.leaderId);
  }

  lemma PartitionStartOfPrinted(h: PartitionHeader, rest: Bytes)
    ensures ReadPartitionStart(Put16(h.errorCode) + (Put32(h.index) + Put32(h.leaderId)) + rest)
         == Ok((PartitionStart(h.errorCode, h.index, h.leaderId), rest))
  {
    var d2 := Put32(h.leaderId) + rest;
    var d1 := Put32(h.index) + d2;
    AppendAssoc3(Put16(h.errorCode), Put32(h.index), Put32(h.leaderId), rest);
    Read16Inverts(h.errorCode, d1);
    Read32Inverts(h.index, d2);
    Read32Inverts(h.leaderId, rest);
  }

  lemma PartitionStepOfPrinted(p: Partition, rest: Bytes, acc: PartitionMap, brokers: BrokerMap)
    requires ReadablePartition(p)
    ensures PartitionStep(EncodePartition(p, 0) + rest, acc, brokers)
         == if Leaderless(p, brokers) then Err(UnknownLeader) else Ok((Add(acc, PartitionEntry(brokers)(p)), rest))
  {
    var d2 := EncodeIntArray(p.isr) + rest;
    var d1 := EncodeIntArray(p.replicas) + d2;
    PrintedPartitionSplits(p, rest);
    PartitionStartOfPrinted(p.header, d1);
    SkipIntsOfPrinted(p.replicas, d2);
    SkipIntsOfPrinted(p.isr, rest);
  }

  lemma SkipPartitionOfPrinted(p: Partition, rest: Bytes)
    requires ReadablePartition(p)
    ensures SkipPartition(EncodePartition(p, 0) + rest) == Ok(rest)
  {
    var d2 := EncodeIntArray(p.isr) + rest;
    var d1 := EncodeIntArray(p.replicas) + d2;
    PrintedPartitionSplits(p, rest);
    TakeInverts(EncodePartitionHeader(p.header, 0), d1);
    SkipIntsOfPrinted(p.replicas, d2);
    SkipIntsOfPrinted(p.isr, rest);
  }

  lemma {:induction false} SkipPartitionsOfPrinted(ps: seq<Partition>, rest: Bytes)
    requires AllValid(ps, IsReadablePartition)
    ensures FoldMany(PrintMany(ps, PartitionPrinter(0)) + rest, |ps|, (), SkipStepper) == Ok(((), rest))
  {
    if ps == [] {
      assert [] + rest == rest;
    } else {
      var tail := PrintMany(ps[1..], PartitionPrinter(0)) + rest;
      AppendAssoc(PartitionPrinter(0)(ps[0]), PrintMany(ps[1..], PartitionPrinter(0)), rest);
      assert IsReadablePartition(ps[0]);
      SkipPartitionOfPrinted(ps[0], tail);
      assert SkipStepper(EncodePartition(ps[0], 0) + tail, ()) == Ok(((), tail));
      FoldManyStep(EncodePartition(ps[0], 0) + tail, |ps|, (), SkipStepper);
      SkipPartitionsOfPrinted(ps[1..], rest);
    }
  }

  lemma PartitionsOfPrinted(ps: seq<Partition>, rest: Bytes, brokers: BrokerMap)
    requires AllValid(ps, IsReadablePartition)
    ensures FoldMany(PrintMany(ps, PartitionPrinter(0)) + rest, |ps|, map[], PartitionStepper(brokers))
         == if AnyBad(ps, IsLeaderless(brokers)) then Err(UnknownLeader)
            else Ok((Fill(ps, map[], PartitionEntry(brokers)), rest))
  {
    forall p, rest', acc | IsReadablePartition(p)
      ensures PartitionStepper(brokers)(PartitionPrinter(0)(p) + rest', acc)
           == if IsLeaderless(brokers)(p) then Err(UnknownLeader) else Ok((Add(acc, PartitionEntry(brokers)(p)), rest'))
    {
      PartitionStepOfPrinted(p, rest', acc, brokers);
    }
    FillPrinted(ps, rest, map[], PartitionStepper(brokers), PartitionPrinter(0), IsReadablePartition,
                IsLeaderless(brokers), PartitionEntry(brokers));
  }

  lemma TopicStartOfPrinted(t: Topic, rest: Bytes)
    requires ReadableTopic(t)
    ensures ReadTopicStart(EncodeTopic(t, 0) + rest)
         == Ok((TopicStart(t.header.errorCode, t.header.name, |t.partitions|),
                PrintMany(t.partitions, PartitionPrinter(0)) + rest))
  {
    var partitions := PrintMany(t.partitions, PartitionPrinter(0));
    var d3 := Put32(|t.partitions|) + (partitions + rest);
    var d2 := t.header.name + d3;
    var d1 := Put16(|t.header.name|) + d2;
    assert partitions + [] == partitions && t.header.name + [] == t.header.name;
    AppendAssoc3(EncodeTopicHeader(t.header, 0), Put32(|t.partitions|), partitions, rest);
    AppendAssoc3(Put16(t.header.errorCode), Put16(|t.header.name|), t.header.name, d3);
    Read16Inverts(t.header.errorCode, d1);
    ReadU16Inverts(|t.header.name|, d2);
    TakeInverts(t.header.name, d3);
    ReadU32Inverts(|t.partitions|, partitions + rest);
  }

  lemma TopicStepOfPrinted(t: Topic, rest: Bytes, acc: LeaderMap, brokers: BrokerMap)
    requires ReadableTopic(t)
    ensures TopicStep(EncodeTopic(t, 0) + rest, acc, brokers)
         == if BadTopic(t, brokers) then Err(UnknownLeader) else Ok((Add(acc, TopicLeaderEntry(brokers)(t)), rest))
  {
    TopicStartOfPrinted(t, rest);
    if t.header.errorCode != 0 {
      SkipPartitionsOfPrinted(t.partitions, rest);
    } else {
      PartitionsOfPrinted(t.partitions, rest, brokers);
    }
  }

  lemma TopicArrayOfPrinted(ts: seq<Topic>, rest: Bytes, brokers: BrokerMap)
    requires AllValid(ts, IsReadableTopic) && |ts| < 0x1_0000_0000
    ensures LeaderTopicArray(TopicArray(ts, 0) + rest, brokers)
         == if AnyBad(ts, IsBadTopic(brokers)) then Err(UnknownLeader)
            else Ok(Fill(ts, map[], TopicLeaderEntry(brokers)))
  {
    forall t, rest', acc | IsReadableTopic(t)
      ensures TopicStepper(brokers)(TopicPrinter(0)(t) + rest', acc)
           == if IsBadTopic(brokers)(t) then Err(UnknownLeader) else Ok((Add(acc, TopicLeaderEntry(brokers)(t)), rest'))
    {
      TopicStepOfPrinted(t, rest', acc, brokers);
    }
    var entries := PrintMany(ts, TopicPrinter(0));
    AppendAssoc(Put32(|ts|), entries, rest);
    ReadU32Inverts(|ts|, entries + rest);
    FillPrinted(ts, rest, map[], TopicStepper(brokers), TopicPrinter(0), IsReadableTopic,
                IsBadTopic(brokers), TopicLeaderEntry(brokers));
  }

  /** A body in the shape the source's encoder gives it: correlation id and broker
      array, then whatever `after` is. */
  function BodyV0(correlationId: int32, bs: seq<Broker>, after: Bytes): Bytes {
    Put32(correlationId) + (BrokerArray(bs, 0) + after)
  }

  lemma BrokersOfPrinted(correlationId: int32, bs: seq<Broker>, after: Bytes)
    requires AllValid(bs, IsReadableBroker) && |bs| < 0x1_0000_0000
    ensures ParseLeaders(BodyV0(correlationId, bs, after)) == LeaderTopicArray(after, BrokersByNode(bs))
  {
    var never := (_: Broker) => false;
    forall b, rest, acc | IsReadableBroker(b)
      ensures BrokerStepper(BrokerPrinter(0)(b) + rest, acc)
           == if never(b) then Err(UnknownLeader) else Ok((Add(acc, BrokerEntry(b)), rest))
    {
      BrokerStepOfPrinted(b, rest, acc);
    }
    var entries := PrintMany(bs, BrokerPrinter(0));
    Read32Inverts(correlationId, BrokerArray(bs, 0) + after);
    AppendAssoc(Put32(|bs|), entries, after);
    ReadU32Inverts(|bs|, entries + after);
    FillPrinted(bs, after, map[], BrokerStepper, BrokerPrinter(0), IsReadableBroker, never, BrokerEntry);
  }

  // ------------------------------------------------------------- main results

  /** The leader parser inverts the version 0 printer, for any replica and ISR lists
      and any errors: it returns exactly the leaders the response announces, and
      fails exactly when an announced leader is unknown. */
  lemma LeaderParserInvertsPrinter(correlationId: int32, bs: seq<Broker>, ts: seq<Topic>, trailing: Bytes)
    requires AllValid(bs, IsReadableBroker) && |bs| < 0x1_0000_0000
    requires AllValid(ts, IsReadableTopic) && |ts| < 0x1_0000_0000
    ensures ParseLeaders(BodyV0(correlationId, bs, TopicArray(ts, 0) + trailing)) == Leaders(bs, ts)
  {
    BrokersOfPrinted(correlationId, bs, TopicArray(ts, 0) + trailing);
    TopicArrayOfPrinted(ts, trailing, BrokersByNode(bs));
  }

  /** The leader of partition `index` of topic `name` is the address of the last broker
      entry with the node id named by the last error-free entry of that partition
      in the last error-free entry of that topic. */
  lemma LeadersMeaning(bs: seq<Broker>, ts: seq<Topic>, name: Bytes, index: int32, i: int, j: int, k: int)
    requires Leaders(bs, ts).Ok?
    requires var brokers := BrokersByNode(bs);
             && IsLast(ts, TopicLeaderEntry(brokers), name, i)
             && IsLast(ts[i].partitions, PartitionEntry(brokers), index, j)
             && IsLast(bs, BrokerEntry, ts[i].partitions[j].header.leaderId, k)
    ensures && ts[i].header.name == name && ts[i].header.errorCode == 0
            && ts[i].partitions[j].header.index == index && ts[i].partitions[j].header.errorCode == 0
            && bs[k].nodeId == ts[i].partitions[j].header.leaderId
    ensures var m := Leaders(bs, ts).value;
            name in m && index in m[name] && IsAddress(m[name][index], bs[k].host, bs[k].port % 0x1_0000_0000)
  {
    AddressReads(Address(bs[k].host, Unsigned32(bs[k].port)), bs[k].host, Unsigned32(bs[k].port));
    var brokers := BrokersByNode(bs);
    FillValue(ts, map[], TopicLeaderEntry(brokers), name, i);
    FillValue(ts[i].partitions, map[], PartitionEntry(brokers), index, j);
    FillValue(bs, map[], BrokerEntry, ts[i].partitions[j].header.leaderId, k);
  }

  /** Exactly the error-free topics are listed. */
  lemma LeadersListTopics(bs: seq<Broker>, ts: seq<Topic>, name: Bytes)
    requires Leaders(bs, ts).Ok?
    ensures name in Leaders(bs, ts).value
       <==> exists t :: t in ts && t.header.errorCode == 0 && t.header.name == name
  {
    var entry := TopicLeaderEntry(BrokersByNode(bs));
    FillKeys(ts, map[], entry, name);
    if Mentions(ts, entry, name) {
      var i :| 0 <= i < |ts| && HasKey(ts[i], entry, name);
      assert ts[i] in ts;
    }
    if t :| t in ts && t.header.errorCode == 0 && t.header.name == name {
      var i :| 0 <= i < |ts| && ts[i] == t;
      assert HasKey(ts[i], entry, name);
    }
  }

  /** And of the last error-free entry of a topic exactly the error-free partitions. */
  lemma LeadersListPartitions(bs: seq<Broker>, ts: seq<Topic>, name: Bytes, index: int32, i: int)
    requires Leaders(bs, ts).Ok? && IsLast(ts, TopicLeaderEntry(BrokersByNode(bs)), name, i)
    ensures var m := Leaders(bs, ts).value;
            name in m
            && (index in m[name]
                <==> exists p :: p in ts[i].partitions && p.header.errorCode == 0 && p.header.index == index)
  {
    var brokers := BrokersByNode(bs);
    var entry, ps := PartitionEntry(brokers), ts[i].partitions;
    FillValue(ts, map[], TopicLeaderEntry(brokers), name, i);
    FillKeys(ps, map[], entry, index);
    assert !IsBadTopic(brokers)(ts[i]);
    if Mentions(ps, entry, index) {
      var j :| 0 <= j < |ps| && HasKey(ps[j], entry, index);
      assert ps[j] in ps;
    }
    if p :| p in ps && p.header.errorCode == 0 && p.header.index == index {
      var j :| 0 <= j < |ps| && ps[j] == p;
      assert !IsLeaderless(brokers)(ps[j]);
      assert HasKey(ps[j], entry, index);
    }
  }

  // -------------------------------------- the leader map of a rewritten frame

  /** `b` has the topics and partitions of `a`, every leader being at `addr`. */
  ghost predicate Redirected(a: LeaderMap, b: LeaderMap, addr: Bytes) {
    && a.Keys == b.Keys
    && forall t :: t in a ==> RedirectedTopic(a[t], b[t], addr)
  }

  ghost predicate RedirectedTopic(a: PartitionMap, b: PartitionMap, addr: Bytes) {
    && a.Keys == b.Keys
    && forall p :: p in b ==> b[p] == addr
  }

  ghost predicate SameOutcome<A>(a: Result<(A, Bytes)>, b: Result<(A, Bytes)>, related: (A, A) -> bool) {
    match (a, b)
    case (Err(e), Err(f)) => e == f
    case (Ok((x, d)), Ok((y, f))) => related(x, y) && d == f
    case _ => false
  }

  /** Two folds over the same bytes stay related when their steps do. */
  lemma {:induction false} FoldsStayRelated<A(!new)>(
      d: Bytes, count: nat, x: A, y: A,
      stepX: (Bytes, A) -> Result<(A, Bytes)>, stepY: (Bytes, A) -> Result<(A, Bytes)>, related: (A, A) -> bool)
    requires forall d, x, y :: related(x, y) ==> SameOutcome(stepX(d, x), stepY(d, y), related)
    requires related(x, y)
    ensures SameOutcome(FoldMany(d, count, x, stepX), FoldMany(d, count, y, stepY), related)
    decreases count
  {
    if count > 0 {
      assert SameOutcome(stepX(d, x), stepY(d, y), related);
      if stepX(d, x).Ok? {
        var x1, y1 := stepX(d, x).value, stepY(d, y).value;
        FoldsStayRelated(x1.1, count - 1, x1.0, y1.0, stepX, stepY, related);
      }
    }
  }

  ghost predicate SameNodes(m1: BrokerMap, m2: BrokerMap, addr: Bytes) {
    m1.Keys == m2.Keys && forall k :: k in m2 ==> m2[k] == addr
  }

  lemma PartitionFoldsRedirect(d: Bytes, count: nat, m1: BrokerMap, m2: BrokerMap, addr: Bytes)
    requires SameNodes(m1, m2, addr)
    ensures SameOutcome(FoldMany(d, count, map[], PartitionStepper(m1)),
                        FoldMany(d, count, map[], PartitionStepper(m2)), (a, b) => RedirectedTopic(a, b, addr))
  {
    var related := (a: PartitionMap, b: PartitionMap) => RedirectedTopic(a, b, addr);
    forall d', x, y | related(x, y)
      ensures SameOutcome(PartitionStepper(m1)(d', x), PartitionStepper(m2)(d', y), related)
    {
    }
    FoldsStayRelated(d, count, map[], map[], PartitionStepper(m1), PartitionStepper(m2), related);
  }

  lemma TopicStepsRedirect(d: Bytes, x: LeaderMap, y: LeaderMap, m1: BrokerMap, m2: BrokerMap, addr: Bytes)
    requires SameNodes(m1, m2, addr) && Redirected(x, y, addr)
    ensures SameOutcome(TopicStep(d, x, m1), TopicStep(d, y, m2), (a, b) => Redirected(a, b, addr))
  {
    var start := ReadTopicStart(d);
    if start.Ok? && start.value.0.errorCode == 0 {
      PartitionFoldsRedirect(start.value.1, start.value.0.partitionCount, m1, m2, addr);
    }
  }

  lemma TopicArraysRedirect(d: Bytes, m1: BrokerMap, m2: BrokerMap, addr: Bytes)
    requires SameNodes(m1, m2, addr)
    ensures match (LeaderTopicArray(d, m1), LeaderTopicArray(d, m2))
            case (Err(e), Err(f)) => e == f
            case (Ok(x), Ok(y)) => Redirected(x, y, addr)
            case _ => false
  {
    var related := (a: LeaderMap, b: LeaderMap) => Redirected(a, b, addr);
    forall d', x, y | related(x, y)
      ensures SameOutcome(TopicStepper(m1)(d', x), TopicStepper(m2)(d', y), related)
    {
      TopicStepsRedirect(d', x, y, m1, m2, addr);
    }
    if |d| >= 4 {
      FoldsStayRelated(d[4..], Get32(d), map[], map[], TopicStepper(m1), TopicStepper(m2), related);
    }
  }

  lemma {:induction false} ReaddressedNodes(bs: seq<Broker>, m1: BrokerMap, m2: BrokerMap, host: Bytes, port: int32)
    requires SameNodes(m1, m2, Address(host, Unsigned32(port)))
    ensures SameNodes(Fill(bs, m1, BrokerEntry), Fill(Readdress(bs, host, port), m2, BrokerEntry),
                      Address(host, Unsigned32(port)))
  {
    if bs != [] {
      var readdressed := Readdress(bs, host, port);
      assert readdressed[1..] == Readdress(bs[1..], host, port);
      ReaddressedNodes(bs[1..], Add(m1, BrokerEntry(bs[0])), Add(m2, BrokerEntry(readdressed[0])), host, port);
    }
  }

  /** The body the leader cache is given: the frame without its size prefix, cut to
      the declared size (nothing when the declared size is not there). */
  function FrameBody(raw: Bytes): Bytes {
    if |raw| < 4 || DeclaredLen(raw) < 4 || |raw| < DeclaredLen(raw) then []
    else raw[4..DeclaredLen(raw)]
  }

  lemma FrameBodyOf(raw: Bytes, resp: MetadataResponse)
    requires DecodeFrame(raw, 0) == Ok(resp)
    ensures FrameBody(raw) == BodyV0(resp.correlationId, resp.brokers, resp.bodyAfterBrokers)
    ensures AllValid(resp.brokers, IsReadableBroker) && |resp.brokers| < 0x1_0000_0000
  {
    FrameSplits(raw, resp, 0);
    BrokersTakeSpace(resp.brokers, 0);
    var body := PrintBody(resp.bodyBeforeBrokers, resp.brokers, resp.bodyAfterBrokers, 0);
    assert body == BrokerArray(resp.brokers, 0) + resp.bodyAfterBrokers;
    assert FrameBody(raw) == Put32(resp.correlationId) + body;
    forall i | 0 <= i < |resp.brokers|
      ensures IsReadableBroker(resp.brokers[i])
    {
      assert ValidBroker(resp.brokers[i], 0);
    }
  }

  /** The two independent parsers agree about rewriting: the leader cache accepts a
      rewritten version 0 frame exactly when it accepts the original, failing the
      same way otherwise; and the leader map of the rewritten frame has the same
      topics and partitions, all led from the proxy's address. */
  lemma RewritingRedirectsLeaders(raw: Bytes, host: Bytes, port: int32, out: Bytes)
    requires Rewrite(raw, host, port, 0) == Ok(out)
    ensures match (ParseLeaders(FrameBody(raw)), ParseLeaders(FrameBody(out)))
            case (Err(e), Err(f)) => e == f
            case (Ok(m), Ok(m')) => Redirected(m, m', Address(host, Unsigned32(port)))
            case _ => false
  {
    var resp := DecodeFrame(raw, 0).value;
    var resp' := ReaddressResponse(resp, host, port);
    RewritePreservesMeaning(raw, host, port, 0);
    FrameBodyOf(raw, resp);
    FrameBodyOf(out, resp');
    BrokersOfPrinted(resp.correlationId, resp.brokers, resp.bodyAfterBrokers);
    BrokersOfPrinted(resp'.correlationId, resp'.brokers, resp'.bodyAfterBrokers);
    ReaddressedNodes(resp.brokers, map[], map[], host, port);
    TopicArraysRedirect(resp.bodyAfterBrokers, BrokersByNode(resp.brokers), BrokersByNode(resp'.brokers),
                        Address(host, Unsigned32(port)));
  }
}

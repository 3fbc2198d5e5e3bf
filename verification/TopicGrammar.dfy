/** The topic array of a Metadata response, and the fields between the broker
    array and it, as internal/routing/synthetic_metadata.go skips over them.

    The source only measures a topic entry and keeps its raw bytes.  Here every
    field it steps over is given a name, so that "the entry that was skipped" is
    the printed form of a `Topic`; the entries then tile the topic array and can
    be moved to another response without changing how they read. */
module TopicGrammar {
  import opened Wire
  import opened WireArrays

  const MAX_ARRAY_LEN := 0x7FFF_FFFF

  datatype PartitionHeader = PartitionHeader(
    errorCode: int16,
    index: int32,
    leaderId: int32,
    leaderEpoch: int32)

  datatype Partition = Partition(
    header: PartitionHeader,
    replicas: seq<int32>,
    isr: seq<int32>,
    offline: seq<int32>)

  datatype TopicHeader = TopicHeader(
    errorCode: int16,
    name: Bytes,
    isInternal: byte)

  /** Fields a version does not carry hold 0 or []. */
  datatype Topic = Topic(
    header: TopicHeader,
    partitions: seq<Partition>,
    authorizedOps: int32)

  datatype TopicSection = TopicSection(interBroker: Bytes, topics: seq<Topic>)

  // ---------------------------------------------------------------- reading

  function ReadOptI32(d: Bytes, present: bool): Result<(int32, Bytes)> {
    if present then ReadI32(d) else Ok((0, d))
  }

  function ReadOptByte(d: Bytes, present: bool): Result<(byte, Bytes)> {
    if !present then Ok((0, d))
    else if |d| < 1 then Err(TooShort)
    else Ok((d[0], d[1..]))
  }

  const IntReader: Bytes -> Result<(int32, Bytes)> := d => ReadI32(d)

  function DecodeIntArray(d: Bytes): Result<(seq<int32>, Bytes)> {
    var (count, d1) :- ReadI32(d);
    if count < 0 then Err(InvalidLength) else ReadMany(d1, count, IntReader)
  }

  function DecodeOptIntArray(d: Bytes, present: bool): Result<(seq<int32>, Bytes)> {
    if present then DecodeIntArray(d) else Ok(([], d))
  }

  function DecodePartitionHeader(d: Bytes, version: int16): Result<(PartitionHeader, Bytes)> {
    var (errorCode, d1) :- ReadI16(d);
    var (index, d2) :- ReadI32(d1);
    var (leaderId, d3) :- ReadI32(d2);
    var (leaderEpoch, d4) :- ReadOptI32(d3, version >= 7);
    Ok((PartitionHeader(errorCode, index, leaderId, leaderEpoch), d4))
  }

  function DecodePartition(d: Bytes, version: int16): Result<(Partition, Bytes)> {
    var (header, d1) :- DecodePartitionHeader(d, version);
    var (replicas, d2) :- DecodeIntArray(d1);
    var (isr, d3) :- DecodeIntArray(d2);
    var (offline, d4) :- DecodeOptIntArray(d3, version >= 5);
    Ok((Partition(header, replicas, isr, offline), d4))
  }

  function PartitionReader(version: int16): Bytes -> Result<(Partition, Bytes)> {
    d => DecodePartition(d, version)
  }

  function DecodeTopicHeader(d: Bytes, version: int16): Result<(TopicHeader, Bytes)> {
    var (errorCode, d1) :- ReadI16(d);
    var (nameLen, d2) :- ReadI16(d1);
    if nameLen < 0 then Err(InvalidLength) else
    var (name, d3) :- Take(d2, nameLen);
    var (isInternal, d4) :- ReadOptByte(d3, version >= 1);
    Ok((TopicHeader(errorCode, name, isInternal), d4))
  }

  function DecodeTopic(d: Bytes, version: int16): Result<(Topic, Bytes)> {
    var (header, d1) :- DecodeTopicHeader(d, version);
    var (count, d2) :- ReadI32(d1);
    if count < 0 then Err(InvalidLength) else
    var (partitions, d3) :- ReadMany(d2, count, PartitionReader(version));
    var (authorizedOps, d4) :- ReadOptI32(d3, version >= 8);
    Ok((Topic(header, partitions, authorizedOps), d4))
  }

  function TopicReader(version: int16): Bytes -> Result<(Topic, Bytes)> {
    d => DecodeTopic(d, version)
  }

  /** ClusterId (version 2+), ControllerId (version 1+) and
      ClusterAuthorizedOperations (read before the topic array from version 8). */
  function SkipInterBroker(d: Bytes, version: int16): Result<(Bytes, Bytes)> {
    var (clusterId, d1) :- SkipClusterId(d, version);
    var (controller, d2) :- Take(d1, if version >= 1 then 4 else 0);
    var (ops, rest) :- Take(d2, if version >= 8 then 4 else 0);
    Ok((clusterId + (controller + ops), rest))
  }

  /** Any negative length means a null cluster id. */
  function SkipClusterId(d: Bytes, version: int16): Result<(Bytes, Bytes)> {
    if version < 2 then Ok(([], d)) else
    var (len, d1) :- ReadI16(d);
    if len < 0 then Take(d, 2) else
    var _ :- Take(d1, len);
    Take(d, 2 + len)
  }

  function DecodeTopicSection(d: Bytes, version: int16): Result<(TopicSection, Bytes)> {
    var (interBroker, d1) :- SkipInterBroker(d, version);
    var (count, d2) :- ReadI32(d1);
    if count < 0 then Err(InvalidLength) else
    var (topics, rest) :- ReadMany(d2, count, TopicReader(version));
    Ok((TopicSection(interBroker, topics), rest))
  }

  // --------------------------------------------------------------- printing

  function PutOpt32(n: int32, present: bool): Bytes {
    if present then Put32(n) else []
  }

  function PutOptByte(b: byte, present: bool): Bytes {
    if present then [b] else []
  }

  const IntPrinter: int32 -> Bytes := n => Put32(n)

  function EncodeIntArray(xs: seq<int32>): Bytes {
    Put32(|xs|) + PrintMany(xs, IntPrinter)
  }

  function EncodeOptIntArray(xs: seq<int32>, present: bool): Bytes {
    if present then EncodeIntArray(xs) else []
  }

  function EncodePartitionHeader(h: PartitionHeader, version: int16): Bytes {
    Put16(h.errorCode) + (Put32(h.index) + (Put32(h.leaderId) + PutOpt32(h.leaderEpoch, version >= 7)))
  }

  function EncodePartition(p: Partition, version: int16): Bytes {
    EncodePartitionHeader(p.header, version)
    + (EncodeIntArray(p.replicas) + (EncodeIntArray(p.isr) + EncodeOptIntArray(p.offline, version >= 5)))
  }

  function PartitionPrinter(version: int16): Partition -> Bytes {
    p => EncodePartition(p, version)
  }

  function EncodeTopicHeader(h: TopicHeader, version: int16): Bytes {
    Put16(h.errorCode) + (Put16(|h.name|) + (h.name + PutOptByte(h.isInternal, version >= 1)))
  }

  function EncodeTopic(t: Topic, version: int16): (b: Bytes)
    ensures |b| >= 8
  {
    EncodeTopicHeader(t.header, version)
    + (Put32(|t.partitions|)
    + (PrintMany(t.partitions, PartitionPrinter(version)) + PutOpt32(t.authorizedOps, version >= 8)))
  }

  function TopicPrinter(version: int16): Topic -> Bytes {
    t => EncodeTopic(t, version)
  }

  function TopicArray(ts: seq<Topic>, version: int16): Bytes {
    Put32(|ts|) + PrintMany(ts, TopicPrinter(version))
  }

  function PrintSection(s: TopicSection, version: int16): Bytes {
    s.interBroker + TopicArray(s.topics, version)
  }

  // --------------------------------------------------------- well-formedness

  predicate ValidPartition(p: Partition, version: int16) {
    && |p.replicas| <= MAX_ARRAY_LEN && |p.isr| <= MAX_ARRAY_LEN && |p.offline| <= MAX_ARRAY_LEN
    && (version < 7 ==> p.header.leaderEpoch == 0)
    && (version < 5 ==> p.offline == [])
  }

  function PartitionCheck(version: int16): Partition -> bool {
    p => ValidPartition(p, version)
  }

  predicate ValidTopicHeader(h: TopicHeader, version: int16) {
    |h.name| < 0x8000 && (version < 1 ==> h.isInternal == 0)
  }

  ghost predicate ValidTopic(t: Topic, version: int16) {
    && ValidTopicHeader(t.header, version)
    && |t.partitions| <= MAX_ARRAY_LEN && AllValid(t.partitions, PartitionCheck(version))
    && (version < 8 ==> t.authorizedOps == 0)
  }

  ghost function TopicCheck(version: int16): Topic -> bool {
    t => ValidTopic(t, version)
  }

  ghost predicate ValidTopics(ts: seq<Topic>, version: int16) {
    |ts| <= MAX_ARRAY_LEN && AllValid(ts, TopicCheck(version))
  }

  // ------------------------------------------------ readers invert printers

  const IntCheck: int32 -> bool := _ => true

  lemma IntsInvert()
    ensures Inverts(IntReader, IntPrinter, IntCheck) && Splits(IntReader, IntPrinter, IntCheck)
  {
    forall n: int32, rest
      ensures IntReader(IntPrinter(n) + rest) == Ok((n, rest))
    {
      Read32Inverts(n, rest);
    }
    forall d | IntReader(d).Ok?
      ensures d == IntPrinter(IntReader(d).value.0) + IntReader(d).value.1
    {
      Read32Splits(d);
    }
  }

  /** Reading an int32 array succeeds exactly when its bytes are there. */
  lemma {:induction false} IntsFit(d: Bytes, count: nat)
    ensures if |d| < 4 * count then ReadMany(d, count, IntReader) == Err(TooShort)
            else ReadMany(d, count, IntReader).Ok? && ReadMany(d, count, IntReader).value.1 == d[4 * count..]
    decreases count
  {
    if count > 0 && |d| >= 4 {
      IntsFit(d[4..], count - 1);
      assert IntReader(d) == ReadI32(d);
    }
  }

  lemma IntArrayInverts(xs: seq<int32>, rest: Bytes)
    requires |xs| <= MAX_ARRAY_LEN
    ensures DecodeIntArray(EncodeIntArray(xs) + rest) == Ok((xs, rest))
  {
    AppendAssoc(Put32(|xs|), PrintMany(xs, IntPrinter), rest);
    Read32Inverts(|xs|, PrintMany(xs, IntPrinter) + rest);
    IntsInvert();
    ReadManyInverts(xs, rest, IntReader, IntPrinter, IntCheck);
  }

  lemma IntArraySplits(d: Bytes, xs: seq<int32>, rest: Bytes)
    requires DecodeIntArray(d) == Ok((xs, rest))
    ensures |xs| <= MAX_ARRAY_LEN && d == EncodeIntArray(xs) + rest
  {
    Read32Splits(d);
    IntsInvert();
    ReadManySplits(d[4..], Signed32(Get32(d)), xs, rest, IntReader, IntPrinter, IntCheck);
    AppendAssoc(Put32(|xs|), PrintMany(xs, IntPrinter), rest);
  }

  lemma OptIntArrayInverts(xs: seq<int32>, rest: Bytes, present: bool)
    requires |xs| <= MAX_ARRAY_LEN
    requires !present ==> xs == []
    ensures DecodeOptIntArray(EncodeOptIntArray(xs, present) + rest, present) == Ok((xs, rest))
  {
    if present {
      IntArrayInverts(xs, rest);
    } else {
      assert [] + rest == rest;
    }
  }

  lemma OptIntArraySplits(d: Bytes, xs: seq<int32>, rest: Bytes, present: bool)
    requires DecodeOptIntArray(d, present) == Ok((xs, rest))
    ensures |xs| <= MAX_ARRAY_LEN && (!present ==> xs == [])
    ensures d == EncodeOptIntArray(xs, present) + rest
  {
    if present {
      IntArraySplits(d, xs, rest);
    }
  }

  lemma OptI32Inverts(n: int32, rest: Bytes, present: bool)
    requires !present ==> n == 0
    ensures ReadOptI32(PutOpt32(n, present) + rest, present) == Ok((n, rest))
  {
    if present {
      Read32Inverts(n, rest);
    } else {
      assert [] + rest == rest;
    }
  }

  lemma OptI32Splits(d: Bytes, n: int32, rest: Bytes, present: bool)
    requires ReadOptI32(d, present) == Ok((n, rest))
    ensures d == PutOpt32(n, present) + rest
  {
    if present {
      Read32Splits(d);
    }
  }

  lemma OptByteInverts(b: byte, rest: Bytes, present: bool)
    requires !present ==> b == 0
    ensures ReadOptByte(PutOptByte(b, present) + rest, present) == Ok((b, rest))
  {
    if present {
      assert ([b] + rest)[1..] == rest;
    } else {
      assert [] + rest == rest;
    }
  }

  lemma PartitionHeaderInverts(h: PartitionHeader, rest: Bytes, version: int16)
    requires version < 7 ==> h.leaderEpoch == 0
    ensures DecodePartitionHeader(EncodePartitionHeader(h, version) + rest, version) == Ok((h, rest))
  {
    var d3 := PutOpt32(h.leaderEpoch, version >= 7) + rest;
    var d2 := Put32(h.leaderId) + d3;
    var d1 := Put32(h.index) + d2;
    AppendAssoc4(Put16(h.errorCode), Put32(h.index), Put32(h.leaderId), PutOpt32(h.leaderEpoch, version >= 7), rest);
    Read16Inverts(h.errorCode, d1);
    Read32Inverts(h.index, d2);
    Read32Inverts(h.leaderId, d3);
    OptI32Inverts(h.leaderEpoch, rest, version >= 7);
  }

  lemma PartitionHeaderSplits(d: Bytes, h: PartitionHeader, rest: Bytes, version: int16)
    requires DecodePartitionHeader(d, version) == Ok((h, rest))
    ensures version < 7 ==> h.leaderEpoch == 0
    ensures d == EncodePartitionHeader(h, version) + rest
  {
    var d1 := d[2..];
    var d2 := d1[4..];
    var d3 := d2[4..];
    assert d == Put16(h.errorCode) + d1 by { Read16Splits(d); }
    assert d1 == Put32(h.index) + d2 by { Read32Splits(d1); }
    assert d2 == Put32(h.leaderId) + d3 by { Read32Splits(d2); }
    OptI32Splits(d3, h.leaderEpoch, rest, version >= 7);
    AppendAssoc4(Put16(h.errorCode), Put32(h.index), Put32(h.leaderId), PutOpt32(h.leaderEpoch, version >= 7), rest);
  }

  lemma PartitionInverts(p: Partition, rest: Bytes, version: int16)
    requires ValidPartition(p, version)
    ensures DecodePartition(EncodePartition(p, version) + rest, version) == Ok((p, rest))
  {
    var d3 := EncodeOptIntArray(p.offline, version >= 5) + rest;
    var d2 := EncodeIntArray(p.isr) + d3;
    var d1 := EncodeIntArray(p.replicas) + d2;
    AppendAssoc4(EncodePartitionHeader(p.header, version), EncodeIntArray(p.replicas), EncodeIntArray(p.isr),
                 EncodeOptIntArray(p.offline, version >= 5), rest);
    PartitionHeaderInverts(p.header, d1, version);
    IntArrayInverts(p.replicas, d2);
    IntArrayInverts(p.isr, d3);
    OptIntArrayInverts(p.offline, rest, version >= 5);
  }

  lemma PartitionSplits(d: Bytes, p: Partition, rest: Bytes, version: int16)
    requires DecodePartition(d, version) == Ok((p, rest))
    ensures ValidPartition(p, version) && d == EncodePartition(p, version) + rest
  {
    var d1 := DecodePartitionHeader(d, version).value.1;
    var d2 := DecodeIntArray(d1).value.1;
    var d3 := DecodeIntArray(d2).value.1;
    PartitionHeaderSplits(d, p.header, d1, version);
    IntArraySplits(d1, p.replicas, d2);
    IntArraySplits(d2, p.isr, d3);
    OptIntArraySplits(d3, p.offline, rest, version >= 5);
    AppendAssoc4(EncodePartitionHeader(p.header, version), EncodeIntArray(p.replicas), EncodeIntArray(p.isr),
                 EncodeOptIntArray(p.offline, version >= 5), rest);
  }

  lemma PartitionsInvert(version: int16)
    ensures Inverts(PartitionReader(version), PartitionPrinter(version), PartitionCheck(version))
    ensures Splits(PartitionReader(version), PartitionPrinter(version), PartitionCheck(version))
  {
    forall p, rest | PartitionCheck(version)(p)
      ensures PartitionReader(version)(PartitionPrinter(version)(p) + rest) == Ok((p, rest))
    {
      PartitionInverts(p, rest, version);
    }
    forall d | PartitionReader(version)(d).Ok?
      ensures var (p, rest) := PartitionReader(version)(d).value;
              PartitionCheck(version)(p) && d == PartitionPrinter(version)(p) + rest
    {
      var (p, rest) := DecodePartition(d, version).value;
      PartitionSplits(d, p, rest, version);
    }
  }

  lemma TopicHeaderInverts(h: TopicHeader, rest: Bytes, version: int16)
    requires ValidTopicHeader(h, version)
    ensures DecodeTopicHeader(EncodeTopicHeader(h, version) + rest, version) == Ok((h, rest))
  {
    var d3 := PutOptByte(h.isInternal, version >= 1) + rest;
    var d2 := h.name + d3;
    var d1 := Put16(|h.name|) + d2;
    AppendAssoc4(Put16(h.errorCode), Put16(|h.name|), h.name, PutOptByte(h.isInternal, version >= 1), rest);
    Read16Inverts(h.errorCode, d1);
    Read16Inverts(|h.name|, d2);
    TakeInverts(h.name, d3);
    OptByteInverts(h.isInternal, rest, version >= 1);
  }

  lemma TopicHeaderSplits(d: Bytes, h: TopicHeader, rest: Bytes, version: int16)
    requires DecodeTopicHeader(d, version) == Ok((h, rest))
    ensures ValidTopicHeader(h, version) && d == EncodeTopicHeader(h, version) + rest
  {
    var d1 := d[2..];
    var d2 := d1[2..];
    var d3 := d2[|h.name|..];
    assert d == Put16(h.errorCode) + d1 by { Read16Splits(d); }
    assert d1 == Put16(|h.name|) + d2 by { Read16Splits(d1); }
    assert d2 == h.name + d3;
    assert d3 == PutOptByte(h.isInternal, version >= 1) + rest;
    AppendAssoc4(Put16(h.errorCode), Put16(|h.name|), h.name, PutOptByte(h.isInternal, version >= 1), rest);
  }

  lemma TopicInverts(t: Topic, rest: Bytes, version: int16)
    requires ValidTopic(t, version)
    ensures DecodeTopic(EncodeTopic(t, version) + rest, version) == Ok((t, rest))
  {
    var header, partitions := EncodeTopicHeader(t.header, version), PrintMany(t.partitions, PartitionPrinter(version));
    var d3 := PutOpt32(t.authorizedOps, version >= 8) + rest;
    var d2 := partitions + d3;
    var d1 := Put32(|t.partitions|) + d2;
    AppendAssoc4(header, Put32(|t.partitions|), partitions, PutOpt32(t.authorizedOps, version >= 8), rest);
    TopicHeaderInverts(t.header, d1, version);
    Read32Inverts(|t.partitions|, d2);
    PartitionsInvert(version);
    ReadManyInverts(t.partitions, d3, PartitionReader(version), PartitionPrinter(version), PartitionCheck(version));
    OptI32Inverts(t.authorizedOps, rest, version >= 8);
  }

  lemma TopicSplits(d: Bytes, t: Topic, rest: Bytes, version: int16)
    requires DecodeTopic(d, version) == Ok((t, rest))
    ensures ValidTopic(t, version) && d == EncodeTopic(t, version) + rest
  {
    var header, partitions := EncodeTopicHeader(t.header, version), PrintMany(t.partitions, PartitionPrinter(version));
    var d1 := DecodeTopicHeader(d, version).value.1;
    var d2 := d1[4..];
    var count := Signed32(Get32(d1));
    var d3 := ReadMany(d2, count, PartitionReader(version)).value.1;
    TopicHeaderSplits(d, t.header, d1, version);
    PartitionsInvert(version);
    ReadManySplits(d2, count, t.partitions, d3,
                   PartitionReader(version), PartitionPrinter(version), PartitionCheck(version));
    assert d1 == Put32(|t.partitions|) + d2 by { Read32Splits(d1); }
    OptI32Splits(d3, t.authorizedOps, rest, version >= 8);
    AppendAssoc4(header, Put32(|t.partitions|), partitions, PutOpt32(t.authorizedOps, version >= 8), rest);
  }

  lemma {:induction false} IntsTakeSpace(xs: seq<int32>)
    ensures |PrintMany(xs, IntPrinter)| == 4 * |xs|
  {
    if xs != [] {
      IntsTakeSpace(xs[1..]);
    }
  }

  /** Sizes by version: a partition has a leader epoch from version 7 and offline
      replicas from version 5. */
  lemma PartitionSize(p: Partition, version: int16)
    ensures |EncodePartition(p, version)|
         == 18 + 4 * (|p.replicas| + |p.isr|)
            + (if version < 5 then 0 else 4 + 4 * |p.offline|) + (if version < 7 then 0 else 4)
  {
    IntsTakeSpace(p.replicas);
    IntsTakeSpace(p.isr);
    IntsTakeSpace(p.offline);
  }

  /** A topic has its internal flag from version 1 and authorised operations from
      version 8. */
  lemma TopicSize(t: Topic, version: int16)
    ensures |EncodeTopic(t, version)|
         == 8 + |t.header.name| + |PrintMany(t.partitions, PartitionPrinter(version))|
            + (if version < 1 then 0 else 1) + (if version < 8 then 0 else 4)
  {
  }

  /** Topic entries are self-delimiting: the topic reader accepts exactly a printed
      topic followed by anything. */
  lemma TopicReaderInvertsPrinter(d: Bytes, t: Topic, rest: Bytes, version: int16)
    ensures DecodeTopic(d, version) == Ok((t, rest))
       <==> ValidTopic(t, version) && d == EncodeTopic(t, version) + rest
  {
    if ValidTopic(t, version) && d == EncodeTopic(t, version) + rest {
      TopicInverts(t, rest, version);
    }
    if DecodeTopic(d, version) == Ok((t, rest)) {
      TopicSplits(d, t, rest, version);
    }
  }

  lemma TopicsInvert(version: int16)
    ensures Inverts(TopicReader(version), TopicPrinter(version), TopicCheck(version))
    ensures Splits(TopicReader(version), TopicPrinter(version), TopicCheck(version))
  {
    forall t, rest | TopicCheck(version)(t)
      ensures TopicReader(version)(TopicPrinter(version)(t) + rest) == Ok((t, rest))
    {
      TopicInverts(t, rest, version);
    }
    forall d | TopicReader(version)(d).Ok?
      ensures var (t, rest) := TopicReader(version)(d).value;
              TopicCheck(version)(t) && d == TopicPrinter(version)(t) + rest
    {
      var (t, rest) := DecodeTopic(d, version).value;
      TopicSplits(d, t, rest, version);
    }
  }

  lemma TopicsTakeSpace(ts: seq<Topic>, version: int16)
    ensures |TopicArray(ts, version)| >= 4 + 8 * |ts|
  {
    PrintManyTakesSpace(ts, TopicPrinter(version), 8);
  }

  // ------------------------------------------------ the inter-broker fields

  lemma TakeIsLocal(d: Bytes, n: nat, rest': Bytes)
    requires n <= |d|
    ensures Take(d[..n] + rest', n) == Ok((d[..n], rest'))
    ensures d == d[..n] + d[n..]
  {
    TakeInverts(d[..n], rest');
  }

  lemma SkipClusterIdIsLocal(d: Bytes, skipped: Bytes, rest: Bytes, version: int16, rest': Bytes)
    requires SkipClusterId(d, version) == Ok((skipped, rest))
    ensures d == skipped + rest
    ensures SkipClusterId(skipped + rest', version) == Ok((skipped, rest'))
  {
    if version >= 2 {
      TakeIsLocal(d, |skipped|, rest');
      GetPrefix(d, skipped + rest');
    } else {
      assert [] + rest == rest && [] + rest' == rest';
    }
  }

  lemma GetPrefix(d: Bytes, d': Bytes)
    requires |d| >= 2 && |d'| >= 2 && d[0] == d'[0] && d[1] == d'[1]
    ensures Get16(d) == Get16(d')
  {
  }

  /** What is skipped before the topic array depends on the skipped bytes only. */
  lemma SkipInterBrokerIsLocal(d: Bytes, skipped: Bytes, rest: Bytes, version: int16, rest': Bytes)
    requires SkipInterBroker(d, version) == Ok((skipped, rest))
    ensures d == skipped + rest
    ensures SkipInterBroker(skipped + rest', version) == Ok((skipped, rest'))
  {
    var (clusterId, d1) := SkipClusterId(d, version).value;
    var controllerLen, opsLen := if version >= 1 then 4 else 0, if version >= 8 then 4 else 0;
    var d2 := d1[controllerLen..];
    var controller, ops := d1[..controllerLen], d2[..opsLen];
    TakeIsLocal(d1, controllerLen, ops + rest');
    TakeIsLocal(d2, opsLen, rest');
    SkipClusterIdIsLocal(d, clusterId, d1, version, controller + (ops + rest'));
    AppendAssoc3(clusterId, controller, ops, rest);
    AppendAssoc3(clusterId, controller, ops, rest');
  }

  /** The raw bytes of the topic entries tile the topic array. */
  lemma SectionSplits(d: Bytes, s: TopicSection, rest: Bytes, version: int16)
    requires DecodeTopicSection(d, version) == Ok((s, rest))
    ensures ValidTopics(s.topics, version)
    ensures d == PrintSection(s, version) + rest
  {
    var d1 := SkipInterBroker(d, version).value.1;
    SkipInterBrokerIsLocal(d, s.interBroker, d1, version, d1);
    Read32Splits(d1);
    TopicsInvert(version);
    ReadManySplits(d1[4..], Signed32(Get32(d1)), s.topics, rest,
                   TopicReader(version), TopicPrinter(version), TopicCheck(version));
    AppendAssoc3(s.interBroker, Put32(|s.topics|), PrintMany(s.topics, TopicPrinter(version)), rest);
  }

  /** A section keeps its meaning when its topics are replaced and other bytes
      follow it. */
  lemma SectionInverts(
      d: Bytes, s: TopicSection, rest: Bytes, topics: seq<Topic>, rest': Bytes, version: int16)
    requires DecodeTopicSection(d, version) == Ok((s, rest))
    requires ValidTopics(topics, version)
    ensures DecodeTopicSection(PrintSection(s.(topics := topics), version) + rest', version)
         == Ok((s.(topics := topics), rest'))
  {
    var entries := PrintMany(topics, TopicPrinter(version));
    var d1 := SkipInterBroker(d, version).value.1;
    SkipInterBrokerIsLocal(d, s.interBroker, d1, version, Put32(|topics|) + (entries + rest'));
    AppendAssoc3(s.interBroker, Put32(|topics|), entries, rest');
    Read32Inverts(|topics|, entries + rest');
    TopicsInvert(version);
    ReadManyInverts(topics, rest', TopicReader(version), TopicPrinter(version), TopicCheck(version));
  }

  // ----------------------------------- which fields come before the topic array

  /** Any negative length stands for a null cluster id. */
  datatype InterBroker = InterBroker(
    clusterIdLen: int16,
    clusterId: Bytes,
    controllerId: int32,
    authorizedOps: int32)

  predicate ValidInterBroker(f: InterBroker) {
    |f.clusterId| == if f.clusterIdLen < 0 then 0 else f.clusterIdLen
  }

  /** The cluster id from version 2 on, the controller id from version 1 on and the
      authorised operations from version 8 on. */
  function PrintInterBroker(f: InterBroker, version: int16): Bytes {
    PrintClusterId(f, version)
    + ((if version < 1 then [] else Put32(f.controllerId)) + (if version < 8 then [] else Put32(f.authorizedOps)))
  }

  function PrintClusterId(f: InterBroker, version: int16): Bytes {
    if version < 2 then [] else Put16(f.clusterIdLen) + f.clusterId
  }

  ghost predicate IsInterBroker(b: Bytes, version: int16) {
    exists f :: ValidInterBroker(f) && b == PrintInterBroker(f, version)
  }

  lemma ClusterIdInverts(f: InterBroker, rest: Bytes, version: int16)
    requires ValidInterBroker(f)
    ensures SkipClusterId(PrintClusterId(f, version) + rest, version) == Ok((PrintClusterId(f, version), rest))
  {
    if version < 2 {
      assert [] + rest == rest;
    } else {
      AppendAssoc(Put16(f.clusterIdLen), f.clusterId, rest);
      Read16Inverts(f.clusterIdLen, f.clusterId + rest);
      TakeInverts(Put16(f.clusterIdLen) + f.clusterId, rest);
    }
  }

  lemma Take32(n: int32, rest: Bytes, present: bool)
    ensures Take(PutOpt32(n, present) + rest, if present then 4 else 0) == Ok((PutOpt32(n, present), rest))
  {
    TakeInverts(PutOpt32(n, present), rest);
  }

  lemma InterBrokerInverts(f: InterBroker, rest: Bytes, version: int16)
    requires ValidInterBroker(f)
    ensures SkipInterBroker(PrintInterBroker(f, version) + rest, version) == Ok((PrintInterBroker(f, version), rest))
  {
    var controller, ops := PutOpt32(f.controllerId, version >= 1), PutOpt32(f.authorizedOps, version >= 8);
    AppendAssoc3(PrintClusterId(f, version), controller, ops, rest);
    ClusterIdInverts(f, controller + (ops + rest), version);
    Take32(f.controllerId, ops + rest, version >= 1);
    Take32(f.authorizedOps, rest, version >= 8);
  }

  lemma ClusterIdSplits(d: Bytes, skipped: Bytes, rest: Bytes, version: int16) returns (len: int16, id: Bytes)
    requires SkipClusterId(d, version) == Ok((skipped, rest))
    ensures |id| == (if len < 0 then 0 else len) && skipped == (if version < 2 then [] else Put16(len) + id)
  {
    if version < 2 {
      return -1, [];
    }
    len := Signed16(Get16(d));
    id := skipped[2..];
    Put16OfGet16(d);
    assert skipped == skipped[..2] + id;
  }

  lemma Split32(d: Bytes, skipped: Bytes, rest: Bytes, present: bool) returns (n: int32)
    requires Take(d, if present then 4 else 0) == Ok((skipped, rest))
    ensures skipped == if present then Put32(n) else []
  {
    if !present {
      return 0;
    }
    n := Signed32(Get32(d));
    Put32OfGet32(d);
  }

  lemma InterBrokerSplits(d: Bytes, skipped: Bytes, rest: Bytes, version: int16)
    requires SkipInterBroker(d, version) == Ok((skipped, rest))
    ensures IsInterBroker(skipped, version)
  {
    var (clusterId, d1) := SkipClusterId(d, version).value;
    var (controller, d2) := Take(d1, if version >= 1 then 4 else 0).value;
    var (ops, d3) := Take(d2, if version >= 8 then 4 else 0).value;
    var len, id := ClusterIdSplits(d, clusterId, d1, version);
    var c := Split32(d1, controller, d2, version >= 1);
    var o := Split32(d2, ops, d3, version >= 8);
    assert skipped == PrintInterBroker(InterBroker(len, id, c, o), version);
  }

  /** What is skipped between the brokers and the topics is exactly those fields. */
  lemma InterBrokerReaderInvertsPrinter(d: Bytes, skipped: Bytes, rest: Bytes, version: int16)
    ensures SkipInterBroker(d, version) == Ok((skipped, rest))
       <==> IsInterBroker(skipped, version) && d == skipped + rest
  {
    if SkipInterBroker(d, version) == Ok((skipped, rest)) {
      SkipInterBrokerIsLocal(d, skipped, rest, version, rest);
      InterBrokerSplits(d, skipped, rest, version);
    }
    if IsInterBroker(skipped, version) && d == skipped + rest {
      var f :| ValidInterBroker(f) && skipped == PrintInterBroker(f, version);
      InterBrokerInverts(f, rest, version);
    }
  }

  /** A topic section is read exactly when it starts with those fields and a printed
      array of valid topics, and these are what is read, at every version. */
  lemma SectionReaderInvertsPrinter(d: Bytes, s: TopicSection, rest: Bytes, version: int16)
    ensures DecodeTopicSection(d, version) == Ok((s, rest))
       <==> && IsInterBroker(s.interBroker, version) && ValidTopics(s.topics, version)
            && d == PrintSection(s, version) + rest
  {
    var entries := PrintMany(s.topics, TopicPrinter(version));
    if DecodeTopicSection(d, version) == Ok((s, rest)) {
      SectionSplits(d, s, rest, version);
      InterBrokerSplits(d, s.interBroker, SkipInterBroker(d, version).value.1, version);
    }
    if IsInterBroker(s.interBroker, version) && ValidTopics(s.topics, version) {
      var d1 := Put32(|s.topics|) + (entries + rest);
      AppendAssoc3(s.interBroker, Put32(|s.topics|), entries, rest);
      InterBrokerReaderInvertsPrinter(s.interBroker + d1, s.interBroker, d1, version);
      Read32Inverts(|s.topics|, entries + rest);
      TopicsInvert(version);
      ReadManyInverts(s.topics, rest, TopicReader(version), TopicPrinter(version), TopicCheck(version));
    }
  }
}

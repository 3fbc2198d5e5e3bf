/** The cursor loops of internal/routing/synthetic_metadata.go, each proved to
    compute what `TopicGrammar` and `SyntheticMetadata` define. */
module SyntheticCodec {
  import opened Wire
  import opened WireArrays
  import opened MetadataGrammar
  import opened TopicGrammar
  import opened MergeByKey
  import opened SyntheticMetadata
  import MetadataCodec

  /** A topic as the source keeps it: its name, and its raw bytes unparsed. */
  datatype TopicEntry = TopicEntry(name: Bytes, rawBytes: Bytes)

  function EntryOf(t: Topic, version: int16): TopicEntry {
    TopicEntry(t.header.name, EncodeTopic(t, version))
  }

  function Entries(ts: seq<Topic>, version: int16): (r: seq<TopicEntry>)
    ensures |r| == |ts|
  {
    if ts == [] then [] else [EntryOf(ts[0], version)] + Entries(ts[1..], version)
  }

  const EntryKey: TopicEntry -> Bytes := (e: TopicEntry) => e.name

  /** A skipping cursor moves past exactly what the reader would have read. */
  ghost predicate SkipsAs<T>(r: Result<nat>, data: Bytes, reader: Result<(T, Bytes)>) {
    match r
    case Err(e) => reader == Err(e)
    case Ok(n) => n <= |data| && reader.Ok? && reader.value.1 == data[n..]
  }

  // ------------------------------------------------------ skipping partitions

  method SkipInt32Array(data: Bytes) returns (r: Result<nat>)
    ensures SkipsAs(r, data, DecodeIntArray(data))
  {
    if |data| < 4 {
      return Err(TooShort);
    }
    var count: int := Signed32(Get32(data));
    if count < 0 {
      return Err(InvalidLength);
    }
    IntsFit(data[4..], count);
    var elemSize := 4 + 4 * count;
    if |data| < elemSize {
      return Err(TooShort);
    }
    r := Ok(elemSize);
  }

  method SkipPartitionHeader(data: Bytes, version: int16) returns (r: Result<nat>)
    ensures SkipsAs(r, data, DecodePartitionHeader(data, version))
  {
    var pos: nat := 0;
    if pos + 2 > |data| {
      return Err(TooShort);
    }
    pos := pos + 2;
    if pos + 4 > |data| {
      return Err(TooShort);
    }
    pos := pos + 4;
    if pos + 4 > |data| {
      return Err(TooShort);
    }
    pos := pos + 4;
    if version >= 7 {
      if pos + 4 > |data| {
        return Err(TooShort);
      }
      pos := pos + 4;
    }
    r := Ok(pos);
  }

  method SkipPartition(data: Bytes, version: int16) returns (r: Result<nat>)
    ensures SkipsAs(r, data, DecodePartition(data, version))
  {
    var pos: nat := 0;
    var bytesRead := SkipPartitionHeader(data, version);
    if bytesRead.Err? {
      return Err(bytesRead.error);
    }
    pos := pos + bytesRead.value;
    ghost var d1 := DecodePartitionHeader(data, version).value.1;
    assert data[pos..] == d1;
    bytesRead := SkipInt32Array(data[pos..]);
    if bytesRead.Err? {
      return Err(bytesRead.error);
    }
    pos := pos + bytesRead.value;
    ghost var d2 := DecodeIntArray(d1).value.1;
    assert data[pos..] == d2;
    bytesRead := SkipInt32Array(data[pos..]);
    if bytesRead.Err? {
      return Err(bytesRead.error);
    }
    pos := pos + bytesRead.value;
    assert data[pos..] == DecodeIntArray(d2).value.1;
    if version >= 5 {
      bytesRead := SkipInt32Array(data[pos..]);
      if bytesRead.Err? {
        return Err(bytesRead.error);
      }
      pos := pos + bytesRead.value;
    }
    r := Ok(pos);
  }

  /** The trigger keeps a loop over `read` from looking inside one partition. */
  ghost predicate ReadsPartitions(read: Bytes -> Result<(Partition, Bytes)>, version: int16) {
    forall d {:trigger DecodePartition(d, version)} :: read(d) == DecodePartition(d, version)
  }

  /** One turn of the partition loop, with `left` partitions to go. */
  method SkipNextPartition(
      data: Bytes, version: int16, ghost left: nat, ghost read: Bytes -> Result<(Partition, Bytes)>,
      ghost whole: Result<(seq<Partition>, Bytes)>)
    returns (r: Result<nat>)
    requires ReadsPartitions(read, version)
    requires left > 0 && SameRest(whole, ReadMany(data, left, read))
    ensures r.Err? ==> whole == Err(r.error)
    ensures r.Ok? ==> r.value <= |data| && SameRest(whole, ReadMany(data[r.value..], left - 1, read))
  {
    r := SkipPartition(data, version);
    SkipManyStep(whole, data, left, read);
  }

  method SkipPartitions(data: Bytes, partCount: nat, version: int16, ghost read: Bytes -> Result<(Partition, Bytes)>)
    returns (r: Result<nat>)
    requires ReadsPartitions(read, version)
    ensures SkipsAs(r, data, ReadMany(data, partCount, read))
  {
    var pos: nat := 0;
    ghost var whole := ReadMany(data, partCount, read);
    assert data[pos..] == data;
    for i := 0 to partCount
      invariant pos <= |data|
      invariant SameRest(whole, ReadMany(data[pos..], partCount - i, read))
    {
      var bytesRead := SkipNextPartition(data[pos..], version, partCount - i, read, whole);
      if bytesRead.Err? {
        return bytesRead;
      }
      DropDrop(data, pos, bytesRead.value);
      pos := pos + bytesRead.value;
    }
    r := Ok(pos);
  }

  // ------------------------------------------------------------ topic entries

  method ParseTopicName(data: Bytes, version: int16) returns (r: Result<(Bytes, nat)>)
    ensures r.Err? ==> DecodeTopicHeader(data, version) == Err(r.error)
    ensures r.Ok? ==> SkipsAs(Ok(r.value.1), data, DecodeTopicHeader(data, version))
    ensures r.Ok? ==> DecodeTopicHeader(data, version).value.0.name == r.value.0
  {
    var pos: nat := 0;
    if pos + 2 > |data| {
      return Err(TooShort);
    }
    pos := pos + 2;
    if pos + 2 > |data| {
      return Err(TooShort);
    }
    var nameLen: int := Signed16(Get16(data[pos..]));
    pos := pos + 2;
    if nameLen < 0 {
      return Err(InvalidLength);
    }
    if pos + nameLen > |data| {
      return Err(TooShort);
    }
    var name := data[pos..][..nameLen];
    pos := pos + nameLen;
    if version >= 1 {
      if pos + 1 > |data| {
        return Err(TooShort);
      }
      pos := pos + 1;
    }
    r := Ok((name, pos));
  }

  /** The entry's name and raw bytes are those of the topic the reader reads. */
  ghost predicate ParsesTopic(r: Result<(TopicEntry, nat)>, data: Bytes, version: int16) {
    match r
    case Err(e) => DecodeTopic(data, version) == Err(e)
    case Ok((entry, n)) =>
      && SkipsAs(Ok(n), data, DecodeTopic(data, version))
      && entry == EntryOf(DecodeTopic(data, version).value.0, version)
  }

  lemma EntryBytes(data: Bytes, n: nat, version: int16)
    requires n <= |data| && DecodeTopic(data, version).Ok? && DecodeTopic(data, version).value.1 == data[n..]
    ensures data[..n] == EncodeTopic(DecodeTopic(data, version).value.0, version)
  {
    TopicSplits(data, DecodeTopic(data, version).value.0, data[n..], version);
  }

  method ParseOneTopic(data: Bytes, version: int16) returns (r: Result<(TopicEntry, nat)>)
    ensures ParsesTopic(r, data, version)
  {
    var pos: nat := 0;
    var name := ParseTopicName(data, version);
    if name.Err? {
      return Err(name.error);
    }
    pos := pos + name.value.1;
    ghost var d1 := DecodeTopicHeader(data, version).value.1;
    assert data[pos..] == d1;
    if pos + 4 > |data| {
      return Err(TooShort);
    }
    var partCount: int := Signed32(Get32(data[pos..]));
    pos := pos + 4;
    if partCount < 0 {
      return Err(InvalidLength);
    }
    assert data[pos..] == d1[4..];
    var bytesRead := SkipPartitions(data[pos..], partCount, version, PartitionReader(version));
    if bytesRead.Err? {
      return Err(bytesRead.error);
    }
    pos := pos + bytesRead.value;
    assert data[pos..] == ReadMany(d1[4..], partCount, PartitionReader(version)).value.1;
    if version >= 8 {
      if pos + 4 > |data| {
        return Err(TooShort);
      }
      pos := pos + 4;
    }
    assert DecodeTopic(data, version).Ok?;
    EntryBytes(data, pos, version);
    r := Ok((TopicEntry(name.value.0, data[..pos]), pos));
  }

  ghost predicate ParsesTopics(
      r: Result<seq<TopicEntry>>, reader: Result<(seq<Topic>, Bytes)>, entriesOf: seq<Topic> -> seq<TopicEntry>)
  {
    match r
    case Err(e) => reader == Err(e)
    case Ok(entries) => reader.Ok? && entries == entriesOf(reader.value.0)
  }

  ghost predicate ReadsTopics(read: Bytes -> Result<(Topic, Bytes)>, version: int16) {
    forall d {:trigger DecodeTopic(d, version)} :: read(d) == DecodeTopic(d, version)
  }

  ghost predicate MakesEntries(entriesOf: seq<Topic> -> seq<TopicEntry>, version: int16) {
    forall ts {:trigger Entries(ts, version)} :: entriesOf(ts) == Entries(ts, version)
  }

  /** One turn of the topic loop, with `left` topics to go; `parsed` are the topics whose
      entries are in `topics`. */
  method ParseNextTopic(
      data: Bytes, version: int16, topics: seq<TopicEntry>, ghost left: nat, ghost parsed: seq<Topic>,
      ghost read: Bytes -> Result<(Topic, Bytes)>, ghost entriesOf: seq<Topic> -> seq<TopicEntry>)
    returns (r: Result<(seq<TopicEntry>, nat)>, ghost parsed': seq<Topic>)
    requires ReadsTopics(read, version) && MakesEntries(entriesOf, version)
    requires left > 0 && topics == entriesOf(parsed)
    ensures r.Err? ==> Prepend(parsed, ReadMany(data, left, read)) == Err(r.error)
    ensures r.Ok? ==> r.value.1 <= |data| && r.value.0 == entriesOf(parsed')
    ensures r.Ok? ==> (
              Prepend(parsed, ReadMany(data, left, read))
              == Prepend(parsed', ReadMany(data[r.value.1..], left - 1, read)))
  {
    parsed' := parsed;
    var entry := ParseOneTopic(data, version);
    ReadManyStep(parsed, data, left, read);
    if entry.Err? {
      return Err(entry.error), parsed';
    }
    ghost var topic := DecodeTopic(data, version).value.0;
    assert entriesOf(parsed) == Entries(parsed, version);
    EntriesSnoc(parsed, topic, version);
    r := Ok((topics + [entry.value.0], entry.value.1));
    parsed' := parsed + [topic];
  }

  method ParseTopics(
      data: Bytes, topicCount: nat, version: int16,
      ghost read: Bytes -> Result<(Topic, Bytes)>, ghost entriesOf: seq<Topic> -> seq<TopicEntry>)
    returns (r: Result<seq<TopicEntry>>)
    requires ReadsTopics(read, version) && MakesEntries(entriesOf, version) && entriesOf([]) == []
    ensures ParsesTopics(r, ReadMany(data, topicCount, read), entriesOf)
  {
    var pos: nat := 0;
    var topics: seq<TopicEntry> := [];
    ghost var parsed: seq<Topic> := [];
    ghost var whole := ReadMany(data, topicCount, read);
    ReadManyStart(data, topicCount, read);
    assert data[pos..] == data;
    for i := 0 to topicCount
      invariant pos <= |data| && topics == entriesOf(parsed)
      invariant whole == Prepend(parsed, ReadMany(data[pos..], topicCount - i, read))
    {
      var next;
      next, parsed := ParseNextTopic(data[pos..], version, topics, topicCount - i, parsed, read, entriesOf);
      if next.Err? {
        return Err(next.error);
      }
      DropDrop(data, pos, next.value.1);
      topics := next.value.0;
      pos := pos + next.value.1;
    }
    ReadManyDone(parsed, data[pos..], read);
    r := Ok(topics);
  }

  method SkipToTopics(data: Bytes, version: int16) returns (r: Result<nat>)
    ensures match r
            case Err(e) => SkipInterBroker(data, version) == Err(e)
            case Ok(n) => n <= |data| && SkipInterBroker(data, version) == Ok((data[..n], data[n..]))
  {
    var pos: nat := 0;
    if version >= 2 {
      if pos + 2 > |data| {
        return Err(TooShort);
      }
      var clusterIdLen: int := Signed16(Get16(data[pos..]));
      pos := pos + 2;
      if clusterIdLen >= 0 {
        if pos + clusterIdLen > |data| {
          return Err(TooShort);
        }
        pos := pos + clusterIdLen;
      }
    }
    assert SkipClusterId(data, version) == Ok((data[..pos], data[pos..]));
    if version >= 1 {
      if pos + 4 > |data| {
        return Err(TooShort);
      }
      pos := pos + 4;
    }
    if version >= 8 {
      if pos + 4 > |data| {
        return Err(TooShort);
      }
      pos := pos + 4;
    }
    ghost var skipped := SkipInterBroker(data, version).value.0;
    SkipInterBrokerIsLocal(data, skipped, data[pos..], version, []);
    assert skipped == data[..pos];
    r := Ok(pos);
  }

  /** The entries and the inter-broker bytes are those of the section the reader
      reads; bytes after the last topic are not looked at. */
  ghost predicate ParsesSection(r: Result<(seq<TopicEntry>, Bytes)>, data: Bytes, version: int16) {
    match r
    case Err(e) => DecodeTopicSection(data, version) == Err(e)
    case Ok((entries, interBroker)) =>
      && DecodeTopicSection(data, version).Ok?
      && var section := DecodeTopicSection(data, version).value.0;
      entries == Entries(section.topics, version) && interBroker == section.interBroker
  }

  method ParseTopicArray(data: Bytes, version: int16) returns (r: Result<(seq<TopicEntry>, Bytes)>)
    ensures ParsesSection(r, data, version)
  {
    var start := SkipToTopics(data, version);
    if start.Err? {
      return Err(start.error);
    }
    var pos: nat := start.value;
    var interBrokerBytes := data[..pos];
    if pos + 4 > |data| {
      return Err(TooShort);
    }
    var topicCount: int := Signed32(Get32(data[pos..]));
    pos := pos + 4;
    if topicCount < 0 {
      return Err(InvalidLength);
    }
    ghost var entriesOf: seq<Topic> -> seq<TopicEntry> := ts => Entries(ts, version);
    var topics := ParseTopics(data[pos..], topicCount, version, TopicReader(version), entriesOf);
    if topics.Err? {
      return Err(topics.error);
    }
    r := Ok((topics.value, interBrokerBytes));
  }

  // ----------------------------------------------------------------- building

  method ParseResponseFrame(raw: Bytes, version: int16) returns (r: Result<MetadataResponse>)
    ensures r == DecodeFrame(raw, version)
  {
    if |raw| > MAX_RESPONSE_SIZE {
      return Err(ResponseTooLarge);
    }
    if |raw| < 8 {
      return Err(TooShort);
    }
    var frameSize: int := Signed32(Get32(raw));
    var correlationId := Signed32(Get32(raw[4..]));
    if frameSize < 4 {
      return Err(InvalidFrameSize);
    }
    var expectedLen := 4 + frameSize;
    if |raw| < expectedLen {
      return Err(TooShort);
    }
    var parsed := MetadataCodec.ParseMetadataResponseBody(raw[8..expectedLen], version);
    if parsed.Err? {
      return Err(parsed.error);
    }
    r := Ok(parsed.value.(correlationId := correlationId));
  }

  method MergeBrokers(primary: seq<Broker>, secondary: seq<Broker>) returns (merged: seq<Broker>)
    ensures merged == Merge(primary, secondary, BrokerKey)
  {
    merged := MergeLists(primary, secondary, BrokerKey);
  }

  method MergeTopics(primary: seq<TopicEntry>, secondary: seq<TopicEntry>) returns (merged: seq<TopicEntry>)
    ensures merged == Merge(primary, secondary, EntryKey)
  {
    merged := MergeLists(primary, secondary, EntryKey);
  }

  lemma {:induction false} UnseenEntries(ts: seq<Topic>, seen: set<Bytes>, version: int16)
    ensures Unseen(Entries(ts, version), EntryKey, seen) == Entries(Unseen(ts, TopicKey, seen), version)
  {
    if ts != [] {
      var seen' := if TopicKey(ts[0]) in seen then seen else seen + {TopicKey(ts[0])};
      UnseenEntries(ts[1..], seen', version);
      assert Entries(ts, version)[1..] == Entries(ts[1..], version);
      if TopicKey(ts[0]) !in seen {
        var rest := Unseen(ts[1..], TopicKey, seen');
        assert ([ts[0]] + rest)[1..] == rest;
      }
    }
  }

  lemma {:induction false} EntriesAppend(ts: seq<Topic>, us: seq<Topic>, version: int16)
    ensures Entries(ts + us, version) == Entries(ts, version) + Entries(us, version)
  {
    if ts == [] {
      assert ts + us == us;
    } else {
      assert (ts + us)[1..] == ts[1..] + us;
      EntriesAppend(ts[1..], us, version);
    }
  }

  lemma EntriesSnoc(ts: seq<Topic>, t: Topic, version: int16)
    ensures Entries(ts + [t], version) == Entries(ts, version) + [EntryOf(t, version)]
  {
    EntriesAppend(ts, [t], version);
  }

  lemma {:induction false} EntriesKeys(ts: seq<Topic>, version: int16)
    ensures KeysOf(Entries(ts, version), EntryKey) == KeysOf(ts, TopicKey)
  {
    if ts != [] {
      EntriesKeys(ts[1..], version);
      assert ts == [ts[0]] + ts[1..];
      KeysOfOne(ts[0], ts[1..], TopicKey);
      KeysOfOne(EntryOf(ts[0], version), Entries(ts[1..], version), EntryKey);
    }
  }

  /** Merging the raw entries is merging the topics they stand for. */
  lemma MergeEntries(primary: seq<Topic>, secondary: seq<Topic>, version: int16)
    ensures Merge(Entries(primary, version), Entries(secondary, version), EntryKey)
         == Entries(Merge(primary, secondary, TopicKey), version)
  {
    var seen := KeysOf(primary, TopicKey);
    EntriesKeys(primary, version);
    EntriesAppend(primary, Unseen(secondary, TopicKey, seen), version);
    UnseenEntries(secondary, seen, version);
  }

  lemma PrintEntriesStep(buf: Bytes, ts: seq<Topic>, i: nat, version: int16)
    requires i < |ts|
    ensures Entries(ts, version)[i] == EntryOf(ts[i], version)
    ensures buf + PrintMany(ts[i..], TopicPrinter(version))
         == (buf + Entries(ts, version)[i].rawBytes) + PrintMany(ts[i + 1..], TopicPrinter(version))
  {
    PrintManyStep(buf, ts, i, TopicPrinter(version));
    EntryAt(ts, i, version);
  }

  lemma {:induction false} EntryAt(ts: seq<Topic>, i: nat, version: int16)
    requires i < |ts|
    ensures Entries(ts, version)[i] == EntryOf(ts[i], version)
  {
    if i > 0 {
      EntryAt(ts[1..], i - 1, version);
    }
  }

  /** Writes the topic array from the raw entries. */
  method WriteTopics(entries: seq<TopicEntry>, ghost ts: seq<Topic>, version: int16) returns (topicBuf: Bytes)
    requires entries == Entries(ts, version)
    ensures topicBuf == TopicArray(ts, version)
  {
    topicBuf := Put32(|entries|);
    assert ts[0..] == ts;
    for i := 0 to |entries|
      invariant topicBuf + PrintMany(ts[i..], TopicPrinter(version)) == TopicArray(ts, version)
    {
      PrintEntriesStep(topicBuf, ts, i, version);
      topicBuf := topicBuf + entries[i].rawBytes;
    }
    assert topicBuf + [] == topicBuf;
  }

  method BuildSyntheticResponse(
      p: MetadataResponse, interBroker: Bytes, primaryTopics: seq<TopicEntry>,
      secondaryBrokers: seq<Broker>, secondaryTopics: seq<TopicEntry>,
      ghost pts: seq<Topic>, ghost sts: seq<Topic>,
      host: Bytes, port: int32, version: int16)
    returns (r: Result<Bytes>)
    requires |host| <= MAX_STRING_LEN
    requires primaryTopics == Entries(pts, version) && secondaryTopics == Entries(sts, version)
    ensures r == RewrittenFrame(
      p.(brokers := Merge(p.brokers, secondaryBrokers, BrokerKey),
         bodyAfterBrokers := interBroker + TopicArray(Merge(pts, sts, TopicKey), version)), host, port, version)
  {
    var mergedBrokers := MergeBrokers(p.brokers, secondaryBrokers);
    var mergedTopics := MergeTopics(primaryTopics, secondaryTopics);
    MergeEntries(pts, sts, version);
    var brokerBuf := MetadataCodec.WriteBrokers(mergedBrokers, host, port, version);
    var topicBuf := WriteTopics(mergedTopics, Merge(pts, sts, TopicKey), version);
    r := MetadataCodec.AssembleFrame(p.correlationId, p.bodyBeforeBrokers, brokerBuf, interBroker, topicBuf);
  }

  /** A response frame read down to its topic entries. */
  datatype ParsedSide = ParsedSide(resp: MetadataResponse, interBroker: Bytes, topics: seq<TopicEntry>)

  method ParseSide(raw: Bytes, version: int16) returns (r: Result<ParsedSide>, ghost side: Side)
    ensures r.Err? ==> DecodeSide(raw, version) == Err(r.error)
    ensures r.Ok? ==> DecodeSide(raw, version) == Ok(side)
    ensures r.Ok? ==> r.value == ParsedSide(side.resp, side.section.interBroker, Entries(side.section.topics, version))
  {
    side := Side(MetadataResponse(0, 0, [], [], []), TopicSection([], []), []);
    var resp := ParseResponseFrame(raw, version);
    if resp.Err? {
      return Err(resp.error), side;
    }
    var section := ParseTopicArray(resp.value.bodyAfterBrokers, version);
    if section.Err? {
      return Err(section.error), side;
    }
    side := DecodeSide(raw, version).value;
    r := Ok(ParsedSide(resp.value, section.value.1, section.value.0));
  }

  method SynthesizeMetadataResponse(primary: Bytes, secondary: Option<Bytes>, host: Bytes, port: int32, version: int16)
    returns (r: Result<Bytes>)
    ensures r == Synthesize(primary, secondary, host, port, version)
  {
    if |host| > MAX_STRING_LEN {
      return Err(BrokerHostTooLong);
    }
    var p, pSide := ParseSide(primary, version);
    if p.Err? {
      return Err(p.error);
    }
    var secondaryBrokers: seq<Broker>, secondaryTopics: seq<TopicEntry> := [], [];
    ghost var sts: seq<Topic> := [];
    if secondary.Some? {
      var s, sSide := ParseSide(secondary.value, version);
      if s.Ok? {
        secondaryBrokers, secondaryTopics := s.value.resp.brokers, s.value.topics;
        sts := sSide.section.topics;
      }
    }
    r := BuildSyntheticResponse(p.value.resp, p.value.interBroker, p.value.topics, secondaryBrokers, secondaryTopics,
                                pSide.section.topics, sts, host, port, version);
  }
}

/** internal/routing/synthetic_metadata.go: merging the Metadata responses of two
    clusters into one that points every broker at the proxy. */
module SyntheticMetadata {
  import opened Wire
  import opened WireArrays
  import opened MetadataGrammar
  import opened TopicGrammar
  import opened MergeByKey
  import opened Picking

  /** A response read down to its topics.  `trailing` is what follows the topic
      array; the source does not look at it and does not carry it over. */
  datatype Side = Side(resp: MetadataResponse, section: TopicSection, trailing: Bytes)

  function DecodeSide(raw: Bytes, version: int16): Result<Side> {
    var resp :- DecodeFrame(raw, version);
    var (section, trailing) :- DecodeTopicSection(resp.bodyAfterBrokers, version);
    Ok(Side(resp, section, trailing))
  }

  const BrokerKey: Broker -> int32 := (b: Broker) => b.nodeId
  const TopicKey: Topic -> Bytes := (t: Topic) => t.header.name

  /** A missing or unreadable secondary response counts as none. */
  function ReadSecondary(secondary: Option<Bytes>, version: int16): Option<Side> {
    if secondary.None? then None
    else match DecodeSide(secondary.value, version)
      case Ok(s) => Some(s)
      case Err(_) => None
  }

  ghost function MergedBrokers(p: Side, s: Option<Side>): seq<Broker> {
    Merge(p.resp.brokers, if s.Some? then s.value.resp.brokers else [], BrokerKey)
  }

  ghost function MergedTopics(p: Side, s: Option<Side>): seq<Topic> {
    Merge(p.section.topics, if s.Some? then s.value.section.topics else [], TopicKey)
  }

  ghost function MergedSection(p: Side, s: Option<Side>): TopicSection {
    TopicSection(p.section.interBroker, MergedTopics(p, s))
  }

  ghost function MergedResponse(p: Side, s: Option<Side>, version: int16): MetadataResponse {
    p.resp.(brokers := MergedBrokers(p, s), bodyAfterBrokers := PrintSection(MergedSection(p, s), version))
  }

  ghost function Synthesize(
      primary: Bytes, secondary: Option<Bytes>, host: Bytes, port: int32, version: int16): Result<Bytes>
  {
    if |host| > MAX_STRING_LEN then Err(BrokerHostTooLong) else
    var p :- DecodeSide(primary, version);
    RewrittenFrame(MergedResponse(p, ReadSecondary(secondary, version), version), host, port, version)
  }

  // --------------------------------------------------------- what a merge keeps

  lemma SideIsWellFormed(raw: Bytes, s: Side, version: int16)
    requires DecodeSide(raw, version) == Ok(s)
    ensures WellFormed(s.resp, version) && ValidTopics(s.section.topics, version)
    ensures s.resp.bodyAfterBrokers == PrintSection(s.section, version) + s.trailing
  {
    FrameSplits(raw, s.resp, version);
    SectionSplits(s.resp.bodyAfterBrokers, s.section, s.trailing, version);
  }

  lemma MergeKeepsAll<T(!new), K>(primary: seq<T>, secondary: seq<T>, key: T -> K, valid: T -> bool)
    requires AllValid(primary, valid) && AllValid(secondary, valid)
    ensures AllValid(Merge(primary, secondary, key), valid)
  {
    MergeMeaning(primary, secondary, key);
    var r := Merge(primary, secondary, key);
    forall i | 0 <= i < |r|
      ensures valid(r[i])
    {
      if i < |primary| {
        assert r[i] == primary[i];
      } else {
        assert IsFirst(secondary, key, r[i]);
      }
    }
  }

  /** The merged brokers and topics are valid, and readdressing keeps them so. */
  lemma MergedIsWellFormed(p: Side, s: Option<Side>, host: Bytes, port: int32, version: int16)
    requires WellFormed(p.resp, version) && AllValid(p.section.topics, TopicCheck(version))
    requires s.Some? ==> WellFormed(s.value.resp, version) && AllValid(s.value.section.topics, TopicCheck(version))
    requires |host| <= MAX_STRING_LEN
    ensures WellFormed(ReaddressResponse(MergedResponse(p, s, version), host, port), version)
    ensures AllValid(MergedTopics(p, s), TopicCheck(version))
  {
    var sb := if s.Some? then s.value.resp.brokers else [];
    var st := if s.Some? then s.value.section.topics else [];
    MergeKeepsAll(p.resp.brokers, sb, BrokerKey, BrokerCheck(version));
    MergeKeepsAll(p.section.topics, st, TopicKey, TopicCheck(version));
    forall i | 0 <= i < |MergedBrokers(p, s)|
      ensures ValidBroker(MergedBrokers(p, s)[i], version)
    {
      assert BrokerCheck(version)(MergedBrokers(p, s)[i]);
    }
    ReaddressKeepsWellFormed(MergedResponse(p, s, version), host, port, version);
  }

  /** Frames within the size limit hold fewer topics than a signed count can say. */
  lemma TopicsFit(resp: MetadataResponse, section: TopicSection, version: int16)
    requires resp.bodyAfterBrokers == PrintSection(section, version)
    requires |PrintFrame(resp, version)| <= MAX_RESPONSE_SIZE
    ensures |section.topics| <= MAX_ARRAY_LEN
  {
    TopicsTakeSpace(section.topics, version);
  }

  /** A printed response whose topic section was put together from a readable one
      reads back as itself. */
  lemma PrintedSideReparses(resp: MetadataResponse, section: TopicSection, p: Side, version: int16)
    requires WellFormed(resp, version) && resp.bodyAfterBrokers == PrintSection(section, version)
    requires |PrintFrame(resp, version)| <= MAX_RESPONSE_SIZE
    requires SideHolds(p, version)
    requires section.interBroker == p.section.interBroker && AllValid(section.topics, TopicCheck(version))
    ensures DecodeSide(PrintFrame(resp, version), version) == Ok(Side(resp, section, []))
  {
    TopicsFit(resp, section, version);
    assert PrintFrame(resp, version) + [] == PrintFrame(resp, version);
    FrameInverts(resp, [], version);
    SectionInverts(p.resp.bodyAfterBrokers, p.section, p.trailing, section.topics, [], version);
    assert PrintSection(section, version) + [] == PrintSection(section, version);
  }

  predicate SideHolds(p: Side, version: int16) {
    DecodeTopicSection(p.resp.bodyAfterBrokers, version) == Ok((p.section, p.trailing))
  }

  lemma MergeReparses(p: Side, s: Option<Side>, host: Bytes, port: int32, out: Bytes, version: int16)
    requires WellFormed(p.resp, version) && AllValid(p.section.topics, TopicCheck(version))
    requires s.Some? ==> WellFormed(s.value.resp, version) && AllValid(s.value.section.topics, TopicCheck(version))
    requires SideHolds(p, version)
    requires RewrittenFrame(MergedResponse(p, s, version), host, port, version) == Ok(out)
    ensures DecodeSide(out, version)
         == Ok(Side(ReaddressResponse(MergedResponse(p, s, version), host, port), MergedSection(p, s), []))
  {
    MergedIsWellFormed(p, s, host, port, version);
    PrintedSideReparses(ReaddressResponse(MergedResponse(p, s, version), host, port), MergedSection(p, s), p, version);
  }

  lemma BytesAfterTopicsCount(resp: MetadataResponse, cut: MetadataResponse, trailing: Bytes, version: int16)
    requires cut == resp.(bodyAfterBrokers := cut.bodyAfterBrokers)
    requires resp.bodyAfterBrokers == cut.bodyAfterBrokers + trailing
    ensures |PrintFrame(resp, version)| == |PrintFrame(cut, version)| + |trailing|
  {
  }

  /** Rewriting with and without the bytes after the topics. */
  lemma RewriteOrCut(p: Side, host: Bytes, port: int32, version: int16)
    requires p.resp.bodyAfterBrokers == PrintSection(p.section, version) + p.trailing
    requires MergedSection(p, None) == p.section && MergedBrokers(p, None) == p.resp.brokers
    ensures var cut := RewrittenFrame(MergedResponse(p, None, version), host, port, version);
            cut == RewrittenFrame(p.resp, host, port, version) <==> p.trailing == [] || cut.Err?
  {
    var whole := ReaddressResponse(p.resp, host, port);
    var cut := ReaddressResponse(MergedResponse(p, None, version), host, port);
    BytesAfterTopicsCount(whole, cut, p.trailing, version);
    if p.trailing == [] {
      assert PrintSection(p.section, version) + [] == PrintSection(p.section, version);
    }
  }

  // ------------------------------------------------------------- main results

  /** A response is read down to its topics exactly when it starts with the printed
      form of a well-formed response whose tail is the printed form of a valid topic
      section, at every version. */
  lemma SideReaderInvertsPrinter(raw: Bytes, s: Side, version: int16)
    ensures DecodeSide(raw, version) == Ok(s)
       <==> && WellFormed(s.resp, version) && PrintFrame(s.resp, version) <= raw && |raw| <= 104_857_600
            && IsInterBroker(s.section.interBroker, version) && ValidTopics(s.section.topics, version)
            && s.resp.bodyAfterBrokers == PrintSection(s.section, version) + s.trailing
  {
    FrameReaderInvertsPrinter(raw, s.resp, version);
    SectionReaderInvertsPrinter(s.resp.bodyAfterBrokers, s.section, s.trailing, version);
  }

  lemma SynthesizeFrom(
      primary: Bytes, secondary: Option<Bytes>, host: Bytes, port: int32, version: int16, p: Side, s: Option<Side>)
    requires |host| <= MAX_STRING_LEN && DecodeSide(primary, version) == Ok(p) && ReadSecondary(secondary, version) == s
    ensures Synthesize(primary, secondary, host, port, version)
         == RewrittenFrame(MergedResponse(p, s, version), host, port, version)
  {
  }

  predicate IsReadable(p: Side, version: int16) {
    WellFormed(p.resp, version) && SideHolds(p, version)
  }

  lemma SideIsReadable(raw: Bytes, s: Side, version: int16)
    requires DecodeSide(raw, version) == Ok(s)
    ensures IsReadable(s, version) && AllValid(s.section.topics, TopicCheck(version))
  {
    SideIsWellFormed(raw, s, version);
  }

  /** Re-reading a synthesised frame gives back exactly the merge: the primary's
      correlation id, throttle and inter-broker fields; the primary's brokers and
      then the secondary's unseen ones, all at the proxy's address with their own
      racks; the primary's topics and then the secondary's unseen ones, as they
      were; and nothing after them. */
  lemma SynthesisReparses(
      primary: Bytes, secondary: Option<Bytes>, host: Bytes, port: int32, version: int16, p: Side, out: Bytes)
    requires DecodeSide(primary, version) == Ok(p)
    requires Synthesize(primary, secondary, host, port, version) == Ok(out)
    ensures var s := ReadSecondary(secondary, version);
            DecodeSide(out, version)
            == Ok(Side(ReaddressResponse(MergedResponse(p, s, version), host, port), MergedSection(p, s), []))
  {
    var s := ReadSecondary(secondary, version);
    SynthesizeFrom(primary, secondary, host, port, version, p, s);
    SideIsReadable(primary, p, version);
    SecondaryIsWellFormed(secondary, s, version);
    MergeReparses(p, s, host, port, out, version);
  }

  lemma SecondaryIsWellFormed(secondary: Option<Bytes>, s: Option<Side>, version: int16)
    requires ReadSecondary(secondary, version) == s
    ensures s.Some? ==> WellFormed(s.value.resp, version) && AllValid(s.value.section.topics, TopicCheck(version))
  {
    if s.Some? {
      SideIsWellFormed(secondary.value, s.value, version);
    }
  }

  lemma MergeWithNone(p: Side)
    ensures MergedBrokers(p, None) == p.resp.brokers && MergedTopics(p, None) == p.section.topics
    ensures MergedSection(p, None) == p.section
  {
    MergeAddsNothing(p.resp.brokers, [], BrokerKey);
    MergeAddsNothing(p.section.topics, [], TopicKey);
  }

  /** Reading a side reads its frame as the rewriter does. */
  lemma RewriteOfSide(raw: Bytes, host: Bytes, port: int32, version: int16, p: Side)
    requires DecodeSide(raw, version) == Ok(p)
    ensures Rewrite(raw, host, port, version) == RewrittenFrame(p.resp, host, port, version)
    ensures Synthesize(raw, None, host, port, version)
         == RewrittenFrame(MergedResponse(p, None, version), host, port, version)
  {
  }

  /** Without a secondary, synthesis is plain rewriting byte for byte, errors included,
      exactly when nothing follows the primary's topic array or both are refused; the
      rewriter keeps such bytes and the synthesiser drops them. */
  lemma SynthesisWithoutSecondary(primary: Bytes, host: Bytes, port: int32, version: int16)
    requires DecodeSide(primary, version).Ok?
    ensures Synthesize(primary, None, host, port, version) == Rewrite(primary, host, port, version)
       <==> DecodeSide(primary, version).value.trailing == [] || Synthesize(primary, None, host, port, version).Err?
  {
    var p := DecodeSide(primary, version).value;
    SideIsWellFormed(primary, p, version);
    RewriteOfSide(primary, host, port, version, p);
    MergeWithNone(p);
    RewriteOrCut(p, host, port, version);
  }

  ghost predicate AddsNothing(p: Side, s: Side) {
    && KeysOf(s.resp.brokers, BrokerKey) <= KeysOf(p.resp.brokers, BrokerKey)
    && KeysOf(s.section.topics, TopicKey) <= KeysOf(p.section.topics, TopicKey)
  }

  lemma AddsNothingMerges(p: Side, s: Side, version: int16)
    requires AddsNothing(p, s)
    ensures MergedResponse(p, Some(s), version) == MergedResponse(p, None, version)
  {
    MergeWithNone(p);
    MergeAddsNothing(p.resp.brokers, s.resp.brokers, BrokerKey);
    MergeAddsNothing(p.section.topics, s.section.topics, TopicKey);
  }

  lemma SameFrameAddsNothing(p: Side, s: Side, host: Bytes, port: int32, out: Bytes, version: int16)
    requires WellFormed(p.resp, version) && AllValid(p.section.topics, TopicCheck(version)) && SideHolds(p, version)
    requires WellFormed(s.resp, version) && AllValid(s.section.topics, TopicCheck(version))
    requires RewrittenFrame(MergedResponse(p, Some(s), version), host, port, version) == Ok(out)
    requires RewrittenFrame(MergedResponse(p, None, version), host, port, version) == Ok(out)
    ensures AddsNothing(p, s)
  {
    MergeReparses(p, Some(s), host, port, out, version);
    MergeReparses(p, None, host, port, out, version);
    MergeWithNone(p);
    assert |MergedBrokers(p, Some(s))| == |p.resp.brokers|;
    MergeMeaning(p.resp.brokers, s.resp.brokers, BrokerKey);
    MergeAddsNothing(p.resp.brokers, s.resp.brokers, BrokerKey);
    MergeAddsNothing(p.section.topics, s.section.topics, TopicKey);
  }

  lemma UselessMerge(p: Side, s: Side, host: Bytes, port: int32, version: int16)
    requires IsReadable(p, version) && AllValid(p.section.topics, TopicCheck(version))
    requires IsReadable(s, version) && AllValid(s.section.topics, TopicCheck(version))
    ensures var alone := RewrittenFrame(MergedResponse(p, None, version), host, port, version);
            RewrittenFrame(MergedResponse(p, Some(s), version), host, port, version) == alone
            <==> alone.Err? || AddsNothing(p, s)
  {
    var alone := RewrittenFrame(MergedResponse(p, None, version), host, port, version);
    if AddsNothing(p, s) {
      AddsNothingMerges(p, s, version);
    } else if alone.Err? {
      RefusedAlone(p, s, host, port, version);
    } else if RewrittenFrame(MergedResponse(p, Some(s), version), host, port, version) == alone {
      SameFrameAddsNothing(p, s, host, port, alone.value, version);
    }
  }

  lemma {:induction false} PrintManyAppend<T>(xs: seq<T>, ys: seq<T>, print_: T -> Bytes)
    ensures |PrintMany(xs + ys, print_)| == |PrintMany(xs, print_)| + |PrintMany(ys, print_)|
  {
    if xs == [] {
      assert xs + ys == ys;
    } else {
      assert (xs + ys)[1..] == xs[1..] + ys;
      PrintManyAppend(xs[1..], ys, print_);
    }
  }

  lemma ReaddressAppend(xs: seq<Broker>, ys: seq<Broker>, host: Bytes, port: int32)
    ensures Readdress(xs + ys, host, port) == Readdress(xs, host, port) + Readdress(ys, host, port)
  {
    var whole, parts := Readdress(xs + ys, host, port), Readdress(xs, host, port) + Readdress(ys, host, port);
    forall i | 0 <= i < |whole|
      ensures whole[i] == parts[i]
    {
      assert whole[i] == (xs + ys)[i].(host := host, port := port);
    }
  }

  lemma FrameLength(resp: MetadataResponse, version: int16)
    ensures |PrintFrame(resp, version)| == 12 + |resp.bodyBeforeBrokers|
      + |PrintMany(resp.brokers, BrokerPrinter(version))| + |resp.bodyAfterBrokers|
  {
  }

  /** A merge is at least as long as the primary alone. */
  lemma MergeIsLonger(p: Side, s: Side, host: Bytes, port: int32, version: int16)
    ensures |PrintFrame(ReaddressResponse(MergedResponse(p, Some(s), version), host, port), version)|
         >= |PrintFrame(ReaddressResponse(MergedResponse(p, None, version), host, port), version)|
  {
    var pb, pt := p.resp.brokers, p.section.topics;
    var newBrokers := Unseen(s.resp.brokers, BrokerKey, KeysOf(pb, BrokerKey));
    var newTopics := Unseen(s.section.topics, TopicKey, KeysOf(pt, TopicKey));
    MergeWithNone(p);
    ReaddressAppend(pb, newBrokers, host, port);
    PrintManyAppend(Readdress(pb, host, port), Readdress(newBrokers, host, port), BrokerPrinter(version));
    PrintManyAppend(pt, newTopics, TopicPrinter(version));
    FrameLength(ReaddressResponse(MergedResponse(p, Some(s), version), host, port), version);
    FrameLength(ReaddressResponse(MergedResponse(p, None, version), host, port), version);
  }

  lemma RefusedAlone(p: Side, s: Side, host: Bytes, port: int32, version: int16)
    requires RewrittenFrame(MergedResponse(p, None, version), host, port, version).Err?
    ensures RewrittenFrame(MergedResponse(p, Some(s), version), host, port, version)
         == RewrittenFrame(MergedResponse(p, None, version), host, port, version)
  {
    MergeIsLonger(p, s, host, port, version);
  }

  /** The secondary, if it can be read, lists no broker and no topic the primary lacks. */
  ghost predicate IsUseless(p: Side, s: Option<Side>) {
    s.Some? ==> AddsNothing(p, s.value)
  }

  /** On every input, errors included: a secondary leaves the result of synthesis as it
      would be without one exactly when that is an error, or the secondary cannot be
      read or adds no new node id and no new topic name. */
  lemma UselessSecondary(primary: Bytes, secondary: Bytes, host: Bytes, port: int32, version: int16)
    ensures Synthesize(primary, Some(secondary), host, port, version) == Synthesize(primary, None, host, port, version)
       <==> Synthesize(primary, None, host, port, version).Ok? ==>
              IsUseless(DecodeSide(primary, version).value, ReadSecondary(Some(secondary), version))
  {
    if |host| <= MAX_STRING_LEN && DecodeSide(primary, version).Ok? {
      var p := DecodeSide(primary, version).value;
      SynthesizeFrom(primary, None, host, port, version, p, None);
      match DecodeSide(secondary, version)
      case Err(_) =>
        SynthesizeFrom(primary, Some(secondary), host, port, version, p, None);
      case Ok(s) =>
        SynthesizeFrom(primary, Some(secondary), host, port, version, p, Some(s));
        SideIsReadable(primary, p, version);
        SideIsReadable(secondary, s, version);
        UselessMerge(p, s, host, port, version);
    }
  }

  /** In particular a cluster merged with itself is the cluster alone. */
  lemma SelfMerge(primary: Bytes, host: Bytes, port: int32, version: int16)
    ensures Synthesize(primary, Some(primary), host, port, version) == Synthesize(primary, None, host, port, version)
  {
    if DecodeSide(primary, version).Ok? {
      var p := DecodeSide(primary, version).value;
      AddsNothingMerges(p, p, version);
    }
  }

  lemma KeysOfReaddressed(bs: seq<Broker>, host: Bytes, port: int32)
    ensures KeysOf(Readdress(bs, host, port), BrokerKey) == KeysOf(bs, BrokerKey)
  {
    var r := Readdress(bs, host, port);
    forall k
      ensures k in KeysOf(r, BrokerKey) <==> k in KeysOf(bs, BrokerKey)
    {
      if k in KeysOf(bs, BrokerKey) {
        var i :| 0 <= i < |bs| && bs[i].nodeId == k;
        assert r[i] in r;
      }
      if k in KeysOf(r, BrokerKey) {
        var i :| 0 <= i < |r| && r[i].nodeId == k;
        assert bs[i] in bs;
      }
    }
  }

  /** Synthesis is idempotent: merging the same secondary into the result again
      gives the result again. */
  lemma SynthesisIdempotent(
      primary: Bytes, secondary: Option<Bytes>, host: Bytes, port: int32, version: int16)
    requires Synthesize(primary, secondary, host, port, version).Ok?
    ensures var out := Synthesize(primary, secondary, host, port, version).value;
            Synthesize(out, secondary, host, port, version) == Ok(out)
  {
    var p, s := DecodeSide(primary, version).value, ReadSecondary(secondary, version);
    var out := Synthesize(primary, secondary, host, port, version).value;
    SynthesisReparses(primary, secondary, host, port, version, p, out);
    var q := DecodeSide(out, version).value;
    var sb := if s.Some? then s.value.resp.brokers else [];
    var st := if s.Some? then s.value.section.topics else [];
    MergeMeaning(p.resp.brokers, sb, BrokerKey);
    MergeMeaning(p.section.topics, st, TopicKey);
    KeysOfReaddressed(MergedBrokers(p, s), host, port);
    MergeAddsNothing(q.resp.brokers, sb, BrokerKey);
    MergeAddsNothing(q.section.topics, st, TopicKey);
    assert Readdress(q.resp.brokers, host, port) == q.resp.brokers;
    assert q.resp == ReaddressResponse(MergedResponse(q, s, version), host, port);
  }

  // --------------------------------------------------- the result, field by field

  /** No broker of `own` and none before it in `other` has the node id of entry `j`. */
  predicate IsNewBroker(own: seq<Broker>, other: seq<Broker>, j: nat)
    requires j < |other|
  {
    && (forall i :: 0 <= i < |own| ==> own[i].nodeId != other[j].nodeId)
    && (forall i :: 0 <= i < j ==> other[i].nodeId != other[j].nodeId)
  }

  /** The same for topics and their names. */
  predicate IsNewTopic(own: seq<Topic>, other: seq<Topic>, j: nat)
    requires j < |other|
  {
    && (forall i :: 0 <= i < |own| ==> own[i].header.name != other[j].header.name)
    && (forall i :: 0 <= i < j ==> other[i].header.name != other[j].header.name)
  }

  /** The brokers are the primary's and then those of `other` at these positions, every
      address the proxy's. */
  ghost predicate ListsBrokers(
      r: seq<Broker>, own: seq<Broker>, other: seq<Broker>, at: seq<nat>, host: Bytes, port: int32)
  {
    && |r| == |own| + |at|
    && (forall i :: 0 <= i < |own| ==> r[i] == Broker(own[i].nodeId, host, port, own[i].rack))
    && (forall k :: 0 <= k < |at| ==>
          at[k] < |other| && r[|own| + k] == Broker(other[at[k]].nodeId, host, port, other[at[k]].rack))
  }

  ghost predicate ListsTopics(r: seq<Topic>, own: seq<Topic>, other: seq<Topic>, at: seq<nat>) {
    && |r| == |own| + |at| && own <= r
    && (forall k :: 0 <= k < |at| ==> at[k] < |other| && r[|own| + k] == other[at[k]])
  }

  lemma NewBrokers(own: seq<Broker>, other: seq<Broker>, host: Bytes, port: int32) returns (at: seq<nat>)
    ensures Increasing(at) && forall j :: 0 <= j < |other| ==> (j in at <==> IsNewBroker(own, other, j))
    ensures ListsBrokers(Readdress(Merge(own, other, BrokerKey), host, port), own, other, at, host, port)
  {
    var seen := KeysOf(own, BrokerKey);
    at := UnseenAt(other, BrokerKey, seen);
    forall j: nat | j < |other|
      ensures IsNew(other, BrokerKey, seen, j) <==> IsNewBroker(own, other, j)
    {
      InKeys(own, BrokerKey, other[j].nodeId);
      assert forall i :: 0 <= i < |own| ==> BrokerKey(own[i]) == own[i].nodeId;
      assert forall i :: 0 <= i < j ==> BrokerKey(other[i]) == other[i].nodeId;
    }
  }

  lemma NewTopics(own: seq<Topic>, other: seq<Topic>) returns (at: seq<nat>)
    ensures Increasing(at) && forall j :: 0 <= j < |other| ==> (j in at <==> IsNewTopic(own, other, j))
    ensures ListsTopics(Merge(own, other, TopicKey), own, other, at)
  {
    var seen := KeysOf(own, TopicKey);
    at := UnseenAt(other, TopicKey, seen);
    forall j: nat | j < |other|
      ensures IsNew(other, TopicKey, seen, j) <==> IsNewTopic(own, other, j)
    {
      InKeys(own, TopicKey, other[j].header.name);
      assert forall i :: 0 <= i < |own| ==> TopicKey(own[i]) == own[i].header.name;
      assert forall i :: 0 <= i < j ==> TopicKey(other[i]) == other[i].header.name;
    }
  }

  /** A synthesised frame, field by field, whether or not the secondary is there and can
      be read: the primary's fields; its brokers and then exactly the secondary's with
      a new node id, each first entry, in order, every address the proxy's; its topics
      and then exactly the secondary's with a new name; nothing after them. */
  lemma SynthesisListsBoth(
      primary: Bytes, secondary: Option<Bytes>, host: Bytes, port: int32, version: int16,
      p: Side, otherBrokers: seq<Broker>, otherTopics: seq<Topic>, out: Bytes)
    returns (q: Side, brokersAt: seq<nat>, topicsAt: seq<nat>)
    requires DecodeSide(primary, version) == Ok(p)
    requires if secondary.Some? && DecodeSide(secondary.value, version).Ok?
      then var s := DecodeSide(secondary.value, version).value;
           otherBrokers == s.resp.brokers && otherTopics == s.section.topics
      else otherBrokers == [] && otherTopics == []
    requires Synthesize(primary, secondary, host, port, version) == Ok(out)
    ensures DecodeSide(out, version) == Ok(q)
    ensures q.resp.correlationId == p.resp.correlationId && q.resp.throttleTimeMs == p.resp.throttleTimeMs
    ensures q.section.interBroker == p.section.interBroker && q.trailing == []
    ensures Increasing(brokersAt)
    ensures forall j :: 0 <= j < |otherBrokers| ==> (j in brokersAt <==> IsNewBroker(p.resp.brokers, otherBrokers, j))
    ensures ListsBrokers(q.resp.brokers, p.resp.brokers, otherBrokers, brokersAt, host, port)
    ensures Increasing(topicsAt)
    ensures forall j :: 0 <= j < |otherTopics| ==> (j in topicsAt <==> IsNewTopic(p.section.topics, otherTopics, j))
    ensures ListsTopics(q.section.topics, p.section.topics, otherTopics, topicsAt)
  {
    var s := ReadSecondary(secondary, version);
    OthersOf(secondary, version, p, s, otherBrokers, otherTopics);
    SynthesisReparses(primary, secondary, host, port, version, p, out);
    q := Side(ReaddressResponse(MergedResponse(p, s, version), host, port), MergedSection(p, s), []);
    brokersAt := NewBrokers(p.resp.brokers, otherBrokers, host, port);
    topicsAt := NewTopics(p.section.topics, otherTopics);
  }

  lemma OthersOf(
      secondary: Option<Bytes>, version: int16, p: Side, s: Option<Side>,
      otherBrokers: seq<Broker>, otherTopics: seq<Topic>)
    requires ReadSecondary(secondary, version) == s
    requires if secondary.Some? && DecodeSide(secondary.value, version).Ok?
      then var s := DecodeSide(secondary.value, version).value;
           otherBrokers == s.resp.brokers && otherTopics == s.section.topics
      else otherBrokers == [] && otherTopics == []
    ensures MergedBrokers(p, s) == Merge(p.resp.brokers, otherBrokers, BrokerKey)
    ensures MergedTopics(p, s) == Merge(p.section.topics, otherTopics, TopicKey)
  {
  }

  /** When synthesis succeeds, exactly: the proxy's host is at most 32767 bytes, the
      primary can be read, and the frame is at most 100 MiB; the first of these that
      fails is the error. */
  lemma SynthesisAccepts(
      primary: Bytes, secondary: Option<Bytes>, host: Bytes, port: int32, version: int16)
    ensures var r := Synthesize(primary, secondary, host, port, version);
            if |host| > 32767 then r == Err(BrokerHostTooLong)
            else match DecodeSide(primary, version)
              case Err(e) => r == Err(e)
              case Ok(p) =>
                var merged := MergedResponse(p, ReadSecondary(secondary, version), version);
                var len := |PrintFrame(merged, version)| + |merged.brokers| * |host| - HostBytes(merged.brokers);
                && (r == Err(ResponseTooLarge) <==> len > 104_857_600)
                && (r.Ok? <==> len <= 104_857_600)
                && (r.Ok? ==> |r.value| == len)
  {
    if |host| <= 32767 && DecodeSide(primary, version).Ok? {
      var p := DecodeSide(primary, version).value;
      RewrittenLength(MergedResponse(p, ReadSecondary(secondary, version), version), host, port, version);
    }
  }
}

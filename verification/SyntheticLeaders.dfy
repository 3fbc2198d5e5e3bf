/** The leader map of a synthesised version 0 frame, as the leader cache's own
    parser reads it. */
module SyntheticLeaders {
  import opened Wire
  import opened WireArrays
  import opened MetadataGrammar
  import opened TopicGrammar
  import opened MergeByKey
  import opened SyntheticMetadata
  import opened LeaderGrammar
  import opened LastWins
  import opened LeaderLaws

  /** Whatever topic the metadata reader accepts the leader parser can read. */
  lemma ValidTopicsAreReadable(ts: seq<Topic>)
    requires AllValid(ts, TopicCheck(0))
    ensures AllValid(ts, IsReadableTopic)
  {
    forall i | 0 <= i < |ts|
      ensures IsReadableTopic(ts[i])
    {
      assert TopicCheck(0)(ts[i]);
      var ps := ts[i].partitions;
      forall j | 0 <= j < |ps|
        ensures IsReadablePartition(ps[j])
      {
        assert PartitionCheck(0)(ps[j]);
      }
    }
  }

  lemma SectionLeaders(resp: MetadataResponse, section: TopicSection, trailing: Bytes)
    requires AllValid(resp.brokers, IsReadableBroker) && |resp.brokers| < 0x1_0000_0000
    requires ValidTopics(section.topics, 0) && section.interBroker == []
    requires resp.bodyAfterBrokers == PrintSection(section, 0) + trailing
    ensures ParseLeaders(BodyV0(resp.correlationId, resp.brokers, resp.bodyAfterBrokers))
         == Leaders(resp.brokers, section.topics)
  {
    ValidTopicsAreReadable(section.topics);
    assert PrintSection(section, 0) == TopicArray(section.topics, 0);
    LeaderParserInvertsPrinter(resp.correlationId, resp.brokers, section.topics, trailing);
  }

  /** On a frame the synthesiser can read, the leader parser reads the same brokers
      and topics; bytes after the topics do not matter to it. */
  lemma SideLeaders(raw: Bytes, s: Side)
    requires DecodeSide(raw, 0) == Ok(s)
    ensures ParseLeaders(FrameBody(raw)) == Leaders(s.resp.brokers, s.section.topics)
  {
    SideIsWellFormed(raw, s, 0);
    FrameBodyOf(raw, s.resp);
    NoInterBroker(s.resp.bodyAfterBrokers, s.section, s.trailing);
    SectionLeaders(s.resp, s.section, s.trailing);
  }

  lemma NoInterBroker(d: Bytes, section: TopicSection, rest: Bytes)
    requires DecodeTopicSection(d, 0) == Ok((section, rest))
    ensures section.interBroker == []
  {
  }

  lemma SynthesisedLeaders(primary: Bytes, secondary: Option<Bytes>, host: Bytes, port: int32, p: Side, out: Bytes)
    requires DecodeSide(primary, 0) == Ok(p)
    requires Synthesize(primary, secondary, host, port, 0) == Ok(out)
    ensures var s := ReadSecondary(secondary, 0);
            ParseLeaders(FrameBody(out)) == Leaders(Readdress(MergedBrokers(p, s), host, port), MergedTopics(p, s))
  {
    var s := ReadSecondary(secondary, 0);
    SynthesisReparses(primary, secondary, host, port, 0, p, out);
    SideLeaders(out, Side(ReaddressResponse(MergedResponse(p, s, 0), host, port), MergedSection(p, s), []));
  }

  // ---------------------------------------------------------- merging leader maps

  lemma {:induction false} FillAppend<T, K, V>(xs: seq<T>, ys: seq<T>, acc: map<K, V>, entry: T -> Option<(K, V)>)
    ensures Fill(xs + ys, acc, entry) == Fill(ys, Fill(xs, acc, entry), entry)
  {
    if xs == [] {
      assert xs + ys == ys;
    } else {
      assert (xs + ys)[1..] == xs[1..] + ys;
      FillAppend(xs[1..], ys, Add(acc, entry(xs[0])), entry);
    }
  }

  lemma BrokerKeys(bs: seq<Broker>)
    ensures BrokersByNode(bs).Keys == KeysOf(bs, BrokerKey)
  {
    forall k: int32
      ensures k in BrokersByNode(bs) <==> k in KeysOf(bs, BrokerKey)
    {
      FillKeys(bs, map[], BrokerEntry, k);
      if Mentions(bs, BrokerEntry, k) {
        var i :| 0 <= i < |bs| && HasKey(bs[i], BrokerEntry, k);
        assert bs[i] in bs;
      }
      if k in KeysOf(bs, BrokerKey) {
        var i :| 0 <= i < |bs| && bs[i].nodeId == k;
        assert HasKey(bs[i], BrokerEntry, k);
      }
    }
  }

  lemma MergedNodes(pb: seq<Broker>, sb: seq<Broker>, host: Bytes, port: int32)
    ensures var merged := BrokersByNode(Readdress(Merge(pb, sb, BrokerKey), host, port));
            && merged.Keys == BrokersByNode(pb).Keys + BrokersByNode(sb).Keys
            && forall k :: k in merged ==> merged[k] == Address(host, Unsigned32(port))
  {
    var bs := Merge(pb, sb, BrokerKey);
    ReaddressedNodes(bs, map[], map[], host, port);
    BrokerKeys(pb);
    BrokerKeys(sb);
    BrokerKeys(bs);
    MergeMeaning(pb, sb, BrokerKey);
  }

  /** A topic whose leaders are all known keeps its partitions when more brokers are
      known and all of them are at one address. */
  lemma MorePartitionBrokers(t: Topic, few: BrokerMap, many: BrokerMap, addr: Bytes)
    requires !AnyBad(t.partitions, IsLeaderless(few)) && few.Keys <= many.Keys
    requires forall k :: k in many ==> many[k] == addr
    ensures !AnyBad(t.partitions, IsLeaderless(many))
    ensures RedirectedTopic(PartitionLeaders(t, few), PartitionLeaders(t, many), addr)
  {
    var ps := t.partitions;
    forall i | 0 <= i < |ps|
      ensures !IsLeaderless(few)(ps[i]) && !IsLeaderless(many)(ps[i])
    {
    }
    forall x
      ensures x in PartitionLeaders(t, few) <==> x in PartitionLeaders(t, many)
      ensures x in PartitionLeaders(t, many) ==> PartitionLeaders(t, many)[x] == addr
    {
      FillKeys(ps, map[], PartitionEntry(few), x);
      FillKeys(ps, map[], PartitionEntry(many), x);
      forall i | 0 <= i < |ps|
        ensures HasKey(ps[i], PartitionEntry(few), x) <==> HasKey(ps[i], PartitionEntry(many), x)
      {
      }
      if Mentions(ps, PartitionEntry(many), x) {
        var i := LastExists(ps, PartitionEntry(many), x);
        FillValue(ps, map[], PartitionEntry(many), x, i);
      }
    }
  }

  ghost predicate KnownTopics(ts: seq<Topic>, brokers: BrokerMap) {
    !AnyBad(ts, IsBadTopic(brokers))
  }

  /** The leaders of the merged topics all lie in one list or the other, so they are
      known. */
  lemma MergedTopicsKnown(pt: seq<Topic>, st: seq<Topic>, bp: BrokerMap, bs: BrokerMap, many: BrokerMap, addr: Bytes)
    requires KnownTopics(pt, bp) && KnownTopics(st, bs) && many.Keys == bp.Keys + bs.Keys
    requires forall k :: k in many ==> many[k] == addr
    ensures KnownTopics(Merge(pt, st, TopicKey), many)
  {
    var r := Merge(pt, st, TopicKey);
    MergeMeaning(pt, st, TopicKey);
    forall i | 0 <= i < |r|
      ensures !IsBadTopic(many)(r[i])
    {
      if i < |pt| {
        assert r[i] == pt[i] && !IsBadTopic(bp)(pt[i]);
        if r[i].header.errorCode == 0 {
          MorePartitionBrokers(r[i], bp, many, addr);
        }
      } else {
        assert IsFirst(st, TopicKey, r[i]);
        assert !IsBadTopic(bs)(st[FirstWith(st, TopicKey, TopicKey(r[i]))]);
        if r[i].header.errorCode == 0 {
          MorePartitionBrokers(r[i], bs, many, addr);
        }
      }
    }
  }

  /** A topic list read with few brokers and with more brokers at one address. */
  lemma MoreBrokers(ts: seq<Topic>, few: BrokerMap, many: BrokerMap, addr: Bytes)
    requires KnownTopics(ts, few) && few.Keys <= many.Keys
    requires forall k :: k in many ==> many[k] == addr
    ensures Redirected(Fill(ts, map[], TopicLeaderEntry(few)), Fill(ts, map[], TopicLeaderEntry(many)), addr)
  {
    var a, b := Fill(ts, map[], TopicLeaderEntry(few)), Fill(ts, map[], TopicLeaderEntry(many));
    forall name
      ensures name in a <==> name in b
      ensures name in a ==> RedirectedTopic(a[name], b[name], addr)
    {
      FillKeys(ts, map[], TopicLeaderEntry(few), name);
      FillKeys(ts, map[], TopicLeaderEntry(many), name);
      forall i | 0 <= i < |ts|
        ensures HasKey(ts[i], TopicLeaderEntry(few), name) <==> HasKey(ts[i], TopicLeaderEntry(many), name)
      {
      }
      if Mentions(ts, TopicLeaderEntry(few), name) {
        var i := LastExists(ts, TopicLeaderEntry(few), name);
        FillValue(ts, map[], TopicLeaderEntry(few), name, i);
        FillValue(ts, map[], TopicLeaderEntry(many), name, i);
        assert !IsBadTopic(few)(ts[i]);
        MorePartitionBrokers(ts[i], few, many, addr);
      }
    }
  }

  ghost predicate DistinctNames(ts: seq<Topic>) {
    forall i, j :: 0 <= i < j < |ts| ==> ts[i].header.name != ts[j].header.name
  }

  /** A name the first list does not have keeps its entry of the second list. */
  lemma NewNameMentioned(pt: seq<Topic>, st: seq<Topic>, entry: Topic -> Option<(Bytes, PartitionMap)>, name: Bytes)
    requires DistinctNames(st) && name !in KeysOf(pt, TopicKey) && Mentions(st, entry, name)
    requires forall t :: entry(t).Some? ==> entry(t).value.0 == TopicKey(t)
    ensures Mentions(Unseen(st, TopicKey, KeysOf(pt, TopicKey)), entry, name)
  {
    var seen := KeysOf(pt, TopicKey);
    var added := Unseen(st, TopicKey, seen);
    var i :| 0 <= i < |st| && HasKey(st[i], entry, name);
    assert st[i] in st && TopicKey(st[i]) == name;
    UnseenKeys(st, TopicKey, seen);
    assert name in KeysOf(added, TopicKey);
    var j :| 0 <= j < |added| && TopicKey(added[j]) == name;
    UnseenAreFirst(st, TopicKey, seen, j);
    assert added[j] == st[i];
    assert HasKey(added[j], entry, name);
  }

  /** Filling from a merge: names of the first list have its values. */
  lemma FillMergedOld(pt: seq<Topic>, st: seq<Topic>, brokers: BrokerMap, name: Bytes)
    requires name in KeysOf(pt, TopicKey)
    ensures var entry := TopicLeaderEntry(brokers);
            var m, mp := Fill(Merge(pt, st, TopicKey), map[], entry), Fill(pt, map[], entry);
            (name in m <==> name in mp) && (name in m ==> m[name] == mp[name])
  {
    var entry, seen := TopicLeaderEntry(brokers), KeysOf(pt, TopicKey);
    var added := Unseen(st, TopicKey, seen);
    var mp := Fill(pt, map[], entry);
    FillAppend(pt, added, map[], entry);
    FillKeys(added, mp, entry, name);
    forall j | 0 <= j < |added|
      ensures !HasKey(added[j], entry, name)
    {
      UnseenAreFirst(st, TopicKey, seen, j);
    }
    if name in mp {
      FillUnmentioned(added, mp, entry, name);
    }
  }

  /** Other names have the second list's. */
  lemma FillMerged(pt: seq<Topic>, st: seq<Topic>, brokers: BrokerMap, name: Bytes)
    requires DistinctNames(st) && name !in KeysOf(pt, TopicKey)
    ensures var entry := TopicLeaderEntry(brokers);
            var m, ms := Fill(Merge(pt, st, TopicKey), map[], entry), Fill(st, map[], entry);
            && name !in Fill(pt, map[], entry)
            && (name in m <==> name in ms) && (name in m ==> m[name] == ms[name])
  {
    var entry, seen := TopicLeaderEntry(brokers), KeysOf(pt, TopicKey);
    var added := Unseen(st, TopicKey, seen);
    FillAppend(pt, added, map[], entry);
    FillKeys(added, Fill(pt, map[], entry), entry, name);
    FillKeys(pt, map[], entry, name);
    FillKeys(st, map[], entry, name);
    NameNotMentioned(pt, entry, name);
    if Mentions(st, entry, name) {
      NewNameMentioned(pt, st, entry, name);
    }
    if Mentions(added, entry, name) {
      FillMergedNew(pt, st, brokers, name);
    }
  }

  lemma NameNotMentioned(ts: seq<Topic>, entry: Topic -> Option<(Bytes, PartitionMap)>, name: Bytes)
    requires name !in KeysOf(ts, TopicKey)
    requires forall t :: entry(t).Some? ==> entry(t).value.0 == TopicKey(t)
    ensures !Mentions(ts, entry, name)
  {
    forall i | 0 <= i < |ts|
      ensures !HasKey(ts[i], entry, name)
    {
      assert ts[i] in ts;
    }
  }

  lemma FillMergedNew(pt: seq<Topic>, st: seq<Topic>, brokers: BrokerMap, name: Bytes)
    requires DistinctNames(st) && name !in KeysOf(pt, TopicKey)
    requires Mentions(Unseen(st, TopicKey, KeysOf(pt, TopicKey)), TopicLeaderEntry(brokers), name)
    ensures var entry := TopicLeaderEntry(brokers);
            var m, ms := Fill(Merge(pt, st, TopicKey), map[], entry), Fill(st, map[], entry);
            name in m && name in ms && m[name] == ms[name]
  {
    var entry, seen := TopicLeaderEntry(brokers), KeysOf(pt, TopicKey);
    var added := Unseen(st, TopicKey, seen);
    FillAppend(pt, added, map[], entry);
    var j := LastExists(added, entry, name);
    UnseenAreFirst(st, TopicKey, seen, j);
    var i := FirstWith(st, TopicKey, name);
    assert st[i] == added[j];
    FillValue(added, Fill(pt, map[], entry), entry, name, j);
    FillValue(st, map[], entry, name, i);
  }

  /** `m` has the topics of `mp`, and those of `ms` outside `names`, each with its own
      partitions, and every leader at `addr`. */
  ghost predicate Combined(m: LeaderMap, mp: LeaderMap, ms: LeaderMap, names: set<Bytes>, addr: Bytes) {
    && m.Keys == mp.Keys + (ms.Keys - names)
    && (forall t :: t in mp ==> RedirectedTopic(mp[t], m[t], addr))
    && (forall t :: t in ms && t !in names ==> RedirectedTopic(ms[t], m[t], addr))
  }

  lemma LeadersOfMerge(pt: seq<Topic>, st: seq<Topic>, bp: BrokerMap, bs: BrokerMap, many: BrokerMap, addr: Bytes)
    requires KnownTopics(pt, bp) && KnownTopics(st, bs) && many.Keys == bp.Keys + bs.Keys
    requires forall k :: k in many ==> many[k] == addr
    requires DistinctNames(st)
    ensures Combined(Fill(Merge(pt, st, TopicKey), map[], TopicLeaderEntry(many)),
                     Fill(pt, map[], TopicLeaderEntry(bp)), Fill(st, map[], TopicLeaderEntry(bs)),
                     KeysOf(pt, TopicKey), addr)
  {
    var m := Fill(Merge(pt, st, TopicKey), map[], TopicLeaderEntry(many));
    var mp, ms := Fill(pt, map[], TopicLeaderEntry(bp)), Fill(st, map[], TopicLeaderEntry(bs));
    MoreBrokers(pt, bp, many, addr);
    MoreBrokers(st, bs, many, addr);
    forall t
      ensures t in m <==> t in mp || (t in ms && t !in KeysOf(pt, TopicKey))
      ensures t in mp ==> RedirectedTopic(mp[t], m[t], addr)
      ensures t in ms && t !in KeysOf(pt, TopicKey) ==> RedirectedTopic(ms[t], m[t], addr)
    {
      if t in KeysOf(pt, TopicKey) {
        FillMergedOld(pt, st, many, t);
      } else {
        FillMerged(pt, st, many, t);
      }
    }
  }

  lemma MergedLeaders(
      p: Side, s: Side, host: Bytes, port: int32, mp: LeaderMap, ms: LeaderMap)
    requires DistinctNames(s.section.topics)
    requires Leaders(p.resp.brokers, p.section.topics) == Ok(mp)
    requires Leaders(s.resp.brokers, s.section.topics) == Ok(ms)
    ensures var r := Leaders(Readdress(MergedBrokers(p, Some(s)), host, port), MergedTopics(p, Some(s)));
            r.Ok? && Combined(r.value, mp, ms, KeysOf(p.section.topics, TopicKey), Address(host, Unsigned32(port)))
  {
    var pt, st := p.section.topics, s.section.topics;
    var bp, bs := BrokersByNode(p.resp.brokers), BrokersByNode(s.resp.brokers);
    var many := BrokersByNode(Readdress(MergedBrokers(p, Some(s)), host, port));
    var addr := Address(host, Unsigned32(port));
    MergedNodes(p.resp.brokers, s.resp.brokers, host, port);
    MergedTopicsKnown(pt, st, bp, bs, many, addr);
    LeadersOfMerge(pt, st, bp, bs, many, addr);
  }

  /** The first entry of each topic name: what a merge takes from a list. */
  ghost function FirstTopics(ts: seq<Topic>): seq<Topic> {
    Unseen(ts, TopicKey, {})
  }

  lemma FirstTopicsDistinct(ts: seq<Topic>)
    ensures DistinctNames(FirstTopics(ts))
  {
    var r := FirstTopics(ts);
    forall i, j | 0 <= i < j < |r|
      ensures r[i].header.name != r[j].header.name
    {
      UnseenInOrder(ts, TopicKey, {}, i, j);
    }
  }

  lemma FirstTopicsKnown(ts: seq<Topic>, brokers: BrokerMap)
    requires KnownTopics(ts, brokers)
    ensures KnownTopics(FirstTopics(ts), brokers)
  {
    var r := FirstTopics(ts);
    forall i | 0 <= i < |r|
      ensures !IsBadTopic(brokers)(r[i])
    {
      UnseenAreFirst(ts, TopicKey, {}, i);
      assert !IsBadTopic(brokers)(ts[FirstWith(ts, TopicKey, TopicKey(r[i]))]);
    }
  }

  lemma MergedLeadersOfFirst(p: Side, s: Side, host: Bytes, port: int32, mp: LeaderMap)
    requires Leaders(p.resp.brokers, p.section.topics) == Ok(mp)
    requires Leaders(s.resp.brokers, s.section.topics).Ok?
    ensures var r := Leaders(Readdress(MergedBrokers(p, Some(s)), host, port), MergedTopics(p, Some(s)));
            var first := Leaders(s.resp.brokers, FirstTopics(s.section.topics));
            && r.Ok? && first.Ok?
            && Combined(r.value, mp, first.value, KeysOf(p.section.topics, TopicKey), Address(host, Unsigned32(port)))
  {
    var st := s.section.topics;
    var s' := s.(section := s.section.(topics := FirstTopics(st)));
    FirstTopicsKnown(st, BrokersByNode(s.resp.brokers));
    FirstTopicsDistinct(st);
    UnseenOfUnseen(st, TopicKey, {}, KeysOf(p.section.topics, TopicKey));
    assert MergedTopics(p, Some(s')) == MergedTopics(p, Some(s));
    assert MergedBrokers(p, Some(s')) == MergedBrokers(p, Some(s));
    MergedLeaders(p, s', host, port, mp, Leaders(s.resp.brokers, FirstTopics(st)).value);
  }

  /** The leader map of a synthesised frame: when the leader cache accepts both
      clusters' own frames it accepts the synthesised one; the topics are the
      primary's and those of the secondary whose names the primary does not list
      at all; each has its own cluster's partitions, those of the secondary taken
      from the first entry of a name; every leader is the proxy. */
  lemma SynthesisMergesLeaders(
      primary: Bytes, secondary: Bytes, host: Bytes, port: int32, p: Side, s: Side, out: Bytes)
    requires DecodeSide(primary, 0) == Ok(p) && DecodeSide(secondary, 0) == Ok(s)
    requires Synthesize(primary, Some(secondary), host, port, 0) == Ok(out)
    requires ParseLeaders(FrameBody(primary)).Ok? && ParseLeaders(FrameBody(secondary)).Ok?
    ensures var r, first := ParseLeaders(FrameBody(out)), Leaders(s.resp.brokers, FirstTopics(s.section.topics));
            && r.Ok? && first.Ok?
            && Combined(r.value, ParseLeaders(FrameBody(primary)).value, first.value,
                        KeysOf(p.section.topics, TopicKey), Address(host, Unsigned32(port)))
  {
    SideLeaders(primary, p);
    SideLeaders(secondary, s);
    SynthesisedLeaders(primary, Some(secondary), host, port, p, out);
    MergedLeadersOfFirst(p, s, host, port, ParseLeaders(FrameBody(primary)).value);
  }

  /** When the secondary repeats no name, those are the leaders its own frame announces;
      when it does, the merge takes the first entry and the leader cache the last. */
  lemma FirstTopicsAreOwn(secondary: Bytes, s: Side)
    requires DecodeSide(secondary, 0) == Ok(s) && DistinctNames(s.section.topics)
    ensures ParseLeaders(FrameBody(secondary)) == Leaders(s.resp.brokers, FirstTopics(s.section.topics))
  {
    SideLeaders(secondary, s);
    UnseenOfDistinct(s.section.topics, TopicKey, {});
  }
}

/** The Metadata response grammar as internal/routing/metadata.go reads and
    writes it: what the cursor loops of `MetadataCodec` compute, and the laws
    that make the reader and the printer exact inverses.

    A response is kept as the source keeps it: the broker array is parsed, the
    bytes before it (ThrottleTimeMs, from version 3) and after it (cluster id,
    controller id, topics) are carried unparsed. */
module MetadataGrammar {
  import opened Wire
  import opened WireArrays

  const MAX_RESPONSE_SIZE := 100 * 1024 * 1024
  const MAX_STRING_LEN := 32767

  /** `rack` is None when the field is absent (version 0) or null. */
  datatype Broker = Broker(nodeId: int32, host: Bytes, port: int32, rack: Option<Bytes>)

  datatype MetadataResponse = MetadataResponse(
    correlationId: int32,
    throttleTimeMs: int32,
    brokers: seq<Broker>,
    bodyBeforeBrokers: Bytes,
    bodyAfterBrokers: Bytes)

  // ---------------------------------------------------------------- reading

  function DecodeBroker(d: Bytes, version: int16): Result<(Broker, Bytes)> {
    var ((nodeId, host, port), d1) :- DecodeAddress(d);
    var (rack, d2) :- DecodeRack(d1, version);
    Ok((Broker(nodeId, host, port, rack), d2))
  }

  /** The fields every version has: node id, host and port. */
  function DecodeAddress(d: Bytes): Result<((int32, Bytes, int32), Bytes)> {
    var (nodeId, d1) :- ReadI32(d);
    var (hostLen, d2) :- ReadI16(d1);
    if hostLen < 0 then Err(InvalidLength) else
    var (host, d3) :- Take(d2, hostLen);
    var (port, d4) :- ReadI32(d3);
    Ok(((nodeId, host, port), d4))
  }

  function DecodeRack(d: Bytes, version: int16): Result<(Option<Bytes>, Bytes)> {
    if version < 1 then Ok((None, d)) else
    var (rackLen, d1) :- ReadI16(d);
    if rackLen == -1 then Ok((None, d1))
    else if rackLen < 0 then Err(InvalidLength) else
    var (rack, d2) :- Take(d1, rackLen);
    Ok((Some(rack), d2))
  }

  function BrokerReader(version: int16): Bytes -> Result<(Broker, Bytes)> {
    d => DecodeBroker(d, version)
  }

  /** Length of the fields before the broker array. */
  function PreludeLen(version: int16): nat {
    if version >= 3 then 4 else 0
  }

  function DecodeBody(d: Bytes, version: int16): Result<MetadataResponse> {
    if |d| > MAX_RESPONSE_SIZE then Err(ResponseTooLarge)
    else if |d| < PreludeLen(version) then Err(TooShort) else
    var before := d[..PreludeLen(version)];
    var (count, d1) :- ReadU32(d[PreludeLen(version)..]);
    var (brokers, after) :- ReadMany(d1, count, BrokerReader(version));
    Ok(MetadataResponse(0, ThrottleOf(before), brokers, before, after))
  }

  function ThrottleOf(before: Bytes): int32 {
    if |before| >= 4 then Signed32(Get32(before)) else 0
  }

  function DecodeFrame(raw: Bytes, version: int16): Result<MetadataResponse> {
    if |raw| > MAX_RESPONSE_SIZE then Err(ResponseTooLarge)
    else if |raw| < 8 then Err(TooShort) else
    var frameSize := Signed32(Get32(raw));
    if frameSize < 4 then Err(InvalidFrameSize)
    else if |raw| < 4 + frameSize then Err(TooShort) else
    var resp :- DecodeBody(raw[8..4 + frameSize], version);
    Ok(resp.(correlationId := Signed32(Get32(raw[4..]))))
  }

  // --------------------------------------------------------------- printing

  function EncodeRack(rack: Option<Bytes>, version: int16): Bytes {
    if version < 1 then []
    else match rack
      case None => Put16(-1)
      case Some(r) => Put16(|r|) + r
  }

  function EncodeBroker(b: Broker, version: int16): Bytes {
    Put32(b.nodeId) + (Put16(|b.host|) + (b.host + (Put32(b.port) + EncodeRack(b.rack, version))))
  }

  function BrokerPrinter(version: int16): Broker -> Bytes {
    b => EncodeBroker(b, version)
  }

  function BrokerArray(bs: seq<Broker>, version: int16): Bytes {
    Put32(|bs|) + PrintMany(bs, BrokerPrinter(version))
  }

  function PrintBody(before: Bytes, bs: seq<Broker>, after: Bytes, version: int16): Bytes {
    before + (BrokerArray(bs, version) + after)
  }

  function Frame(correlationId: int32, body: Bytes): Bytes {
    Put32(4 + |body|) + (Put32(correlationId) + body)
  }

  function PrintFrame(resp: MetadataResponse, version: int16): Bytes {
    Frame(resp.correlationId, PrintBody(resp.bodyBeforeBrokers, resp.brokers, resp.bodyAfterBrokers, version))
  }

  // -------------------------------------------------------------- rewriting

  function Readdress(bs: seq<Broker>, host: Bytes, port: int32): (r: seq<Broker>)
    ensures |r| == |bs|
    ensures forall i :: 0 <= i < |bs| ==> r[i] == bs[i].(host := host, port := port)
  {
    if bs == [] then [] else [bs[0].(host := host, port := port)] + Readdress(bs[1..], host, port)
  }

  function ReaddressResponse(resp: MetadataResponse, host: Bytes, port: int32): MetadataResponse {
    resp.(brokers := Readdress(resp.brokers, host, port))
  }

  function RewrittenFrame(resp: MetadataResponse, host: Bytes, port: int32, version: int16): Result<Bytes> {
    if |host| > MAX_STRING_LEN then Err(BrokerHostTooLong) else
    var frame := PrintFrame(ReaddressResponse(resp, host, port), version);
    if |frame| > MAX_RESPONSE_SIZE then Err(ResponseTooLarge) else Ok(frame)
  }

  function Rewrite(raw: Bytes, host: Bytes, port: int32, version: int16): Result<Bytes> {
    var resp :- DecodeFrame(raw, version);
    RewrittenFrame(resp, host, port, version)
  }

  // ----------------------------------------------------------- well-formedness

  predicate ValidBroker(b: Broker, version: int16) {
    && |b.host| <= MAX_STRING_LEN
    && (version < 1 ==> b.rack.None?)
    && (b.rack.Some? ==> |b.rack.value| <= MAX_STRING_LEN)
  }

  predicate ValidBrokers(bs: seq<Broker>, version: int16) {
    forall i :: 0 <= i < |bs| ==> ValidBroker(bs[i], version)
  }

  /** Before the brokers comes the throttle from version 3 on, and nothing before. */
  predicate WellFormed(resp: MetadataResponse, version: int16) {
    && resp.bodyBeforeBrokers == (if version < 3 then [] else Put32(resp.throttleTimeMs))
    && (version < 3 ==> resp.throttleTimeMs == 0)
    && ValidBrokers(resp.brokers, version)
  }

  predicate CarryAddress(bs: seq<Broker>, host: Bytes, port: int32) {
    forall i :: 0 <= i < |bs| ==> bs[i].host == host && bs[i].port == port
  }

  // ------------------------------------------------- reader/printer inversion

  lemma RackInverts(rack: Option<Bytes>, rest: Bytes, version: int16)
    requires version < 1 ==> rack.None?
    requires rack.Some? ==> |rack.value| <= MAX_STRING_LEN
    ensures DecodeRack(EncodeRack(rack, version) + rest, version) == Ok((rack, rest))
  {
    if version < 1 {
      assert EncodeRack(rack, version) + rest == rest;
    } else if rack.None? {
      Read16Inverts(-1, rest);
    } else {
      var r := rack.value;
      assert EncodeRack(rack, version) + rest == Put16(|r|) + (r + rest);
      Read16Inverts(|r|, r + rest);
      TakeInverts(r, rest);
    }
  }

  lemma RackSplits(d: Bytes, rack: Option<Bytes>, rest: Bytes, version: int16)
    requires DecodeRack(d, version) == Ok((rack, rest))
    ensures d == EncodeRack(rack, version) + rest
    ensures version < 1 ==> rack.None?
    ensures rack.Some? ==> |rack.value| <= MAX_STRING_LEN
  {
    if version >= 1 {
      Read16Splits(d);
      if rack.Some? {
        assert d[2..] == rack.value + rest;
      }
    }
  }

  lemma Reassociate(a: Bytes, b: Bytes, c: Bytes, d: Bytes, e: Bytes, rest: Bytes)
    ensures (a + (b + (c + (d + e)))) + rest == a + (b + (c + (d + (e + rest))))
  {
  }

  lemma BrokerInverts(b: Broker, rest: Bytes, version: int16)
    requires ValidBroker(b, version)
    ensures DecodeBroker(EncodeBroker(b, version) + rest, version) == Ok((b, rest))
  {
    var d4 := EncodeRack(b.rack, version) + rest;
    var d3 := Put32(b.port) + d4;
    var d2 := b.host + d3;
    var d1 := Put16(|b.host|) + d2;
    Reassociate(Put32(b.nodeId), Put16(|b.host|), b.host, Put32(b.port), EncodeRack(b.rack, version), rest);
    Read32Inverts(b.nodeId, d1);
    Read16Inverts(|b.host|, d2);
    TakeInverts(b.host, d3);
    Read32Inverts(b.port, d4);
    RackInverts(b.rack, rest, version);
  }

  lemma BrokerSplits(d: Bytes, b: Broker, rest: Bytes, version: int16)
    requires DecodeBroker(d, version) == Ok((b, rest))
    ensures ValidBroker(b, version) && d == EncodeBroker(b, version) + rest
  {
    var d1 := d[4..];
    var d2 := d1[2..];
    var d3 := d2[|b.host|..];
    assert d == Put32(b.nodeId) + d1 by { Read32Splits(d); }
    assert d1 == Put16(|b.host|) + d2 by { Read16Splits(d1); }
    assert d2 == b.host + d3;
    assert d3 == Put32(b.port) + d3[4..] by { Read32Splits(d3); }
    RackSplits(d3[4..], b.rack, rest, version);
    Reassociate(Put32(b.nodeId), Put16(|b.host|), b.host, Put32(b.port), EncodeRack(b.rack, version), rest);
  }

  /** The broker reader accepts exactly the printed valid brokers. */
  lemma BrokerReaderInvertsPrinter(d: Bytes, b: Broker, rest: Bytes, version: int16)
    ensures DecodeBroker(d, version) == Ok((b, rest))
       <==> ValidBroker(b, version) && d == EncodeBroker(b, version) + rest
  {
    if ValidBroker(b, version) && d == EncodeBroker(b, version) + rest {
      BrokerInverts(b, rest, version);
    }
    if DecodeBroker(d, version) == Ok((b, rest)) {
      BrokerSplits(d, b, rest, version);
    }
  }

  function BrokerCheck(version: int16): Broker -> bool {
    b => ValidBroker(b, version)
  }

  lemma BrokerArraysInvert(version: int16)
    ensures Inverts(BrokerReader(version), BrokerPrinter(version), BrokerCheck(version))
    ensures Splits(BrokerReader(version), BrokerPrinter(version), BrokerCheck(version))
  {
    forall b, rest | BrokerCheck(version)(b)
      ensures BrokerReader(version)(BrokerPrinter(version)(b) + rest) == Ok((b, rest))
    {
      BrokerInverts(b, rest, version);
    }
    forall d | BrokerReader(version)(d).Ok?
      ensures var (b, rest) := BrokerReader(version)(d).value;
              BrokerCheck(version)(b) && d == BrokerPrinter(version)(b) + rest
    {
      var (b, rest) := DecodeBroker(d, version).value;
      BrokerSplits(d, b, rest, version);
    }
  }

  /** Every printed broker takes at least ten bytes, so a frame within the size
      limit holds far fewer brokers than a 32-bit count can express. */
  lemma BrokersTakeSpace(bs: seq<Broker>, version: int16)
    ensures |PrintMany(bs, BrokerPrinter(version))| >= 10 * |bs|
  {
    PrintManyTakesSpace(bs, BrokerPrinter(version), 10);
  }

  lemma PreludeInverts(throttleTimeMs: int32)
    ensures ThrottleOf(Put32(throttleTimeMs)) == throttleTimeMs
  {
    Read32Inverts(throttleTimeMs, []);
    assert Put32(throttleTimeMs) + [] == Put32(throttleTimeMs);
  }

  lemma PreludeSplits(d: Bytes, version: int16)
    requires |d| >= PreludeLen(version)
    ensures var before := d[..PreludeLen(version)];
            && before == (if version < 3 then [] else Put32(ThrottleOf(before)))
            && (version < 3 ==> ThrottleOf(before) == 0)
  {
    if version >= 3 {
      Put32OfGet32(d[..4]);
      assert d[..4][..4] == d[..4];
    }
  }

  lemma BodyInverts(resp: MetadataResponse, version: int16)
    requires WellFormed(resp, version)
    requires |PrintBody(resp.bodyBeforeBrokers, resp.brokers, resp.bodyAfterBrokers, version)| <= MAX_RESPONSE_SIZE
    ensures DecodeBody(PrintBody(resp.bodyBeforeBrokers, resp.brokers, resp.bodyAfterBrokers, version), version)
         == Ok(resp.(correlationId := 0))
  {
    var before, bs, after := resp.bodyBeforeBrokers, resp.brokers, resp.bodyAfterBrokers;
    var d := PrintBody(before, bs, after, version);
    var d1 := PrintMany(bs, BrokerPrinter(version)) + after;
    PreludeInverts(resp.throttleTimeMs);
    BrokersTakeSpace(bs, version);
    AppendAssoc(Put32(|bs|), PrintMany(bs, BrokerPrinter(version)), after);
    assert d[..|before|] == before;
    assert d[|before|..] == Put32(|bs|) + d1;
    ReadU32Inverts(|bs|, d1);
    BrokerArraysInvert(version);
    ReadManyInverts(bs, after, BrokerReader(version), BrokerPrinter(version), BrokerCheck(version));
  }

  lemma BodySplits(d: Bytes, resp: MetadataResponse, version: int16)
    requires DecodeBody(d, version) == Ok(resp)
    ensures WellFormed(resp, version)
    ensures d == PrintBody(resp.bodyBeforeBrokers, resp.brokers, resp.bodyAfterBrokers, version)
  {
    var d1 := d[PreludeLen(version)..];
    PreludeSplits(d, version);
    BrokerArraySplits(d1, resp.brokers, resp.bodyAfterBrokers, version);
  }

  lemma BrokerArraySplits(d1: Bytes, bs: seq<Broker>, after: Bytes, version: int16)
    requires |d1| >= 4 && ReadMany(d1[4..], Get32(d1), BrokerReader(version)) == Ok((bs, after))
    ensures ValidBrokers(bs, version)
    ensures d1 == BrokerArray(bs, version) + after
  {
    Read32Splits(d1);
    BrokerArraysInvert(version);
    ReadManySplits(d1[4..], Get32(d1), bs, after, BrokerReader(version), BrokerPrinter(version), BrokerCheck(version));
    AppendAssoc(Put32(Get32(d1)), PrintMany(bs, BrokerPrinter(version)), after);
    forall i | 0 <= i < |bs| ensures ValidBroker(bs[i], version) {
      assert BrokerCheck(version)(bs[i]);
    }
  }

  /** The throttle is read from version 3 on and the brokers come first before that:
      on any printed valid brokers with any bytes after them. */
  lemma BodyReadsBrokers(throttleTimeMs: int32, bs: seq<Broker>, after: Bytes, version: int16)
    requires ValidBrokers(bs, version)
    ensures var d := Put32(throttleTimeMs) + (BrokerArray(bs, version) + after);
            version >= 3 && |d| <= 104_857_600 ==>
              DecodeBody(d, version) == Ok(MetadataResponse(0, throttleTimeMs, bs, Put32(throttleTimeMs), after))
    ensures var d := BrokerArray(bs, version) + after;
            version < 3 && |d| <= 104_857_600 ==>
              DecodeBody(d, version) == Ok(MetadataResponse(0, 0, bs, [], after))
  {
    if version >= 3 {
      var resp := MetadataResponse(0, throttleTimeMs, bs, Put32(throttleTimeMs), after);
      if |PrintBody(resp.bodyBeforeBrokers, bs, after, version)| <= MAX_RESPONSE_SIZE {
        BodyInverts(resp, version);
      }
    } else {
      assert PrintBody([], bs, after, version) == BrokerArray(bs, version) + after;
      if |PrintBody([], bs, after, version)| <= MAX_RESPONSE_SIZE {
        BodyInverts(MetadataResponse(0, 0, bs, [], after), version);
      }
    }
  }

  lemma FrameParts(correlationId: int32, body: Bytes, trailing: Bytes)
    requires |body| < 0x7FFF_FFF0
    ensures var raw := Frame(correlationId, body) + trailing;
            && Signed32(Get32(raw)) == 4 + |body|
            && Signed32(Get32(raw[4..])) == correlationId
            && raw[8..8 + |body|] == body
  {
    var raw := Frame(correlationId, body) + trailing;
    var d1 := Put32(correlationId) + (body + trailing);
    assert raw == Put32(4 + |body|) + d1;
    Read32Inverts(4 + |body|, d1);
    Read32Inverts(correlationId, body + trailing);
  }

  lemma FrameInverts(resp: MetadataResponse, trailing: Bytes, version: int16)
    requires WellFormed(resp, version)
    requires |PrintFrame(resp, version) + trailing| <= MAX_RESPONSE_SIZE
    ensures DecodeFrame(PrintFrame(resp, version) + trailing, version) == Ok(resp)
  {
    var body := PrintBody(resp.bodyBeforeBrokers, resp.brokers, resp.bodyAfterBrokers, version);
    var raw := PrintFrame(resp, version) + trailing;
    FrameParts(resp.correlationId, body, trailing);
    BodyInverts(resp, version);
  }

  /** Length of the frame at the start of `raw`, as its size field says. */
  function DeclaredLen(raw: Bytes): int
    requires |raw| >= 4
  {
    4 + Signed32(Get32(raw))
  }

  lemma FrameSplits(raw: Bytes, resp: MetadataResponse, version: int16)
    requires DecodeFrame(raw, version) == Ok(resp)
    ensures WellFormed(resp, version)
    ensures 8 <= |raw| <= MAX_RESPONSE_SIZE && 8 <= DeclaredLen(raw) <= |raw|
    ensures PrintFrame(resp, version) == raw[..DeclaredLen(raw)]
  {
    var size := DeclaredLen(raw);
    BodySplits(raw[8..size], resp.(correlationId := 0), version);
    FrameRebuilds(raw, size);
  }

  lemma FrameRebuilds(raw: Bytes, size: nat)
    requires 8 <= size <= |raw| && size == DeclaredLen(raw)
    ensures raw[..size] == Frame(Signed32(Get32(raw[4..])), raw[8..size])
  {
    Read32Splits(raw);
    Read32Splits(raw[4..]);
    assert raw[..size] == raw[..4] + (raw[4..][..4] + raw[8..size]);
  }

  /** The frame reader accepts exactly the byte strings that start with the
      printed form of a well-formed response, within the size limit. */
  lemma FrameReaderInvertsPrinter(raw: Bytes, resp: MetadataResponse, version: int16)
    ensures DecodeFrame(raw, version) == Ok(resp)
       <==> WellFormed(resp, version) && PrintFrame(resp, version) <= raw && |raw| <= 104_857_600
  {
    if DecodeFrame(raw, version) == Ok(resp) {
      FrameSplits(raw, resp, version);
    }
    if WellFormed(resp, version) && PrintFrame(resp, version) <= raw && |raw| <= MAX_RESPONSE_SIZE {
      var trailing := raw[|PrintFrame(resp, version)|..];
      assert raw == PrintFrame(resp, version) + trailing;
      FrameInverts(resp, trailing, version);
    }
  }

  // ---------------------------------------------------------- rewriting laws

  lemma ReaddressKeepsWellFormed(resp: MetadataResponse, host: Bytes, port: int32, version: int16)
    requires WellFormed(resp, version) && |host| <= MAX_STRING_LEN
    ensures WellFormed(ReaddressResponse(resp, host, port), version)
  {
    var bs := Readdress(resp.brokers, host, port);
    forall i | 0 <= i < |bs|
      ensures ValidBroker(bs[i], version)
    {
      assert ValidBroker(resp.brokers[i], version);
    }
  }

  /** Rewriting preserves meaning: reading the rewritten frame gives the original
      response with every broker at the proxy's address and nothing else changed. */
  lemma RewritePreservesMeaning(raw: Bytes, host: Bytes, port: int32, version: int16)
    requires Rewrite(raw, host, port, version).Ok?
    ensures DecodeFrame(raw, version).Ok?
    ensures DecodeFrame(Rewrite(raw, host, port, version).value, version)
         == Ok(ReaddressResponse(DecodeFrame(raw, version).value, host, port))
  {
    var resp := DecodeFrame(raw, version).value;
    var out := Rewrite(raw, host, port, version).value;
    FrameSplits(raw, resp, version);
    ReaddressKeepsWellFormed(resp, host, port, version);
    assert out + [] == out;
    FrameInverts(ReaddressResponse(resp, host, port), [], version);
  }

  /** Rewriting returns an accepted frame unchanged (cut to its declared size)
      exactly when its brokers already carry the proxy's address. */
  lemma RewriteFixpoint(raw: Bytes, host: Bytes, port: int32, version: int16)
    requires DecodeFrame(raw, version).Ok?
    requires |host| <= MAX_STRING_LEN
    ensures 8 <= |raw| && 8 <= DeclaredLen(raw) <= |raw|
    ensures Rewrite(raw, host, port, version) == Ok(raw[..DeclaredLen(raw)])
       <==> CarryAddress(DecodeFrame(raw, version).value.brokers, host, port)
  {
    var resp := DecodeFrame(raw, version).value;
    FrameSplits(raw, resp, version);
    var cut := raw[..DeclaredLen(raw)];
    if CarryAddress(resp.brokers, host, port) {
      assert Readdress(resp.brokers, host, port) == resp.brokers;
    }
    if Rewrite(raw, host, port, version) == Ok(cut) {
      RewritePreservesMeaning(raw, host, port, version);
      assert cut + [] == cut;
      FrameInverts(resp, [], version);
      assert Readdress(resp.brokers, host, port) == resp.brokers;
    }
  }

  /** Rewriting twice is rewriting once with the last address, errors included. */
  lemma RewriteTwice(raw: Bytes, host1: Bytes, port1: int32, host2: Bytes, port2: int32, version: int16)
    requires Rewrite(raw, host1, port1, version).Ok?
    ensures Rewrite(Rewrite(raw, host1, port1, version).value, host2, port2, version)
         == Rewrite(raw, host2, port2, version)
  {
    var bs := DecodeFrame(raw, version).value.brokers;
    RewritePreservesMeaning(raw, host1, port1, version);
    assert Readdress(Readdress(bs, host1, port1), host2, port2) == Readdress(bs, host2, port2);
  }

  /** Bytes taken by the hosts of some brokers. */
  function HostBytes(bs: seq<Broker>): nat {
    if bs == [] then 0 else |bs[0].host| + HostBytes(bs[1..])
  }

  lemma EncodedLength(b: Broker, host: Bytes, port: int32, version: int16)
    ensures |EncodeBroker(b.(host := host, port := port), version)| + |b.host| == |EncodeBroker(b, version)| + |host|
  {
  }

  lemma OneMore(n: nat, len: nat)
    ensures (n + 1) * len == n * len + len
  {
  }

  lemma {:induction false} ReaddressedLength(bs: seq<Broker>, host: Bytes, port: int32, version: int16)
    ensures |PrintMany(Readdress(bs, host, port), BrokerPrinter(version))| + HostBytes(bs)
         == |PrintMany(bs, BrokerPrinter(version))| + |bs| * |host|
  {
    if bs != [] {
      ReaddressedLength(bs[1..], host, port, version);
      assert Readdress(bs, host, port)[1..] == Readdress(bs[1..], host, port);
      EncodedLength(bs[0], host, port, version);
      OneMore(|bs[1..]|, |host|);
    }
  }

  lemma RewrittenLength(resp: MetadataResponse, host: Bytes, port: int32, version: int16)
    ensures |PrintFrame(ReaddressResponse(resp, host, port), version)|
         == |PrintFrame(resp, version)| + |resp.brokers| * |host| - HostBytes(resp.brokers)
  {
    ReaddressedLength(resp.brokers, host, port, version);
  }

  /** When rewriting succeeds, exactly: the frame is read, the proxy's host is at most
      32767 bytes, and the frame with its hosts replaced at most 100 MiB; the first
      of these that fails is the error. */
  lemma RewriteAccepts(raw: Bytes, host: Bytes, port: int32, version: int16)
    ensures match DecodeFrame(raw, version)
            case Err(e) => Rewrite(raw, host, port, version) == Err(e)
            case Ok(resp) =>
              && |raw| >= 4
              && var len := DeclaredLen(raw) + |resp.brokers| * |host| - HostBytes(resp.brokers);
              && var r := Rewrite(raw, host, port, version);
              && (r == Err(BrokerHostTooLong) <==> |host| > 32767)
              && (r == Err(ResponseTooLarge) <==> |host| <= 32767 && len > 104_857_600)
              && (r.Ok? <==> |host| <= 32767 && len <= 104_857_600)
              && (r.Ok? ==> |r.value| == len)
  {
    match DecodeFrame(raw, version)
    case Err(_) =>
    case Ok(resp) =>
      FrameSplits(raw, resp, version);
      RewrittenLength(resp, host, port, version);
  }

  /** A broker has a rack from version 1; null takes only its length. */
  lemma BrokerSize(b: Broker, version: int16)
    ensures |EncodeBroker(b, version)|
         == 10 + |b.host| + (if version < 1 then 0 else 2 + (if b.rack.None? then 0 else |b.rack.value|))
  {
  }

  /** A printed frame cut short anywhere is refused as too short. */
  lemma CutShort(resp: MetadataResponse, n: nat, version: int16)
    requires n < |PrintFrame(resp, version)| <= 104_857_600
    ensures DecodeFrame(PrintFrame(resp, version)[..n], version) == Err(TooShort)
  {
    if n >= 8 {
      var raw := PrintFrame(resp, version);
      var body := PrintBody(resp.bodyBeforeBrokers, resp.brokers, resp.bodyAfterBrokers, version);
      assert raw == Frame(resp.correlationId, body) + [];
      FrameParts(resp.correlationId, body, []);
      assert raw[..n][2..][0] == raw[2..][0] && raw[..n][2..][1] == raw[2..][1];
    }
  }
}

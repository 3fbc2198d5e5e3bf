/** The cursor loops of internal/routing/metadata.go, each proved to compute
    what `MetadataGrammar` defines. */
module MetadataCodec {
  import opened Wire
  import opened WireArrays
  import opened MetadataGrammar

  method ParseAddress(data: Bytes) returns (r: Result<((int32, Bytes, int32), nat)>)
    ensures ReadsAs(r, data, DecodeAddress(data))
  {
    var pos: int := 0;
    if |data| < pos + 4 {
      return Err(TooShort);
    }
    var nodeId := Signed32(Get32(data[pos..]));
    pos := pos + 4;

    if |data| < pos + 2 {
      return Err(TooShort);
    }
    var hostLen: int := Signed16(Get16(data[pos..]));
    pos := pos + 2;
    if hostLen < 0 {
      return Err(InvalidLength);
    }
    if |data| < pos + hostLen {
      return Err(TooShort);
    }
    var host := data[pos..][..hostLen];
    pos := pos + hostLen;

    if |data| < pos + 4 {
      return Err(TooShort);
    }
    var port := Signed32(Get32(data[pos..]));
    pos := pos + 4;
    r := Ok(((nodeId, host, port), pos));
  }

  method ParseBroker(data: Bytes, version: int16) returns (r: Result<(Broker, nat)>)
    ensures ReadsAs(r, data, DecodeBroker(data, version))
  {
    var address := ParseAddress(data);
    if address.Err? {
      return Err(address.error);
    }
    var ((nodeId, host, port), pos) := address.value;
    var rack := ParseRack(data[pos..], version);
    if rack.Err? {
      return Err(rack.error);
    }
    DropDrop(data, pos, rack.value.1);
    pos := pos + rack.value.1;
    r := Ok((Broker(nodeId, host, port, rack.value.0), pos));
  }

  method ParseRack(data: Bytes, version: int16) returns (r: Result<(Option<Bytes>, nat)>)
    ensures ReadsAs(r, data, DecodeRack(data, version))
  {
    if version < 1 {
      return Ok((None, 0));
    }
    var pos: int := 0;
    if |data| < pos + 2 {
      return Err(TooShort);
    }
    var rackLen: int := Signed16(Get16(data[pos..]));
    pos := pos + 2;
    if rackLen == -1 {
      r := Ok((None, pos));
    } else if rackLen < 0 {
      r := Err(InvalidLength);
    } else if |data| < pos + rackLen {
      r := Err(TooShort);
    } else {
      r := Ok((Some(data[pos..][..rackLen]), pos + rackLen));
    }
  }

  /** The trigger keeps a loop over `read` from looking inside one broker. */
  ghost predicate ReadsBrokers(read: Bytes -> Result<(Broker, Bytes)>, version: int16) {
    forall d {:trigger DecodeBroker(d, version)} :: read(d) == DecodeBroker(d, version)
  }

  /** One turn of the broker loop, with `left` brokers to go. */
  method ParseNextBroker(
      data: Bytes, version: int16, ghost left: nat, ghost read: Bytes -> Result<(Broker, Bytes)>,
      ghost parsed: seq<Broker>)
    returns (r: Result<(Broker, nat)>)
    requires ReadsBrokers(read, version) && left > 0
    ensures r.Err? ==> Prepend(parsed, ReadMany(data, left, read)) == Err(r.error)
    ensures r.Ok? ==> r.value.1 <= |data|
    ensures r.Ok? ==> (
              Prepend(parsed, ReadMany(data, left, read))
              == Prepend(parsed + [r.value.0], ReadMany(data[r.value.1..], left - 1, read)))
  {
    r := ParseBroker(data, version);
    ReadManyStep(parsed, data, left, read);
  }

  method ParseBrokers(data: Bytes, brokerCount: nat, version: int16, ghost read: Bytes -> Result<(Broker, Bytes)>)
    returns (r: Result<(seq<Broker>, nat)>)
    requires ReadsBrokers(read, version)
    ensures ReadsAs(r, data, ReadMany(data, brokerCount, read))
  {
    var pos: nat := 0;
    var brokers: seq<Broker> := [];
    ghost var whole := ReadMany(data, brokerCount, read);
    ReadManyStart(data, brokerCount, read);
    assert data[pos..] == data;
    for i := 0 to brokerCount
      invariant pos <= |data|
      invariant whole == Prepend(brokers, ReadMany(data[pos..], brokerCount - i, read))
    {
      var one := ParseNextBroker(data[pos..], version, brokerCount - i, read, brokers);
      if one.Err? {
        return Err(one.error);
      }
      var (b, bytesRead) := one.value;
      DropDrop(data, pos, bytesRead);
      brokers := brokers + [b];
      pos := pos + bytesRead;
    }
    ReadManyDone(brokers, data[pos..], read);
    r := Ok((brokers, pos));
  }

  method ParseMetadataResponseBody(data: Bytes, version: int16) returns (r: Result<MetadataResponse>)
    ensures r == DecodeBody(data, version)
  {
    if |data| > MAX_RESPONSE_SIZE {
      return Err(ResponseTooLarge);
    }
    var pos: nat := 0;
    if version >= 3 {
      if |data| < pos + 4 {
        return Err(TooShort);
      }
      pos := pos + 4;
    }
    var before := data[..pos];
    if |data| < pos + 4 {
      return Err(TooShort);
    }
    var brokerCount := Get32(data[pos..]);
    pos := pos + 4;
    var brokers := ParseBrokers(data[pos..], brokerCount, version, BrokerReader(version));
    if brokers.Err? {
      return Err(brokers.error);
    }
    pos := pos + brokers.value.1;
    r := Ok(MetadataResponse(0, ThrottleOf(before), brokers.value.0, before, data[pos..]));
  }

  /** One broker entry at the proxy's address, appended to the output buffer. */
  method WriteBroker(buf: Bytes, b: Broker, host: Bytes, port: int32, version: int16) returns (brokerBuf: Bytes)
    ensures brokerBuf == buf + EncodeBroker(b.(host := host, port := port), version)
  {
    brokerBuf := buf + Put32(b.nodeId);
    brokerBuf := brokerBuf + Put16(|host|);
    brokerBuf := brokerBuf + host;
    brokerBuf := brokerBuf + Put32(port);
    ghost var fixedPart := brokerBuf;
    if version >= 1 {
      if b.rack.Some? {
        brokerBuf := brokerBuf + Put16(|b.rack.value|);
        brokerBuf := brokerBuf + b.rack.value;
      } else {
        brokerBuf := brokerBuf + Put16(-1);
      }
    }
    assert brokerBuf == fixedPart + EncodeRack(b.rack, version);
  }

  /** The broker array with every address replaced, written broker by broker. */
  method WriteBrokers(brokers: seq<Broker>, host: Bytes, port: int32, version: int16) returns (brokerBuf: Bytes)
    ensures brokerBuf == BrokerArray(Readdress(brokers, host, port), version)
  {
    brokerBuf := Put32(|brokers|);
    ghost var readdressed := Readdress(brokers, host, port);
    for i := 0 to |brokers|
      invariant brokerBuf + PrintMany(readdressed[i..], BrokerPrinter(version)) == BrokerArray(readdressed, version)
    {
      PrintManyStep(brokerBuf, readdressed, i, BrokerPrinter(version));
      brokerBuf := WriteBroker(brokerBuf, brokers[i], host, port, version);
    }
  }

  /** Copies one part after what is already there and moves the offset on. */
  method CopyNext(dst: array<byte>, offset: nat, src: Bytes, ghost done: Bytes) returns (next: nat)
    requires offset + |src| <= dst.Length && dst[..offset] == done
    modifies dst
    ensures next == offset + |src| && dst[..next] == done + src
  {
    Copy(dst, offset, src);
    next := offset + |src|;
  }

  /** Fills one buffer part by part at a moving offset. */
  method FillFrame(size: Bytes, id: Bytes, p1: Bytes, p2: Bytes, p3: Bytes, p4: Bytes, frameLen: nat)
    returns (frame: Bytes)
    requires |size| == |id| == 4 && frameLen == 8 + |p1| + |p2| + |p3| + |p4|
    ensures frame == size + (id + (p1 + (p2 + (p3 + p4))))
  {
    var result := new byte[frameLen];
    var offset := CopyNext(result, 0, size, []);
    offset := CopyNext(result, offset, id, [] + size);
    offset := CopyNext(result, offset, p1, [] + size + id);
    offset := CopyNext(result, offset, p2, [] + size + id + p1);
    offset := CopyNext(result, offset, p3, [] + size + id + p1 + p2);
    offset := CopyNext(result, offset, p4, [] + size + id + p1 + p2 + p3);
    assert result[..] == result[..offset];
    Reassociate6([], size, id, p1, p2, p3, p4);
    frame := result[..];
  }

  /** The frame around a body in four parts, with its size. */
  method AssembleFrame(correlationId: int32, p1: Bytes, p2: Bytes, p3: Bytes, p4: Bytes) returns (r: Result<Bytes>)
    ensures var frame := Frame(correlationId, p1 + (p2 + (p3 + p4)));
            r == if |frame| > MAX_RESPONSE_SIZE then Err(ResponseTooLarge) else Ok(frame)
  {
    var newBodyLen := |p1| + |p2| + |p3| + |p4|;
    var sizeFieldValue := 4 + newBodyLen;
    var newFrameLen := 4 + sizeFieldValue;
    if newFrameLen > MAX_RESPONSE_SIZE {
      return Err(ResponseTooLarge);
    }
    var frame := FillFrame(Put32(sizeFieldValue), Put32(correlationId), p1, p2, p3, p4, newFrameLen);
    r := Ok(frame);
  }

  lemma Reassociate6(start: Bytes, a: Bytes, b: Bytes, c: Bytes, d: Bytes, e: Bytes, f: Bytes)
    requires start == []
    ensures start + a + b + c + d + e + f == a + (b + (c + (d + (e + f))))
  {
  }

  method RewriteBrokers(resp: MetadataResponse, host: Bytes, port: int32, version: int16) returns (r: Result<Bytes>)
    ensures r == RewrittenFrame(resp, host, port, version)
  {
    if |host| > MAX_STRING_LEN {
      return Err(BrokerHostTooLong);
    }
    var brokerBuf := WriteBrokers(resp.brokers, host, port, version);
    r := AssembleFrame(resp.correlationId, resp.bodyBeforeBrokers, brokerBuf, resp.bodyAfterBrokers, []);
    assert resp.bodyAfterBrokers + [] == resp.bodyAfterBrokers;
  }

  method RewriteMetadataResponse(raw: Bytes, host: Bytes, port: int32, version: int16) returns (r: Result<Bytes>)
    ensures r == Rewrite(raw, host, port, version)
  {
    if |raw| > MAX_RESPONSE_SIZE {
      return Err(ResponseTooLarge);
    }
    if |raw| < 8 {
      return Err(TooShort);
    }
    var frameSize: int := Signed32(Get32(raw));
    var correlationId := Signed32(Get32(raw[4..]));
    if frameSize < 4 {
      return Err(InvalidFrameSize);
    }
    var expectedLen := 4 + frameSize;
    if |raw| < expectedLen {
      return Err(TooShort);
    }
    var resp := ParseMetadataResponseBody(raw[8..expectedLen], version);
    if resp.Err? {
      return Err(resp.error);
    }
    r := RewriteBrokers(resp.value.(correlationId := correlationId), host, port, version);
  }
}

/** internal/routing/sasl.go: the multi-step SASL exchange as a transducer between
    two byte streams.  A connection is the bytes still to be read from it and the
    bytes written to it; reading past the end is an I/O error, and a write may
    fail at any time. */
module SaslExchange {
  import opened Wire

  const SASL_HANDSHAKE := 17
  const SASL_AUTHENTICATE := 36

  // ------------------------------------------------------------ frame formats

  function ApiKey(frame: Bytes): int16
    requires |frame| >= 6
  {
    Signed16(Get16(frame[4..]))
  }

  predicate IsSaslKey(key: int16) {
    key == SASL_HANDSHAKE || key == SASL_AUTHENTICATE
  }

  /** Length a frame declares: its size field and what that field counts. */
  function FrameLen(frame: Bytes): int
    requires |frame| >= 4
  {
    4 + Signed32(Get32(frame))
  }

  predicate WholeSaslRequest(frame: Bytes) {
    |frame| >= 6 && |frame| == FrameLen(frame) && IsSaslKey(ApiKey(frame))
  }

  predicate WholeResponse(frame: Bytes) {
    |frame| >= 8 && |frame| == FrameLen(frame)
  }

  /** Error code 0 at its fixed offset. */
  predicate ReportsSuccess(response: Bytes) {
    |response| >= 10 && Get16(response[8..]) == 0
  }

  predicate Authenticates(request: Bytes, response: Bytes) {
    |request| >= 6 && ApiKey(request) == SASL_AUTHENTICATE && ReportsSuccess(response)
  }

  datatype RequestHeader = RequestHeader(
    size: int32,
    apiKey: int16,
    apiVersion: int16,
    correlationId: int32,
    clientId: Bytes)

  /** internal/protocol/parser.go, ParseRequestHeader. */
  function ParseRequestHeader(data: Bytes): Result<RequestHeader> {
    if |data| < 14 then Err(TooShort) else
    var clientIdLen := Signed16(Get16(data[12..]));
    if clientIdLen > 0 && |data| < 14 + clientIdLen then Err(TooShort) else
    var clientId := if clientIdLen > 0 then data[14..14 + clientIdLen] else [];
    var size, version, id := Signed32(Get32(data)), Signed16(Get16(data[6..])), Signed32(Get32(data[8..]));
    Ok(RequestHeader(size, ApiKey(data), version, id, clientId))
  }

  /** Number of bytes the header of a request takes. */
  function HeaderLen(data: Bytes): nat
    requires |data| >= 14
  {
    var clientIdLen := Signed16(Get16(data[12..]));
    if clientIdLen > 0 then 14 + clientIdLen else 14
  }

  // --------------------------------------------------- the exchange as a relation

  /** What an exchange that ends normally has done. */
  datatype Outcome = Outcome(
    requests: seq<Bytes>,
    responses: seq<Bytes>,
    header: Bytes,
    authenticated: bool,
    clientRest: Bytes,
    upstreamRest: Bytes)

  function WithPair(request: Bytes, response: Bytes, r: Result<Outcome>): Result<Outcome> {
    match r
    case Err(e) => Err(e)
    case Ok(o) => Ok(o.(requests := [request] + o.requests, responses := [response] + o.responses))
  }

  /** The SASL frame at the head of the client's bytes with the response to it. */
  function FirstPair(client: Bytes, upstream: Bytes): (r: Result<(Bytes, Bytes)>)
    requires |client| >= 6
    ensures r.Ok? ==>
      && |r.value.0| >= 6 && r.value.0 <= client
      && |r.value.1| >= 8 && r.value.1 <= upstream
  {
    if FrameLen(client) < 6 then Err(InvalidFrameSize)
    else if |client| < FrameLen(client) then Err(TooShort)
    else if |upstream| < 8 then Err(TooShort)
    else if FrameLen(upstream) < 8 then Err(InvalidFrameSize)
    else if |upstream| < FrameLen(upstream) then Err(TooShort)
    else Ok((client[..FrameLen(client)], upstream[..FrameLen(upstream)]))
  }

  /** The frame that is not SASL: its header is returned, its body stays unread. */
  function LastFrame(client: Bytes, upstream: Bytes, authenticated: bool): Result<Outcome> {
    if |client| < 14 || |client| < HeaderLen(client) then Err(TooShort)
    else Ok(Outcome([], [], client[..HeaderLen(client)], authenticated, client[HeaderLen(client)..], upstream))
  }

  function Exchange(client: Bytes, upstream: Bytes, authenticated: bool): Result<Outcome>
    decreases |client|
  {
    if |client| < 6 then Err(TooShort)
    else if !IsSaslKey(ApiKey(client)) then LastFrame(client, upstream, authenticated)
    else match FirstPair(client, upstream)
      case Err(e) => Err(e)
      case Ok((request, response)) =>
        WithPair(request, response,
          Exchange(client[|request|..], upstream[|response|..], authenticated || Authenticates(request, response)))
  }

  function Concat(frames: seq<Bytes>): Bytes {
    if frames == [] then [] else frames[0] + Concat(frames[1..])
  }

  ghost predicate AnySucceeds(requests: seq<Bytes>, responses: seq<Bytes>)
    requires |requests| == |responses|
  {
    exists i :: 0 <= i < |requests| && Authenticates(requests[i], responses[i])
  }

  /** The shape of a finished exchange, independent of how it is run. */
  ghost predicate Describes(o: Outcome, client: Bytes, upstream: Bytes, authenticated: bool) {
    && |o.requests| == |o.responses|
    && client == Concat(o.requests) + (o.header + o.clientRest)
    && upstream == Concat(o.responses) + o.upstreamRest
    && (forall i :: 0 <= i < |o.requests| ==> WholeSaslRequest(o.requests[i]))
    && (forall i :: 0 <= i < |o.responses| ==> WholeResponse(o.responses[i]))
    && |o.header| >= 14 && |o.header| == HeaderLen(o.header) && !IsSaslKey(ApiKey(o.header))
    && (o.authenticated <==> authenticated || AnySucceeds(o.requests, o.responses))
  }

  // -------------------------------------------------------------- main results

  lemma PrefixFields(d: Bytes, n: nat)
    requires n <= |d|
    ensures n >= 2 ==> Get16(d[..n]) == Get16(d)
    ensures n >= 4 ==> Get32(d[..n]) == Get32(d)
    ensures n >= 6 ==> ApiKey(d[..n]) == ApiKey(d)
    ensures n >= 14 ==> Get16(d[..n][12..]) == Get16(d[12..])
  {
    if n >= 4 {
      assert d[..n][2..][0] == d[2..][0] && d[..n][2..][1] == d[2..][1];
    }
    if n >= 6 {
      assert d[..n][4..][0] == d[4..][0] && d[..n][4..][1] == d[4..][1];
    }
    if n >= 14 {
      assert d[..n][12..][0] == d[12..][0] && d[..n][12..][1] == d[12..][1];
    }
  }

  lemma PairExtends(
      o: Outcome, request: Bytes, response: Bytes, client: Bytes, upstream: Bytes, authenticated: bool)
    requires WholeSaslRequest(request) && WholeResponse(response)
    ensures Describes(o, client, upstream, authenticated || Authenticates(request, response))
        ==> Describes(o.(requests := [request] + o.requests, responses := [response] + o.responses),
                      request + client, response + upstream, authenticated)
  {
    var requests, responses := [request] + o.requests, [response] + o.responses;
    if Describes(o, client, upstream, authenticated || Authenticates(request, response)) {
      assert requests[1..] == o.requests && responses[1..] == o.responses;
      AppendAssoc(request, Concat(o.requests), o.header + o.clientRest);
      AppendAssoc(response, Concat(o.responses), o.upstreamRest);
      AnySucceedsCons(o.requests, o.responses, request, response);
    }
  }

  lemma AnySucceedsCons(requests: seq<Bytes>, responses: seq<Bytes>, request: Bytes, response: Bytes)
    requires |requests| == |responses|
    ensures AnySucceeds([request] + requests, [response] + responses)
       <==> Authenticates(request, response) || AnySucceeds(requests, responses)
  {
    var qs, rs := [request] + requests, [response] + responses;
    if Authenticates(request, response) {
      assert Authenticates(qs[0], rs[0]);
    }
    if i :| 0 <= i < |requests| && Authenticates(requests[i], responses[i]) {
      assert Authenticates(qs[i + 1], rs[i + 1]);
    }
  }

  lemma FirstPairWhole(client: Bytes, upstream: Bytes, request: Bytes, response: Bytes)
    requires |client| >= 6 && IsSaslKey(ApiKey(client))
    requires FirstPair(client, upstream) == Ok((request, response))
    ensures WholeSaslRequest(request) && WholeResponse(response)
  {
    PrefixFields(client, |request|);
    PrefixFields(upstream, |response|);
  }

  lemma FirstPairOf(request: Bytes, response: Bytes, client: Bytes, upstream: Bytes)
    requires WholeSaslRequest(request) && WholeResponse(response)
    ensures IsSaslKey(ApiKey(request + client))
    ensures FirstPair(request + client, response + upstream) == Ok((request, response))
    ensures (request + client)[|request|..] == client && (response + upstream)[|response|..] == upstream
  {
    assert (request + client)[..|request|] == request && (response + upstream)[..|response|] == response;
    PrefixFields(request + client, |request|);
    PrefixFields(response + upstream, |response|);
  }

  lemma LastFrameDescribed(client: Bytes, upstream: Bytes, authenticated: bool, o: Outcome)
    requires |client| >= 6 && !IsSaslKey(ApiKey(client)) && LastFrame(client, upstream, authenticated) == Ok(o)
    ensures Describes(o, client, upstream, authenticated)
  {
    PrefixFields(client, HeaderLen(client));
    assert o.header == client[..HeaderLen(client)];
    assert [] + (o.header + o.clientRest) == client && [] + upstream == upstream;
  }

  /** Conservation: a finished exchange has sent upstream exactly the whole SASL
      frames it read from the client before the returned header, and sent the client
      exactly what it read from upstream, one whole response for each request; the
      connection is authenticated exactly when it was before or some Authenticate
      request was answered with error code 0. */
  lemma {:induction false} ExchangeConserves(client: Bytes, upstream: Bytes, authenticated: bool, o: Outcome)
    requires Exchange(client, upstream, authenticated) == Ok(o)
    ensures Describes(o, client, upstream, authenticated)
    decreases |client|
  {
    if !IsSaslKey(ApiKey(client)) {
      LastFrameDescribed(client, upstream, authenticated, o);
    } else {
      var (request, response) := FirstPair(client, upstream).value;
      var client', upstream' := client[|request|..], upstream[|response|..];
      var authenticated' := authenticated || Authenticates(request, response);
      var o' := Exchange(client', upstream', authenticated').value;
      ExchangeConserves(client', upstream', authenticated', o');
      FirstPairWhole(client, upstream, request, response);
      PairExtends(o', request, response, client', upstream', authenticated);
    }
  }

  lemma ExchangeStep(request: Bytes, response: Bytes, client: Bytes, upstream: Bytes, authenticated: bool)
    requires WholeSaslRequest(request) && WholeResponse(response)
    ensures Exchange(request + client, response + upstream, authenticated)
         == WithPair(request, response, Exchange(client, upstream, authenticated || Authenticates(request, response)))
  {
    FirstPairOf(request, response, client, upstream);
  }

  lemma DescribedTail(o: Outcome, client: Bytes, upstream: Bytes, authenticated: bool, o': Outcome)
    requires Describes(o, client, upstream, authenticated) && o.requests != []
    requires o' == o.(requests := o.requests[1..], responses := o.responses[1..])
    ensures var client' := Concat(o'.requests) + (o.header + o.clientRest);
            var upstream' := Concat(o'.responses) + o.upstreamRest;
            && client == o.requests[0] + client' && upstream == o.responses[0] + upstream'
            && Describes(o', client', upstream', authenticated || Authenticates(o.requests[0], o.responses[0]))
    ensures WithPair(o.requests[0], o.responses[0], Ok(o')) == Ok(o)
  {
    AppendAssoc(o.requests[0], Concat(o'.requests), o.header + o.clientRest);
    AppendAssoc(o.responses[0], Concat(o'.responses), o.upstreamRest);
    AnySucceedsCons(o'.requests, o'.responses, o.requests[0], o.responses[0]);
    assert o.requests == [o.requests[0]] + o'.requests && o.responses == [o.responses[0]] + o'.responses;
  }

  lemma LastFrameOf(o: Outcome, client: Bytes, upstream: Bytes, authenticated: bool)
    requires Describes(o, client, upstream, authenticated) && o.requests == []
    ensures |client| >= 6 && !IsSaslKey(ApiKey(client))
    ensures LastFrame(client, upstream, authenticated) == Ok(o)
  {
    assert client == o.header + o.clientRest && upstream == o.upstreamRest;
    assert client[..|o.header|] == o.header && client[|o.header|..] == o.clientRest;
    PrefixFields(client, |o.header|);
  }

  /** Nothing else is accepted or dropped: streams of that shape make the exchange
      finish with exactly that outcome. */
  lemma {:induction false} ExchangeComplete(o: Outcome, client: Bytes, upstream: Bytes, authenticated: bool)
    requires Describes(o, client, upstream, authenticated)
    ensures Exchange(client, upstream, authenticated) == Ok(o)
    decreases |o.requests|
  {
    if o.requests == [] {
      LastFrameOf(o, client, upstream, authenticated);
    } else {
      var request, response := o.requests[0], o.responses[0];
      var o' := o.(requests := o.requests[1..], responses := o.responses[1..]);
      var client', upstream' := Concat(o'.requests) + (o.header + o.clientRest), Concat(o'.responses) + o.upstreamRest;
      DescribedTail(o, client, upstream, authenticated, o');
      ExchangeStep(request, response, client', upstream', authenticated);
      ExchangeComplete(o', client', upstream', authenticated || Authenticates(request, response));
    }
  }

  /** On the bytes: a frame is SASL when its key is 17 or 36. */
  lemma SaslOnBytes(frame: Bytes)
    requires |frame| >= 6
    ensures IsSaslKey(ApiKey(frame)) <==> frame[4] == 0 && (frame[5] == 17 || frame[5] == 36)
  {
  }

  /** Key 36, answered with error code 0. */
  predicate IsSuccess(request: Bytes, response: Bytes) {
    && |request| >= 6 && request[4] == 0 && request[5] == 36
    && |response| >= 10 && response[8] == 0 && response[9] == 0
  }

  /** An Authenticate request, key 36, answered with error code 0 authenticates, and
      nothing else does; a Handshake, key 17, never does. */
  lemma AuthenticatesOnBytes(request: Bytes, response: Bytes)
    ensures Authenticates(request, response) <==> IsSuccess(request, response)
  {
  }

  /** So of a finished exchange: every frame it relayed has one of the two keys and a
      length that is its size field's and four; the frame it stopped at has neither
      key; and the connection is authenticated exactly when it was before or one of
      those pairs is such a request and such a response. */
  lemma ExchangeOnBytes(client: Bytes, upstream: Bytes, authenticated: bool, o: Outcome)
    requires Exchange(client, upstream, authenticated) == Ok(o)
    ensures |o.requests| == |o.responses| && |o.header| >= 14
    ensures forall i :: 0 <= i < |o.requests| ==>
      var q, r := o.requests[i], o.responses[i];
      && |q| >= 6 && q[4] == 0 && (q[5] == 17 || q[5] == 36) && |q| == 4 + Signed32(Get32(q))
      && |r| >= 8 && |r| == 4 + Signed32(Get32(r))
    ensures !(o.header[4] == 0 && (o.header[5] == 17 || o.header[5] == 36))
    ensures o.authenticated
       <==> authenticated || exists i :: 0 <= i < |o.requests| && IsSuccess(o.requests[i], o.responses[i])
  {
    ExchangeConserves(client, upstream, authenticated, o);
    SaslOnBytes(o.header);
    forall i | 0 <= i < |o.requests|
      ensures o.requests[i][4] == 0 && (o.requests[i][5] == 17 || o.requests[i][5] == 36)
      ensures IsSuccess(o.requests[i], o.responses[i]) <==> Authenticates(o.requests[i], o.responses[i])
    {
      SaslOnBytes(o.requests[i]);
      AuthenticatesOnBytes(o.requests[i], o.responses[i]);
    }
  }

  /** The returned header is a complete request header: parsing it succeeds, reads
      all of it, and reads the same whatever follows it. */
  lemma HeaderParses(header: Bytes, rest: Bytes)
    requires |header| >= 14 && |header| == HeaderLen(header)
    ensures ParseRequestHeader(header).Ok?
    ensures ParseRequestHeader(header + rest) == ParseRequestHeader(header)
    ensures ParseRequestHeader(header).value.clientId == header[14..]
  {
    var d := header + rest;
    assert d[..|header|] == header;
    PrefixFields(d, |header|);
    assert d[6..][0] == header[6..][0] && d[6..][1] == header[6..][1];
    assert d[8..][..4] == header[8..][..4];
    GetPrefix32(d[8..], header[8..]);
    assert d[14..HeaderLen(header)] == header[14..HeaderLen(header)];
  }

  lemma GetPrefix32(d: Bytes, d': Bytes)
    requires |d| >= 4 && |d'| >= 4 && d[..4] == d'[..4]
    ensures Get32(d) == Get32(d')
  {
    PrefixFields(d, 4);
    PrefixFields(d', 4);
  }

  // ----------------------------------------------------------- the imperative loop

  /** What a connection has sent grew by a prefix of `data`. */
  predicate Grows(before: Bytes, after: Bytes, data: Bytes) {
    before <= after && after[|before|..] <= data
  }

  class Conn {
    var unread: Bytes
    var sent: Bytes

    constructor (incoming: Bytes)
      ensures unread == incoming && sent == []
    {
      unread, sent := incoming, [];
    }

    /** io.ReadFull: all `n` bytes, or an error once the stream ends. */
    method ReadFull(n: nat) returns (r: Result<Bytes>)
      modifies this`unread
      ensures |old(unread)| < n ==> r == Err(TooShort) && unread == []
      ensures n <= |old(unread)| ==> r == Ok(old(unread)[..n]) && unread == old(unread)[n..]
    {
      if |unread| < n {
        unread := [];
        return Err(TooShort);
      }
      r := Ok(unread[..n]);
      unread := unread[n..];
    }

    /** May fail at any point, having written any part of the data. */
    method Write(data: Bytes) returns (ok: bool)
      modifies this`sent
      ensures ok ==> sent == old(sent) + data
      ensures Grows(old(sent), sent, data)
    {
      var accepted :| 0 <= accepted <= |data|;
      ok := accepted == |data|;
      sent := sent + data[..accepted];
    }
  }

  class SaslHandler {
    var authenticated: bool

    constructor ()
      ensures !authenticated
    {
      authenticated := false;
    }

    /** Returns the frame unchanged; error code 0 marks the connection authenticated. */
    method PassthroughResponse(frame: Bytes) returns (r: Bytes)
      modifies this
      ensures r == frame
      ensures authenticated == (old(authenticated) || ReportsSuccess(frame))
    {
      if |frame| >= 10 {
        var errorCode := Signed16(Get16(frame[8..]));
        if errorCode == 0 {
          if !authenticated {
            authenticated := true;
          }
        }
      }
      r := frame;
    }
  }

  datatype ExchangeResult = ExchangeResult(header: Bytes, correlationId: int32, clientId: Bytes)

  /** What the exchange is to do, from the state the three objects are in. */
  ghost function ExchangeOf(handler: SaslHandler, client: Conn, upstream: Conn): Result<Outcome>
    reads handler, client, upstream
  {
    Exchange(client.unread, upstream.unread, handler.authenticated)
  }

  /** The ids are what parsing the header as a request header reads. */
  predicate IdsOf(x: ExchangeResult) {
    var h := ParseRequestHeader(x.header);
    h.Ok? && x.correlationId == h.value.correlationId && x.clientId == h.value.clientId
  }

  /** Reads what follows the first six bytes of a frame that is not SASL. */
  method ReadHeader(client: Conn, peek: Bytes, ghost all: Bytes) returns (r: Result<ExchangeResult>)
    requires |peek| == 6 && all == peek + client.unread
    modifies client`unread
    ensures |all| < 14 || |all| < HeaderLen(all) ==> r == Err(TooShort)
    ensures |all| >= 14 && |all| >= HeaderLen(all) ==>
      r == Ok(ExchangeResult(all[..HeaderLen(all)], Signed32(Get32(all[8..])), all[14..HeaderLen(all)]))
      && client.unread == all[HeaderLen(all)..]
  {
    assert client.unread == all[6..];
    var fixedRest := client.ReadFull(8);
    if fixedRest.Err? {
      return Err(fixedRest.error);
    }
    var fixedPart := fixedRest.value;
    assert all[6..][..8] == fixedPart;
    assert fixedPart[2..][..4] == all[8..][..4];
    GetPrefix32(fixedPart[2..], all[8..]);
    assert fixedPart[6..][0] == all[12..][0] && fixedPart[6..][1] == all[12..][1];
    var correlationId := Signed32(Get32(fixedPart[2..]));
    var clientIdLen: int := Signed16(Get16(fixedPart[6..]));
    var clientId: Bytes := [];
    if clientIdLen > 0 {
      assert client.unread == all[14..];
      var idBytes := client.ReadFull(clientIdLen);
      if idBytes.Err? {
        return Err(idBytes.error);
      }
      clientId := idBytes.value;
    }
    assert peek + fixedPart + clientId == all[..HeaderLen(all)];
    r := Ok(ExchangeResult(peek + fixedPart + clientId, correlationId, clientId));
  }

  /** Reads what follows the first six bytes of a SASL frame. */
  method ReadRequest(client: Conn, peek: Bytes, ghost all: Bytes) returns (r: Result<Bytes>)
    requires |peek| == 6 && all == peek + client.unread
    modifies client`unread
    ensures FrameLen(all) < 6 ==> r == Err(InvalidFrameSize)
    ensures FrameLen(all) >= 6 && |all| < FrameLen(all) ==> r == Err(TooShort)
    ensures 6 <= FrameLen(all) <= |all| ==>
      r == Ok(all[..FrameLen(all)]) && client.unread == all[FrameLen(all)..]
  {
    assert all[..6] == peek && all[6..] == client.unread;
    PrefixFields(all, 6);
    var frameSize: int := Signed32(Get32(peek));
    var remaining := frameSize - 2;
    if remaining < 0 {
      return Err(InvalidFrameSize);
    }
    var payload := client.ReadFull(remaining);
    if payload.Err? {
      return Err(payload.error);
    }
    assert peek + payload.value == all[..FrameLen(all)];
    r := Ok(peek + payload.value);
  }

  method ReadResponse(upstream: Conn, ghost all: Bytes) returns (r: Result<Bytes>)
    requires all == upstream.unread
    modifies upstream`unread
    ensures |all| < 8 ==> r == Err(TooShort)
    ensures |all| >= 8 && FrameLen(all) < 8 ==> r == Err(InvalidFrameSize)
    ensures |all| >= 8 && FrameLen(all) >= 8 && |all| < FrameLen(all) ==> r == Err(TooShort)
    ensures |all| >= 8 && 8 <= FrameLen(all) <= |all| ==>
      r == Ok(all[..FrameLen(all)]) && upstream.unread == all[FrameLen(all)..]
  {
    var respHeader := upstream.ReadFull(8);
    if respHeader.Err? {
      return Err(respHeader.error);
    }
    PrefixFields(all, 8);
    var respSize: int := Signed32(Get32(respHeader.value));
    if respSize < 4 {
      return Err(InvalidFrameSize);
    }
    var respBody := upstream.ReadFull(respSize - 4);
    if respBody.Err? {
      return Err(respBody.error);
    }
    assert respHeader.value + respBody.value == all[..FrameLen(all)];
    r := Ok(respHeader.value + respBody.value);
  }

  /** Forwards one SASL request and the response to it. */
  method ForwardPair(handler: SaslHandler, client: Conn, upstream: Conn, peek: Bytes, ghost c: Bytes)
      returns (r: Result<()>, ghost request: Bytes, ghost response: Bytes)
    requires client != upstream
    requires |peek| == 6 && c == peek + client.unread && ApiKey(peek) == ApiKey(c) && IsSaslKey(ApiKey(c))
    modifies handler, client, upstream
    ensures request <= c && response <= old(upstream.unread)
    ensures Grows(old(upstream.sent), upstream.sent, request)
    ensures Grows(old(client.sent), client.sent, response)
    ensures r.Err? && r.error != WriteFailed ==> FirstPair(c, old(upstream.unread)) == Err(r.error)
    ensures r.Ok? ==> FirstPair(c, old(upstream.unread)) == Ok((request, response))
    ensures r.Ok? ==> upstream.sent == old(upstream.sent) + request && client.sent == old(client.sent) + response
    ensures r.Ok? ==> c == request + client.unread && old(upstream.unread) == response + upstream.unread
    ensures r.Ok? ==> handler.authenticated == (old(handler.authenticated) || Authenticates(request, response))
  {
    request, response := [], [];
    ghost var u := upstream.unread;
    var fullRequest := ReadRequest(client, peek, c);
    if fullRequest.Err? {
      return Err(fullRequest.error), request, response;
    }
    request := fullRequest.value;
    var ok := upstream.Write(fullRequest.value);
    if !ok {
      return Err(WriteFailed), request, response;
    }
    var respRead := ReadResponse(upstream, u);
    if respRead.Err? {
      return Err(respRead.error), request, response;
    }
    var fullResponse := respRead.value;
    response := fullResponse;
    PrefixFields(c, |request|);
    if ApiKey(peek) == SASL_AUTHENTICATE {
      fullResponse := handler.PassthroughResponse(fullResponse);
    }
    ok := client.Write(fullResponse);
    if !ok {
      return Err(WriteFailed), request, response;
    }
    r := Ok(());
  }

  /** The outcome of the whole run, from the pairs relayed so far and what the rest does. */
  function Relayed(requests: seq<Bytes>, responses: seq<Bytes>, rest: Result<Outcome>): Result<Outcome> {
    match rest
    case Err(e) => Err(e)
    case Ok(o) => Ok(o.(requests := requests + o.requests, responses := responses + o.responses))
  }

  lemma RelayedNone(rest: Result<Outcome>)
    ensures Relayed([], [], rest) == rest
  {
    if rest.Ok? {
      assert [] + rest.value.requests == rest.value.requests && [] + rest.value.responses == rest.value.responses;
    }
  }

  lemma RelayedStep(
      requests: seq<Bytes>, responses: seq<Bytes>, request: Bytes, response: Bytes,
      c: Bytes, u: Bytes, auth: bool, c': Bytes, u': Bytes)
    requires |c| >= 6 && IsSaslKey(ApiKey(c)) && FirstPair(c, u) == Ok((request, response))
    requires c == request + c' && u == response + u'
    ensures Relayed(requests, responses, Exchange(c, u, auth))
         == Relayed(requests + [request], responses + [response],
                    Exchange(c', u', auth || Authenticates(request, response)))
  {
    var rest := Exchange(c', u', auth || Authenticates(request, response));
    assert c[|request|..] == c' && u[|response|..] == u';
    assert Exchange(c, u, auth) == WithPair(request, response, rest);
    if rest.Ok? {
      var o := rest.value;
      assert requests + ([request] + o.requests) == requests + [request] + o.requests;
      assert responses + ([response] + o.responses) == responses + [response] + o.responses;
    }
  }

  lemma RelayedEnd(requests: seq<Bytes>, responses: seq<Bytes>, c: Bytes, u: Bytes, auth: bool)
    requires |c| >= 14 && |c| >= HeaderLen(c) && !IsSaslKey(ApiKey(c))
    ensures Relayed(requests, responses, Exchange(c, u, auth))
         == Ok(Outcome(requests, responses, c[..HeaderLen(c)], auth, c[HeaderLen(c)..], u))
  {
    assert requests + [] == requests && responses + [] == responses;
  }

  lemma {:induction false} ConcatSnoc(frames: seq<Bytes>, frame: Bytes)
    ensures Concat(frames + [frame]) == Concat(frames) + frame
  {
    if frames == [] {
      assert [frame][1..] == [];
      assert frame + [] == frame && [] + frame == frame;
    } else {
      assert (frames + [frame])[1..] == frames[1..] + [frame];
      ConcatSnoc(frames[1..], frame);
      AppendAssoc(frames[0], Concat(frames[1..]), frame);
    }
  }

  /** Having sent whole frames and then a part of the next is having sent a prefix. */
  lemma GrowsAfter(before: Bytes, whole: Bytes, after: Bytes, frame: Bytes, rest: Bytes)
    requires Grows(before + whole, after, frame)
    ensures Grows(before, after, whole + (frame + rest))
  {
    var part := after[|before + whole|..];
    assert after == before + whole + part;
    assert after[|before|..] == whole + part;
    assert whole + (frame + rest) == whole + part + (frame + rest)[|part|..];
  }

  /** Returns the header of the first frame that is not SASL, which ends the run. */
  method Finish(
      client: Conn, peek: Bytes, ghost all: Bytes,
      ghost requests: seq<Bytes>, ghost responses: seq<Bytes>, ghost u: Bytes, ghost auth: bool)
      returns (r: Result<ExchangeResult>)
    requires |peek| == 6 && all == peek + client.unread && !IsSaslKey(ApiKey(all))
    modifies client`unread
    ensures r.Ok? ==>
      && Relayed(requests, responses, Exchange(all, u, auth))
         == Ok(Outcome(requests, responses, r.value.header, auth, client.unread, u))
      && IdsOf(r.value)
    ensures r.Err? ==> Relayed(requests, responses, Exchange(all, u, auth)) == Err(r.error) && r.error == TooShort
  {
    r := ReadHeader(client, peek, all);
    if r.Ok? {
      HeaderFields(all);
      RelayedEnd(requests, responses, all, u, auth);
    }
  }

  /** One turn of the loop: relays a pair, or ends the exchange. */
  method Turn(
      handler: SaslHandler, client: Conn, upstream: Conn, ghost requests: seq<Bytes>, ghost responses: seq<Bytes>)
      returns (done: bool, r: Result<ExchangeResult>, ghost request: Bytes, ghost response: Bytes)
    requires client != upstream
    modifies handler, client, upstream
    ensures request <= old(client.unread) && response <= old(upstream.unread)
    ensures Grows(old(upstream.sent), upstream.sent, request) && Grows(old(client.sent), client.sent, response)
    ensures !done ==> |request| > 0
    ensures !done ==> old(client.unread) == request + client.unread && upstream.sent == old(upstream.sent) + request
    ensures !done ==> old(upstream.unread) == response + upstream.unread && client.sent == old(client.sent) + response
    ensures !done ==>
      Relayed(requests, responses, old(ExchangeOf(handler, client, upstream)))
      == Relayed(requests + [request], responses + [response], ExchangeOf(handler, client, upstream))
    ensures done && r.Ok? ==> IdsOf(r.value) && upstream.sent == old(upstream.sent) && client.sent == old(client.sent)
    ensures done && r.Ok? ==>
      Relayed(requests, responses, old(ExchangeOf(handler, client, upstream)))
      == Ok(Outcome(requests, responses, r.value.header, handler.authenticated, client.unread, upstream.unread))
    ensures done && r.Err? && r.error != WriteFailed ==>
      Relayed(requests, responses, old(ExchangeOf(handler, client, upstream))) == Err(r.error)
  {
    ghost var c, u, auth := client.unread, upstream.unread, handler.authenticated;
    done, r, request, response := true, Err(WriteFailed), [], [];
    var peek := client.ReadFull(6);
    if peek.Err? {
      return true, Err(peek.error), [], [];
    }
    PrefixFields(c, 6);
    if !IsSaslKey(ApiKey(peek.value)) {
      r := Finish(client, peek.value, c, requests, responses, u, auth);
      return;
    }
    var pair;
    pair, request, response := ForwardPair(handler, client, upstream, peek.value, c);
    if pair.Err? {
      return true, Err(pair.error), request, response;
    }
    RelayedStep(requests, responses, request, response, c, u, auth, client.unread, upstream.unread);
    done := false;
  }

  /** Runs the exchange `Exchange` specifies: when it returns normally, the streams
      are as `Exchange` says, and the ids are those of the returned header; when a
      read fails or a frame is malformed, `Exchange` fails in the same way.  Whatever
      happens, only bytes read from one side are sent to the other, in order. */
  method HandleSaslExchange(handler: SaslHandler, client: Conn, upstream: Conn) returns (r: Result<ExchangeResult>)
    requires client != upstream
    modifies handler, client, upstream
    ensures r.Ok? ==> exists requests, responses ::
      && old(ExchangeOf(handler, client, upstream))
         == Ok(Outcome(requests, responses, r.value.header, handler.authenticated, client.unread, upstream.unread))
      && upstream.sent == old(upstream.sent) + Concat(requests)
      && client.sent == old(client.sent) + Concat(responses)
    ensures r.Ok? ==> IdsOf(r.value)
    ensures r.Err? && r.error != WriteFailed ==>
      old(ExchangeOf(handler, client, upstream)) == Err(r.error)
    ensures Grows(old(upstream.sent), upstream.sent, old(client.unread))
    ensures Grows(old(client.sent), client.sent, old(upstream.unread))
  {
    ghost var requests: seq<Bytes>, responses: seq<Bytes> := [], [];
    ghost var whole := ExchangeOf(handler, client, upstream);
    RelayedNone(whole);
    while true
      invariant upstream.sent == old(upstream.sent) + Concat(requests)
      invariant client.sent == old(client.sent) + Concat(responses)
      invariant old(client.unread) == Concat(requests) + client.unread
      invariant old(upstream.unread) == Concat(responses) + upstream.unread
      invariant whole == Relayed(requests, responses, ExchangeOf(handler, client, upstream))
      decreases |client.unread|
    {
      ghost var c, u := client.unread, upstream.unread;
      var done;
      ghost var request, response;
      done, r, request, response := Turn(handler, client, upstream, requests, responses);
      if done {
        SentInAll(requests, request, old(upstream.sent), upstream.sent, old(client.unread), c);
        SentInAll(responses, response, old(client.sent), client.sent, old(upstream.unread), u);
        return;
      }
      PairSent(requests, request, old(upstream.sent), old(client.unread), c, client.unread);
      PairSent(responses, response, old(client.sent), old(upstream.unread), u, upstream.unread);
      requests, responses := requests + [request], responses + [response];
    }
    assert false;
  }

  lemma SentInAll(frames: seq<Bytes>, frame: Bytes, before: Bytes, after: Bytes, input: Bytes, unread: Bytes)
    requires input == Concat(frames) + unread && frame <= unread && Grows(before + Concat(frames), after, frame)
    ensures Grows(before, after, input)
  {
    GrowsAfter(before, Concat(frames), after, frame, unread[|frame|..]);
    assert unread == frame + unread[|frame|..];
  }

  lemma PairSent(frames: seq<Bytes>, frame: Bytes, before: Bytes, input: Bytes, unread: Bytes, unread': Bytes)
    requires input == Concat(frames) + unread && unread == frame + unread'
    ensures before + Concat(frames) + frame == before + Concat(frames + [frame])
    ensures input == Concat(frames + [frame]) + unread'
  {
    ConcatSnoc(frames, frame);
    AppendAssoc(before, Concat(frames), frame);
    AppendAssoc(Concat(frames), frame, unread');
  }

  lemma HeaderFields(c: Bytes)
    requires |c| >= 14 && |c| >= HeaderLen(c)
    ensures ParseRequestHeader(c[..HeaderLen(c)]).Ok?
    ensures ParseRequestHeader(c[..HeaderLen(c)]).value.correlationId == Signed32(Get32(c[8..]))
    ensures ParseRequestHeader(c[..HeaderLen(c)]).value.clientId == c[14..HeaderLen(c)]
  {
    var header, rest := c[..HeaderLen(c)], c[HeaderLen(c)..];
    PrefixFields(c, HeaderLen(c));
    assert header + rest == c;
    HeaderParses(header, rest);
  }
}

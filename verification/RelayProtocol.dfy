/**
 The size-limited relay exchange: reading a response body, projecting it into
 the relay's JSON envelope, and reading it back in the worker.
 */
module RelayProtocol {
  import opened Prelude
  import opened Utf8
  import Base64

  const MAX_HEADERS := 50
  const MAX_HEADER_BYTES := 16 * 1024
  const MAX_REDIRECTS := 10
  const MAX_COOKIES := 4

  datatype BodyError = SourceLimit | ProjectionLimit | InvalidProjection

  // ------------------------------------------------------------ reading a limited body

  function Flatten(chunks: seq<seq<Byte>>): seq<Byte> {
    if chunks == [] then [] else chunks[0] + Flatten(chunks[1..])
  }

  // content[:limit] for a limit that is not negative.
  function Cut(content: seq<Byte>, limit: nat): seq<Byte> {
    content[..Min(limit, |content|)]
  }

  lemma CutAppend(before: seq<Byte>, chunk: seq<Byte>, after: seq<Byte>, limit: nat)
    requires |before| < limit
    ensures Cut(before + chunk, limit) == before + Cut(chunk, limit - |before|)
    ensures |before + chunk| >= limit ==> Cut(before + (chunk + after), limit) == Cut(before + chunk, limit)
  {
    assert before + (chunk + after) == (before + chunk) + after;
  }

  // Stops reading as soon as the limit is reached. The result is the start of
  // the whole stream, so asking for one byte more than a limit tells exactly
  // whether the stream is longer than that limit.
  method ReadLimitedBody(chunks: seq<seq<Byte>>, limit: nat) returns (body: seq<Byte>)
    ensures body == Cut(Flatten(chunks), limit)
    ensures limit > 0 ==> (|body| > limit - 1 <==> |Flatten(chunks)| > limit - 1)
  {
    body := [];
    var i := 0;
    while i < |chunks|
      invariant i <= |chunks| && |body| <= limit
      invariant Cut(Flatten(chunks), limit) == Cut(body + Flatten(chunks[i..]), limit)
    {
      var remaining := limit - |body|;
      if remaining <= 0 {
        break;
      }
      CutAppend(body, chunks[i], Flatten(chunks[i + 1..]), limit);
      assert chunks[i..][1..] == chunks[i + 1..];
      assert body + Flatten(chunks[i..]) == (body + chunks[i]) + Flatten(chunks[i + 1..]);
      body := body + Cut(chunks[i], remaining);
      i := i + 1;
    }
    if i == |chunks| {
      assert body + Flatten(chunks[i..]) == body;
    }
  }

  // ------------------------------------------------------------ the body projection

  function DecodeLimitedBody(content: seq<Byte>, limit: nat): string {
    DecodeReplacing(Cut(content, limit))
  }

  function EncodeRelayBody(body: string, limit: nat): Result<string, BodyError> {
    var encoded := Utf8.Encode(body);
    if |body| > limit || |encoded| > limit * 3 then Err(SourceLimit)
    else Ok(Base64.Encode(Base64.Standard, encoded))
  }

  function DecodeRelayBody(value: string, limit: nat): Result<string, BodyError> {
    if |value| > limit * 4 then Err(ProjectionLimit)
    else
      var decoded := Base64.Decode(Base64.Standard, value);
      if decoded.None? then Err(InvalidProjection)
      else
        var body := Utf8.Decode(decoded.value);
        if body.None? then Err(InvalidProjection)
        else if |decoded.value| > limit * 3 || |body.value| > limit then Err(ProjectionLimit)
        else Ok(body.value)
  }

  lemma ProjectionFits(n: nat, limit: nat)
    ensures n <= limit * 3 <==> 4 * Base64.GroupsOf(n) <= limit * 4
  {
  }

  // What one side encodes under its limit, the other side reads under its own
  // limit exactly when it could have encoded the same body itself.
  lemma DecodeUnderAnotherLimit(body: string, encodeLimit: nat, decodeLimit: nat)
    requires EncodeRelayBody(body, encodeLimit).Ok?
    ensures var value := EncodeRelayBody(body, encodeLimit).value;
            DecodeRelayBody(value, decodeLimit) ==
            if EncodeRelayBody(body, decodeLimit).Ok? then Ok(body) else Err(ProjectionLimit)
  {
    var encoded := Utf8.Encode(body);
    Base64.DecodeEncode(Base64.Standard, encoded);
    DecodeInvertsEncode(body, encoded);
    ProjectionFits(|encoded|, decodeLimit);
  }

  // Nothing is accepted that the encoder could not have been asked to send, and what is
  // accepted has the length of its encoding, apart from surplus padding.
  lemma AcceptedIsEncodable(value: string, limit: nat)
    requires DecodeRelayBody(value, limit).Ok?
    ensures var again := EncodeRelayBody(DecodeRelayBody(value, limit).value, limit);
            again.Ok? && |again.value| <= |value| && forall i :: |again.value| <= i < |value| ==> value[i] == '='
  {
    var decoded := Base64.Decode(Base64.Standard, value).value;
    DecodeInvertsEncode(Utf8.Decode(decoded).value, decoded);
    Base64.DecodedLength(Base64.Standard, value);
    Base64.DecodeEncode(Base64.Standard, decoded);
  }

  // Whatever bytes the target sends, the body that the client keeps passes the
  // relay's limits, fits the projection and comes back unchanged.
  lemma AnyBodyPassesTheRelay(content: seq<Byte>, limit: nat)
    ensures var body := DecodeLimitedBody(content, limit);
            && EncodeRelayBody(body, limit).Ok?
            && |EncodeRelayBody(body, limit).value| <= 4 * limit
            && DecodeRelayBody(EncodeRelayBody(body, limit).value, limit) == Ok(body)
  {
    var body := DecodeLimitedBody(content, limit);
    ReplacedSize(Cut(content, limit));
    DecodeUnderAnotherLimit(body, limit, limit);
    Base64.DecodeEncode(Base64.Standard, Utf8.Encode(body));
    ProjectionFits(|Utf8.Encode(body)|, limit);
  }
}

/**
 A fetch through the relay from end to end: the relay requests the target and answers
 with an envelope, the worker reads the envelope and checks it. Parsing JSON, the name
 service and the network are functions.
 */
module RelayExchange {
  import opened Prelude
  import opened Utf8
  import opened RelayProtocol
  import opened RelayHeaders
  import opened RelayEnvelope
  import Allowlist
  import Base64
  import HttpClient
  import TargetUrl

  // ------------------------------------------------------------ the relay

  // A status line has three digits.
  type Status = n: nat | n < 1000

  datatype Reply = Reply(status: Status, headers: seq<Header>, chunks: seq<seq<Byte>>, cookies: seq<Cookie>)

  // connects: the address behind a normalised URL, unless it is refused.
  datatype Network = Network(
    fetch: string -> HttpClient.Fetch<Reply>, join: (string, string) -> string, connects: string -> Option<string>)

  datatype Policy = Policy(covers: Allowlist.Url -> bool, maxRedirects: int)

  // Unhandled errors are those that the endpoint does not turn into a refusal.
  datatype RelayError = Denied | Failed | Unhandled

  // A raw URL that the policy covers, in its normal form.
  function Admitted(lib: TargetUrl.Library, policy: Policy, raw: string): Option<string> {
    TargetUrl.Admitted(lib, policy.covers, raw)
  }

  // The library reads back the locations of the URLs that the policy covers, and none of
  // them grows by more than a port.
  ghost predicate ReadsPolicy(lib: TargetUrl.Library, policy: Policy) {
    forall raw :: Admitted(lib, policy, raw).Some? ==>
      TargetUrl.Rereads(lib, TargetUrl.Normalize(lib, raw).value.origin) && TargetUrl.ShortLocation(lib, raw)
  }

  function FollowRedirect(lib: TargetUrl.Library, policy: Policy, net: Network, from: string, location: string):
    Option<string>
  {
    if TargetUrl.Strip(location) == "" then None
    else
      var next := Admitted(lib, policy, net.join(from, TargetUrl.Strip(location)));
      if next.Some? && net.connects(next.value).Some? then next else None
  }

  function SiteOf(lib: TargetUrl.Library, policy: Policy, net: Network): HttpClient.Site<Reply> {
    HttpClient.Site(net.fetch, (from, location) => FollowRedirect(lib, policy, net, from, location), net.join)
  }

  function Never(k: nat): bool {
    false
  }

  function Take<T>(s: seq<T>, n: nat): seq<T> {
    s[..Min(n, |s|)]
  }

  // The text of a URL that was normalised and that the policy covers.
  ghost predicate Requested(lib: TargetUrl.Library, policy: Policy, text: string) {
    exists raw :: Admitted(lib, policy, raw) == Some(text)
  }

  // What the relay reports of a reply.
  ghost predicate Reports(e: Envelope, reply: Reply, lower: string -> string, limit: nat) {
    && e.status == reply.status
    && e.bodyBase64 == Base64.Encode(Base64.Standard, Utf8.Encode(DecodeLimitedBody(Flatten(reply.chunks), limit)))
    && e.cookies == Take(reply.cookies, MAX_COOKIES)
    && |e.headers| <= MAX_HEADERS && TotalBytes(e.headers) <= MAX_HEADER_BYTES
    && (forall h :: h in e.headers ==> CopyOf(reply.headers, lower, h))
    && MostHeaders(Candidates(reply.headers, lower), e.headers)
  }

  // Of the headers that may be forwarded, as many as the budget allows.
  ghost predicate MostHeaders(candidates: seq<Header>, headers: seq<Header>) {
    exists kept: nat :: Gathered(candidates, kept, headers) && Full(candidates, kept)
  }

  // A redirect that the relay follows: its location is not blank, and what it leads to is
  // covered by the policy and connects.
  ghost predicate RelayHop(lib: TargetUrl.Library, policy: Policy, net: Network, from: string, to: string, entry: string) {
    && net.fetch(from).Redirect?
    && var location := net.fetch(from).location;
    && TargetUrl.Strip(location) != ""
    && Admitted(lib, policy, net.join(from, TargetUrl.Strip(location))) == Some(to) && net.connects(to).Some?
    && entry == net.join(from, location)
  }

  // From a URL that connects, over at most as many redirects as the policy allows, to a
  // final reply.
  ghost predicate RelayTrail(lib: TargetUrl.Library, policy: Policy, net: Network, raw: string, urls: seq<string>,
                             chain: seq<string>)
  {
    && |urls| == |chain| + 1 && |chain| <= policy.maxRedirects
    && Admitted(lib, policy, raw) == Some(urls[0]) && net.connects(urls[0]).Some?
    && (forall i :: 0 <= i < |chain| ==> RelayHop(lib, policy, net, urls[i], urls[i + 1], chain[i]))
    && net.fetch(urls[|chain|]).Final?
  }

  ghost predicate Answers(lib: TargetUrl.Library, policy: Policy, net: Network, raw: string) {
    exists urls, chain :: RelayTrail(lib, policy, net, raw, urls, chain)
  }

  // An answer of the relay: the final reply of a URL of the policy, after at most as
  // many redirects as the policy allows.
  ghost predicate Relayed(lib: TargetUrl.Library, policy: Policy, net: Network, lower: string -> string, limit: nat,
                          e: Envelope) {
    && Requested(lib, policy, e.url)
    && net.fetch(e.url).Final? && Reports(e, net.fetch(e.url).response, lower, limit)
    && |e.redirects| <= policy.maxRedirects
    && net.connects(e.url) == Some(e.address) && 2 <= |e.address| <= MAX_ADDRESS
  }

  lemma RelayTrailIsTrail(lib: TargetUrl.Library, policy: Policy, net: Network, raw: string, urls: seq<string>,
                          chain: seq<string>)
    requires Admitted(lib, policy, raw).Some? && net.connects(Admitted(lib, policy, raw).value).Some?
    ensures RelayTrail(lib, policy, net, raw, urls, chain) <==>
              && |chain| <= policy.maxRedirects
              && HttpClient.Trail(SiteOf(lib, policy, net), Admitted(lib, policy, raw).value, urls, chain)
              && net.fetch(urls[|chain|]).Final?
  {
    var site := SiteOf(lib, policy, net);
    if |urls| == |chain| + 1 {
      forall i | 0 <= i < |chain|
        ensures HttpClient.Hop(site, urls[i], urls[i + 1], chain[i]) <==>
                RelayHop(lib, policy, net, urls[i], urls[i + 1], chain[i])
      {
      }
    }
  }

  lemma RelayTrailIsUnique(lib: TargetUrl.Library, policy: Policy, net: Network, raw: string, urls: seq<string>,
                           chain: seq<string>, others: seq<string>, otherChain: seq<string>)
    requires RelayTrail(lib, policy, net, raw, urls, chain) && RelayTrail(lib, policy, net, raw, others, otherChain)
    ensures urls == others && chain == otherChain
  {
    RelayTrailIsTrail(lib, policy, net, raw, urls, chain);
    RelayTrailIsTrail(lib, policy, net, raw, others, otherChain);
    HttpClient.FinalTrailIsUnique(SiteOf(lib, policy, net), urls[0], urls, chain, others, otherChain);
  }

  // How the loop of the client ended, without the client.
  lemma GotIsRelayTrail(lib: TargetUrl.Library, policy: Policy, net: Network, raw: string, urls: seq<string>,
                        got: Result<HttpClient.Answer<Reply>, HttpClient.Failure>)
    requires Admitted(lib, policy, raw).Some? && net.connects(Admitted(lib, policy, raw).value).Some?
    requires got.Ok? && HasTrail(lib, policy, net, Admitted(lib, policy, raw).value, urls, got)
    ensures RelayTrail(lib, policy, net, raw, urls, got.value.chain) && got.value.url == urls[|got.value.chain|]
    ensures net.fetch(got.value.url) == HttpClient.Final(got.value.response)
  {
    RelayTrailIsTrail(lib, policy, net, raw, urls, got.value.chain);
  }

  lemma NoRelayTrail(lib: TargetUrl.Library, policy: Policy, net: Network, raw: string, urls: seq<string>,
                     got: Result<HttpClient.Answer<Reply>, HttpClient.Failure>,
                     others: seq<string>, otherChain: seq<string>)
    requires Admitted(lib, policy, raw).Some? && net.connects(Admitted(lib, policy, raw).value).Some?
    requires got.Err? && HasTrail(lib, policy, net, Admitted(lib, policy, raw).value, urls, got)
    ensures !RelayTrail(lib, policy, net, raw, others, otherChain)
  {
    var site, start := SiteOf(lib, policy, net), Admitted(lib, policy, raw).value;
    RelayTrailIsTrail(lib, policy, net, raw, others, otherChain);
    if |otherChain| <= policy.maxRedirects && HttpClient.Trail(site, start, others, otherChain) {
      var chain :| |chain| <= policy.maxRedirects && HttpClient.Trail(site, start, urls, chain)
                   && HttpClient.EndsWith(site, policy.maxRedirects, Never, urls, chain, got);
      HttpClient.NoAnswerNoFinal(site, start, policy.maxRedirects, Never, urls, chain, got, others, otherChain);
    }
  }

  ghost predicate HasTrail(lib: TargetUrl.Library, policy: Policy, net: Network, start: string, urls: seq<string>,
                           got: Result<HttpClient.Answer<Reply>, HttpClient.Failure>)
  {
    exists chain :: |chain| <= policy.maxRedirects && HttpClient.Trail(SiteOf(lib, policy, net), start, urls, chain)
                    && HttpClient.EndsWith(SiteOf(lib, policy, net), policy.maxRedirects, Never, urls, chain, got)
  }

  lemma OneAnswer(lib: TargetUrl.Library, policy: Policy, net: Network, raw: string, urls: seq<string>,
                  chain: seq<string>)
    requires RelayTrail(lib, policy, net, raw, urls, chain)
    ensures Answers(lib, policy, net, raw)
    ensures (exists others, otherChain :: RelayTrail(lib, policy, net, raw, others, otherChain)
                                          && Addressed(net, others[|otherChain|])) <==> Addressed(net, urls[|chain|])
  {
    forall others, otherChain | RelayTrail(lib, policy, net, raw, others, otherChain)
      ensures others == urls && otherChain == chain
    {
      RelayTrailIsUnique(lib, policy, net, raw, urls, chain, others, otherChain);
    }
  }

  // The address behind a URL is one that the envelope can hold.
  predicate Addressed(net: Network, url: string) {
    net.connects(url).Some? && 2 <= |net.connects(url).value| <= MAX_ADDRESS
  }

  lemma RelayTrailIsRequested(lib: TargetUrl.Library, policy: Policy, net: Network, raw: string, urls: seq<string>,
                              chain: seq<string>)
    requires RelayTrail(lib, policy, net, raw, urls, chain)
    ensures Requested(lib, policy, urls[|chain|]) && net.connects(urls[|chain|]).Some?
  {
    if chain != [] {
      assert RelayHop(lib, policy, net, urls[|chain| - 1], urls[|chain| - 1 + 1], chain[|chain| - 1]);
    }
  }

  method RequestTarget(lib: TargetUrl.Library, policy: Policy, net: Network, ghost raw: string, start: string)
    returns (r: Option<HttpClient.Answer<Reply>>, ghost urls: seq<string>)
    requires Admitted(lib, policy, raw) == Some(start) && net.connects(start).Some?
    ensures r.None? ==> !Answers(lib, policy, net, raw)
    ensures r.Some? ==>
              && RelayTrail(lib, policy, net, raw, urls, r.value.chain) && r.value.url == urls[|r.value.chain|]
              && net.fetch(r.value.url) == HttpClient.Final(r.value.response)
  {
    var site := SiteOf(lib, policy, net);
    var got;
    got, urls := HttpClient.Get(site, start, policy.maxRedirects, Never);
    assert policy.maxRedirects >= 0 ==> HasTrail(lib, policy, net, start, urls, got);
    if got.Err? {
      forall others, otherChain
        ensures !RelayTrail(lib, policy, net, raw, others, otherChain)
      {
        if policy.maxRedirects >= 0 {
          NoRelayTrail(lib, policy, net, raw, urls, got, others, otherChain);
        }
      }
      return None, urls;
    }
    GotIsRelayTrail(lib, policy, net, raw, urls, got);
    return Some(got.value), urls;
  }

  // The encoder never refuses what the client has cut.
  method ReportBody(chunks: seq<seq<Byte>>, limit: nat) returns (value: string)
    ensures value == Base64.Encode(Base64.Standard, Utf8.Encode(DecodeLimitedBody(Flatten(chunks), limit)))
  {
    var content := ReadLimitedBody(chunks, limit);
    var body := EncodeRelayBody(DecodeLimitedBody(content, limit), limit);
    AnyBodyPassesTheRelay(content, limit);
    assert Cut(content, limit) == content;
    return body.value;
  }

  method Report(url: string, chain: seq<string>, address: string, reply: Reply, lower: string -> string, limit: nat)
    returns (e: Envelope)
    ensures e.url == url && e.redirects == chain && e.address == address && Reports(e, reply, lower, limit)
  {
    var headers := SafeResponseHeaders(reply.headers, lower);
    var body := ReportBody(reply.chunks, limit);
    return Envelope(url, reply.status, headers, body, chain, Take(reply.cookies, MAX_COOKIES), address);
  }

  // What the relay's endpoint does once the capability is accepted.
  method Fetch(lib: TargetUrl.Library, policy: Policy, net: Network, lower: string -> string, limit: nat, raw: string)
    returns (r: Result<Envelope, RelayError>)
    ensures r == Err(Denied) <==>
              Admitted(lib, policy, raw).None? && TargetUrl.Normalize(lib, raw) != Err(TargetUrl.Unsplittable)
    ensures r == Err(Failed) <==>
              && Admitted(lib, policy, raw).Some? && net.connects(Admitted(lib, policy, raw).value).Some?
              && !Answers(lib, policy, net, raw)
    ensures r.Ok? <==>
            exists urls, chain :: RelayTrail(lib, policy, net, raw, urls, chain) && Addressed(net, urls[|chain|])
    ensures r.Ok? ==>
              && (exists urls :: RelayTrail(lib, policy, net, raw, urls, r.value.redirects)
                                 && r.value.url == urls[|r.value.redirects|])
              && Relayed(lib, policy, net, lower, limit, r.value)
  {
    var start := Admitted(lib, policy, raw);
    if TargetUrl.Normalize(lib, raw) == Err(TargetUrl.Unsplittable) {
      return Err(Unhandled);
    }
    if start.None? {
      return Err(Denied);
    }
    if net.connects(start.value).None? {
      return Err(Unhandled);
    }
    var answer;
    ghost var urls;
    answer, urls := RequestTarget(lib, policy, net, raw, start.value);
    if answer.None? {
      return Err(Failed);
    }
    RelayTrailIsRequested(lib, policy, net, raw, urls, answer.value.chain);
    OneAnswer(lib, policy, net, raw, urls, answer.value.chain);
    var address := net.connects(answer.value.url).value;
    var e := Report(answer.value.url, answer.value.chain, address, answer.value.response, lower, limit);
    if |address| < 2 || |address| > MAX_ADDRESS {
      return Err(Unhandled);
    }
    return Ok(e);
  }

  // ------------------------------------------------------------ the worker

  // compresses: the canonical form of an address, unless the policy refuses it for a host.
  datatype Worker = Worker(
    lib: TargetUrl.Library, policy: Policy, compresses: (string, string) -> Option<string>, bodyLimit: nat)

  datatype Received = Received(
    url: Allowlist.Url, status: nat, headers: seq<Header>, body: string, redirects: seq<string>, cookies: seq<Cookie>,
    address: string)

  predicate ShortUrls(urls: seq<string>) {
    forall u :: u in urls ==> |u| <= MAX_URL_LENGTH
  }

  predicate Bounded(k: Worker, e: Envelope) {
    && |e.headers| <= MAX_HEADERS && TotalBytes(e.headers) <= MAX_HEADER_BYTES
    && |e.redirects| <= k.policy.maxRedirects && ShortUrls(e.redirects)
    && |e.cookies| <= MAX_COOKIES
    && 100 <= e.status <= 599
    && |e.address| <= MAX_ADDRESS
  }

  // The checks on a parsed envelope.
  function Accept(k: Worker, e: Envelope): Option<Received> {
    var url := TargetUrl.Normalize(k.lib, e.url);
    if url.Err? || Admitted(k.lib, k.policy, TargetUrl.Text(url.value)).None? || !Bounded(k, e) then None
    else
      var body := DecodeRelayBody(e.bodyBase64, k.bodyLimit);
      var address := k.compresses(e.address, url.value.origin.host);
      if body.Err? || address.None? then None
      else Some(Received(url.value, e.status, e.headers, body.value, e.redirects, e.cookies, address.value))
  }

  function Read(k: Worker, parse: seq<Byte> -> Option<Envelope>, document: seq<Byte>): Option<Received> {
    if |document| > EnvelopeLimit(k.bodyLimit, k.policy.maxRedirects) || parse(document).None? then None
    else Accept(k, parse(document).value)
  }

  // However the document arrives, it is read as a whole.
  method ReadRelayed(k: Worker, parse: seq<Byte> -> Option<Envelope>, chunks: seq<seq<Byte>>)
    returns (r: Option<Received>)
    ensures r == Read(k, parse, Flatten(chunks))
  {
    var document := ReadEnvelope(chunks, k.bodyLimit, k.policy.maxRedirects);
    if document.None? || parse(document.value).None? {
      return None;
    }
    return Accept(k, parse(document.value).value);
  }

  // ------------------------------------------------------------ end to end

  // The relay and the worker of one deployment: the same policy and the same library,
  // and a parser that reads what the relay writes.
  ghost predicate Agree(k: Worker, parse: seq<Byte> -> Option<Envelope>, e: Envelope) {
    && ReadsPolicy(k.lib, k.policy) && 0 <= k.policy.maxRedirects <= MAX_REDIRECTS
    && e.status < 1000 && parse(Render(e)) == Some(e)
  }

  function BodyOf(net: Network, e: Envelope, limit: nat): string
    requires net.fetch(e.url).Final?
  {
    DecodeLimitedBody(Flatten(net.fetch(e.url).response.chunks), limit)
  }

  // The checks that an answer of the relay can fail.
  predicate Passes(k: Worker, e: Envelope, body: string) {
    var url := TargetUrl.Normalize(k.lib, e.url);
    && url.Ok? && Admitted(k.lib, k.policy, TargetUrl.Text(url.value)).Some?
    && 100 <= e.status <= 599 && ShortUrls(e.redirects)
    && EncodeRelayBody(body, k.bodyLimit).Ok?
    && k.compresses(e.address, url.value.origin.host).Some?
  }

  lemma RequestedIsShort(lib: TargetUrl.Library, policy: Policy, text: string)
    requires ReadsPolicy(lib, policy) && Requested(lib, policy, text)
    ensures |text| <= MAX_URL_LENGTH + MAX_GROWTH
  {
    var raw :| Admitted(lib, policy, raw) == Some(text);
    TargetUrl.NormalizedLength(lib, raw);
  }

  // The worker never refuses an answer for the size of the document.
  lemma RelayedFits(k: Worker, net: Network, lower: string -> string, limit: nat, e: Envelope)
    requires ReadsPolicy(k.lib, k.policy) && 0 <= k.policy.maxRedirects <= MAX_REDIRECTS
    requires Relayed(k.lib, k.policy, net, lower, limit, e) && ShortUrls(e.redirects)
    requires EncodeRelayBody(BodyOf(net, e, limit), k.bodyLimit).Ok?
    ensures e.status < 1000 && |Render(e)| <= EnvelopeLimit(k.bodyLimit, k.policy.maxRedirects)
  {
    var encoded := Utf8.Encode(BodyOf(net, e, limit));
    RequestedIsShort(k.lib, k.policy, e.url);
    Base64.DecodeEncode(Base64.Standard, encoded);
    ProjectionFits(|encoded|, k.bodyLimit);
    EnvelopeFits(e, encoded, k.bodyLimit, k.policy.maxRedirects);
  }

  lemma RelayedBody(k: Worker, net: Network, lower: string -> string, limit: nat, e: Envelope)
    requires Relayed(k.lib, k.policy, net, lower, limit, e)
    ensures var body := BodyOf(net, e, limit);
            DecodeRelayBody(e.bodyBase64, k.bodyLimit) ==
            if EncodeRelayBody(body, k.bodyLimit).Ok? then Ok(body) else Err(ProjectionLimit)
    ensures limit <= k.bodyLimit ==> EncodeRelayBody(BodyOf(net, e, limit), k.bodyLimit).Ok?
  {
    var content := Flatten(net.fetch(e.url).response.chunks);
    AnyBodyPassesTheRelay(content, limit);
    DecodeUnderAnotherLimit(BodyOf(net, e, limit), limit, k.bodyLimit);
  }

  // Received exactly when the checks pass, with the body that the relay read.
  ghost predicate Receives(got: Option<Received>, k: Worker, e: Envelope, body: string) {
    && (got.Some? <==> Passes(k, e, body))
    && (got.Some? ==>
          var url, address := TargetUrl.Normalize(k.lib, e.url).value, got.value.address;
          got.value == Received(url, e.status, e.headers, body, e.redirects, e.cookies, address))
  }

  lemma RelayedIsBounded(k: Worker, net: Network, lower: string -> string, limit: nat, e: Envelope)
    requires Relayed(k.lib, k.policy, net, lower, limit, e)
    ensures Bounded(k, e) <==> 100 <= e.status <= 599 && ShortUrls(e.redirects)
  {
  }

  lemma AcceptIffPasses(k: Worker, e: Envelope, body: string)
    requires Bounded(k, e) <==> 100 <= e.status <= 599 && ShortUrls(e.redirects)
    requires DecodeRelayBody(e.bodyBase64, k.bodyLimit) ==
             if EncodeRelayBody(body, k.bodyLimit).Ok? then Ok(body) else Err(ProjectionLimit)
    ensures Receives(Accept(k, e), k, e, body)
  {
  }

  lemma AcceptedIffPasses(k: Worker, net: Network, lower: string -> string, limit: nat, e: Envelope)
    requires Relayed(k.lib, k.policy, net, lower, limit, e)
    ensures Receives(Accept(k, e), k, e, BodyOf(net, e, limit))
  {
    RelayedBody(k, net, lower, limit, e);
    RelayedIsBounded(k, net, lower, limit, e);
    AcceptIffPasses(k, e, BodyOf(net, e, limit));
  }

  lemma ReadIsAccept(k: Worker, parse: seq<Byte> -> Option<Envelope>, e: Envelope)
    requires Agree(k, parse, e)
    requires Accept(k, e).Some? ==> |Render(e)| <= EnvelopeLimit(k.bodyLimit, k.policy.maxRedirects)
    ensures Read(k, parse, Render(e)) == Accept(k, e)
  {
  }

  // The worker receives an answer of the relay exactly when it passes the checks: the
  // size of the document never decides.
  lemma ReceivedIffPasses(k: Worker, net: Network, lower: string -> string, limit: nat,
                          parse: seq<Byte> -> Option<Envelope>, e: Envelope)
    requires Relayed(k.lib, k.policy, net, lower, limit, e) && Agree(k, parse, e)
    ensures Receives(Read(k, parse, Render(e)), k, e, BodyOf(net, e, limit))
  {
    AcceptedIffPasses(k, net, lower, limit, e);
    if Accept(k, e).Some? {
      RelayedFits(k, net, lower, limit, e);
    }
    ReadIsAccept(k, parse, e);
  }

  lemma RequestedAgain(lib: TargetUrl.Library, policy: Policy, text: string)
    requires ReadsPolicy(lib, policy) && Requested(lib, policy, text)
    ensures |text| > MAX_URL_LENGTH ==> TargetUrl.Normalize(lib, text).Err?
    ensures |text| <= MAX_URL_LENGTH && !TargetUrl.EndsBlank(text) ==>
              Admitted(lib, policy, text) == Some(text)
  {
    var raw :| Admitted(lib, policy, raw) == Some(text);
    TargetUrl.NormalizeAgain(lib, raw);
  }

  // A URL that its explicit port made too long is lost on the way. One that is short
  // enough and does not end in a blank arrives unchanged, so that only the status, the
  // redirects, the body limit and the address are left to check.
  lemma UrlArrives(k: Worker, net: Network, lower: string -> string, limit: nat,
                   parse: seq<Byte> -> Option<Envelope>, e: Envelope)
    requires Relayed(k.lib, k.policy, net, lower, limit, e) && Agree(k, parse, e)
    ensures |e.url| > MAX_URL_LENGTH ==> Read(k, parse, Render(e)).None?
    ensures |e.url| <= MAX_URL_LENGTH && !TargetUrl.EndsBlank(e.url) ==>
              && Admitted(k.lib, k.policy, e.url) == Some(e.url)
              && var host := TargetUrl.Normalize(k.lib, e.url).value.origin.host;
              (Read(k, parse, Render(e)).Some? <==>
                 && 100 <= e.status <= 599 && ShortUrls(e.redirects) && k.compresses(e.address, host).Some?
                 && EncodeRelayBody(BodyOf(net, e, limit), k.bodyLimit).Ok?)
  {
    RequestedAgain(k.lib, k.policy, e.url);
    ReceivedIffPasses(k, net, lower, limit, parse, e);
  }
}

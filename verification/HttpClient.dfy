/**
 The guarded HTTP client's own redirect loop. The network and the validation of
 a redirect are functions of the URL; a checkpoint may stop the loop before any
 request.
 */
module HttpClient {
  import opened Prelude

  datatype Fetch<R> = Final(response: R) | Redirect(location: string) | Transport

  datatype Failure = Interrupted | TransportError | RedirectLimit | RedirectRefused | DidNotComplete

  datatype Site<!R> = Site(
    fetch: string -> Fetch<R>,
    follow: (string, string) -> Option<string>,
    join: (string, string) -> string)

  datatype Answer<R> = Answer(url: string, response: R, chain: seq<string>)

  ghost predicate Hop<R(!new)>(site: Site<R>, from: string, to: string, entry: string) {
    && site.fetch(from).Redirect?
    && site.follow(from, site.fetch(from).location) == Some(to)
    && entry == site.join(from, site.fetch(from).location)
  }

  // The URLs requested one after the other, and what the chain records of them.
  ghost predicate Trail<R(!new)>(site: Site<R>, start: string, urls: seq<string>, chain: seq<string>) {
    && |urls| == |chain| + 1
    && urls[0] == start
    && forall i :: 0 <= i < |chain| ==> Hop(site, urls[i], urls[i + 1], chain[i])
  }

  // Why a loop that requested the last of these URLs ends there.
  ghost predicate EndsWith<R(!new)>(site: Site<R>, maxRedirects: int, stop: nat -> bool,
                                    urls: seq<string>, chain: seq<string>, r: Result<Answer<R>, Failure>)
    requires |urls| == |chain| + 1
  {
    var last := urls[|urls| - 1];
    var got := site.fetch(last);
    if stop(0) || stop(|urls|) then r == Err(Interrupted)
    else if got.Final? then r == Ok(Answer(last, got.response, chain))
    else if got.Transport? then r == Err(TransportError)
    else if |chain| == maxRedirects then r == Err(RedirectLimit)
    else r == Err(RedirectRefused) && site.follow(last, got.location).None?
  }

  // The URLs that are requested do not depend on anything but the site.
  lemma {:induction false} TrailIsUnique<R(!new)>(site: Site<R>, start: string, urls: seq<string>, chain: seq<string>,
                                                  others: seq<string>, otherChain: seq<string>, i: nat)
    requires Trail(site, start, urls, chain) && Trail(site, start, others, otherChain)
    requires i < |urls| && i < |others|
    ensures urls[i] == others[i]
  {
    if i > 0 {
      TrailIsUnique(site, start, urls, chain, others, otherChain, i - 1);
      assert Hop(site, urls[i - 1], urls[i - 1 + 1], chain[i - 1]);
      assert Hop(site, others[i - 1], others[i - 1 + 1], otherChain[i - 1]);
    }
  }

  lemma RedirectsInside<R(!new)>(site: Site<R>, start: string, urls: seq<string>, chain: seq<string>, i: nat)
    requires Trail(site, start, urls, chain) && i < |chain|
    ensures site.fetch(urls[i]).Redirect? && site.follow(urls[i], site.fetch(urls[i]).location).Some?
  {
    assert Hop(site, urls[i], urls[i + 1], chain[i]);
  }

  // Two trails that end in a final response are one.
  lemma FinalTrailIsUnique<R(!new)>(site: Site<R>, start: string, urls: seq<string>, chain: seq<string>,
                                    others: seq<string>, otherChain: seq<string>)
    requires Trail(site, start, urls, chain) && Trail(site, start, others, otherChain)
    requires site.fetch(urls[|chain|]).Final? && site.fetch(others[|otherChain|]).Final?
    ensures urls == others && chain == otherChain
  {
    var n, m := |chain|, |otherChain|;
    forall i: nat | i <= Min(n, m)
      ensures urls[i] == others[i]
    {
      TrailIsUnique(site, start, urls, chain, others, otherChain, i);
    }
    if n < m {
      RedirectsInside(site, start, others, otherChain, n);
    } else if m < n {
      RedirectsInside(site, start, urls, chain, m);
    }
    forall i: nat | i < n
      ensures chain[i] == otherChain[i]
    {
      assert Hop(site, urls[i], urls[i + 1], chain[i]) && Hop(site, others[i], others[i + 1], otherChain[i]);
    }
  }

  // Where an undisturbed loop found no answer, no trail within the limit ends in one.
  lemma NoAnswerNoFinal<R(!new)>(site: Site<R>, start: string, maxRedirects: int, stop: nat -> bool,
                                 urls: seq<string>, chain: seq<string>, r: Result<Answer<R>, Failure>,
                                 others: seq<string>, otherChain: seq<string>)
    requires Trail(site, start, urls, chain) && EndsWith(site, maxRedirects, stop, urls, chain, r)
    requires r.Err? && !stop(0) && !stop(|urls|)
    requires Trail(site, start, others, otherChain) && |otherChain| <= maxRedirects
    ensures !site.fetch(others[|others| - 1]).Final?
  {
    var n, m := |urls| - 1, |others| - 1;
    TrailIsUnique(site, start, urls, chain, others, otherChain, Min(n, m));
    if m < n {
      RedirectsInside(site, start, urls, chain, m);
    } else if n < m {
      RedirectsInside(site, start, others, otherChain, n);
    }
  }

  // At most maxRedirects + 1 requests, each to a URL that was validated; the
  // error for a loop that runs out never occurs.
  method Get<R(!new)>(site: Site<R>, start: string, maxRedirects: int, stop: nat -> bool)
    returns (r: Result<Answer<R>, Failure>, ghost urls: seq<string>)
    ensures maxRedirects < 0 && !stop(0) ==> r == Err(DidNotComplete)
    ensures maxRedirects >= 0 ==>
              exists chain :: |chain| <= maxRedirects && Trail(site, start, urls, chain)
                              && EndsWith(site, maxRedirects, stop, urls, chain, r)
    ensures r.Ok? ==> |r.value.chain| <= maxRedirects
  {
    var current, chain := start, [];
    urls := [start];
    assert Trail(site, start, urls, chain);
    if stop(0) {
      return Err(Interrupted), urls;
    }
    var attempt := 0;
    while attempt < maxRedirects + 1
      invariant |chain| == attempt && (maxRedirects >= 0 ==> attempt <= maxRedirects)
      invariant Trail(site, start, urls, chain) && current == urls[|urls| - 1]
    {
      if stop(attempt + 1) {
        return Err(Interrupted), urls;
      }
      match site.fetch(current) {
        case Final(response) =>
          return Ok(Answer(current, response, chain)), urls;
        case Transport =>
          return Err(TransportError), urls;
        case Redirect(location) =>
          if |chain| >= maxRedirects {
            return Err(RedirectLimit), urls;
          }
          var next := site.follow(current, location);
          if next.None? {
            return Err(RedirectRefused), urls;
          }
          chain := chain + [site.join(current, location)];
          current := next.value;
          urls := urls + [current];
      }
      attempt := attempt + 1;
    }
    return Err(DidNotComplete), urls;
  }

  // An answer found within one redirect limit is the answer under every larger one.
  lemma LargerLimitSameAnswer<R(!new)>(site: Site<R>, start: string, stop: nat -> bool, limit: int, larger: int,
                                       urls: seq<string>, chain: seq<string>, r: Result<Answer<R>, Failure>,
                                       others: seq<string>, otherChain: seq<string>, s: Result<Answer<R>, Failure>)
    requires limit <= larger && |chain| <= limit && r.Ok?
    requires Trail(site, start, urls, chain) && EndsWith(site, limit, stop, urls, chain, r)
    requires Trail(site, start, others, otherChain) && EndsWith(site, larger, stop, others, otherChain, s)
    requires forall k: nat :: k <= limit + 1 ==> !stop(k)
    ensures s == r
  {
    var n, m := |urls| - 1, |others| - 1;
    var k := Min(n, m);
    forall i: nat | i <= k
      ensures urls[i] == others[i]
    {
      TrailIsUnique(site, start, urls, chain, others, otherChain, i);
    }
    assert urls[k] == others[k];
    if m > n {
      RedirectsInside(site, start, others, otherChain, n);
    } else if m < n {
      RedirectsInside(site, start, urls, chain, m);
    }
    assert m == n;
    forall i: nat | i < |chain|
      ensures chain[i] == otherChain[i]
    {
      assert Hop(site, urls[i], urls[i + 1], chain[i]) && Hop(site, others[i], others[i + 1], otherChain[i]);
    }
    assert chain == otherChain;
  }
}

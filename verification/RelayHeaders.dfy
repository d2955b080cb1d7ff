/**
 Which response headers the relay forwards, in which form and how many.
 */
module RelayHeaders {
  import opened Prelude
  import opened Utf8
  import opened RelayProtocol

  const MAX_HEADER_NAME := 120
  const MAX_HEADER_VALUE := 4096

  // ------------------------------------------------------------ forwarded headers

  const HOP_BY_HOP_HEADERS := {
    "connection", "keep-alive", "proxy-authenticate", "proxy-authorization",
    "te", "trailer", "transfer-encoding", "upgrade"
  }

  const SAFE_RESPONSE_HEADERS := {
    "cache-control", "content-language", "content-security-policy", "content-type",
    "cross-origin-opener-policy", "cross-origin-resource-policy", "location",
    "permissions-policy", "referrer-policy", "strict-transport-security",
    "x-content-type-options", "x-frame-options"
  }

  datatype Header = Header(name: string, value: string)

  predicate Forwardable(name: string) {
    name !in HOP_BY_HOP_HEADERS && name in SAFE_RESPONSE_HEADERS
  }

  function Clip(s: string, limit: nat): string {
    s[..Min(limit, |s|)]
  }

  function HeaderBytes(h: Header): nat {
    |Utf8.Encode(h.name)| + |Utf8.Encode(h.value)|
  }

  function TotalBytes(headers: seq<Header>): nat {
    if headers == [] then 0 else TotalBytes(headers[..|headers| - 1]) + HeaderBytes(headers[|headers| - 1])
  }

  // What one header contributes: its lower-cased name and its clipped value.
  function Project(h: Header, lower: string -> string): seq<Header> {
    var name := lower(h.name);
    if Forwardable(name) then [Header(Clip(name, MAX_HEADER_NAME), Clip(h.value, MAX_HEADER_VALUE))] else []
  }

  function FlatMap<T>(s: seq<T>, f: T -> seq<T>): seq<T> {
    if s == [] then [] else FlatMap(s[..|s| - 1], f) + f(s[|s| - 1])
  }

  function Candidates(headers: seq<Header>, lower: string -> string): seq<Header> {
    FlatMap(headers, h => Project(h, lower))
  }

  // A dictionary in insertion order: a second value for a name replaces the first in place.
  function Put(entries: seq<Header>, h: Header): (r: seq<Header>)
    ensures h in r
    ensures forall e :: e in r ==> e in entries || e == h
  {
    if entries == [] then [h]
    else if entries[0].name == h.name then [h] + entries[1..]
    else [entries[0]] + Put(entries[1..], h)
  }

  function PutAll(candidates: seq<Header>): seq<Header> {
    if candidates == [] then []
    else Put(PutAll(candidates[..|candidates| - 1]), candidates[|candidates| - 1])
  }

  lemma {:induction false} FlatMapPrefix<T>(s: seq<T>, f: T -> seq<T>, i: nat)
    requires i <= |s|
    ensures FlatMap(s[..i], f) <= FlatMap(s, f)
  {
    if i == |s| {
      assert s[..i] == s;
    } else {
      FlatMapPrefix(s[..|s| - 1], f, i);
      assert s[..|s| - 1][..i] == s[..i];
    }
  }

  lemma FlatMapNext<T>(s: seq<T>, f: T -> seq<T>, i: nat)
    requires i < |s|
    ensures FlatMap(s[..i + 1], f) == FlatMap(s[..i], f) + f(s[i])
    ensures FlatMap(s[..i + 1], f) <= FlatMap(s, f)
  {
    assert s[..i + 1][..i] == s[..i];
    FlatMapPrefix(s, f, i + 1);
  }

  lemma {:induction false} FlatMapSource<T>(s: seq<T>, f: T -> seq<T>, e: T)
    requires e in FlatMap(s, f)
    ensures exists h :: h in s && e in f(h)
  {
    var n := |s| - 1;
    if e in f(s[n]) {
      assert s[n] in s;
    } else {
      FlatMapSource(s[..n], f, e);
      var h :| h in s[..n] && e in f(h);
      assert h in s;
    }
  }

  ghost predicate DistinctNames(entries: seq<Header>) {
    forall i, j :: 0 <= i < j < |entries| ==> entries[i].name != entries[j].name
  }

  lemma {:induction false} PutKeepsNamesDistinct(entries: seq<Header>, h: Header)
    requires DistinctNames(entries)
    ensures DistinctNames(Put(entries, h))
  {
    if entries != [] && entries[0].name != h.name {
      PutKeepsNamesDistinct(entries[1..], h);
      var r := Put(entries[1..], h);
      forall j | 0 <= j < |r|
        ensures r[j].name != entries[0].name
      {
        assert r[j] in r;
      }
    }
  }

  lemma {:induction false} DistinctNamesFit(entries: seq<Header>, names: set<string>)
    requires DistinctNames(entries) && forall e :: e in entries ==> e.name in names
    ensures |entries| <= |names|
  {
    if entries != [] {
      var head := entries[0].name;
      forall e | e in entries[1..]
        ensures e.name in names - {head}
      {
        assert e in entries;
      }
      DistinctNamesFit(entries[1..], names - {head});
    }
  }

  lemma SafeNamesAreFew()
    ensures |SAFE_RESPONSE_HEADERS| < MAX_HEADERS
  {
  }

  lemma {:induction false} TotalBytesConcat(a: seq<Header>, b: seq<Header>)
    ensures TotalBytes(a + b) == TotalBytes(a) + TotalBytes(b)
  {
    if b == [] {
      assert a + b == a;
    } else {
      assert (a + b)[..|a + b| - 1] == a + b[..|b| - 1];
      TotalBytesConcat(a, b[..|b| - 1]);
    }
  }

  lemma {:induction false} PutAddsAtMost(entries: seq<Header>, h: Header)
    ensures TotalBytes(Put(entries, h)) <= TotalBytes(entries) + HeaderBytes(h)
  {
    assert TotalBytes([h]) == HeaderBytes(h);
    if entries != [] {
      assert entries == [entries[0]] + entries[1..];
      TotalBytesConcat([entries[0]], entries[1..]);
      if entries[0].name == h.name {
        TotalBytesConcat([h], entries[1..]);
      } else {
        PutAddsAtMost(entries[1..], h);
        TotalBytesConcat([entries[0]], Put(entries[1..], h));
      }
    }
  }

  // What the dictionary of forwarded headers looks like after any number of them.
  lemma {:induction false} PutAllIsBounded(candidates: seq<Header>)
    ensures DistinctNames(PutAll(candidates))
    ensures TotalBytes(PutAll(candidates)) <= TotalBytes(candidates)
    ensures forall e :: e in PutAll(candidates) ==> e in candidates
  {
    if candidates != [] {
      var n := |candidates| - 1;
      PutAllIsBounded(candidates[..n]);
      PutKeepsNamesDistinct(PutAll(candidates[..n]), candidates[n]);
      PutAddsAtMost(PutAll(candidates[..n]), candidates[n]);
    }
  }

  ghost predicate CopyOf(headers: seq<Header>, lower: string -> string, e: Header) {
    && e.name in SAFE_RESPONSE_HEADERS && |e.value| <= MAX_HEADER_VALUE
    && exists h :: h in headers && lower(h.name) == e.name && e.value <= h.value
  }

  lemma CandidatesAreSafe(headers: seq<Header>, lower: string -> string)
    ensures forall e :: e in Candidates(headers, lower) ==> CopyOf(headers, lower, e)
  {
    forall e | e in Candidates(headers, lower)
      ensures CopyOf(headers, lower, e)
    {
      FlatMapSource(headers, h => Project(h, lower), e);
      var h :| h in headers && e in Project(h, lower);
      SafeNamesAreShort(lower(h.name));
    }
  }

  lemma SafeNamesAreShort(name: string)
    requires name in SAFE_RESPONSE_HEADERS
    ensures Clip(name, MAX_HEADER_NAME) == name
  {
  }

  // The dictionary of the first kept candidates, which fit the byte budget.
  ghost predicate Gathered(candidates: seq<Header>, kept: nat, safe: seq<Header>) {
    && kept <= |candidates|
    && safe == PutAll(candidates[..kept])
    && TotalBytes(candidates[..kept]) <= MAX_HEADER_BYTES
  }

  // Nothing more would fit.
  ghost predicate Full(candidates: seq<Header>, kept: nat) {
    kept < |candidates| ==> TotalBytes(candidates[..kept + 1]) > MAX_HEADER_BYTES
  }

  lemma GatherOne(candidates: seq<Header>, kept: nat)
    requires kept < |candidates|
    ensures PutAll(candidates[..kept + 1]) == Put(PutAll(candidates[..kept]), candidates[kept])
    ensures TotalBytes(candidates[..kept + 1]) == TotalBytes(candidates[..kept]) + HeaderBytes(candidates[kept])
  {
    assert candidates[..kept + 1][..kept] == candidates[..kept];
  }

  // The dictionary that the loop leaves: of the longest start that fits, unless the
  // number of headers stopped it before.
  ghost predicate Forwarded(candidates: seq<Header>, safe: seq<Header>) {
    exists kept: nat :: Gathered(candidates, kept, safe) && (|safe| < MAX_HEADERS ==> Full(candidates, kept))
  }

  lemma ShowForwarded(candidates: seq<Header>, kept: nat, safe: seq<Header>)
    requires Gathered(candidates, kept, safe) && (|safe| < MAX_HEADERS ==> Full(candidates, kept))
    ensures Forwarded(candidates, safe)
  {
  }

  // What the next header adds to the candidates that were seen.
  lemma NextHeader(headers: seq<Header>, project: Header -> seq<Header>, i: nat, kept: nat)
    requires i < |headers| && kept <= |FlatMap(headers, project)| && |project(headers[i])| <= 1
    requires FlatMap(headers[..i], project) == FlatMap(headers, project)[..kept]
    ensures var candidates, bounded := FlatMap(headers, project), project(headers[i]);
            && kept + |bounded| <= |candidates|
            && FlatMap(headers[..i + 1], project) == candidates[..kept + |bounded|]
            && (bounded != [] ==> candidates[kept] == bounded[0])
  {
    FlatMapNext(headers, project, i);
  }

  // The loop after some of the headers.
  ghost predicate SoFar(headers: seq<Header>, project: Header -> seq<Header>, i: nat, kept: nat, safe: seq<Header>,
                        total: nat) {
    var candidates := FlatMap(headers, project);
    && i <= |headers| && Gathered(candidates, kept, safe)
    && FlatMap(headers[..i], project) == candidates[..kept] && total == TotalBytes(candidates[..kept])
  }

  lemma StartsEmpty(headers: seq<Header>, project: Header -> seq<Header>)
    ensures SoFar(headers, project, 0, 0, [], 0)
  {
  }

  lemma SkipsHeader(headers: seq<Header>, project: Header -> seq<Header>, i: nat, kept: nat, safe: seq<Header>, total: nat)
    requires SoFar(headers, project, i, kept, safe, total) && i < |headers| && project(headers[i]) == []
    ensures SoFar(headers, project, i + 1, kept, safe, total)
  {
    NextHeader(headers, project, i, kept);
  }

  lemma AddsHeader(headers: seq<Header>, project: Header -> seq<Header>, i: nat, kept: nat, safe: seq<Header>, total: nat,
                   h: Header)
    requires SoFar(headers, project, i, kept, safe, total) && i < |headers| && project(headers[i]) == [h]
    requires total + HeaderBytes(h) <= MAX_HEADER_BYTES
    ensures SoFar(headers, project, i + 1, kept + 1, Put(safe, h), total + HeaderBytes(h))
  {
    NextHeader(headers, project, i, kept);
    GatherOne(FlatMap(headers, project), kept);
  }

  lemma StopsAtHeader(headers: seq<Header>, project: Header -> seq<Header>, i: nat, kept: nat, safe: seq<Header>,
                      total: nat, h: Header)
    requires SoFar(headers, project, i, kept, safe, total) && i < |headers| && project(headers[i]) == [h]
    requires |safe| >= MAX_HEADERS || total + HeaderBytes(h) > MAX_HEADER_BYTES
    ensures Forwarded(FlatMap(headers, project), safe)
  {
    NextHeader(headers, project, i, kept);
    GatherOne(FlatMap(headers, project), kept);
    ShowForwarded(FlatMap(headers, project), kept, safe);
  }

  lemma EndsOfHeaders(headers: seq<Header>, project: Header -> seq<Header>, kept: nat, safe: seq<Header>, total: nat)
    requires SoFar(headers, project, |headers|, kept, safe, total)
    ensures Forwarded(FlatMap(headers, project), safe)
  {
    assert headers[..|headers|] == headers;
    ShowForwarded(FlatMap(headers, project), kept, safe);
  }

  // The loop, for any projection of a header to nothing or to one entry.
  method Gather(headers: seq<Header>, project: Header -> seq<Header>) returns (safe: seq<Header>)
    requires forall h :: |project(h)| <= 1
    ensures Forwarded(FlatMap(headers, project), safe)
  {
    safe := [];
    var total: nat := 0;
    ghost var kept: nat := 0;
    var i: nat := 0;
    StartsEmpty(headers, project);
    while i < |headers|
      invariant SoFar(headers, project, i, kept, safe, total)
    {
      var bounded := project(headers[i]);
      assert |bounded| <= 1;
      if bounded == [] {
        SkipsHeader(headers, project, i, kept, safe, total);
      } else {
        var h := bounded[0];
        assert bounded == [h];
        if |safe| >= MAX_HEADERS || total + HeaderBytes(h) > MAX_HEADER_BYTES {
          StopsAtHeader(headers, project, i, kept, safe, total, h);
          return;
        }
        AddsHeader(headers, project, i, kept, safe, total, h);
        safe, total, kept := Put(safe, h), total + HeaderBytes(h), kept + 1;
      }
      i := i + 1;
    }
    EndsOfHeaders(headers, project, kept, safe, total);
  }

  lemma NamesAreSafe(headers: seq<Header>, lower: string -> string, some: seq<Header>)
    requires some <= Candidates(headers, lower)
    ensures forall e :: e in PutAll(some) ==> CopyOf(headers, lower, e) && e.name in SAFE_RESPONSE_HEADERS
  {
    CandidatesAreSafe(headers, lower);
    PutAllIsBounded(some);
    forall e | e in PutAll(some)
      ensures CopyOf(headers, lower, e)
    {
      assert e in some && e in Candidates(headers, lower);
    }
  }

  lemma ForwardedIsSafe(headers: seq<Header>, lower: string -> string, safe: seq<Header>, kept: nat)
    requires Gathered(Candidates(headers, lower), kept, safe)
    ensures |safe| < MAX_HEADERS && TotalBytes(safe) <= MAX_HEADER_BYTES && DistinctNames(safe)
    ensures forall e :: e in safe ==> CopyOf(headers, lower, e)
  {
    var some := Candidates(headers, lower)[..kept];
    PutAllIsBounded(some);
    NamesAreSafe(headers, lower, some);
    DistinctNamesFit(safe, SAFE_RESPONSE_HEADERS);
    SafeNamesAreFew();
  }

  // Forwards the longest start of the candidates whose bytes fit the budget. The
  // cap on the number of headers is never what stops it.
  method SafeResponseHeaders(headers: seq<Header>, lower: string -> string) returns (safe: seq<Header>)
    ensures exists kept: nat ::
              Gathered(Candidates(headers, lower), kept, safe) && Full(Candidates(headers, lower), kept)
    ensures |safe| < MAX_HEADERS && TotalBytes(safe) <= MAX_HEADER_BYTES && DistinctNames(safe)
    ensures forall e :: e in safe ==> CopyOf(headers, lower, e)
  {
    safe := Gather(headers, h => Project(h, lower));
    ghost var kept: nat :| Gathered(Candidates(headers, lower), kept, safe)
                           && (|safe| < MAX_HEADERS ==> Full(Candidates(headers, lower), kept));
    ForwardedIsSafe(headers, lower, safe, kept);
  }

  lemma {:induction false} TotalBytesPrefix(headers: seq<Header>, n: nat)
    requires n <= |headers|
    ensures TotalBytes(headers[..n]) <= TotalBytes(headers)
  {
    if n == |headers| {
      assert headers[..n] == headers;
    } else {
      var front := headers[..|headers| - 1];
      TotalBytesPrefix(front, n);
      assert front[..n] == headers[..n];
    }
  }

  lemma AllForwardedIffTheyFit(candidates: seq<Header>, kept: nat)
    requires kept <= |candidates| && TotalBytes(candidates[..kept]) <= MAX_HEADER_BYTES && Full(candidates, kept)
    ensures kept == |candidates| <==> TotalBytes(candidates) <= MAX_HEADER_BYTES
  {
    if kept == |candidates| {
      assert candidates[..kept] == candidates;
    } else {
      TotalBytesPrefix(candidates, kept + 1);
    }
  }

  // ------------------------------------------------------------ which headers arrive

  // The last header of a name, ignoring case.
  ghost predicate LastOf(headers: seq<Header>, lower: string -> string, name: string, i: nat) {
    && i < |headers| && lower(headers[i].name) == name
    && forall j :: i < j < |headers| ==> lower(headers[j].name) != name
  }

  // What is forwarded of these headers: for each safe name the last value, up to 4096
  // characters of it.
  ghost predicate Forwards(headers: seq<Header>, lower: string -> string, safe: seq<Header>) {
    && (forall e :: e in safe ==>
          exists i: nat :: LastOf(headers, lower, e.name, i)
                           && e.value == headers[i].value[..Min(4096, |headers[i].value|)])
    && (forall e :: e in safe ==> e.name in SAFE_RESPONSE_HEADERS)
    && (forall h :: h in headers && lower(h.name) in SAFE_RESPONSE_HEADERS ==> HasName(safe, lower(h.name)))
  }

  predicate HasName(safe: seq<Header>, name: string) {
    exists e :: e in safe && e.name == name
  }

  lemma {:induction false} PutLookup(entries: seq<Header>, h: Header, e: Header)
    requires DistinctNames(entries)
    ensures e in Put(entries, h) <==> e == h || (e in entries && e.name != h.name)
  {
    if entries != [] {
      var rest := entries[1..];
      assert forall j :: 0 <= j < |rest| ==> rest[j] == entries[j + 1];
      assert e in entries <==> e == entries[0] || e in rest;
      if entries[0].name != h.name {
        PutLookup(rest, h, e);
      }
    }
  }

  lemma SafeIsForwardable(name: string)
    ensures Forwardable(name) <==> name in SAFE_RESPONSE_HEADERS
  {
  }

  lemma CandidatesNext(headers: seq<Header>, lower: string -> string)
    requires headers != []
    ensures var n := |headers| - 1;
            Candidates(headers, lower) == Candidates(headers[..n], lower) + Project(headers[n], lower)
  {
  }

  lemma LastStays(headers: seq<Header>, lower: string -> string, h: Header, name: string, i: nat)
    requires LastOf(headers, lower, name, i) && lower(h.name) != name
    ensures LastOf(headers + [h], lower, name, i)
  {
  }

  // A header that is not forwarded.
  lemma ForwardsSkip(headers: seq<Header>, lower: string -> string, h: Header, safe: seq<Header>)
    requires Forwards(headers, lower, safe) && lower(h.name) !in SAFE_RESPONSE_HEADERS
    ensures Forwards(headers + [h], lower, safe)
  {
    forall e | e in safe
      ensures exists i: nat :: LastOf(headers + [h], lower, e.name, i)
                && e.value == (headers + [h])[i].value[..Min(4096, |(headers + [h])[i].value|)]
    {
      var i: nat :| LastOf(headers, lower, e.name, i) && e.value == headers[i].value[..Min(4096, |headers[i].value|)];
      LastStays(headers, lower, h, e.name, i);
    }
  }

  lemma ForwardsPut(headers: seq<Header>, lower: string -> string, h: Header, safe: seq<Header>, entry: Header)
    requires Forwards(headers, lower, safe) && DistinctNames(safe)
    requires entry == Header(lower(h.name), h.value[..Min(4096, |h.value|)]) && entry.name in SAFE_RESPONSE_HEADERS
    ensures Forwards(headers + [h], lower, Put(safe, entry))
  {
    var all, more := headers + [h], Put(safe, entry);
    forall e
      ensures e in more <==> e == entry || (e in safe && e.name != entry.name)
    {
      PutLookup(safe, entry, e);
    }
    forall e | e in more
      ensures exists i: nat :: LastOf(all, lower, e.name, i) && e.value == all[i].value[..Min(4096, |all[i].value|)]
    {
      if e == entry {
        assert LastOf(all, lower, e.name, |headers|);
      } else {
        var i: nat :| LastOf(headers, lower, e.name, i) && e.value == headers[i].value[..Min(4096, |headers[i].value|)];
        LastStays(headers, lower, h, e.name, i);
      }
    }
    forall g | g in all && lower(g.name) in SAFE_RESPONSE_HEADERS
      ensures HasName(more, lower(g.name))
    {
      if lower(g.name) == entry.name {
        assert entry in more;
      } else {
        assert HasName(safe, lower(g.name));
      }
    }
  }

  lemma {:induction false} PutAllForwards(headers: seq<Header>, lower: string -> string)
    ensures Forwards(headers, lower, PutAll(Candidates(headers, lower)))
  {
    if headers != [] {
      var n := |headers| - 1;
      var h := headers[n];
      var before := Candidates(headers[..n], lower);
      PutAllForwards(headers[..n], lower);
      CandidatesNext(headers, lower);
      SafeIsForwardable(lower(h.name));
      assert headers == headers[..n] + [h];
      if Forwardable(lower(h.name)) {
        var entry := Project(h, lower)[0];
        SafeNamesAreShort(lower(h.name));
        PutAllIsBounded(before);
        assert (before + [entry])[..|before|] == before;
        ForwardsPut(headers[..n], lower, h, PutAll(before), entry);
      } else {
        assert before + [] == before;
        ForwardsSkip(headers[..n], lower, h, PutAll(before));
      }
    }
  }

  // A start of the candidates comes from a start of the headers.
  lemma {:induction false} StartOfHeaders(headers: seq<Header>, lower: string -> string, kept: nat) returns (n: nat)
    requires kept <= |Candidates(headers, lower)|
    ensures n <= |headers| && Candidates(headers[..n], lower) == Candidates(headers, lower)[..kept]
    ensures kept == |Candidates(headers, lower)| ==> n == |headers|
  {
    if kept == |Candidates(headers, lower)| {
      n := |headers|;
      assert headers[..n] == headers;
    } else {
      var front := headers[..|headers| - 1];
      CandidatesNext(headers, lower);
      n := StartOfHeaders(front, lower, kept);
      assert front[..n] == headers[..n];
    }
  }

  // What the relay forwards is what a start of the headers carries, and all of them when
  // they fit.
  lemma ForwardsAStart(headers: seq<Header>, lower: string -> string, safe: seq<Header>, kept: nat)
    requires Gathered(Candidates(headers, lower), kept, safe) && Full(Candidates(headers, lower), kept)
    ensures exists n: nat :: n <= |headers| && Forwards(headers[..n], lower, safe)
    ensures TotalBytes(Candidates(headers, lower)) <= MAX_HEADER_BYTES ==> Forwards(headers, lower, safe)
  {
    var n := StartOfHeaders(headers, lower, kept);
    PutAllForwards(headers[..n], lower);
    AllForwardedIffTheyFit(Candidates(headers, lower), kept);
    assert headers[..|headers|] == headers;
  }
}

/**
 Scope paths, the uniqueness check of an allowlist and the match of a URL
 against it. Percent-decoding and lower-casing are library functions and are
 parameters here.
 */
module Allowlist {
  import opened Prelude

  type Decoder = string -> string

  // ------------------------------------------------------------ scope paths

  predicate HexDigit(c: char) {
    '0' <= c <= '9' || 'a' <= c <= 'f' || 'A' <= c <= 'F'
  }

  predicate EscapeAt(path: string, i: nat) {
    i + 2 < |path| && HexDigit(path[i + 1]) && HexDigit(path[i + 2])
  }

  // %00, %2e, %2f and %5c, in either case.
  predicate AmbiguousAt(path: string, i: nat)
    requires EscapeAt(path, i)
  {
    var high, low := path[i + 1], path[i + 2];
    || (high == '0' && low == '0')
    || (high == '2' && (low == 'e' || low == 'E' || low == 'f' || low == 'F'))
    || (high == '5' && (low == 'c' || low == 'C'))
  }

  function Segments(s: string): seq<string> {
    if s == "" then [""]
    else
      var rest := Segments(s[1..]);
      if s[0] == '/' || rest == [] then [""] + rest else [[s[0]] + rest[0]] + rest[1..]
  }

  predicate NoDoubleSlash(path: string) {
    forall i :: 0 <= i < |path| - 1 && path[i] == '/' ==> path[i + 1] != '/'
  }

  predicate Canonical(path: string, unquote: Decoder) {
    && path != "" && path[0] == '/'
    && '\\' !in path && '\0' !in path && NoDoubleSlash(path)
    && (forall i :: 0 <= i < |path| && path[i] == '%' ==> EscapeAt(path, i) && !AmbiguousAt(path, i))
    && "." !in Segments(unquote(path)) && ".." !in Segments(unquote(path))
  }

  function TrimSlash(path: string): string {
    if path != "" && path[|path| - 1] == '/' then TrimSlash(path[..|path| - 1]) else path
  }

  // Whether path lies in the scope of base; an error when either is not canonical.
  function PathIsWithinScope(path: string, base: string, unquote: Decoder): Result<bool, string> {
    if !Canonical(path, unquote) || !Canonical(base, unquote) then Err("path is not canonical")
    else if base == "/" then Ok(true)
    else Ok(TrimSlash(path) == TrimSlash(base) || TrimSlash(base) + "/" <= path)
  }

  // The same scope, as one prefix test on paths that end in a slash.
  function Closed(path: string): string {
    TrimSlash(path) + "/"
  }

  lemma TrimOnce(path: string)
    requires NoDoubleSlash(path)
    ensures TrimSlash(path) == if path != "" && path[|path| - 1] == '/' then path[..|path| - 1] else path
  {
    if path != "" && path[|path| - 1] == '/' {
      var shorter := path[..|path| - 1];
      assert shorter != "" ==> shorter[|shorter| - 1] != '/';
    }
  }

  lemma ScopeIsPrefix(path: string, base: string, unquote: Decoder)
    requires Canonical(path, unquote) && Canonical(base, unquote)
    ensures PathIsWithinScope(path, base, unquote) == Ok(Closed(base) <= Closed(path))
  {
    TrimOnce(path);
    TrimOnce(base);
    if base != "/" && Closed(base) <= Closed(path) && !(Closed(base) <= path) {
      assert |Closed(base)| == |Closed(path)|;
      assert TrimSlash(base) == Closed(base)[..|TrimSlash(base)|];
      assert TrimSlash(path) == Closed(path)[..|TrimSlash(path)|];
    }
  }

  // ------------------------------------------------------------ dot segments

  // Dot segments removed as in section 5.2.4 of RFC 3986.
  function Resolve(segments: seq<string>): seq<string> {
    if segments == [] then []
    else
      var before, last := Resolve(segments[..|segments| - 1]), segments[|segments| - 1];
      if last == "." then before
      else if last == ".." then before[..Max(|before| - 1, 0)]
      else before + [last]
  }

  lemma {:induction false} NothingToResolve(segments: seq<string>)
    requires "." !in segments && ".." !in segments
    ensures Resolve(segments) == segments
  {
    if segments != [] {
      NothingToResolve(segments[..|segments| - 1]);
    }
  }

  // Percent-decoding works on each side of a slash alone.
  ghost predicate DecodesBetweenSlashes(unquote: Decoder) {
    unquote("") == "" && forall a, b :: unquote(a + "/" + b) == unquote(a) + "/" + unquote(b)
  }

  // The segments of a text with one character more in front.
  function Ahead(c: char, rest: seq<string>): seq<string>
    requires rest != []
  {
    if c == '/' then [""] + rest else [[c] + rest[0]] + rest[1..]
  }

  lemma SegmentsAhead(s: string)
    requires s != ""
    ensures Segments(s[1..]) != [] && Segments(s) == Ahead(s[0], Segments(s[1..]))
  {
    SegmentsSome(s[1..]);
  }

  lemma AheadOfMore(c: char, some: seq<string>, more: seq<string>)
    requires some != []
    ensures Ahead(c, some + more) == Ahead(c, some) + more
  {
  }

  lemma {:induction false} SegmentsSplit(a: string, b: string)
    ensures Segments(a + "/" + b) == Segments(a) + Segments(b)
  {
    var s := a + "/" + b;
    SegmentsAhead(s);
    if a == "" {
      assert s[1..] == b;
    } else {
      assert s[1..] == a[1..] + "/" + b;
      SegmentsSplit(a[1..], b);
      SegmentsAhead(a);
      AheadOfMore(a[0], Segments(a[1..]), Segments(b));
    }
  }

  lemma SegmentsSome(s: string)
    ensures Segments(s) != []
  {
  }

  lemma InScopeIsBelow(path: string, base: string, unquote: Decoder)
    requires PathIsWithinScope(path, base, unquote) == Ok(true)
    ensures path == TrimSlash(base) || (TrimSlash(base) + "/" <= path)
  {
    TrimOnce(path);
    TrimOnce(base);
  }

  // A path in scope still leads into the base path once it is decoded and its dot segments
  // are resolved.
  lemma ScopeSurvivesDecoding(path: string, base: string, unquote: Decoder)
    requires DecodesBetweenSlashes(unquote) && PathIsWithinScope(path, base, unquote) == Ok(true)
    ensures Segments(unquote(TrimSlash(base))) <= Resolve(Segments(unquote(path)))
    ensures Resolve(Segments(unquote(path))) == Segments(unquote(path))
  {
    var b := TrimSlash(base);
    InScopeIsBelow(path, base, unquote);
    NothingToResolve(Segments(unquote(path)));
    if path != b {
      var rest := path[|b| + 1..];
      assert path == b + "/" + rest;
      SegmentsSplit(unquote(b), unquote(rest));
    }
  }

  // ------------------------------------------------------------ URLs and policies

  datatype Origin = Origin(scheme: string, host: string, port: int)

  datatype Url = Url(origin: Origin, path: string, query: string)

  datatype Policy = Policy(id: string, origin: Origin, basePath: string)

  datatype Acceptance = Accepted | DuplicateIds | Overlapping(first: string, second: string)

  datatype Match = One(policy: Policy) | Ambiguous | NotListed

  ghost predicate WellFormed(policies: seq<Policy>, unquote: Decoder) {
    forall p :: p in policies ==> Canonical(p.basePath, unquote)
  }

  predicate InScope(path: string, base: string, unquote: Decoder) {
    PathIsWithinScope(path, base, unquote) == Ok(true)
  }

  predicate Overlap(p: Policy, q: Policy, unquote: Decoder) {
    && p.origin == q.origin
    && (InScope(p.basePath, q.basePath, unquote) || InScope(q.basePath, p.basePath, unquote))
  }

  predicate Covers(p: Policy, u: Url, unquote: Decoder) {
    u.origin == p.origin && InScope(u.path, p.basePath, unquote)
  }

  ghost predicate DistinctIds(policies: seq<Policy>) {
    forall i, j :: 0 <= i < j < |policies| ==> policies[i].id != policies[j].id
  }

  ghost predicate NoOverlap(policies: seq<Policy>, unquote: Decoder) {
    forall i, j :: 0 <= i < j < |policies| ==> !Overlap(policies[i], policies[j], unquote)
  }

  method HasDuplicateIds(policies: seq<Policy>) returns (duplicates: bool)
    ensures duplicates <==> !DistinctIds(policies)
  {
    for i := 0 to |policies|
      invariant forall k, j :: 0 <= k < i && k < j < |policies| ==> policies[k].id != policies[j].id
    {
      for j := i + 1 to |policies|
        invariant forall k :: i < k < j ==> policies[i].id != policies[k].id
      {
        if policies[i].id == policies[j].id {
          return true;
        }
      }
    }
    return false;
  }

  // The overlapping pair that a scan of all pairs meets first.
  ghost predicate FirstOverlap(policies: seq<Policy>, unquote: Decoder, i: nat, j: nat) {
    && i < j < |policies| && Overlap(policies[i], policies[j], unquote)
    && forall k, l :: 0 <= k < l < |policies| && (k < i || (k == i && l < j)) ==>
         !Overlap(policies[k], policies[l], unquote)
  }

  // Compares every policy with the later ones of the same origin.
  method ValidateUniqueEntries(policies: seq<Policy>, unquote: Decoder) returns (r: Acceptance)
    ensures r.Accepted? <==> DistinctIds(policies) && NoOverlap(policies, unquote)
    ensures r.DuplicateIds? <==> !DistinctIds(policies)
    ensures r.Overlapping? ==>
              exists i: nat, j: nat :: FirstOverlap(policies, unquote, i, j) && r == Overlapping(policies[i].id, policies[j].id)
  {
    var duplicates := HasDuplicateIds(policies);
    if duplicates {
      return DuplicateIds;
    }
    for i := 0 to |policies|
      invariant forall k, j :: 0 <= k < i && k < j < |policies| ==> !Overlap(policies[k], policies[j], unquote)
    {
      for j := i + 1 to |policies|
        invariant forall k :: i < k < j ==> !Overlap(policies[i], policies[k], unquote)
      {
        if Overlap(policies[i], policies[j], unquote) {
          assert FirstOverlap(policies, unquote, i, j);
          return Overlapping(policies[i].id, policies[j].id);
        }
      }
    }
    return Accepted;
  }

  // ------------------------------------------------------------ matching a URL

  function Covering(policies: seq<Policy>, u: Url, unquote: Decoder): seq<Policy> {
    if policies == [] then []
    else Covering(policies[..|policies| - 1], u, unquote) +
         if Covers(policies[|policies| - 1], u, unquote) then [policies[|policies| - 1]] else []
  }

  function Verdict(covering: seq<Policy>): Match {
    if |covering| == 1 then One(covering[0]) else if |covering| > 1 then Ambiguous else NotListed
  }

  method MatchAllowlistedTarget(policies: seq<Policy>, u: Url, unquote: Decoder) returns (r: Match)
    ensures r == Verdict(Covering(policies, u, unquote))
  {
    var matches := [];
    for i := 0 to |policies|
      invariant matches == Covering(policies[..i], u, unquote)
    {
      assert policies[..i + 1][..i] == policies[..i];
      if Covers(policies[i], u, unquote) {
        matches := matches + [policies[i]];
      }
    }
    assert policies[..|policies|] == policies;
    if |matches| == 1 {
      return One(matches[0]);
    }
    if |matches| > 1 {
      return Ambiguous;
    }
    return NotListed;
  }

  // Two policies that cover one URL overlap: both scopes are prefixes of one path.
  lemma CoverersOverlap(p: Policy, q: Policy, u: Url, unquote: Decoder)
    requires Canonical(p.basePath, unquote) && Canonical(q.basePath, unquote)
    requires Covers(p, u, unquote) && Covers(q, u, unquote)
    ensures Overlap(p, q, unquote)
  {
    ScopeIsPrefix(u.path, p.basePath, unquote);
    ScopeIsPrefix(u.path, q.basePath, unquote);
    ScopeIsPrefix(p.basePath, q.basePath, unquote);
    ScopeIsPrefix(q.basePath, p.basePath, unquote);
    var a, b, c := Closed(p.basePath), Closed(q.basePath), Closed(u.path);
    assert a == c[..|a|] && b == c[..|b|];
  }

  // Overlapping policies both cover some URL: the deeper of their own base paths.
  lemma OverlapIsShared(p: Policy, q: Policy, unquote: Decoder)
    requires Canonical(p.basePath, unquote) && Canonical(q.basePath, unquote) && Overlap(p, q, unquote)
    ensures exists u :: Covers(p, u, unquote) && Covers(q, u, unquote)
  {
    ScopeIsPrefix(p.basePath, p.basePath, unquote);
    ScopeIsPrefix(q.basePath, q.basePath, unquote);
    var u := Url(p.origin, if InScope(p.basePath, q.basePath, unquote) then p.basePath else q.basePath, "");
    assert Covers(p, u, unquote) && Covers(q, u, unquote);
  }

  // Where the policies that cover a URL stand in the list.
  lemma {:induction false} CoveringPositions(policies: seq<Policy>, u: Url, unquote: Decoder)
    ensures |Covering(policies, u, unquote)| == 0 <==>
            forall i :: 0 <= i < |policies| ==> !Covers(policies[i], u, unquote)
    ensures |Covering(policies, u, unquote)| >= 1 ==>
              exists i :: 0 <= i < |policies| && Covers(policies[i], u, unquote) && policies[i] == Covering(policies, u, unquote)[0]
    ensures |Covering(policies, u, unquote)| >= 2 <==>
            exists i, j :: 0 <= i < j < |policies| && Covers(policies[i], u, unquote) && Covers(policies[j], u, unquote)
  {
    if policies != [] {
      var n := |policies| - 1;
      var shorter := policies[..n];
      CoveringPositions(shorter, u, unquote);
      assert forall i :: 0 <= i < n ==> shorter[i] == policies[i];
    }
  }

  // The uniqueness check is exact: it passes just when no URL is ambiguous.
  lemma AcceptedMeansUnambiguous(policies: seq<Policy>, unquote: Decoder)
    requires WellFormed(policies, unquote)
    ensures NoOverlap(policies, unquote) <==> forall u :: !Verdict(Covering(policies, u, unquote)).Ambiguous?
  {
    if NoOverlap(policies, unquote) {
      forall u
        ensures !Verdict(Covering(policies, u, unquote)).Ambiguous?
      {
        NeverAmbiguous(policies, u, unquote);
      }
    } else {
      var i, j :| 0 <= i < j < |policies| && Overlap(policies[i], policies[j], unquote);
      OverlapIsAmbiguous(policies, i, j, unquote);
    }
  }

  lemma OverlapIsAmbiguous(policies: seq<Policy>, i: int, j: int, unquote: Decoder)
    requires WellFormed(policies, unquote)
    requires 0 <= i < j < |policies| && Overlap(policies[i], policies[j], unquote)
    ensures exists u :: Verdict(Covering(policies, u, unquote)).Ambiguous?
  {
    OverlapIsShared(policies[i], policies[j], unquote);
    var u :| Covers(policies[i], u, unquote) && Covers(policies[j], u, unquote);
    CoveringPositions(policies, u, unquote);
    assert Verdict(Covering(policies, u, unquote)).Ambiguous?;
  }

  lemma NeverAmbiguous(policies: seq<Policy>, u: Url, unquote: Decoder)
    requires WellFormed(policies, unquote) && NoOverlap(policies, unquote)
    ensures !Verdict(Covering(policies, u, unquote)).Ambiguous?
  {
    CoveringPositions(policies, u, unquote);
    if |Covering(policies, u, unquote)| >= 2 {
      var i, j :| 0 <= i < j < |policies| && Covers(policies[i], u, unquote) && Covers(policies[j], u, unquote);
      CoverersOverlap(policies[i], policies[j], u, unquote);
    }
  }

  // A worker that matches against its one policy and a relay that matches against
  // the whole accepted list agree on every URL.
  lemma OnePolicyAgrees(policies: seq<Policy>, p: Policy, u: Url, unquote: Decoder)
    requires WellFormed(policies, unquote) && NoOverlap(policies, unquote) && p in policies
    ensures Verdict(Covering([p], u, unquote)) == One(p) <==> Verdict(Covering(policies, u, unquote)) == One(p)
  {
    CoveringPositions([p], u, unquote);
    CoveringPositions(policies, u, unquote);
    NeverAmbiguous(policies, u, unquote);
    assert [p][0] == p;
    var k :| 0 <= k < |policies| && policies[k] == p;
    if Covers(p, u, unquote) {
      var i :| 0 <= i < |policies| && Covers(policies[i], u, unquote) && policies[i] == Covering(policies, u, unquote)[0];
      assert i == k;
    }
  }
}

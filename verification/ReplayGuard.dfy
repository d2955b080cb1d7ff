/**
 Relay capabilities: their time checks and the guard that lets each be used once.
 Signing and hashing are not part of the model: a capability stands for a token
 whose signature was valid.
 */
module ReplayGuard {
  import opened Prelude

  datatype Capability = Capability(
    policyId: string, httpMethod: string, urlHash: string, issuedAt: int, expiresAt: int, nonce: string)

  datatype CapabilityError =
    | BadTtl | BadMethod | BadPolicy | BadNonce | NotYetValid | Expired | BadLifetime | BadUrl
    | AlreadyUsed | AtCapacity

  function CreateRelayCapability(policyId: string, urlHash: string, nonce: string, ttl: int, now: int):
    Result<Capability, CapabilityError>
  {
    if ttl < 1 || ttl > 30 then Err(BadTtl)
    else Ok(Capability(policyId, "GET", urlHash, now, now + ttl, nonce))
  }

  // ------------------------------------------------------------ the guard

  type Seen = map<string, int>

  function Purged(seen: Seen, now: int): Seen {
    map n | n in seen && seen[n] >= now :: seen[n]
  }

  function Consumed(maximum: int, seen: Seen, nonce: string, expiresAt: int, now: int): (Seen, Option<CapabilityError>) {
    var live := Purged(seen, now);
    if nonce in live then (live, Some(AlreadyUsed))
    else if |live| >= maximum then (live, Some(AtCapacity))
    else (live[nonce := expiresAt], None)
  }

  // Everything that is checked before the guard is asked.
  function Checked(c: Capability, policyId: string, urlHash: string, now: int): Option<CapabilityError> {
    if c.httpMethod != "GET" then Some(BadMethod)
    else if c.policyId != policyId then Some(BadPolicy)
    else if c.nonce == "" || |c.nonce| > 100 then Some(BadNonce)
    else if c.issuedAt > now + 2 then Some(NotYetValid)
    else if c.expiresAt < now then Some(Expired)
    else if c.expiresAt - c.issuedAt > 30 then Some(BadLifetime)
    else if c.urlHash != urlHash then Some(BadUrl)
    else None
  }

  function Verified(maximum: int, seen: Seen, c: Capability, policyId: string, urlHash: string, now: int):
    (Seen, Option<CapabilityError>)
  {
    var error := Checked(c, policyId, urlHash, now);
    if error.Some? then (seen, error) else Consumed(maximum, seen, c.nonce, c.expiresAt, now)
  }

  // The token is one for this request, with a nonce that the guard can hold.
  predicate Matches(c: Capability, policyId: string, urlHash: string) {
    c.httpMethod == "GET" && c.policyId == policyId && c.urlHash == urlHash && 1 <= |c.nonce| <= 100
  }

  predicate InTime(c: Capability, now: int) {
    c.issuedAt - 2 <= now <= c.expiresAt <= c.issuedAt + 30
  }

  // The nonces that have not expired.
  function Live(seen: Seen, now: int): set<string> {
    set n | n in seen && seen[n] >= now
  }

  lemma LiveIsPurged(seen: Seen, now: int)
    ensures Purged(seen, now).Keys == Live(seen, now) && |Purged(seen, now)| == |Live(seen, now)|
  {
    assert Purged(seen, now).Keys == Live(seen, now);
  }

  class Guard {
    const maximumEntries: int
    var seen: Seen

    constructor (maximum: int)
      ensures maximumEntries == maximum && seen == map[]
    {
      maximumEntries := maximum;
      seen := map[];
    }

    method Consume(nonce: string, expiresAt: int, now: int) returns (error: Option<CapabilityError>)
      modifies this
      ensures (seen, error) == Consumed(maximumEntries, old(seen), nonce, expiresAt, now)
    {
      seen := Purged(seen, now);
      if nonce in seen {
        return Some(AlreadyUsed);
      }
      if |seen| >= maximumEntries {
        return Some(AtCapacity);
      }
      seen := seen[nonce := expiresAt];
      return None;
    }

    // Accepted when the token is for this request, within its time, and its nonce is not
    // live while there is room. Then the nonce is live until the token expires; no other
    // live nonce is ever lost, and nothing else is gained.
    method VerifyRelayCapability(c: Capability, policyId: string, urlHash: string, now: int)
      returns (error: Option<CapabilityError>)
      modifies this
      ensures error.None? <==>
                && Matches(c, policyId, urlHash) && InTime(c, now)
                && !(c.nonce in old(seen) && old(seen)[c.nonce] >= now) && |Live(old(seen), now)| < maximumEntries
      ensures error.None? ==> c.nonce in seen && seen[c.nonce] == c.expiresAt
      ensures forall n :: n in Live(old(seen), now) ==> n in seen && seen[n] == old(seen)[n]
      ensures forall n :: n in seen ==> n in old(seen) || (n == c.nonce && error.None?)
      ensures (seen, error) == Verified(maximumEntries, old(seen), c, policyId, urlHash, now)
    {
      LiveIsPurged(seen, now);
      if c.httpMethod != "GET" {
        return Some(BadMethod);
      }
      if c.policyId != policyId {
        return Some(BadPolicy);
      }
      if c.nonce == "" || |c.nonce| > 100 {
        return Some(BadNonce);
      }
      if c.issuedAt > now + 2 {
        return Some(NotYetValid);
      }
      if c.expiresAt < now {
        return Some(Expired);
      }
      if c.expiresAt - c.issuedAt > 30 {
        return Some(BadLifetime);
      }
      if c.urlHash != urlHash {
        return Some(BadUrl);
      }
      error := Consume(c.nonce, c.expiresAt, now);
    }
  }

  // ------------------------------------------------------------ runs

  datatype Use = Use(c: Capability, policyId: string, urlHash: string, now: int)

  function SeenAfter(maximum: int, uses: seq<Use>): Seen {
    if uses == [] then map[]
    else
      var u := uses[|uses| - 1];
      Verified(maximum, SeenAfter(maximum, uses[..|uses| - 1]), u.c, u.policyId, u.urlHash, u.now).0
  }

  predicate Accepts(maximum: int, seen: Seen, u: Use) {
    Verified(maximum, seen, u.c, u.policyId, u.urlHash, u.now).1.None?
  }

  predicate Accepted(maximum: int, uses: seq<Use>, i: nat)
    requires i < |uses|
  {
    Accepts(maximum, SeenAfter(maximum, uses[..i]), uses[i])
  }

  lemma NextSeen(maximum: int, uses: seq<Use>, k: nat)
    requires k < |uses|
    ensures var u := uses[k];
            SeenAfter(maximum, uses[..k + 1]) ==
            Verified(maximum, SeenAfter(maximum, uses[..k]), u.c, u.policyId, u.urlHash, u.now).0
  {
    assert uses[..k + 1][..k] == uses[..k];
  }

  lemma PurgedIsSmaller(seen: Seen, now: int)
    ensures |Purged(seen, now)| <= |seen|
  {
    var live := Purged(seen, now);
    assert live.Keys <= seen.Keys;
    SubsetSize(live.Keys, seen.Keys);
  }

  lemma {:induction false} SubsetSize(a: set<string>, b: set<string>)
    requires a <= b
    ensures |a| <= |b|
  {
    if a != {} {
      var x :| x in a;
      SubsetSize(a - {x}, b - {x});
    }
  }

  // The table never outgrows its maximum.
  lemma {:induction false} TableIsBounded(maximum: nat, uses: seq<Use>)
    ensures |SeenAfter(maximum, uses)| <= maximum
  {
    if uses != [] {
      var u := uses[|uses| - 1];
      var before := SeenAfter(maximum, uses[..|uses| - 1]);
      TableIsBounded(maximum, uses[..|uses| - 1]);
      PurgedIsSmaller(before, u.now);
    }
  }

  lemma AcceptedIsSeen(maximum: int, seen: Seen, u: Use)
    requires Accepts(maximum, seen, u)
    ensures Verified(maximum, seen, u.c, u.policyId, u.urlHash, u.now).0 == Purged(seen, u.now)[u.c.nonce := u.c.expiresAt]
    ensures u.c.nonce !in Purged(seen, u.now) && u.now <= u.c.expiresAt
  {
  }

  lemma SeenIsKept(maximum: int, seen: Seen, u: Use, nonce: string)
    requires nonce in seen && u.now <= seen[nonce]
    ensures var after := Verified(maximum, seen, u.c, u.policyId, u.urlHash, u.now).0;
            nonce in after && after[nonce] == seen[nonce]
  {
    assert nonce in Purged(seen, u.now);
  }

  // An accepted nonce stays in the table through every use at or before its expiry.
  lemma {:induction false} NonceIsKept(maximum: int, uses: seq<Use>, i: nat, k: nat)
    requires i < k <= |uses| && Accepted(maximum, uses, i)
    requires forall j :: i < j < k ==> uses[j].now <= uses[i].c.expiresAt
    ensures var seen := SeenAfter(maximum, uses[..k]);
            uses[i].c.nonce in seen && seen[uses[i].c.nonce] == uses[i].c.expiresAt
  {
    NextSeen(maximum, uses, k - 1);
    if k > i + 1 {
      NonceIsKept(maximum, uses, i, k - 1);
      SeenIsKept(maximum, SeenAfter(maximum, uses[..k - 1]), uses[k - 1], uses[i].c.nonce);
    } else {
      AcceptedIsSeen(maximum, SeenAfter(maximum, uses[..i]), uses[i]);
    }
  }

  // A nonce that is accepted twice has expired in between, at the clock of some use.
  lemma NonceReuse(maximum: int, uses: seq<Use>, i: nat, j: nat)
    requires i < j < |uses| && Accepted(maximum, uses, i) && Accepted(maximum, uses, j)
    requires uses[i].c.nonce == uses[j].c.nonce
    ensures exists k :: i < k <= j && uses[k].now > uses[i].c.expiresAt
  {
    if forall k :: i < k <= j ==> uses[k].now <= uses[i].c.expiresAt {
      NonceIsKept(maximum, uses, i, j);
      AcceptedIsSeen(maximum, SeenAfter(maximum, uses[..j]), uses[j]);
    }
  }

  // With a clock that does not go back, no token is ever accepted twice.
  lemma NoReplay(maximum: int, uses: seq<Use>, i: nat, j: nat)
    requires forall k, l :: 0 <= k < l < |uses| ==> uses[k].now <= uses[l].now
    requires i < j < |uses| && uses[i].c == uses[j].c
    ensures !(Accepted(maximum, uses, i) && Accepted(maximum, uses, j))
  {
    assert forall k :: i < k <= j ==> uses[k].now <= uses[j].now;
    if Accepted(maximum, uses, j) {
      AcceptedIsSeen(maximum, SeenAfter(maximum, uses[..j]), uses[j]);
      if Accepted(maximum, uses, i) {
        NonceReuse(maximum, uses, i, j);
      }
    }
  }

  lemma {:induction false} UnusedNonceIsNew(maximum: int, uses: seq<Use>, nonce: string)
    requires forall i :: 0 <= i < |uses| ==> uses[i].c.nonce != nonce
    ensures nonce !in SeenAfter(maximum, uses)
  {
    if uses != [] {
      UnusedNonceIsNew(maximum, uses[..|uses| - 1], nonce);
    }
  }

  // A created token that was not used before is accepted exactly within its
  // validity, from two seconds before its issue to its expiry, while there is room.
  lemma FreshTokenAccepted(maximum: int, uses: seq<Use>, policyId: string, urlHash: string, nonce: string,
                           ttl: int, issued: int, now: int)
    requires 1 <= ttl <= 30 && 1 <= |nonce| <= 100
    requires forall i :: 0 <= i < |uses| ==> uses[i].c.nonce != nonce
    ensures var c := CreateRelayCapability(policyId, urlHash, nonce, ttl, issued);
            c.Ok? &&
            (Accepts(maximum, SeenAfter(maximum, uses), Use(c.value, policyId, urlHash, now)) <==>
               issued - 2 <= now <= issued + ttl && |Live(SeenAfter(maximum, uses), now)| < maximum)
  {
    UnusedNonceIsNew(maximum, uses, nonce);
    LiveIsPurged(SeenAfter(maximum, uses), now);
  }

  // The clock matters: the time is read before the guard's lock is taken, and two
  // uses that swap between those points can let a token through twice.
  lemma ReplayWhenClockGoesBack() returns (maximum: int, uses: seq<Use>)
    ensures |uses| == 3 && uses[0].c == uses[2].c && uses[1].now > uses[2].now
    ensures Accepted(maximum, uses, 0) && Accepted(maximum, uses, 2)
  {
    maximum := 10_000;
    var c := Capability("p", "GET", "h", 0, 20, "n");
    var d := Capability("p", "GET", "h", 10, 30, "m");
    var first, second := Use(c, "p", "h", 20), Use(d, "p", "h", 21);
    uses := [first, second, first];
    assert uses[..0] == [] && uses[..1] == [first] && uses[..2] == [first, second];
    NextSeen(maximum, uses, 0);
    NextSeen(maximum, uses, 1);
    assert SeenAfter(maximum, uses[..1]) == map["n" := 20];
    assert Purged(map["n" := 20], 21) == map[];
    assert "n" != "m";
    assert SeenAfter(maximum, uses[..2]) == map["m" := 30];
    assert Purged(map["m" := 30], 20) == map["m" := 30];
  }
}

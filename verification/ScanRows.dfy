/**
 The scan row of the lease-fenced lifecycle: the row values that each
 committed transaction writes, and the mutable record those writes act on.
 Times are microseconds since some epoch.
 */
module ScanRows {
  import opened Prelude

  datatype Status =
    | Queued | Validating | Running | Normalizing
    | Completed | CompletedWithWarnings | Failed | Cancelled

  predicate Leased(s: Status) {
    s == Validating || s == Running || s == Normalizing
  }

  predicate Terminal(s: Status) {
    s == Completed || s == CompletedWithWarnings || s == Failed || s == Cancelled
  }

  predicate Successful(s: Status) {
    s == Completed || s == CompletedWithWarnings
  }

  datatype ScanRow = ScanRow(
    status: Status,
    progress: nat,
    startedAt: Option<int>,
    completedAt: Option<int>,
    cancelRequestedAt: Option<int>,
    errorCode: Option<string>,
    leaseOwner: Option<string>,
    leaseExpiresAt: Option<int>,
    leaseHeartbeatAt: Option<int>,
    attempts: nat,
    createdAt: int)

  const SCAN_TIMEOUT: int := 600 * 1_000_000
  const INTERRUPTED := "worker_interrupted"
  const DEADLINE := "scan_deadline_exceeded"
  const WORKER_FAILED := "scan_worker_failed"

  // ------------------------------------------------------------ guards

  predicate Owned(row: ScanRow, owner: string, now: int) {
    && row.leaseOwner == Some(owner)
    && Leased(row.status)
    && row.leaseExpiresAt.Some?
    && row.leaseExpiresAt.value >= now
  }

  // A null expected owner switches the ownership check off.
  predicate MayWrite(row: ScanRow, owner: Option<string>, now: int) {
    owner.None? || Owned(row, owner.value, now)
  }

  predicate Stale(row: ScanRow, now: int) {
    && Leased(row.status)
    && row.leaseExpiresAt.Some?
    && row.leaseExpiresAt.value < now
  }

  predicate PastDeadline(row: ScanRow, now: int) {
    row.startedAt.Some? && now > row.startedAt.value + SCAN_TIMEOUT
  }

  // ------------------------------------------------------------ row values

  function NewRow(now: int): ScanRow {
    ScanRow(Queued, 0, None, None, None, None, None, None, None, 0, now)
  }

  function WithoutLease(row: ScanRow): ScanRow {
    row.(leaseOwner := None, leaseExpiresAt := None, leaseHeartbeatAt := None)
  }

  function ProgressRow(row: ScanRow, status: Status, percent: nat,
                       startedAt: Option<int>, completedAt: Option<int>, now: int, lease: nat): ScanRow {
    var base := row.(
      status := status,
      progress := percent,
      startedAt := if startedAt.Some? then startedAt else row.startedAt);
    if completedAt.Some? then
      WithoutLease(base).(completedAt := completedAt)
    else if base.leaseOwner.Some? && base.leaseOwner.value != "" then
      base.(leaseHeartbeatAt := Some(now), leaseExpiresAt := Some(now + lease))
    else
      base
  }

  function ClaimedRow(row: ScanRow, worker: string, now: int, lease: nat): ScanRow {
    ProgressRow(
      row.(leaseOwner := Some(worker), leaseHeartbeatAt := Some(now),
           leaseExpiresAt := Some(now + lease), attempts := row.attempts + 1),
      Validating, 5, Some(now), None, now, lease)
  }

  function RenewedRow(row: ScanRow, now: int, lease: nat): ScanRow {
    row.(leaseHeartbeatAt := Some(now), leaseExpiresAt := Some(now + lease))
  }

  function FailedRow(row: ScanRow, code: string, now: int): ScanRow {
    WithoutLease(row).(status := Failed, progress := Min(row.progress, 99),
                       completedAt := Some(now), errorCode := Some(code))
  }

  function CancelledRow(row: ScanRow, now: int): ScanRow {
    WithoutLease(row).(status := Cancelled, progress := Min(row.progress, 99),
                       completedAt := Some(now), errorCode := None)
  }

  datatype CancelReply = TerminalScan | AlreadyRequested | Requested

  function CancelReplyFor(row: ScanRow): CancelReply {
    if Terminal(row.status) then TerminalScan
    else if row.cancelRequestedAt.Some? then AlreadyRequested
    else Requested
  }

  // The API's cancellation request: a queued scan ends at once, a leased one
  // is only marked.
  function CancelRequestedRow(row: ScanRow, now: int): ScanRow {
    if CancelReplyFor(row) != Requested then row
    else if row.status == Queued then
      row.(cancelRequestedAt := Some(now), status := Cancelled,
           progress := Min(row.progress, 99), completedAt := Some(now))
    else row.(cancelRequestedAt := Some(now))
  }

  datatype CheckOutcome = Passed | LeaseLost | DeadlineExceeded | CancelHonoured

  // One worker checkpoint: the renewal thread's flag, then ownership, then the
  // deadline, then a pending cancellation.
  function CheckOutcomeFor(row: ScanRow, owner: Option<string>, leaseLost: bool, now: int): CheckOutcome {
    if leaseLost || !MayWrite(row, owner, now) then LeaseLost
    else if PastDeadline(row, now) then DeadlineExceeded
    else if row.cancelRequestedAt.None? then Passed
    else CancelHonoured
  }

  // ------------------------------------------------------------ facts about one row

  // What every reachable row satisfies.
  predicate RowOk(r: ScanRow) {
    && (Leased(r.status) <==> r.leaseOwner.Some?)
    && (Leased(r.status) <==> r.leaseExpiresAt.Some?)
    && (Leased(r.status) <==> r.leaseHeartbeatAt.Some?)
    && (r.status == Queued ==> r.attempts == 0 && r.cancelRequestedAt.None? && r.progress == 0 && r.startedAt.None?)
    && (Leased(r.status) ==> r.attempts == 1 && r.startedAt.Some? && 5 <= r.progress <= 85)
    && (Successful(r.status) <==> r.progress == 100)
    && (Terminal(r.status) <==> r.completedAt.Some?)
    && r.attempts <= 1
    && r.progress <= 100
  }

  function Rank(s: Status): nat {
    match s
    case Queued => 0
    case Validating => 1
    case Running => 2
    case Normalizing => 3
    case _ => 4
  }

  // How a committed transaction at time `now` may change one row.
  predicate Evolves(r: ScanRow, r': ScanRow, now: int) {
    && (Terminal(r.status) ==> r'.status == r.status && r'.errorCode == r.errorCode && r'.progress == r.progress)
    && Rank(r.status) <= Rank(r'.status)
    && r.attempts <= r'.attempts
    && r.progress <= r'.progress
    && (r.cancelRequestedAt.Some? ==> r'.cancelRequestedAt == r.cancelRequestedAt)
    && (r.startedAt.Some? ==> r'.startedAt == r.startedAt)
    && (Leased(r.status) && Leased(r'.status) ==> r'.leaseOwner == r.leaseOwner)
    && (Stale(r, now) ==>
          || (Leased(r'.status) && r' == r.(cancelRequestedAt := r'.cancelRequestedAt))
          || (r'.status == Failed && r'.errorCode == Some(INTERRUPTED) && r'.progress == r.progress))
  }

  lemma OwnedExcludesStale(row: ScanRow, now: int)
    requires RowOk(row) && Leased(row.status)
    ensures Stale(row, now) <==> !Owned(row, row.leaseOwner.value, now)
    ensures forall w :: Owned(row, w, now) ==> w == row.leaseOwner.value && !Stale(row, now)
  {
  }

  // A terminal row can be written only by a job that captured no owner.
  lemma TerminalRowWritableIffUnfenced(row: ScanRow, owner: Option<string>, now: int)
    requires Terminal(row.status)
    ensures MayWrite(row, owner, now) <==> owner.None?
  {
  }

  // ------------------------------------------------------------ the mutable record

  class ScanRecord {
    var status: Status
    var progress: nat
    var startedAt: Option<int>
    var completedAt: Option<int>
    var cancelRequestedAt: Option<int>
    var errorCode: Option<string>
    var leaseOwner: Option<string>
    var leaseExpiresAt: Option<int>
    var leaseHeartbeatAt: Option<int>
    var attempts: nat
    const createdAt: int

    ghost function Row(): ScanRow
      reads this
    {
      ScanRow(status, progress, startedAt, completedAt, cancelRequestedAt, errorCode,
              leaseOwner, leaseExpiresAt, leaseHeartbeatAt, attempts, createdAt)
    }

    constructor (now: int)
      ensures Row() == NewRow(now)
    {
      status, progress, attempts := Queued, 0, 0;
      startedAt, completedAt, cancelRequestedAt, errorCode := None, None, None, None;
      leaseOwner, leaseExpiresAt, leaseHeartbeatAt := None, None, None;
      createdAt := now;
    }

    // assert_scan_ownership after a locking re-read of the row.
    method LockForOwnedWrite(owner: Option<string>, now: int) returns (held: bool)
      ensures held == MayWrite(Row(), owner, now)
    {
      if owner.None? {
        return true;
      }
      if leaseOwner != owner || !Leased(status) || leaseExpiresAt.None? {
        return false;
      }
      held := leaseExpiresAt.value >= now;
    }

    method ReleaseLease()
      modifies this
      ensures Row() == WithoutLease(old(Row()))
    {
      leaseOwner, leaseExpiresAt, leaseHeartbeatAt := None, None, None;
    }

    method UpdateProgress(newStatus: Status, percent: nat, started: Option<int>, completed: Option<int>,
                          owner: Option<string>, now: int, lease: nat) returns (written: bool)
      modifies this
      ensures written == MayWrite(old(Row()), owner, now)
      ensures Row() == if written then ProgressRow(old(Row()), newStatus, percent, started, completed, now, lease)
                       else old(Row())
    {
      written := LockForOwnedWrite(owner, now);
      if !written {
        return;
      }
      status := newStatus;
      progress := percent;
      if started.Some? {
        startedAt := started;
      }
      if completed.Some? {
        completedAt := completed;
        ReleaseLease();
      } else if leaseOwner.Some? && leaseOwner.value != "" {
        leaseHeartbeatAt := Some(now);
        leaseExpiresAt := Some(now + lease);
      }
    }

    method Claim(worker: string, now: int, lease: nat)
      modifies this
      ensures Row() == ClaimedRow(old(Row()), worker, now, lease)
    {
      leaseOwner := Some(worker);
      leaseHeartbeatAt := Some(now);
      leaseExpiresAt := Some(now + lease);
      attempts := attempts + 1;
      var _ := UpdateProgress(Validating, 5, Some(now), None, None, now, lease);
    }

    method RenewLease(worker: string, now: int, lease: nat) returns (renewed: bool)
      modifies this
      ensures renewed == Owned(old(Row()), worker, now)
      ensures Row() == if renewed then RenewedRow(old(Row()), now, lease) else old(Row())
    {
      renewed := LockForOwnedWrite(Some(worker), now);
      if renewed {
        leaseHeartbeatAt := Some(now);
        leaseExpiresAt := Some(now + lease);
      }
    }

    method MarkFailedCode(code: string, owner: Option<string>, now: int) returns (written: bool)
      modifies this
      ensures written == MayWrite(old(Row()), owner, now)
      ensures Row() == if written then FailedRow(old(Row()), code, now) else old(Row())
    {
      written := LockForOwnedWrite(owner, now);
      if !written {
        return;
      }
      status := Failed;
      progress := Min(progress, 99);
      completedAt := Some(now);
      errorCode := Some(code);
      ReleaseLease();
    }

    method MarkCancelled(owner: Option<string>, now: int) returns (written: bool)
      modifies this
      ensures written == MayWrite(old(Row()), owner, now)
      ensures Row() == if written then CancelledRow(old(Row()), now) else old(Row())
    {
      written := LockForOwnedWrite(owner, now);
      if !written {
        return;
      }
      status := Cancelled;
      progress := Min(progress, 99);
      completedAt := Some(now);
      errorCode := None;
      ReleaseLease();
    }

    method RequestCancel(now: int) returns (reply: CancelReply)
      modifies this
      ensures reply == CancelReplyFor(old(Row()))
      ensures Row() == CancelRequestedRow(old(Row()), now)
    {
      if Terminal(status) {
        return TerminalScan;
      }
      if cancelRequestedAt.Some? {
        return AlreadyRequested;
      }
      cancelRequestedAt := Some(now);
      if status == Queued {
        status := Cancelled;
        progress := Min(progress, 99);
        completedAt := Some(now);
      }
      reply := Requested;
    }

    // checkpoint_scan_execution: the monitor's flag first, then the row.
    method Checkpoint(owner: Option<string>, leaseLost: bool, now: int) returns (outcome: CheckOutcome)
      modifies this
      ensures outcome == CheckOutcomeFor(old(Row()), owner, leaseLost, now)
      ensures Row() == if outcome == CancelHonoured then CancelledRow(old(Row()), now) else old(Row())
    {
      if leaseLost {
        return LeaseLost;
      }
      var held := LockForOwnedWrite(owner, now);
      if !held {
        return LeaseLost;
      }
      if startedAt.Some? && now > startedAt.value + SCAN_TIMEOUT {
        return DeadlineExceeded;
      }
      if cancelRequestedAt.None? {
        return Passed;
      }
      var _ := MarkCancelled(owner, now);
      outcome := CancelHonoured;
    }
  }

  // Where an exception interrupts a renewal: nowhere, before its commit, or after it,
  // while the worker's own heartbeat is recorded.
  datatype Crash = NoCrash | BeforeCommit | AfterCommit

  /** The lease-renewal side of one job: a flag that is set at the first
      renewal that fails, and never cleared. */
  class ExecutionMonitor {
    var leaseLost: bool
    const worker: string

    constructor (worker: string)
      ensures !leaseLost && this.worker == worker
    {
      leaseLost := false;
      this.worker := worker;
    }

    // One turn of the renewal thread; it stops at the first failure.
    method RunOnce(scan: ScanRecord, crash: Crash, now: int, lease: nat)
      modifies this, scan
      ensures leaseLost == (old(leaseLost) || crash != NoCrash || !Owned(old(scan.Row()), worker, now))
      ensures scan.Row() == if old(leaseLost) || crash == BeforeCommit || !Owned(old(scan.Row()), worker, now)
                            then old(scan.Row()) else RenewedRow(old(scan.Row()), now, lease)
    {
      if leaseLost {
        return;
      }
      if crash == BeforeCommit {
        leaseLost := true;
        return;
      }
      var renewed := scan.RenewLease(worker, now, lease);
      if !renewed || crash == AfterCommit {
        leaseLost := true;
      }
    }
  }

  /** The scan table as the worker's polling loop sees it. */
  class ScanTable {
    var scans: seq<ScanRecord>

    ghost predicate Valid()
      reads this
    {
      forall i, j :: 0 <= i < j < |scans| ==> scans[i] != scans[j]
    }

    constructor ()
      ensures Valid() && scans == []
    {
      scans := [];
    }

    // The oldest queued scan is claimed; a queued scan whose cancellation was
    // requested is cancelled instead and nothing is returned.
    method ClaimNextQueued(worker: string, now: int, lease: nat) returns (claimed: Option<nat>)
      requires Valid()
      modifies scans
      ensures claimed.Some? ==>
                && claimed.value < |scans|
                && var k := claimed.value;
                && old(scans[k].Row()).status == Queued
                && old(scans[k].Row()).cancelRequestedAt.None?
                && scans[k].Row() == ClaimedRow(old(scans[k].Row()), worker, now, lease)
                && (forall i :: 0 <= i < |scans| && old(scans[i].Row()).status == Queued ==>
                      scans[k].createdAt <= scans[i].createdAt)
                && (forall i :: 0 <= i < |scans| && i != k ==> scans[i].Row() == old(scans[i].Row()))
      ensures claimed.None? ==>
                forall i :: 0 <= i < |scans| ==>
                  || scans[i].Row() == old(scans[i].Row())
                  || (&& old(scans[i].Row()).status == Queued
                      && old(scans[i].Row()).cancelRequestedAt.Some?
                      && scans[i].Row() == CancelledRow(old(scans[i].Row()), now))
      ensures claimed.None? && (exists i :: 0 <= i < |scans| && old(scans[i].Row()).status == Queued) ==>
                exists i :: 0 <= i < |scans| && old(scans[i].Row()).status == Queued
                            && scans[i].Row() == CancelledRow(old(scans[i].Row()), now)
    {
      var k: Option<nat> := None;
      for i := 0 to |scans|
        invariant k.Some? ==> k.value < i && scans[k.value].status == Queued
        invariant k.None? ==> forall j :: 0 <= j < i ==> scans[j].status != Queued
        invariant k.Some? ==> forall j :: 0 <= j < i && scans[j].status == Queued ==>
                                scans[k.value].createdAt <= scans[j].createdAt
      {
        if scans[i].status == Queued && (k.None? || scans[i].createdAt < scans[k.value].createdAt) {
          k := Some(i);
        }
      }
      if k.None? {
        return None;
      }
      var scan := scans[k.value];
      if scan.cancelRequestedAt.Some? {
        var _ := scan.MarkCancelled(None, now);
        return None;
      }
      scan.Claim(worker, now, lease);
      claimed := k;
    }

    ghost function Rows(): (rows: seq<ScanRow>)
      reads this, scans
    {
      seq(|scans|, i requires 0 <= i < |scans| reads this, scans => scans[i].Row())
    }

    method SelectStale(now: int) returns (stale: seq<nat>)
      requires Valid()
      ensures forall m, n :: 0 <= m < n < |stale| ==> stale[m] < stale[n]
      ensures forall m :: 0 <= m < |stale| ==> stale[m] < |scans| && Stale(Rows()[stale[m]], now)
      ensures forall j :: 0 <= j < |scans| && Stale(Rows()[j], now) ==> j in stale
    {
      stale := [];
      for i := 0 to |scans|
        invariant forall m, n :: 0 <= m < n < |stale| ==> stale[m] < stale[n]
        invariant forall m :: 0 <= m < |stale| ==> stale[m] < i && Stale(Rows()[stale[m]], now)
        invariant forall j :: 0 <= j < i && Stale(Rows()[j], now) ==> j in stale
      {
        var scan := scans[i];
        if Leased(scan.status) && scan.leaseExpiresAt.Some? && scan.leaseExpiresAt.value < now {
          stale := stale + [i];
        }
      }
    }

    // mark_scan_failed_code with no expected owner: a blind write of one row.
    method FailAt(k: nat, now: int)
      requires Valid() && k < |scans|
      modifies scans[k]
      ensures Rows() == old(Rows())[k := FailedRow(old(Rows())[k], INTERRUPTED, now)]
    {
      var _ := scans[k].MarkFailedCode(INTERRUPTED, None, now);
      assert forall j :: 0 <= j < |scans| && j != k ==> scans[j].Row() == old(scans[j].Row());
    }

    // With nothing interleaved, recovery fails exactly the stale rows.
    method RecoverStaleLeases(now: int) returns (count: nat)
      requires Valid()
      modifies scans
      ensures forall i :: 0 <= i < |scans| ==>
                Rows()[i] == if Stale(old(Rows())[i], now)
                             then FailedRow(old(Rows())[i], INTERRUPTED, now)
                             else old(Rows())[i]
      ensures count == |set i | 0 <= i < |scans| && Stale(old(Rows())[i], now)|
    {
      var stale := SelectStale(now);
      ghost var before := Rows();
      FailAll(stale, now);
      AllRecovered(before, Rows(), stale, now);
      count := |stale|;
    }

    method FailAll(stale: seq<nat>, now: int)
      requires Valid() && Distinct(stale) && forall m :: 0 <= m < |stale| ==> stale[m] < |scans|
      modifies scans
      ensures Recovered(old(Rows()), Rows(), stale, now)
    {
      ghost var before := Rows();
      for m := 0 to |stale|
        invariant Recovered(before, Rows(), stale[..m], now)
      {
        assert stale[..m + 1] == stale[..m] + [stale[m]];
        RecoverOneMore(before, Rows(), stale[..m], stale[m], now);
        FailAt(stale[m], now);
      }
      assert stale[..|stale|] == stale;
    }
  }

  ghost predicate Distinct(s: seq<nat>) {
    forall m, n :: 0 <= m < n < |s| ==> s[m] != s[n]
  }

  // The given rows, and no others, have failed as interrupted.
  ghost predicate Recovered(before: seq<ScanRow>, after: seq<ScanRow>, failed: seq<nat>, now: int) {
    && |after| == |before|
    && forall j :: 0 <= j < |before| ==>
         after[j] == if j in failed then FailedRow(before[j], INTERRUPTED, now) else before[j]
  }

  lemma RecoverOneMore(before: seq<ScanRow>, after: seq<ScanRow>, failed: seq<nat>, k: nat, now: int)
    requires Recovered(before, after, failed, now) && k < |before| && k !in failed
    ensures Recovered(before, after[k := FailedRow(after[k], INTERRUPTED, now)], failed + [k], now)
  {
  }

  lemma {:induction false} DistinctCount(s: seq<nat>)
    requires Distinct(s)
    ensures |set j: int | j in s| == |s|
  {
    if s != [] {
      var front, last := s[..|s| - 1], s[|s| - 1];
      DistinctCount(front);
      assert (set j: int | j in s) == (set j: int | j in front) + {last};
    }
  }

  lemma AllRecovered(before: seq<ScanRow>, after: seq<ScanRow>, stale: seq<nat>, now: int)
    requires Recovered(before, after, stale, now) && Distinct(stale)
    requires forall j :: j in stale <==> 0 <= j < |before| && Stale(before[j], now)
    ensures forall j :: 0 <= j < |before| ==>
              after[j] == if Stale(before[j], now) then FailedRow(before[j], INTERRUPTED, now) else before[j]
    ensures |stale| == |set j | 0 <= j < |before| && Stale(before[j], now)|
  {
    DistinctCount(stale);
    assert (set j: int | j in stale) == set j | 0 <= j < |before| && Stale(before[j], now);
  }
}

/**
 Workers, renewal threads, recovery sweeps and API cancellers writing one scan
 table. Every committed transaction is one step and the clock never goes back.
 A step whose guard fails changes nothing but what the failure path changes.
 */
module LifecycleSystem {
  import opened Prelude
  import opened ScanRows

  // ------------------------------------------------------------ job programs

  datatype Instr =
    | Check                                        // checkpoint()
    | ToolChecks                                   // any number of checkpoints taken inside a tool
    | Progress(status: Status, percent: nat)       // update_scan_progress
    | Receipts | Findings | Risk                   // owned effect writes
    | Finish                                       // the completing update_scan_progress

  datatype WebMode = Passive | ActiveDemo | ModernCrawl

  datatype Plan = Web(mode: WebMode, zapPassive: bool) | Repo

  function Stage(percent: nat): seq<Instr> {
    [Progress(Running, percent), Check, ToolChecks]
  }

  const WEB_OPENING: seq<Instr> := [
    Check, Progress(Validating, 10), Check, Progress(Running, 30), Check, ToolChecks, Check, Progress(Running, 70)]
  const REPO_OPENING: seq<Instr> := [
    Check, Progress(Validating, 10), Check, Progress(Running, 35), Check, ToolChecks, Check, Progress(Running, 65)]
  const PERSISTING: seq<Instr> := [Receipts, Progress(Normalizing, 85), Findings, Risk]
  const CLOSING: seq<Instr> := [Check, Finish]

  // The order of writes and checkpoints in run_passive_scan_job and
  // run_repo_scan_job.
  function Program(plan: Plan): seq<Instr> {
    match plan
    case Web(mode, zapPassive) =>
      var zap := if zapPassive then Stage(76) else [];
      var extra := if zapPassive && mode != Passive then [Check] + Stage(82) else [];
      WEB_OPENING + zap + extra + [Check] + PERSISTING + CLOSING
    case Repo =>
      REPO_OPENING + PERSISTING + CLOSING
  }

  // ------------------------------------------------------------ state

  datatype Phase = Starting | Active | FailPending(code: string) | Ended

  datatype Job = Job(
    scan: string,
    worker: string,
    owner: Option<string>,    // the lease owner read when the job function began
    program: seq<Instr>,
    pc: nat,
    phase: Phase,
    leaseLost: bool,          // the renewal thread's flag
    checkFailed: bool)        // some checkpoint of this job has raised

  datatype EffectKind = ReceiptWrite | FindingWrite | RiskWrite

  datatype Effect = Effect(scan: string, kind: EffectKind, at: int)

  datatype System = System(
    now: int,
    lease: nat,
    rows: map<string, ScanRow>,
    jobs: seq<Job>,
    sweeps: seq<seq<string>>, // rows each running recovery still has to write
    effects: seq<Effect>)

  datatype Action =
    | Tick(d: nat)
    | Create(id: string)
    | Cancel(id: string)
    | Claim(id: string, worker: string)
    | Start(j: nat, plan: Plan)
    | Renew(j: nat, crash: Crash)
    | Advance(j: nat, choice: Choice)
    | SweepSelect(ids: seq<string>)
    | SweepWrite(k: nat)

  // What the job's surroundings decide at one step.
  datatype Choice = Proceed | Probe(swallowed: bool) | ToolError(code: string) | Warn

  function Init(now: int, lease: nat): System {
    System(now, lease, map[], [], [], [])
  }

  // ------------------------------------------------------------ steps

  function ClaimedJob(id: string, worker: string): Job {
    Job(id, worker, None, [], 0, Starting, false, false)
  }

  function ClaimStep(s: System, id: string, worker: string): System {
    if id !in s.rows || s.rows[id].status != Queued then s
    else if s.rows[id].cancelRequestedAt.Some? then
      s.(rows := s.rows[id := CancelledRow(s.rows[id], s.now)])
    else
      s.(rows := s.rows[id := ClaimedRow(s.rows[id], worker, s.now, s.lease)],
         jobs := s.jobs + [ClaimedJob(id, worker)])
  }

  function StartStep(s: System, j: nat, plan: Plan): System {
    if j < |s.jobs| && s.jobs[j].phase == Starting && s.jobs[j].scan in s.rows then
      s.(jobs := s.jobs[j := s.jobs[j].(owner := s.rows[s.jobs[j].scan].leaseOwner, program := Program(plan), phase := Active)])
    else s
  }

  // One transaction of a job, as seen by its row, the job and the effect log.
  datatype Turn = Turn(row: ScanRow, job: Job, effect: Option<EffectKind>)

  function CheckTurn(row: ScanRow, job: Job, inTool: bool, swallowed: bool, now: int): Turn {
    match CheckOutcomeFor(row, job.owner, job.leaseLost, now)
    case Passed =>
      Turn(row, if inTool then job else job.(pc := job.pc + 1), None)
    case outcome =>
      var failed := job.(checkFailed := true);
      Turn(
        if outcome == CancelHonoured then CancelledRow(row, now) else row,
        if inTool && swallowed then failed
        else if outcome == DeadlineExceeded then failed.(phase := FailPending(DEADLINE))
        else failed.(phase := Ended),
        None)
  }

  function ActiveTurn(row: ScanRow, job: Job, choice: Choice, now: int, lease: nat): Turn
    requires job.pc < |job.program|
  {
    var next := job.(pc := job.pc + 1);
    var lost := Turn(row, job.(phase := Ended), None);
    var writable := MayWrite(row, job.owner, now);
    match job.program[job.pc]
    case Check => CheckTurn(row, job, false, false, now)
    case ToolChecks =>
      if choice.Probe? then CheckTurn(row, job, true, choice.swallowed, now) else Turn(row, next, None)
    case Progress(status, percent) =>
      if writable then Turn(ProgressRow(row, status, percent, None, None, now, lease), next, None) else lost
    case Receipts => if writable then Turn(row, next, Some(ReceiptWrite)) else lost
    case Findings => if writable then Turn(row, next, Some(FindingWrite)) else lost
    case Risk => if writable then Turn(row, next, Some(RiskWrite)) else lost
    case Finish =>
      var status := if choice.Warn? then CompletedWithWarnings else Completed;
      if writable then
        Turn(ProgressRow(row, status, 100, None, Some(now), now, lease), job.(phase := Ended), None)
      else lost
  }

  function JobTurn(row: ScanRow, job: Job, choice: Choice, now: int, lease: nat): Turn {
    match job.phase
    case FailPending(code) =>
      Turn(if MayWrite(row, job.owner, now) then FailedRow(row, code, now) else row, job.(phase := Ended), None)
    case Active =>
      if choice.ToolError? then Turn(row, job.(phase := FailPending(choice.code)), None)
      else if job.pc < |job.program| then ActiveTurn(row, job, choice, now, lease)
      else Turn(row, job, None)
    case _ => Turn(row, job, None)
  }

  // One turn of the job's renewal thread; it stops at the first failure.
  function RenewTurn(row: ScanRow, job: Job, crash: Crash, now: int, lease: nat): Turn {
    if job.leaseLost then Turn(row, job, None)
    else if crash == BeforeCommit || !Owned(row, job.worker, now) then Turn(row, job.(leaseLost := true), None)
    else Turn(RenewedRow(row, now, lease), job.(leaseLost := crash == AfterCommit), None)
  }

  function Commit(s: System, j: nat, turn: Turn): System
    requires j < |s.jobs|
  {
    var id := s.jobs[j].scan;
    s.(rows := s.rows[id := turn.row],
       jobs := s.jobs[j := turn.job],
       effects := s.effects + (if turn.effect.Some? then [Effect(id, turn.effect.value, s.now)] else []))
  }

  function RenewStep(s: System, j: nat, crash: Crash): System {
    if j < |s.jobs| && s.jobs[j].scan in s.rows
    then Commit(s, j, RenewTurn(s.rows[s.jobs[j].scan], s.jobs[j], crash, s.now, s.lease))
    else s
  }

  function AdvanceStep(s: System, j: nat, choice: Choice): System {
    if j < |s.jobs| && s.jobs[j].scan in s.rows
    then Commit(s, j, JobTurn(s.rows[s.jobs[j].scan], s.jobs[j], choice, s.now, s.lease))
    else s
  }

  function Step(s: System, a: Action): System {
    match a
    case Tick(d) => s.(now := s.now + d)
    case Create(id) => if id in s.rows then s else s.(rows := s.rows[id := NewRow(s.now)])
    case Cancel(id) => if id in s.rows then s.(rows := s.rows[id := CancelRequestedRow(s.rows[id], s.now)]) else s
    case Claim(id, worker) => ClaimStep(s, id, worker)
    case Start(j, plan) => StartStep(s, j, plan)
    case Renew(j, crash) => RenewStep(s, j, crash)
    case Advance(j, choice) => AdvanceStep(s, j, choice)
    case SweepSelect(ids) =>
      if forall id :: id in ids ==> id in s.rows && Stale(s.rows[id], s.now)
      then s.(sweeps := s.sweeps + [ids]) else s
    case SweepWrite(k) =>
      if k < |s.sweeps| && s.sweeps[k] != [] && s.sweeps[k][0] in s.rows then
        var id := s.sweeps[k][0];
        s.(rows := s.rows[id := FailedRow(s.rows[id], INTERRUPTED, s.now)],
           sweeps := s.sweeps[k := s.sweeps[k][1..]])
      else s
  }

  function Exec(s: System, acts: seq<Action>): System
    decreases |acts|
  {
    if acts == [] then s else Exec(Step(s, acts[0]), acts[1..])
  }

  // A job function that begins after the lease of its scan was already recovered reads
  // a null owner, and all its ownership checks are off.
  predicate CapturesNull(s: System, a: Action, id: string) {
    && a.Start?
    && a.j < |s.jobs|
    && s.jobs[a.j].phase == Starting
    && s.jobs[a.j].scan == id && id in s.rows
    && s.rows[id].leaseOwner.None?
  }

  // No job of this scan captures a null owner; the jobs of other scans may.
  predicate FencedRun(s: System, acts: seq<Action>, id: string)
    decreases |acts|
  {
    acts == [] || (!CapturesNull(s, acts[0], id) && FencedRun(Step(s, acts[0]), acts[1..], id))
  }

  // ------------------------------------------------------------ invariant

  // Programs end with a checkpoint and the completing write; their progress
  // writes only move forward, and never past 85.
  predicate Shaped(program: seq<Instr>) {
    && |program| > 2
    && program[LastCheck(program)] == Check
    && (forall i :: 0 <= i < |program| ==> (program[i].Finish? <==> i == LastCheck(program) + 1))
    && (forall i :: 0 <= i < |program| && program[i].Progress? ==>
          Leased(program[i].status) && 10 <= program[i].percent <= 85)
    && (forall i, j :: 0 <= i < j < |program| && program[i].Progress? && program[j].Progress? ==>
          program[i].percent <= program[j].percent && Rank(program[i].status) <= Rank(program[j].status))
  }

  function LastCheck(program: seq<Instr>): int {
    |program| - 2
  }

  // A job that can pass no checkpoint any more.
  predicate Doomed(row: ScanRow, job: Job, now: int) {
    job.leaseLost || !MayWrite(row, job.owner, now) || PastDeadline(row, now) || row.cancelRequestedAt.Some?
  }

  predicate AheadOf(row: ScanRow, program: seq<Instr>, pc: nat) {
    forall i :: pc <= i < |program| && program[i].Progress? ==>
      row.progress <= program[i].percent && Rank(row.status) <= Rank(program[i].status)
  }

  predicate JobOk(row: ScanRow, job: Job, now: int) {
    && row.attempts == 1
    && row.status != Queued
    && (Leased(row.status) ==> row.leaseOwner == Some(job.worker))
    && (job.phase == Starting ==> job.pc == 0 && !job.checkFailed && (Leased(row.status) ==> row.status == Validating && row.progress == 5))
    && (job.phase != Starting ==> job.owner == Some(job.worker) && Shaped(job.program))
    && (job.phase == Active ==>
          && job.pc < |job.program|
          && (Leased(row.status) ==> AheadOf(row, job.program, job.pc))
          && (job.pc > LastCheck(job.program) ==> !job.checkFailed))
    && (job.checkFailed ==> Doomed(row, job, now))
  }

  // A row whose lease ran out, before or after some recovery wrote it.
  predicate Expired(row: ScanRow, now: int) {
    Stale(row, now) || (row.status == Failed && row.errorCode == Some(INTERRUPTED))
  }

  // What holds of one scan, its job and the recoveries that list it.
  ghost predicate Inv(s: System, id: string) {
    && (id in s.rows ==> RowOk(s.rows[id]))
    && (forall j :: 0 <= j < |s.jobs| && s.jobs[j].scan == id ==> id in s.rows && JobOk(s.rows[id], s.jobs[j], s.now))
    && (forall i, j :: 0 <= i < j < |s.jobs| ==> s.jobs[i].scan != id || s.jobs[j].scan != id)
    && (forall k, m :: 0 <= k < |s.sweeps| && 0 <= m < |s.sweeps[k]| && s.sweeps[k][m] == id ==>
          id in s.rows && Expired(s.rows[id], s.now))
  }

  // A stretch of program without a completing write, whose progress writes
  // rise within the given bounds.
  predicate Band(p: seq<Instr>, lo: nat, hi: nat) {
    && (forall i :: 0 <= i < |p| ==> !p[i].Finish?)
    && (forall i :: 0 <= i < |p| && p[i].Progress? ==>
          && lo <= p[i].percent <= hi
          && p[i].status == StatusAt(p[i].percent))
    && (forall i, j :: 0 <= i < j < |p| && p[i].Progress? && p[j].Progress? ==> p[i].percent <= p[j].percent)
  }

  function StatusAt(percent: nat): Status {
    if percent < 30 then Validating else if percent < 85 then Running else Normalizing
  }

  lemma BandsJoin(p: seq<Instr>, q: seq<Instr>, lo: nat, mid: nat, hi: nat)
    requires Band(p, lo, mid) && Band(q, mid, hi) && lo <= mid <= hi
    ensures Band(p + q, lo, hi)
  {
  }

  lemma OpeningBands()
    ensures Band(WEB_OPENING, 10, 70) && Band(REPO_OPENING, 10, 70)
  {
  }

  lemma StageBands(percent: nat, lo: nat, hi: nat)
    requires 30 <= lo <= percent <= hi < 85
    ensures Band(Stage(percent), lo, hi) && Band([Check] + Stage(percent), lo, hi)
    ensures Band([], lo, hi) && Band([Check], lo, hi)
  {
  }

  lemma PersistingBand(lo: nat)
    requires lo <= 85
    ensures Band(PERSISTING, lo, 85)
  {
  }

  lemma ProgramShape(plan: Plan)
    ensures Shaped(Program(plan))
  {
    OpeningBands();
    match plan {
      case Web(mode, zapPassive) =>
        StageBands(76, 70, 80);
        StageBands(82, 80, 84);
        StageBands(84, 84, 84);
        PersistingBand(84);
        WebShape(WEB_OPENING,
                 if zapPassive then Stage(76) else [],
                 if zapPassive && mode != Passive then [Check] + Stage(82) else []);
      case Repo =>
        PersistingBand(70);
        BandsJoin(REPO_OPENING, PERSISTING, 10, 70, 85);
        ClosedBandShaped(REPO_OPENING + PERSISTING);
    }
  }

  lemma WebShape(opening: seq<Instr>, zap: seq<Instr>, extra: seq<Instr>)
    requires Band(opening, 10, 70) && Band(zap, 70, 80) && Band(extra, 80, 84)
    ensures Shaped(opening + zap + extra + [Check] + PERSISTING + CLOSING)
  {
    StageBands(84, 84, 84);
    PersistingBand(84);
    BandsJoin(opening, zap, 10, 70, 80);
    BandsJoin(opening + zap, extra, 10, 80, 84);
    BandsJoin(opening + zap + extra, [Check], 10, 84, 84);
    BandsJoin(opening + zap + extra + [Check], PERSISTING, 10, 84, 85);
    ClosedBandShaped(opening + zap + extra + [Check] + PERSISTING);
  }

  lemma ClosedBandShaped(body: seq<Instr>)
    requires Band(body, 10, 85) && body != []
    ensures Shaped(body + CLOSING)
  {
  }

  // ------------------------------------------------------------ one step

  // Whatever dooms a job stays: the flag, the deadline and the cancellation
  // are never cleared, and a lost lease is never won back.
  lemma DoomPersists(row: ScanRow, row': ScanRow, job: Job, now: int, later: int)
    requires RowOk(row) && RowOk(row') && JobOk(row, job, now) && job.phase != Starting
    requires Evolves(row, row', now) && now <= later
    requires Doomed(row, job, now)
    ensures Doomed(row', job, later)
  {
  }

  lemma JobSurvives(row: ScanRow, row': ScanRow, job: Job, now: int, later: int)
    requires RowOk(row) && RowOk(row') && JobOk(row, job, now)
    requires Evolves(row, row', now) && now <= later
    requires Leased(row'.status) ==> row'.status == row.status && row'.progress == row.progress
    requires Leased(row.status) && Leased(row'.status) ==> row'.leaseOwner == row.leaseOwner
    ensures JobOk(row', job, later)
  {
    if job.checkFailed {
      DoomPersists(row, row', job, now, later);
    }
  }

  // The frame of a transaction that writes the row of a scan and at most its own job.
  lemma LocalChangeKeepsInv(s: System, s': System, id: string)
    requires Inv(s, id) && id in s.rows && id in s'.rows
    requires s'.now == s.now && s'.sweeps == s.sweeps
    requires RowOk(s'.rows[id]) && Evolves(s.rows[id], s'.rows[id], s.now)
    requires |s'.jobs| == |s.jobs|
    requires forall k :: 0 <= k < |s.jobs| ==> s'.jobs[k].scan == s.jobs[k].scan
    requires forall k :: 0 <= k < |s.jobs| && s.jobs[k].scan == id ==> JobOk(s'.rows[id], s'.jobs[k], s.now)
    ensures Inv(s', id)
  {
    forall k, m | 0 <= k < |s.sweeps| && 0 <= m < |s.sweeps[k]| && s.sweeps[k][m] == id
      ensures Expired(s'.rows[id], s.now)
    {
      assert Expired(s.rows[id], s.now);
    }
  }

  // An API or recovery write changes a row under its job's feet.
  lemma OutsideWriteKeepsInv(s: System, id: string, row': ScanRow)
    requires Inv(s, id) && id in s.rows && RowOk(row') && Evolves(s.rows[id], row', s.now)
    requires Leased(row'.status) ==> row'.status == s.rows[id].status && row'.progress == s.rows[id].progress
    ensures Inv(s.(rows := s.rows[id := row']), id)
  {
    forall k | 0 <= k < |s.jobs| && s.jobs[k].scan == id
      ensures JobOk(row', s.jobs[k], s.now)
    {
      JobSurvives(s.rows[id], row', s.jobs[k], s.now, s.now);
    }
    LocalChangeKeepsInv(s, s.(rows := s.rows[id := row']), id);
  }

  // What one step may do to a scan and to the effects on it.
  ghost predicate StepFacts(s: System, s': System, id: string) {
    && Inv(s', id)
    && s.now <= s'.now
    && (id in s.rows ==> id in s'.rows && Evolves(s.rows[id], s'.rows[id], s.now))
    && |s.effects| <= |s'.effects| && s'.effects[..|s.effects|] == s.effects
    && (forall k :: |s.effects| <= k < |s'.effects| && s'.effects[k].scan == id ==>
          id in s.rows && !Stale(s.rows[id], s.now) && Leased(s.rows[id].status))
  }

  lemma TickKeepsInv(s: System, d: nat, id: string)
    requires Inv(s, id)
    ensures StepFacts(s, s.(now := s.now + d), id)
  {
    forall j | 0 <= j < |s.jobs| && s.jobs[j].scan == id
      ensures JobOk(s.rows[id], s.jobs[j], s.now + d)
    {
      JobSurvives(s.rows[id], s.rows[id], s.jobs[j], s.now, s.now + d);
    }
  }

  // A transaction on another scan.
  lemma OtherChangeKeepsInv(s: System, s': System, id: string)
    requires Inv(s, id) && s'.now == s.now
    requires (id in s'.rows <==> id in s.rows) && (id in s.rows ==> s'.rows[id] == s.rows[id])
    requires |s.jobs| <= |s'.jobs|
    requires forall k :: 0 <= k < |s'.jobs| && s'.jobs[k].scan == id ==> k < |s.jobs| && s'.jobs[k] == s.jobs[k]
    requires s'.sweeps == s.sweeps
    requires |s.effects| <= |s'.effects| && s'.effects[..|s.effects|] == s.effects
    requires forall k :: |s.effects| <= k < |s'.effects| ==> s'.effects[k].scan != id
    ensures StepFacts(s, s', id)
  {
  }

  lemma ClaimedRowOk(row: ScanRow, id: string, worker: string, now: int, lease: nat)
    requires RowOk(row) && row.status == Queued
    ensures RowOk(ClaimedRow(row, worker, now, lease)) && Evolves(row, ClaimedRow(row, worker, now, lease), now)
    ensures JobOk(ClaimedRow(row, worker, now, lease), ClaimedJob(id, worker), now)
  {
  }

  // A claimed scan is a queued one: no job holds it and no recovery lists it.
  lemma QueuedIsUntouched(s: System, id: string)
    requires Inv(s, id) && id in s.rows && s.rows[id].status == Queued
    ensures s.rows[id].cancelRequestedAt.None?
    ensures forall k :: 0 <= k < |s.jobs| ==> s.jobs[k].scan != id
    ensures forall k, m :: 0 <= k < |s.sweeps| && 0 <= m < |s.sweeps[k]| ==> s.sweeps[k][m] != id
  {
    assert RowOk(s.rows[id]);
    forall k | 0 <= k < |s.jobs| ensures s.jobs[k].scan != id {
      assert s.jobs[k].scan == id ==> JobOk(s.rows[id], s.jobs[k], s.now);
    }
  }

  lemma ClaimKeepsInv(s: System, x: string, worker: string, id: string)
    requires Inv(s, id)
    ensures StepFacts(s, ClaimStep(s, x, worker), id)
  {
    if x in s.rows && s.rows[x].status == Queued {
      if x == id {
        QueuedIsUntouched(s, id);
        ClaimedRowOk(s.rows[id], id, worker, s.now, s.lease);
        AddJobKeepsInv(s, id, ClaimedRow(s.rows[id], worker, s.now, s.lease), ClaimedJob(id, worker));
      } else {
        OtherChangeKeepsInv(s, ClaimStep(s, x, worker), id);
      }
    }
  }

  lemma AddJobKeepsInv(s: System, id: string, row: ScanRow, job: Job)
    requires Inv(s, id) && id in s.rows && RowOk(row) && Evolves(s.rows[id], row, s.now)
    requires job.scan == id && JobOk(row, job, s.now)
    requires forall k :: 0 <= k < |s.jobs| ==> s.jobs[k].scan != id
    requires forall k, m :: 0 <= k < |s.sweeps| && 0 <= m < |s.sweeps[k]| ==> s.sweeps[k][m] != id
    ensures StepFacts(s, s.(rows := s.rows[id := row], jobs := s.jobs + [job]), id)
  {
  }

  lemma StartKeepsInv(s: System, j: nat, plan: Plan, id: string)
    requires Inv(s, id) && !CapturesNull(s, Start(j, plan), id)
    ensures StepFacts(s, StartStep(s, j, plan), id)
  {
    var s' := StartStep(s, j, plan);
    if s' != s {
      if s.jobs[j].scan == id {
        ProgramShape(plan);
        assert JobOk(s.rows[id], s.jobs[j], s.now);
        assert JobOk(s.rows[id], s'.jobs[j], s.now);
        LocalChangeKeepsInv(s, s', id);
      } else {
        OtherChangeKeepsInv(s, s', id);
      }
    }
  }

  predicate TurnOk(row: ScanRow, job: Job, turn: Turn, now: int) {
    && RowOk(turn.row)
    && Evolves(row, turn.row, now)
    && JobOk(turn.row, turn.job, now)
    && turn.job.scan == job.scan
    && (turn.effect.Some? ==> Leased(row.status) && !Stale(row, now))
  }

  lemma CheckTurnOk(row: ScanRow, job: Job, inTool: bool, swallowed: bool, now: int)
    requires RowOk(row) && JobOk(row, job, now) && job.phase == Active
    requires job.program[job.pc] == if inTool then ToolChecks else Check
    ensures TurnOk(row, job, CheckTurn(row, job, inTool, swallowed, now), now)
  {
    assert job.pc <= LastCheck(job.program);
    var turn := CheckTurn(row, job, inTool, swallowed, now);
    if CheckOutcomeFor(row, job.owner, job.leaseLost, now) == Passed {
      assert !Doomed(row, job, now);
    } else {
      assert Doomed(turn.row, turn.job, now);
    }
  }

  lemma ProgressTurnOk(row: ScanRow, job: Job, choice: Choice, now: int, lease: nat)
    requires RowOk(row) && JobOk(row, job, now) && job.phase == Active && job.program[job.pc].Progress?
    ensures TurnOk(row, job, ActiveTurn(row, job, choice, now, lease), now)
  {
    var turn := ActiveTurn(row, job, choice, now, lease);
    assert job.pc < LastCheck(job.program);
    if MayWrite(row, job.owner, now) {
      assert AheadOf(turn.row, job.program, job.pc + 1);
      assert RowOk(turn.row);
      assert Evolves(row, turn.row, now);
    }
  }

  lemma FinishTurnOk(row: ScanRow, job: Job, choice: Choice, now: int, lease: nat)
    requires RowOk(row) && JobOk(row, job, now) && job.phase == Active && job.program[job.pc].Finish?
    ensures TurnOk(row, job, ActiveTurn(row, job, choice, now, lease), now)
  {
    var turn := ActiveTurn(row, job, choice, now, lease);
    assert RowOk(turn.row);
    assert Evolves(row, turn.row, now);
  }

  // Going on to the next instruction, unless this one was the last checkpoint.
  lemma NextTurnOk(row: ScanRow, job: Job, now: int)
    requires RowOk(row) && JobOk(row, job, now) && job.phase == Active && job.pc < LastCheck(job.program)
    ensures JobOk(row, job.(pc := job.pc + 1), now) && JobOk(row, job.(phase := Ended), now)
  {
  }

  lemma EffectTurnOk(row: ScanRow, job: Job, choice: Choice, now: int, lease: nat)
    requires RowOk(row) && JobOk(row, job, now) && job.phase == Active
    requires job.program[job.pc] in {Receipts, Findings, Risk}
    ensures TurnOk(row, job, ActiveTurn(row, job, choice, now, lease), now)
  {
    assert job.pc < LastCheck(job.program);
    NextTurnOk(row, job, now);
  }

  lemma ActiveTurnOk(row: ScanRow, job: Job, choice: Choice, now: int, lease: nat)
    requires RowOk(row) && JobOk(row, job, now) && job.phase == Active
    ensures TurnOk(row, job, ActiveTurn(row, job, choice, now, lease), now)
  {
    match job.program[job.pc]
    case Check => CheckTurnOk(row, job, false, false, now);
    case ToolChecks =>
      if choice.Probe? {
        CheckTurnOk(row, job, true, choice.swallowed, now);
      } else {
        NextTurnOk(row, job, now);
      }
    case Progress(status, percent) => ProgressTurnOk(row, job, choice, now, lease);
    case Finish => FinishTurnOk(row, job, choice, now, lease);
    case _ => EffectTurnOk(row, job, choice, now, lease);
  }

  lemma JobTurnOk(row: ScanRow, job: Job, choice: Choice, now: int, lease: nat)
    requires RowOk(row) && JobOk(row, job, now)
    ensures TurnOk(row, job, JobTurn(row, job, choice, now, lease), now)
  {
    if job.phase == Active && !choice.ToolError? {
      ActiveTurnOk(row, job, choice, now, lease);
    }
  }

  lemma CommitKeepsInv(s: System, j: nat, turn: Turn, id: string)
    requires Inv(s, id) && j < |s.jobs| && s.jobs[j].scan in s.rows && turn.job.scan == s.jobs[j].scan
    requires s.jobs[j].scan == id ==> TurnOk(s.rows[id], s.jobs[j], turn, s.now)
    ensures StepFacts(s, Commit(s, j, turn), id)
  {
    if s.jobs[j].scan == id {
      LocalChangeKeepsInv(s, Commit(s, j, turn), id);
    } else {
      OtherChangeKeepsInv(s, Commit(s, j, turn), id);
    }
  }

  lemma RenewTurnOk(row: ScanRow, job: Job, crash: Crash, now: int, lease: nat)
    requires RowOk(row) && JobOk(row, job, now)
    ensures TurnOk(row, job, RenewTurn(row, job, crash, now, lease), now)
  {
    var turn := RenewTurn(row, job, crash, now, lease);
    if turn.row != row {
      JobSurvives(row, turn.row, job, now, now);
    }
  }

  lemma RenewKeepsInv(s: System, j: nat, crash: Crash, id: string)
    requires Inv(s, id)
    ensures StepFacts(s, RenewStep(s, j, crash), id)
  {
    if j < |s.jobs| && s.jobs[j].scan in s.rows {
      var row, job := s.rows[s.jobs[j].scan], s.jobs[j];
      if job.scan == id {
        RenewTurnOk(row, job, crash, s.now, s.lease);
      }
      CommitKeepsInv(s, j, RenewTurn(row, job, crash, s.now, s.lease), id);
    }
  }

  // What a turn leaves of a job.
  lemma TurnKeepsJob(row: ScanRow, job: Job, choice: Choice, now: int, lease: nat)
    ensures KeepsJob(job, JobTurn(row, job, choice, now, lease).job)
  {
  }

  predicate KeepsJob(job: Job, job': Job) {
    && job'.scan == job.scan
    && (job.phase != Starting ==> job'.phase != Starting && job'.owner == job.owner && job'.program == job.program)
    && (job.leaseLost ==> job'.leaseLost) && (job.checkFailed ==> job'.checkFailed)
  }

  lemma AdvanceKeepsInv(s: System, j: nat, choice: Choice, id: string)
    requires Inv(s, id)
    ensures StepFacts(s, AdvanceStep(s, j, choice), id)
  {
    if j < |s.jobs| && s.jobs[j].scan in s.rows {
      var row, job := s.rows[s.jobs[j].scan], s.jobs[j];
      TurnKeepsJob(row, job, choice, s.now, s.lease);
      if job.scan == id {
        JobTurnOk(row, job, choice, s.now, s.lease);
      }
      CommitKeepsInv(s, j, JobTurn(row, job, choice, s.now, s.lease), id);
    }
  }

  lemma DropSweepHead(s: System, k: nat, id: string)
    requires Inv(s, id) && k < |s.sweeps| && s.sweeps[k] != []
    ensures Inv(s.(sweeps := s.sweeps[k := s.sweeps[k][1..]]), id)
  {
  }

  lemma SweepWriteKeepsInv(s: System, k: nat, id: string)
    requires Inv(s, id)
    ensures StepFacts(s, Step(s, SweepWrite(k)), id)
  {
    if k < |s.sweeps| && s.sweeps[k] != [] && s.sweeps[k][0] in s.rows {
      var x := s.sweeps[k][0];
      var row' := FailedRow(s.rows[x], INTERRUPTED, s.now);
      var written := s.(rows := s.rows[x := row']);
      if x == id {
        assert Expired(s.rows[id], s.now) && RowOk(s.rows[id]) && RowOk(row');
        OutsideWriteKeepsInv(s, id, row');
      } else {
        OtherChangeKeepsInv(s, written, id);
      }
      DropSweepHead(written, k, id);
    }
  }

  lemma CreateKeepsInv(s: System, x: string, id: string)
    requires Inv(s, id)
    ensures StepFacts(s, Step(s, Create(x)), id)
  {
  }

  lemma CancelKeepsInv(s: System, x: string, id: string)
    requires Inv(s, id)
    ensures StepFacts(s, Step(s, Cancel(x)), id)
  {
    if x in s.rows {
      if x == id {
        assert RowOk(s.rows[id]);
        OutsideWriteKeepsInv(s, id, CancelRequestedRow(s.rows[id], s.now));
      } else {
        OtherChangeKeepsInv(s, Step(s, Cancel(x)), id);
      }
    }
  }

  lemma SweepSelectKeepsInv(s: System, ids: seq<string>, id: string)
    requires Inv(s, id)
    ensures StepFacts(s, Step(s, SweepSelect(ids)), id)
  {
  }

  lemma StepKeepsInv(s: System, a: Action, id: string)
    requires Inv(s, id) && !CapturesNull(s, a, id)
    ensures StepFacts(s, Step(s, a), id)
  {
    match a
    case Tick(d) => TickKeepsInv(s, d, id);
    case Create(x) => CreateKeepsInv(s, x, id);
    case Cancel(x) => CancelKeepsInv(s, x, id);
    case Claim(x, worker) => ClaimKeepsInv(s, x, worker, id);
    case Start(j, plan) => StartKeepsInv(s, j, plan, id);
    case Renew(j, crash) => RenewKeepsInv(s, j, crash, id);
    case Advance(j, choice) => AdvanceKeepsInv(s, j, choice, id);
    case SweepSelect(ids) => SweepSelectKeepsInv(s, ids, id);
    case SweepWrite(k) => SweepWriteKeepsInv(s, k, id);
  }

  lemma StepJobs(s: System, a: Action, j: nat)
    requires j < |s.jobs|
    ensures j < |Step(s, a).jobs| && KeepsJob(s.jobs[j], Step(s, a).jobs[j])
  {
    if a.Advance? && a.j == j && s.jobs[j].scan in s.rows {
      TurnKeepsJob(s.rows[s.jobs[j].scan], s.jobs[j], a.choice, s.now, s.lease);
    }
  }

  // ------------------------------------------------------------ whole runs

  lemma {:induction false} RunKeepsInv(s: System, acts: seq<Action>, id: string)
    requires Inv(s, id) && FencedRun(s, acts, id)
    ensures Inv(Exec(s, acts), id)
    ensures id in s.rows ==> id in Exec(s, acts).rows
    decreases |acts|
  {
    if acts != [] {
      StepKeepsInv(s, acts[0], id);
      RunKeepsInv(Step(s, acts[0]), acts[1..], id);
    }
  }

  // Every scan that is fenced in a run, whatever happens to the others: claimed at most
  // once, lease fields exactly while leased, no pending cancellation while queued, 100
  // exactly on success.
  lemma ReachableRows(now: int, lease: nat, acts: seq<Action>, id: string)
    requires FencedRun(Init(now, lease), acts, id)
    requires id in Exec(Init(now, lease), acts).rows
    ensures var r := Exec(Init(now, lease), acts).rows[id];
            && r.attempts <= 1
            && (Leased(r.status) <==> r.leaseOwner.Some? && r.leaseExpiresAt.Some? && r.leaseHeartbeatAt.Some?)
            && (!Leased(r.status) <==> r.leaseOwner.None? && r.leaseExpiresAt.None? && r.leaseHeartbeatAt.None?)
            && (r.status == Queued ==> r.cancelRequestedAt.None?)
            && (r.progress == 100 <==> Successful(r.status))
            && (r.completedAt.Some? <==> Terminal(r.status))
  {
    RunKeepsInv(Init(now, lease), acts, id);
  }

  // What no continuation of a run can undo.
  predicate Forward(r: ScanRow, r': ScanRow) {
    && (Terminal(r.status) ==> r'.status == r.status && r'.errorCode == r.errorCode)
    && Rank(r.status) <= Rank(r'.status)
    && r.attempts <= r'.attempts
    && r.progress <= r'.progress
    && (r.cancelRequestedAt.Some? ==> r'.cancelRequestedAt == r.cancelRequestedAt)
    && (r.startedAt.Some? ==> r'.startedAt == r.startedAt)
  }

  lemma {:induction false} RowsOnlyMoveForward(s: System, acts: seq<Action>, id: string)
    requires Inv(s, id) && FencedRun(s, acts, id) && id in s.rows
    ensures id in Exec(s, acts).rows && Forward(s.rows[id], Exec(s, acts).rows[id])
    decreases |acts|
  {
    if acts != [] {
      StepKeepsInv(s, acts[0], id);
      RowsOnlyMoveForward(Step(s, acts[0]), acts[1..], id);
    }
  }

  predicate FencedOff(r: ScanRow, r': ScanRow) {
    || (Leased(r'.status) && r' == r.(cancelRequestedAt := r'.cancelRequestedAt))
    || (r'.status == Failed && r'.errorCode == Some(INTERRUPTED) && r'.progress == r.progress)
  }

  lemma FencingStep(s: System, a: Action, id: string)
    requires Inv(s, id) && !CapturesNull(s, a, id) && id in s.rows && Expired(s.rows[id], s.now)
    ensures var s' := Step(s, a);
            && Inv(s', id) && id in s'.rows
            && Expired(s'.rows[id], s'.now)
            && FencedOff(s.rows[id], s'.rows[id])
            && |s.effects| <= |s'.effects|
            && (forall k :: |s.effects| <= k < |s'.effects| ==> s'.effects[k].scan != id)
  {
    StepKeepsInv(s, a, id);
    assert RowOk(s.rows[id]);
  }

  // Lease fencing: once a leased scan has expired, nothing in any later run
  // renews it, moves it or writes an effect for it; the only new status is
  // FAILED, by recovery.
  lemma {:induction false} LeaseFencing(s: System, acts: seq<Action>, id: string)
    requires Inv(s, id) && FencedRun(s, acts, id) && id in s.rows && Expired(s.rows[id], s.now)
    ensures id in Exec(s, acts).rows
    ensures Expired(Exec(s, acts).rows[id], Exec(s, acts).now)
    ensures FencedOff(s.rows[id], Exec(s, acts).rows[id])
    ensures |s.effects| <= |Exec(s, acts).effects|
    ensures forall k :: |s.effects| <= k < |Exec(s, acts).effects| ==> Exec(s, acts).effects[k].scan != id
    decreases |acts|, 0
  {
    if acts != [] {
      FencingStep(s, acts[0], id);
      FencingLater(s, Step(s, acts[0]), acts[1..], id);
    }
  }

  lemma {:induction false} FencingLater(s: System, s1: System, acts: seq<Action>, id: string)
    requires Inv(s1, id) && FencedRun(s1, acts, id) && id in s.rows && id in s1.rows && Expired(s1.rows[id], s1.now)
    requires FencedOff(s.rows[id], s1.rows[id])
    requires |s.effects| <= |s1.effects|
    requires forall k :: |s.effects| <= k < |s1.effects| ==> s1.effects[k].scan != id
    ensures id in Exec(s1, acts).rows
    ensures Expired(Exec(s1, acts).rows[id], Exec(s1, acts).now)
    ensures FencedOff(s.rows[id], Exec(s1, acts).rows[id])
    ensures |s.effects| <= |Exec(s1, acts).effects|
    ensures forall k :: |s.effects| <= k < |Exec(s1, acts).effects| ==> Exec(s1, acts).effects[k].scan != id
    decreases |acts|
  {
    LeaseFencing(s1, acts, id);
    EffectsOnlyGrow(s1, acts);
    var s' := Exec(s1, acts);
    forall k | |s.effects| <= k < |s'.effects|
      ensures s'.effects[k].scan != id
    {
      if k < |s1.effects| {
        assert s'.effects[k] == s'.effects[..|s1.effects|][k] == s1.effects[k];
      }
    }
  }

  lemma {:induction false} EffectsOnlyGrow(s: System, acts: seq<Action>)
    ensures |s.effects| <= |Exec(s, acts).effects|
    ensures Exec(s, acts).effects[..|s.effects|] == s.effects
    decreases |acts|
  {
    if acts != [] {
      var s1 := Step(s, acts[0]);
      assert |s.effects| <= |s1.effects| && s1.effects[..|s.effects|] == s.effects;
      EffectsOnlyGrow(s1, acts[1..]);
      assert Exec(s, acts).effects[..|s.effects|] == Exec(s, acts).effects[..|s1.effects|][..|s.effects|];
    }
  }

  // Recovery's later writes re-read nothing, yet each row still to be written
  // is either expired or was already failed by another recovery.
  lemma RecoveryWritesAreSafe(now: int, lease: nat, acts: seq<Action>, k: nat, m: nat)
    requires k < |Exec(Init(now, lease), acts).sweeps| && m < |Exec(Init(now, lease), acts).sweeps[k]|
    requires FencedRun(Init(now, lease), acts, Exec(Init(now, lease), acts).sweeps[k][m])
    ensures var s := Exec(Init(now, lease), acts);
            var id := s.sweeps[k][m];
            && id in s.rows
            && (Stale(s.rows[id], s.now) || s.rows[id].status == Failed)
            && !Successful(s.rows[id].status) && s.rows[id].status != Cancelled
  {
    var s := Exec(Init(now, lease), acts);
    RunKeepsInv(Init(now, lease), acts, s.sweeps[k][m]);
    assert Expired(s.rows[s.sweeps[k][m]], s.now);
  }

  // Once one checkpoint of a job has raised, each later one raises too.
  lemma {:induction false} CheckpointFailureIsSticky(s: System, acts: seq<Action>, j: nat)
    requires j < |s.jobs| && s.jobs[j].checkFailed
    requires Inv(s, s.jobs[j].scan) && FencedRun(s, acts, s.jobs[j].scan)
    ensures var s' := Exec(s, acts);
            && j < |s'.jobs| && s'.jobs[j].scan == s.jobs[j].scan && s'.jobs[j].scan in s'.rows
            && CheckOutcomeFor(s'.rows[s'.jobs[j].scan], s'.jobs[j].owner, s'.jobs[j].leaseLost, s'.now) != Passed
    decreases |acts|
  {
    if acts == [] {
      assert JobOk(s.rows[s.jobs[j].scan], s.jobs[j], s.now);
    } else {
      StepKeepsInv(s, acts[0], s.jobs[j].scan);
      StepJobs(s, acts[0], j);
      CheckpointFailureIsSticky(Step(s, acts[0]), acts[1..], j);
    }
  }

  // ------------------------------------------------------------ who never completes

  predicate BeforeLastCheckpoint(job: Job) {
    job.phase == Active ==> job.pc <= LastCheck(job.program)
  }

  // The scan of a doomed job that has its last checkpoint still ahead.
  predicate Hopeless(s: System, j: nat) {
    && j < |s.jobs| && s.jobs[j].scan in s.rows
    && s.jobs[j].phase != Starting
    && BeforeLastCheckpoint(s.jobs[j])
    && Doomed(s.rows[s.jobs[j].scan], s.jobs[j], s.now)
    && !Successful(s.rows[s.jobs[j].scan].status)
  }

  // A doomed job passes no checkpoint.
  lemma HopelessCheck(row: ScanRow, job: Job, inTool: bool, swallowed: bool, now: int)
    requires Doomed(row, job, now) && !Successful(row.status) && job.phase == Active
    ensures var turn := CheckTurn(row, job, inTool, swallowed, now);
            && !Successful(turn.row.status) && turn.job.pc == job.pc && turn.job.program == job.program
  {
  }

  lemma HopelessActiveTurn(row: ScanRow, job: Job, choice: Choice, now: int, lease: nat)
    requires JobOk(row, job, now) && job.phase == Active && job.pc <= LastCheck(job.program)
    requires Doomed(row, job, now) && !Successful(row.status)
    ensures var turn := ActiveTurn(row, job, choice, now, lease);
            !Successful(turn.row.status) && BeforeLastCheckpoint(turn.job)
  {
    assert !job.program[job.pc].Finish?;
    match job.program[job.pc]
    case Check => HopelessCheck(row, job, false, false, now);
    case ToolChecks =>
      if choice.Probe? {
        HopelessCheck(row, job, true, choice.swallowed, now);
      }
    case _ =>
  }

  lemma HopelessTurn(row: ScanRow, job: Job, choice: Choice, now: int, lease: nat)
    requires RowOk(row) && JobOk(row, job, now)
    requires BeforeLastCheckpoint(job)
    requires job.phase == Active ==> Doomed(row, job, now)
    requires !Successful(row.status)
    ensures !Successful(JobTurn(row, job, choice, now, lease).row.status)
    ensures BeforeLastCheckpoint(JobTurn(row, job, choice, now, lease).job)
  {
    if job.phase == Active && !choice.ToolError? {
      HopelessActiveTurn(row, job, choice, now, lease);
    }
  }

  lemma HopelessStep(s: System, a: Action, j: nat)
    requires Hopeless(s, j) && Inv(s, s.jobs[j].scan) && !CapturesNull(s, a, s.jobs[j].scan)
    ensures Hopeless(Step(s, a), j)
  {
    var id := s.jobs[j].scan;
    StepKeepsInv(s, a, id);
    StepJobs(s, a, j);
    var s' := Step(s, a);
    assert JobOk(s.rows[id], s.jobs[j], s.now);
    DoomPersists(s.rows[id], s'.rows[id], s.jobs[j], s.now, s'.now);
    if a.Advance? && a.j == j {
      HopelessTurn(s.rows[id], s.jobs[j], a.choice, s.now, s.lease);
    } else {
      OtherStepsKeepJob(s, a, j);
      OtherStepsNeverComplete(s, a, id);
    }
  }

  lemma OtherStepsKeepJob(s: System, a: Action, j: nat)
    requires j < |s.jobs| && s.jobs[j].phase != Starting
    requires a.Advance? ==> a.j != j
    ensures j < |Step(s, a).jobs|
    ensures Step(s, a).jobs[j] == s.jobs[j].(leaseLost := Step(s, a).jobs[j].leaseLost)
  {
  }

  // Only the job's own turn can complete a scan.
  lemma OtherStepsNeverComplete(s: System, a: Action, id: string)
    requires Inv(s, id) && id in s.rows && !Successful(s.rows[id].status)
    requires a.Advance? ==> a.j >= |s.jobs| || s.jobs[a.j].scan != id
    ensures id in Step(s, a).rows && !Successful(Step(s, a).rows[id].status)
  {
  }

  // A job with a failed checkpoint, an expired deadline, a lost lease or a
  // pending cancellation ahead of its last checkpoint never completes its scan.
  lemma {:induction false} DoomedJobNeverCompletes(s: System, acts: seq<Action>, j: nat)
    requires Hopeless(s, j) && Inv(s, s.jobs[j].scan) && FencedRun(s, acts, s.jobs[j].scan)
    ensures s.jobs[j].scan in Exec(s, acts).rows
    ensures !Successful(Exec(s, acts).rows[s.jobs[j].scan].status)
    decreases |acts|
  {
    if acts != [] {
      StepKeepsInv(s, acts[0], s.jobs[j].scan);
      StepJobs(s, acts[0], j);
      HopelessStep(s, acts[0], j);
      DoomedJobNeverCompletes(Step(s, acts[0]), acts[1..], j);
    }
  }

  lemma FailedCheckpointNeverCompletes(s: System, acts: seq<Action>, j: nat)
    requires j < |s.jobs| && s.jobs[j].checkFailed
    requires Inv(s, s.jobs[j].scan) && FencedRun(s, acts, s.jobs[j].scan)
    requires !Successful(s.rows[s.jobs[j].scan].status)
    ensures s.jobs[j].scan in Exec(s, acts).rows
    ensures !Successful(Exec(s, acts).rows[s.jobs[j].scan].status)
  {
    assert JobOk(s.rows[s.jobs[j].scan], s.jobs[j], s.now);
    DoomedJobNeverCompletes(s, acts, j);
  }

  // A requested cancellation binds every job of the scan whose last checkpoint
  // is still ahead, also one that has not begun.
  predicate CancelBinds(s: System, id: string) {
    && id in s.rows
    && s.rows[id].cancelRequestedAt.Some?
    && !Successful(s.rows[id].status)
    && forall j :: 0 <= j < |s.jobs| && s.jobs[j].scan == id ==> BeforeLastCheckpoint(s.jobs[j])
  }

  lemma CancelBindsJob(s: System, a: Action, id: string, j: nat)
    requires Inv(s, id) && !CapturesNull(s, a, id) && CancelBinds(s, id)
    requires j < |Step(s, a).jobs| && Step(s, a).jobs[j].scan == id
    ensures BeforeLastCheckpoint(Step(s, a).jobs[j])
  {
    if j < |s.jobs| {
      StepJobs(s, a, j);
      assert JobOk(s.rows[id], s.jobs[j], s.now);
      if a.Start? && a.j == j {
        ProgramShape(a.plan);
      } else if a.Advance? && a.j == j {
        HopelessTurn(s.rows[id], s.jobs[j], a.choice, s.now, s.lease);
      }
    }
  }

  lemma CancelBindsStep(s: System, a: Action, id: string)
    requires Inv(s, id) && !CapturesNull(s, a, id) && CancelBinds(s, id)
    ensures CancelBinds(Step(s, a), id)
  {
    forall j | 0 <= j < |Step(s, a).jobs| && Step(s, a).jobs[j].scan == id
      ensures BeforeLastCheckpoint(Step(s, a).jobs[j])
    {
      CancelBindsJob(s, a, id, j);
    }
    StepKeepsInv(s, a, id);
    if a.Advance? && a.j < |s.jobs| && s.jobs[a.j].scan == id {
      assert JobOk(s.rows[id], s.jobs[a.j], s.now);
      HopelessTurn(s.rows[id], s.jobs[a.j], a.choice, s.now, s.lease);
    } else {
      OtherStepsNeverComplete(s, a, id);
    }
  }

  lemma {:induction false} CancelledInTimeNeverCompletes(s: System, acts: seq<Action>, id: string)
    requires Inv(s, id) && FencedRun(s, acts, id) && CancelBinds(s, id)
    ensures id in Exec(s, acts).rows && !Successful(Exec(s, acts).rows[id].status)
    decreases |acts|
  {
    if acts != [] {
      StepKeepsInv(s, acts[0], id);
      CancelBindsStep(s, acts[0], id);
      CancelledInTimeNeverCompletes(Step(s, acts[0]), acts[1..], id);
    }
  }

  // ------------------------------------------------------------ renewals in time

  // When the lease was last renewed, after one more step.
  function Renewed(s: System, a: Action, id: string, since: int): int {
    if a.Renew? && a.j < |s.jobs| && s.jobs[a.j].scan == id && !s.jobs[a.j].leaseLost && a.crash != BeforeCommit
    then s.now else since
  }

  // The clock never runs past a renewal by more than the lease.
  predicate Punctual(s: System, acts: seq<Action>, id: string, since: int)
    decreases |acts|
  {
    s.now <= since + s.lease
    && (acts == [] || Punctual(Step(s, acts[0]), acts[1..], id, Renewed(s, acts[0], id, since)))
  }

  // The lease runs to its full length from the last renewal, and no recovery lists the scan.
  ghost predicate InTime(s: System, id: string, since: int) {
    && id in s.rows && since <= s.now
    && (Leased(s.rows[id].status) ==>
          s.rows[id].leaseExpiresAt.Some? && s.rows[id].leaseExpiresAt.value >= since + s.lease)
    && forall k, m :: 0 <= k < |s.sweeps| && 0 <= m < |s.sweeps[k]| ==> s.sweeps[k][m] != id
  }

  lemma TurnInTime(row: ScanRow, job: Job, choice: Choice, now: int, lease: nat, until: int)
    requires until <= now + lease && (job.phase == Active ==> job.owner.Some?)
    requires Leased(row.status) ==> row.leaseExpiresAt.Some? && row.leaseExpiresAt.value >= until
    ensures var turn := JobTurn(row, job, choice, now, lease);
            Leased(turn.row.status) ==> turn.row.leaseExpiresAt.Some? && turn.row.leaseExpiresAt.value >= until
  {
  }

  lemma AdvanceInTime(s: System, j: nat, choice: Choice, id: string, since: int)
    requires Inv(s, id) && InTime(s, id, since)
    ensures InTime(AdvanceStep(s, j, choice), id, since)
  {
    if j < |s.jobs| && s.jobs[j].scan == id {
      assert JobOk(s.rows[id], s.jobs[j], s.now);
      TurnInTime(s.rows[id], s.jobs[j], choice, s.now, s.lease, since + s.lease);
    }
  }

  lemma RenewInTime(s: System, j: nat, crash: Crash, id: string, since: int)
    requires Inv(s, id) && InTime(s, id, since) && s.now <= since + s.lease
    ensures InTime(RenewStep(s, j, crash), id, Renewed(s, Renew(j, crash), id, since))
  {
    if j < |s.jobs| && s.jobs[j].scan == id {
      assert JobOk(s.rows[id], s.jobs[j], s.now);
    }
  }

  lemma SweepInTime(s: System, a: Action, id: string, since: int)
    requires InTime(s, id, since) && s.now <= since + s.lease && (a.SweepSelect? || a.SweepWrite?)
    ensures InTime(Step(s, a), id, since)
  {
  }

  lemma StepInTime(s: System, a: Action, id: string, since: int)
    requires Inv(s, id) && InTime(s, id, since) && s.now <= since + s.lease
    ensures InTime(Step(s, a), id, Renewed(s, a, id, since))
  {
    match a
    case Advance(j, choice) => AdvanceInTime(s, j, choice, id, since);
    case Renew(j, crash) => RenewInTime(s, j, crash, id, since);
    case SweepSelect(_) => SweepInTime(s, a, id, since);
    case SweepWrite(_) => SweepInTime(s, a, id, since);
    case _ =>
  }

  // A scan whose renewals come no further apart than the lease is never stale and never
  // selected by a recovery.
  lemma {:induction false} PunctualScanIsNeverStale(s: System, acts: seq<Action>, id: string, since: int)
    requires Inv(s, id) && FencedRun(s, acts, id) && InTime(s, id, since) && Punctual(s, acts, id, since)
    ensures var end := Exec(s, acts);
            && id in end.rows && !Stale(end.rows[id], end.now)
            && forall k, m :: 0 <= k < |end.sweeps| && 0 <= m < |end.sweeps[k]| ==> end.sweeps[k][m] != id
    decreases |acts|
  {
    if acts != [] {
      StepKeepsInv(s, acts[0], id);
      StepInTime(s, acts[0], id, since);
      PunctualScanIsNeverStale(Step(s, acts[0]), acts[1..], id, Renewed(s, acts[0], id, since));
    }
  }

  // ------------------------------------------------------------ what a scan has written

  function Logged(kinds: seq<EffectKind>, effect: Option<EffectKind>): seq<EffectKind> {
    if effect.Some? then kinds + [effect.value] else kinds
  }

  // The kinds of the effects logged for a scan, in order.
  function KindsOf(effects: seq<Effect>, id: string): seq<EffectKind> {
    if effects == [] then []
    else
      var last := effects[|effects| - 1];
      Logged(KindsOf(effects[..|effects| - 1], id), if last.scan == id then Some(last.kind) else None)
  }

  const ALL_KINDS := [ReceiptWrite, FindingWrite, RiskWrite]

  function KindOf(i: Instr): Option<EffectKind> {
    match i
    case Receipts => Some(ReceiptWrite)
    case Findings => Some(FindingWrite)
    case Risk => Some(RiskWrite)
    case _ => None
  }

  // The kinds that the first n instructions of a program write.
  function KindsUpTo(p: seq<Instr>, n: nat): seq<EffectKind>
    requires n <= |p|
  {
    if n == 0 then [] else Logged(KindsUpTo(p, n - 1), KindOf(p[n - 1]))
  }

  function KindsIn(p: seq<Instr>): seq<EffectKind> {
    KindsUpTo(p, |p|)
  }

  lemma {:induction false} KindsGrow(p: seq<Instr>, n: nat, m: nat)
    requires n <= m <= |p|
    ensures KindsUpTo(p, n) <= KindsUpTo(p, m)
  {
    if n < m {
      KindsGrow(p, n, m - 1);
    }
  }

  ghost predicate Silent(p: seq<Instr>) {
    forall i :: 0 <= i < |p| ==> KindOf(p[i]).None?
  }

  // Instructions that write nothing, before and behind.
  lemma {:induction false} SilentBefore(before: seq<Instr>, p: seq<Instr>, n: nat)
    requires Silent(before) && n <= |before + p|
    ensures KindsUpTo(before + p, n) == if n <= |before| then [] else KindsUpTo(p, n - |before|)
  {
    if n > 0 {
      SilentBefore(before, p, n - 1);
    }
  }

  lemma {:induction false} SilentBehind(p: seq<Instr>, after: seq<Instr>, n: nat)
    requires Silent(after) && n <= |p + after|
    ensures KindsUpTo(p + after, n) == KindsUpTo(p, Min(n, |p|))
  {
    if n > 0 {
      SilentBehind(p, after, n - 1);
    }
  }

  lemma SilentAround(before: seq<Instr>, p: seq<Instr>, after: seq<Instr>)
    requires Silent(before) && Silent(after)
    ensures KindsIn(before + p + after) == KindsIn(p)
  {
    SilentBehind(before + p, after, |before + p + after|);
    SilentBefore(before, p, |before + p|);
  }

  lemma PersistingKinds()
    ensures KindsIn(PERSISTING) == ALL_KINDS
  {
    var p := PERSISTING;
    assert KindsUpTo(p, 1) == [ReceiptWrite];
    assert KindsUpTo(p, 2) == KindsUpTo(p, 1);
    assert KindsUpTo(p, 3) == KindsUpTo(p, 2) + [FindingWrite];
  }

  lemma SilentFront(opening: seq<Instr>, zap: seq<Instr>, extra: seq<Instr>)
    requires Silent(opening) && Silent(zap) && Silent(extra)
    ensures Silent(opening + zap + extra + [Check])
  {
  }

  // Every program writes each kind once, in this order.
  lemma ProgramKinds(plan: Plan)
    ensures KindsIn(Program(plan)) == ALL_KINDS
  {
    PersistingKinds();
    match plan {
      case Web(mode, zapPassive) =>
        var zap := if zapPassive then Stage(76) else [];
        var extra := if zapPassive && mode != Passive then [Check] + Stage(82) else [];
        SilentFront(WEB_OPENING, zap, extra);
        SilentAround(WEB_OPENING + zap + extra + [Check], PERSISTING, CLOSING);
      case Repo =>
        SilentAround(REPO_OPENING, PERSISTING, CLOSING);
    }
  }

  // What has been logged for a scan: nothing before its job begins, then what lies behind
  // the job in its program, and everything once the scan has succeeded.
  ghost predicate Written(s: System, id: string) {
    var kinds := KindsOf(s.effects, id);
    && kinds <= ALL_KINDS
    && (id in s.rows && Successful(s.rows[id].status) ==> kinds == ALL_KINDS)
    && (HasJob(s, id) || kinds == [])
    && forall j :: 0 <= j < |s.jobs| && s.jobs[j].scan == id ==> JobWritten(s.jobs[j], kinds)
  }

  predicate HasJob(s: System, id: string) {
    exists j :: 0 <= j < |s.jobs| && s.jobs[j].scan == id
  }

  predicate JobWritten(job: Job, kinds: seq<EffectKind>) {
    && (job.phase == Starting ==> kinds == [])
    && (job.phase == Active ==>
          && job.pc < |job.program| && KindsIn(job.program) == ALL_KINDS
          && kinds == KindsUpTo(job.program, job.pc))
  }

  predicate TurnWritten(turn: Turn, kinds: seq<EffectKind>) {
    var kinds' := Logged(kinds, turn.effect);
    && JobWritten(turn.job, kinds') && kinds' <= ALL_KINDS
    && (Successful(turn.row.status) ==> kinds' == ALL_KINDS)
  }

  lemma WritableIsLeased(row: ScanRow, job: Job, now: int)
    requires RowOk(row) && JobOk(row, job, now) && job.phase == Active
    ensures MayWrite(row, job.owner, now) ==> !Successful(row.status)
  {
  }

  // One turn of the job: the log stays what lies behind it.
  lemma TurnWrites(row: ScanRow, job: Job, choice: Choice, now: int, lease: nat, kinds: seq<EffectKind>)
    requires RowOk(row) && JobOk(row, job, now) && JobWritten(job, kinds) && kinds <= ALL_KINDS
    requires Successful(row.status) ==> kinds == ALL_KINDS
    ensures TurnWritten(JobTurn(row, job, choice, now, lease), kinds)
  {
    if job.phase == Active && !choice.ToolError? {
      WritableIsLeased(row, job, now);
      KindsGrow(job.program, job.pc + 1, |job.program|);
      ActiveTurnWrites(row, job, choice, now, lease, kinds);
    }
  }

  lemma ActiveTurnWrites(row: ScanRow, job: Job, choice: Choice, now: int, lease: nat, kinds: seq<EffectKind>)
    requires job.phase == Active && JobWritten(job, kinds) && kinds <= ALL_KINDS && Shaped(job.program)
    requires KindsUpTo(job.program, job.pc + 1) <= ALL_KINDS
    requires MayWrite(row, job.owner, now) ==> !Successful(row.status)
    requires Successful(row.status) ==> kinds == ALL_KINDS
    ensures TurnWritten(ActiveTurn(row, job, choice, now, lease), kinds)
  {
    var turn := ActiveTurn(row, job, choice, now, lease);
    match job.program[job.pc]
    case Receipts => EffectTurnIs(row, job, choice, now, lease);
    case Findings => EffectTurnIs(row, job, choice, now, lease);
    case Risk => EffectTurnIs(row, job, choice, now, lease);
    case Finish => assert job.pc + 1 == |job.program|;
    case _ =>
      SilentTurnIs(row, job, choice, now, lease);
      assert job.pc + 1 < |job.program|;
  }

  lemma EffectTurnIs(row: ScanRow, job: Job, choice: Choice, now: int, lease: nat)
    requires job.pc < |job.program| && KindOf(job.program[job.pc]).Some?
    ensures ActiveTurn(row, job, choice, now, lease) ==
            if MayWrite(row, job.owner, now)
            then Turn(row, job.(pc := job.pc + 1), KindOf(job.program[job.pc]))
            else Turn(row, job.(phase := Ended), None)
  {
  }

  lemma SilentTurnIs(row: ScanRow, job: Job, choice: Choice, now: int, lease: nat)
    requires Shaped(job.program) && job.pc < |job.program|
    requires KindOf(job.program[job.pc]).None? && !job.program[job.pc].Finish?
    ensures var turn := ActiveTurn(row, job, choice, now, lease);
            && turn.effect.None? && turn.job.program == job.program
            && (turn.job.pc == job.pc || turn.job.pc == job.pc + 1) && (turn.job.phase == Starting ==> job.phase == Starting)
            && (Successful(turn.row.status) ==> Successful(row.status))
  {
  }

  lemma KindsAfter(effects: seq<Effect>, e: Effect, id: string)
    ensures KindsOf(effects + [e], id) == Logged(KindsOf(effects, id), if e.scan == id then Some(e.kind) else None)
  {
    assert (effects + [e])[..|effects|] == effects;
  }

  lemma CommitWrites(s: System, j: nat, turn: Turn, id: string)
    requires j < |s.jobs|
    ensures KindsOf(Commit(s, j, turn).effects, id) ==
            if s.jobs[j].scan == id then Logged(KindsOf(s.effects, id), turn.effect) else KindsOf(s.effects, id)
  {
    if turn.effect.Some? {
      KindsAfter(s.effects, Effect(s.jobs[j].scan, turn.effect.value, s.now), id);
    } else {
      assert s.effects + [] == s.effects;
    }
  }

  // The frame of a step: the jobs keep their scans, and what the step says of those of
  // this scan, of its row and of its effects.
  lemma KeepsWritten(s: System, s': System, id: string)
    requires |s.jobs| <= |s'.jobs| && forall k :: 0 <= k < |s.jobs| ==> s'.jobs[k].scan == s.jobs[k].scan
    requires HasJob(s, id) || KindsOf(s'.effects, id) == []
    requires KindsOf(s'.effects, id) <= ALL_KINDS
    requires id in s'.rows && Successful(s'.rows[id].status) ==> KindsOf(s'.effects, id) == ALL_KINDS
    requires forall k :: 0 <= k < |s'.jobs| && s'.jobs[k].scan == id ==> JobWritten(s'.jobs[k], KindsOf(s'.effects, id))
    ensures Written(s', id)
  {
    if HasJob(s, id) {
      var k :| 0 <= k < |s.jobs| && s.jobs[k].scan == id;
      assert s'.jobs[k].scan == id;
    }
  }

  lemma CommitKeepsWritten(s: System, j: nat, turn: Turn, id: string)
    requires Inv(s, id) && Written(s, id) && j < |s.jobs| && s.jobs[j].scan in s.rows
    requires turn.job.scan == s.jobs[j].scan
    requires s.jobs[j].scan == id ==> TurnWritten(turn, KindsOf(s.effects, id))
    ensures Written(Commit(s, j, turn), id)
  {
    var s' := Commit(s, j, turn);
    CommitWrites(s, j, turn, id);
    assert s.jobs[j].scan == id ==> HasJob(s, id);
    KeepsWritten(s, s', id);
  }

  lemma AdvanceWrites(s: System, j: nat, choice: Choice, id: string)
    requires Inv(s, id) && Written(s, id)
    ensures Written(AdvanceStep(s, j, choice), id)
  {
    if j < |s.jobs| && s.jobs[j].scan in s.rows {
      var row, job := s.rows[s.jobs[j].scan], s.jobs[j];
      TurnKeepsJob(row, job, choice, s.now, s.lease);
      if job.scan == id {
        TurnWrites(row, job, choice, s.now, s.lease, KindsOf(s.effects, id));
      }
      CommitKeepsWritten(s, j, JobTurn(row, job, choice, s.now, s.lease), id);
    }
  }

  lemma RenewWrites(s: System, j: nat, crash: Crash, id: string)
    requires Inv(s, id) && Written(s, id)
    ensures Written(RenewStep(s, j, crash), id)
  {
    if j < |s.jobs| && s.jobs[j].scan in s.rows {
      var turn := RenewTurn(s.rows[s.jobs[j].scan], s.jobs[j], crash, s.now, s.lease);
      CommitKeepsWritten(s, j, turn, id);
    }
  }

  lemma StartWrites(s: System, j: nat, plan: Plan, id: string)
    requires Inv(s, id) && Written(s, id)
    ensures Written(StartStep(s, j, plan), id)
  {
    ProgramKinds(plan);
    ProgramShape(plan);
    KeepsWritten(s, StartStep(s, j, plan), id);
  }

  lemma ClaimWrites(s: System, x: string, worker: string, id: string)
    requires Inv(s, id) && Written(s, id)
    ensures Written(ClaimStep(s, x, worker), id)
  {
    if x in s.rows && s.rows[x].status == Queued {
      if x == id {
        QueuedIsUntouched(s, id);
      }
      KeepsWritten(s, ClaimStep(s, x, worker), id);
    }
  }

  lemma OtherWrites(s: System, a: Action, id: string)
    requires Inv(s, id) && Written(s, id)
    requires !a.Claim? && !a.Start? && !a.Renew? && !a.Advance?
    ensures Written(Step(s, a), id)
  {
    if id in s.rows && !Successful(s.rows[id].status) {
      OtherStepsNeverComplete(s, a, id);
    }
    KeepsWritten(s, Step(s, a), id);
  }

  lemma StepWrites(s: System, a: Action, id: string)
    requires Inv(s, id) && Written(s, id)
    ensures Written(Step(s, a), id)
  {
    match a
    case Claim(x, worker) => ClaimWrites(s, x, worker, id);
    case Start(j, plan) => StartWrites(s, j, plan, id);
    case Renew(j, crash) => RenewWrites(s, j, crash, id);
    case Advance(j, choice) => AdvanceWrites(s, j, choice, id);
    case _ => OtherWrites(s, a, id);
  }

  lemma {:induction false} RunWrites(s: System, acts: seq<Action>, id: string)
    requires Inv(s, id) && FencedRun(s, acts, id) && Written(s, id)
    ensures Written(Exec(s, acts), id)
    decreases |acts|
  {
    if acts != [] {
      StepKeepsInv(s, acts[0], id);
      StepWrites(s, acts[0], id);
      RunWrites(Step(s, acts[0]), acts[1..], id);
    }
  }

  // After every run in which a scan is fenced, what was written for it begins like this:
  // its receipts, its findings, its risk score; and if it has succeeded, it is all of them.
  lemma CompletedScansAreWritten(now: int, lease: nat, acts: seq<Action>, id: string)
    requires FencedRun(Init(now, lease), acts, id)
    ensures var s := Exec(Init(now, lease), acts);
            && KindsOf(s.effects, id) <= [ReceiptWrite, FindingWrite, RiskWrite]
            && (id in s.rows && Successful(s.rows[id].status) ==>
                  KindsOf(s.effects, id) == [ReceiptWrite, FindingWrite, RiskWrite])
  {
    RunWrites(Init(now, lease), acts, id);
  }

  // ------------------------------------------------------------ what is shown while it is written

  datatype Face = Face(status: Status, percent: nat)

  // What the row shows when the first n instructions are behind the job: the claim, or the
  // last progress write.
  function Shown(p: seq<Instr>, n: nat): Face
    requires n <= |p|
  {
    if n == 0 then Face(Validating, 5)
    else if p[n - 1].Progress? then Face(p[n - 1].status, p[n - 1].percent)
    else Shown(p, n - 1)
  }

  // Receipts are written while the scan runs, findings and risk while it is normalised.
  predicate InItsTime(kind: EffectKind, face: Face) {
    match kind
    case ReceiptWrite => face.status == Running && face.percent in {65, 70, 76, 82}
    case _ => face == Face(Normalizing, 85)
  }

  predicate Timed(p: seq<Instr>) {
    forall i :: 0 <= i < |p| && KindOf(p[i]).Some? ==> InItsTime(KindOf(p[i]).value, Shown(p, i))
  }

  lemma {:induction false} ShownSince(p: seq<Instr>, m: nat, n: nat)
    requires m < n <= |p| && p[m].Progress? && forall i :: m < i < n ==> !p[i].Progress?
    ensures Shown(p, n) == Face(p[m].status, p[m].percent)
  {
    if m < n - 1 {
      ShownSince(p, m, n - 1);
    }
  }

  // A program whose last progress write before the persisting part is at m.
  lemma TimedProgram(before: seq<Instr>, m: nat, p: seq<Instr>)
    requires Silent(before) && p == before + PERSISTING + CLOSING
    requires m < |before| && before[m].Progress? && forall i :: m < i < |before| ==> !before[i].Progress?
    requires InItsTime(ReceiptWrite, Face(before[m].status, before[m].percent))
    ensures Timed(p)
  {
    var b := |before|;
    assert p[b] == Receipts && p[b + 1] == Progress(Normalizing, 85) && p[b + 2] == Findings && p[b + 3] == Risk;
    assert forall i :: 0 <= i < b ==> p[i] == before[i];
    ShownSince(p, m, b);
    ShownSince(p, b + 1, b + 2);
    ShownSince(p, b + 1, b + 3);
    assert forall i :: b + 4 <= i < |p| ==> p[i] == CLOSING[i - b - 4];
  }

  lemma ProgramIsTimed(plan: Plan)
    ensures Timed(Program(plan))
  {
    match plan {
      case Web(mode, zapPassive) =>
        var zap := if zapPassive then Stage(76) else [];
        var extra := if zapPassive && mode != Passive then [Check] + Stage(82) else [];
        var before := WEB_OPENING + zap + extra + [Check];
        SilentFront(WEB_OPENING, zap, extra);
        TimedProgram(before, |before| - if zapPassive then 4 else 2, Program(plan));
      case Repo =>
        TimedProgram(REPO_OPENING, |REPO_OPENING| - 1, Program(plan));
    }
  }

  // An active job's row shows what lies behind the job.
  predicate FaceIs(row: ScanRow, job: Job) {
    job.phase == Active ==>
      job.pc < |job.program| && (Leased(row.status) ==> Face(row.status, row.progress) == Shown(job.program, job.pc))
  }

  predicate JobShown(row: ScanRow, job: Job) {
    (job.phase == Active ==> Timed(job.program)) && FaceIs(row, job)
  }

  ghost predicate AllShown(s: System, id: string) {
    forall j :: 0 <= j < |s.jobs| && s.jobs[j].scan == id ==> id in s.rows && JobShown(s.rows[id], s.jobs[j])
  }

  lemma TurnShows(row: ScanRow, job: Job, choice: Choice, now: int, lease: nat)
    requires JobOk(row, job, now) && JobShown(row, job)
    ensures var turn := JobTurn(row, job, choice, now, lease); JobShown(turn.row, turn.job)
  {
    if job.phase == Active && !choice.ToolError? {
      ActiveTurnShows(row, job, choice, now, lease);
    }
    TurnKeepsJob(row, job, choice, now, lease);
  }

  lemma ActiveTurnShows(row: ScanRow, job: Job, choice: Choice, now: int, lease: nat)
    requires job.phase == Active && FaceIs(row, job)
    requires job.program[job.pc].Finish? || job.pc + 1 < |job.program|
    ensures var turn := ActiveTurn(row, job, choice, now, lease); FaceIs(turn.row, turn.job)
  {
  }

  lemma AdvanceShows(s: System, j: nat, choice: Choice, id: string)
    requires Inv(s, id) && AllShown(s, id)
    ensures AllShown(AdvanceStep(s, j, choice), id)
  {
    if j < |s.jobs| && s.jobs[j].scan == id {
      assert JobOk(s.rows[id], s.jobs[j], s.now);
      TurnShows(s.rows[id], s.jobs[j], choice, s.now, s.lease);
    }
  }

  lemma RenewShows(s: System, j: nat, crash: Crash, id: string)
    requires Inv(s, id) && AllShown(s, id)
    ensures AllShown(RenewStep(s, j, crash), id)
  {
  }

  lemma StartShows(s: System, j: nat, plan: Plan, id: string)
    requires Inv(s, id) && AllShown(s, id)
    ensures AllShown(StartStep(s, j, plan), id)
  {
    ProgramIsTimed(plan);
    if j < |s.jobs| && s.jobs[j].scan == id {
      assert JobOk(s.rows[id], s.jobs[j], s.now);
    }
  }

  lemma StepShows(s: System, a: Action, id: string)
    requires Inv(s, id) && AllShown(s, id)
    ensures AllShown(Step(s, a), id)
  {
    match a
    case Start(j, plan) => StartShows(s, j, plan, id);
    case Renew(j, crash) => RenewShows(s, j, crash, id);
    case Advance(j, choice) => AdvanceShows(s, j, choice, id);
    case _ =>
  }

  lemma {:induction false} RunShows(s: System, acts: seq<Action>, id: string)
    requires Inv(s, id) && FencedRun(s, acts, id) && AllShown(s, id)
    ensures Inv(Exec(s, acts), id) && AllShown(Exec(s, acts), id)
    decreases |acts|
  {
    if acts != [] {
      StepKeepsInv(s, acts[0], id);
      StepShows(s, acts[0], id);
      RunShows(Step(s, acts[0]), acts[1..], id);
    }
  }

  lemma TurnIsInTime(row: ScanRow, job: Job, choice: Choice, now: int, lease: nat)
    requires JobOk(row, job, now) && JobShown(row, job)
    ensures var turn := JobTurn(row, job, choice, now, lease);
            turn.effect.Some? ==> InItsTime(turn.effect.value, Face(row.status, row.progress))
  {
    if job.phase == Active && KindOf(job.program[job.pc]).Some? {
      EffectTurnIs(row, job, choice, now, lease);
    }
  }

  lemma StepIsInTime(s: System, a: Action, id: string, i: nat)
    requires Inv(s, id) && AllShown(s, id)
    requires |s.effects| <= i < |Step(s, a).effects| && Step(s, a).effects[i].scan == id
    ensures id in s.rows && Step(s, a).effects[i].at == s.now
    ensures InItsTime(Step(s, a).effects[i].kind, Face(s.rows[id].status, s.rows[id].progress))
  {
    if a.Advance? {
      assert JobShown(s.rows[id], s.jobs[a.j]);
      TurnIsInTime(s.rows[id], s.jobs[a.j], a.choice, s.now, s.lease);
    }
  }

  // In every run in which a scan is fenced, its receipts are written while it is shown as
  // running, and its findings and risk while it is shown as normalised at 85 percent.
  lemma EffectsAreInTheirTime(now: int, lease: nat, acts: seq<Action>, a: Action, id: string)
    requires FencedRun(Init(now, lease), acts, id)
    ensures var s := Exec(Init(now, lease), acts);
            forall i: nat :: |s.effects| <= i < |Step(s, a).effects| && Step(s, a).effects[i].scan == id ==>
              && id in s.rows && Step(s, a).effects[i].at == s.now
              && InItsTime(Step(s, a).effects[i].kind, Face(s.rows[id].status, s.rows[id].progress))
  {
    var s := Exec(Init(now, lease), acts);
    RunShows(Init(now, lease), acts, id);
    forall i: nat | |s.effects| <= i < |Step(s, a).effects| && Step(s, a).effects[i].scan == id
      ensures id in s.rows && Step(s, a).effects[i].at == s.now
      ensures InItsTime(Step(s, a).effects[i].kind, Face(s.rows[id].status, s.rows[id].progress))
    {
      StepIsInTime(s, a, id, i);
    }
  }

  // ------------------------------------------------------------ what a step stamps on a row

  // How a scan came to its end: when, and why.
  predicate EndStamped(s: System, a: Action, r: ScanRow, r': ScanRow) {
    && r'.completedAt == Some(s.now)
    && (r'.status == Cancelled ==> r'.cancelRequestedAt.Some? && (r'.errorCode.None? || r'.errorCode == r.errorCode))
    && (r'.status == Failed ==>
          || (a.SweepWrite? && r'.errorCode == Some(INTERRUPTED))
          || (a.Advance? && a.j < |s.jobs| && s.jobs[a.j].phase.FailPending?
              && r'.errorCode == Some(s.jobs[a.j].phase.code)))
    && (!Successful(r'.status) ==> r'.progress == r.progress)
  }

  predicate Stamps(s: System, a: Action, id: string, r: ScanRow, r': ScanRow) {
    && (!Terminal(r.status) && Terminal(r'.status) ==> EndStamped(s, a, r, r'))
    && (Terminal(r.status) && r'.completedAt != r.completedAt ==>
          a.SweepWrite? && r.errorCode == Some(INTERRUPTED) && r'.completedAt == Some(s.now))
    && (r.cancelRequestedAt != r'.cancelRequestedAt ==> a == Cancel(id) && r'.cancelRequestedAt == Some(s.now))
    && (r.startedAt != r'.startedAt ==>
          && a.Claim? && a.id == id && r'.startedAt == Some(s.now)
          && r'.leaseOwner == Some(a.worker) && r'.leaseExpiresAt == Some(s.now + s.lease))
    && (a == Cancel(id) && !Terminal(r.status) ==>
          r'.cancelRequestedAt.Some? && (r.status == Queued ==> r'.status == Cancelled))
  }

  // A step stamps the clock on what it begins, ends or asks to end, and says why a scan
  // failed; of two recoveries that list one scan the later stamps its end again.
  lemma TransitionsAreStamped(s: System, a: Action, id: string)
    requires Inv(s, id) && id in s.rows
    ensures id in Step(s, a).rows && Stamps(s, a, id, s.rows[id], Step(s, a).rows[id])
  {
    match a
    case Advance(j, choice) => AdvanceStamps(s, j, choice, id);
    case SweepWrite(k) => SweepStamps(s, k, id);
    case Claim(_, _) => ClaimStamps(s, a, id);
    case Cancel(_) => CancelStamps(s, a, id);
    case _ =>
  }

  lemma ClaimStamps(s: System, a: Action, id: string)
    requires Inv(s, id) && id in s.rows && a.Claim?
    ensures id in Step(s, a).rows && Stamps(s, a, id, s.rows[id], Step(s, a).rows[id])
  {
  }

  lemma CancelStamps(s: System, a: Action, id: string)
    requires Inv(s, id) && id in s.rows && a.Cancel?
    ensures id in Step(s, a).rows && Stamps(s, a, id, s.rows[id], Step(s, a).rows[id])
  {
  }

  lemma SweepStamps(s: System, k: nat, id: string)
    requires Inv(s, id) && id in s.rows
    ensures var a := SweepWrite(k); id in Step(s, a).rows && Stamps(s, a, id, s.rows[id], Step(s, a).rows[id])
  {
    if k < |s.sweeps| && s.sweeps[k] != [] && s.sweeps[k][0] == id {
      assert Expired(s.rows[id], s.now);
    }
  }

  lemma AdvanceStamps(s: System, j: nat, choice: Choice, id: string)
    requires Inv(s, id) && id in s.rows
    ensures var a := Advance(j, choice); id in Step(s, a).rows && Stamps(s, a, id, s.rows[id], Step(s, a).rows[id])
  {
    if j < |s.jobs| && s.jobs[j].scan == id {
      assert JobOk(s.rows[id], s.jobs[j], s.now);
      TurnStamps(s.rows[id], s.jobs[j], choice, s.now, s.lease);
    }
  }

  lemma TurnStamps(row: ScanRow, job: Job, choice: Choice, now: int, lease: nat)
    requires RowOk(row) && JobOk(row, job, now)
    ensures var r := JobTurn(row, job, choice, now, lease).row;
            && r.startedAt == row.startedAt && r.cancelRequestedAt == row.cancelRequestedAt
            && (Terminal(row.status) ==> r.completedAt == row.completedAt)
            && (!Terminal(row.status) && Terminal(r.status) ==>
                  && r.completedAt == Some(now)
                  && (r.status == Cancelled ==> r.cancelRequestedAt.Some? && r.errorCode.None?)
                  && (r.status == Failed ==> job.phase.FailPending? && r.errorCode == Some(job.phase.code))
                  && (!Successful(r.status) ==> r.progress == row.progress))
  {
  }

  // A job fails with the code of its tool, or because its deadline has passed.
  lemma FailureHasAReason(s: System, a: Action, j: nat)
    requires j < |s.jobs| && !s.jobs[j].phase.FailPending?
    ensures j < |Step(s, a).jobs|
    ensures Step(s, a).jobs[j].phase.FailPending? ==>
              && a.Advance? && a.j == j && s.jobs[j].scan in s.rows
              && var code := Step(s, a).jobs[j].phase.code;
              a.choice == ToolError(code) || (code == DEADLINE && PastDeadline(s.rows[s.jobs[j].scan], s.now))
  {
  }

  // ------------------------------------------------------------ what a cancelled scan has written

  // A checkpoint with nothing written before it.
  predicate Gate(p: seq<Instr>, c: nat) {
    c < |p| && p[c] == Check && KindsUpTo(p, c) == []
  }

  // Every program has such a checkpoint behind all of its tools.
  lemma LastGate(plan: Plan) returns (c: nat)
    ensures Gate(Program(plan), 0) && Gate(Program(plan), c)
    ensures forall i :: c <= i < |Program(plan)| ==> !Program(plan)[i].ToolChecks?
  {
    match plan {
      case Web(mode, zapPassive) =>
        var zap := if zapPassive then Stage(76) else [];
        var extra := if zapPassive && mode != Passive then [Check] + Stage(82) else [];
        var before := WEB_OPENING + zap + extra;
        c := |before|;
        SilentFront(WEB_OPENING, zap, extra);
        GateAt(before + [Check], PERSISTING + CLOSING, c);
        assert Program(plan) == (before + [Check]) + (PERSISTING + CLOSING);
      case Repo =>
        c := |REPO_OPENING| - 2;
        GateAt(REPO_OPENING, PERSISTING + CLOSING, c);
        assert Program(plan) == REPO_OPENING + (PERSISTING + CLOSING);
    }
  }

  lemma GateAt(before: seq<Instr>, after: seq<Instr>, c: nat)
    requires Silent(before) && c < |before| && before[c] == Check && before[0] == Check
    ensures Gate(before + after, c) && Gate(before + after, 0)
  {
    SilentBefore(before, after, c);
    SilentBefore(before, after, 0);
  }

  // A job that has such a checkpoint ahead.
  ghost predicate Gated(job: Job) {
    job.phase == Active ==> exists c: nat :: job.pc <= c && Gate(job.program, c)
  }

  // A doomed job stays before the checkpoint and writes nothing.
  lemma GateTurn(row: ScanRow, job: Job, choice: Choice, now: int, lease: nat, c: nat)
    requires job.phase == Active && Doomed(row, job, now) && job.pc <= c && Gate(job.program, c)
    ensures var turn := JobTurn(row, job, choice, now, lease);
            && turn.effect.None? && turn.job.program == job.program
            && (turn.job.phase == Active ==> turn.job.pc <= c)
  {
    if job.pc < c {
      KindsGrow(job.program, job.pc + 1, c);
      assert KindOf(job.program[job.pc]).None?;
    }
    if !choice.ToolError? && job.program[job.pc] == ToolChecks && choice.Probe? {
      StaysAtCheck(row, job, true, choice.swallowed, now);
    } else if job.program[job.pc] == Check {
      StaysAtCheck(row, job, false, false, now);
    }
  }

  lemma StaysAtCheck(row: ScanRow, job: Job, inTool: bool, swallowed: bool, now: int)
    requires Doomed(row, job, now) && job.phase == Active
    ensures var turn := CheckTurn(row, job, inTool, swallowed, now);
            turn.effect.None? && turn.job.pc == job.pc && turn.job.program == job.program
  {
  }

  ghost predicate CancelGates(s: System, id: string) {
    && id in s.rows && s.rows[id].cancelRequestedAt.Some?
    && forall j :: 0 <= j < |s.jobs| && s.jobs[j].scan == id ==> Gated(s.jobs[j])
  }

  lemma AdvanceGates(s: System, j: nat, choice: Choice, id: string)
    requires CancelGates(s, id) && j < |s.jobs| && s.jobs[j].scan == id
    ensures var turn := JobTurn(s.rows[id], s.jobs[j], choice, s.now, s.lease);
            turn.effect.None? && Gated(turn.job)
  {
    var job := s.jobs[j];
    if job.phase == Active {
      var c: nat :| job.pc <= c && Gate(job.program, c);
      GateTurn(s.rows[id], job, choice, s.now, s.lease, c);
    }
  }

  lemma GatedStep(s: System, a: Action, id: string, j: nat)
    requires Inv(s, id) && CancelGates(s, id)
    requires j < |Step(s, a).jobs| && Step(s, a).jobs[j].scan == id
    ensures Gated(Step(s, a).jobs[j])
  {
    if j < |s.jobs| {
      StepJobs(s, a, j);
      assert s.jobs[j].scan == id && Gated(s.jobs[j]);
      if a.Start? && a.j == j {
        var c := LastGate(a.plan);
        assert JobOk(s.rows[id], s.jobs[j], s.now);
      } else if a.Advance? && a.j == j {
        AdvanceGates(s, j, a.choice, id);
      } else if s.jobs[j].phase != Starting {
        OtherStepsKeepJob(s, a, j);
      }
    }
  }

  lemma CancelGatesStep(s: System, a: Action, id: string)
    requires Inv(s, id) && CancelGates(s, id)
    ensures CancelGates(Step(s, a), id) && KindsOf(Step(s, a).effects, id) == KindsOf(s.effects, id)
  {
    forall j | 0 <= j < |Step(s, a).jobs| && Step(s, a).jobs[j].scan == id
      ensures Gated(Step(s, a).jobs[j])
    {
      GatedStep(s, a, id, j);
    }
    StaysRequested(s, a, id);
    if a.Advance? && a.j < |s.jobs| && s.jobs[a.j].scan in s.rows {
      CommitWrites(s, a.j, JobTurn(s.rows[s.jobs[a.j].scan], s.jobs[a.j], a.choice, s.now, s.lease), id);
      if s.jobs[a.j].scan == id {
        AdvanceGates(s, a.j, a.choice, id);
      }
    } else if a.Renew? && a.j < |s.jobs| && s.jobs[a.j].scan in s.rows {
      CommitWrites(s, a.j, RenewTurn(s.rows[s.jobs[a.j].scan], s.jobs[a.j], a.crash, s.now, s.lease), id);
    }
  }

  lemma StaysRequested(s: System, a: Action, id: string)
    requires id in s.rows && s.rows[id].cancelRequestedAt.Some?
    ensures id in Step(s, a).rows && Step(s, a).rows[id].cancelRequestedAt.Some?
  {
  }

  // Once a cancellation is requested while the job has yet to pass a checkpoint behind its
  // tools and before its first write, nothing is ever written for the scan any more.
  lemma {:induction false} CancelledBeforePersistingWritesNothing(s: System, acts: seq<Action>, id: string)
    requires Inv(s, id) && FencedRun(s, acts, id) && CancelGates(s, id)
    ensures KindsOf(Exec(s, acts).effects, id) == KindsOf(s.effects, id)
    decreases |acts|
  {
    if acts != [] {
      StepKeepsInv(s, acts[0], id);
      CancelGatesStep(s, acts[0], id);
      CancelledBeforePersistingWritesNothing(Step(s, acts[0]), acts[1..], id);
    }
  }

  // ------------------------------------------------------------ the unfenced case

  // A worker whose lease is recovered between its claim and the start of its
  // job reads a null owner, and its first progress write revives the failed
  // scan. The run before the capture is fenced.
  predicate FailedBeforeStart(s: System) {
    && s.jobs == [ClaimedJob("s", "w")]
    && s.rows.Keys == {"s"}
    && s.rows["s"].status == Failed && s.rows["s"].leaseOwner.None?
    && s.rows["s"].cancelRequestedAt.None? && s.rows["s"].startedAt.Some?
    && s.now == s.rows["s"].startedAt.value + s.lease + 1
  }

  predicate JustClaimed(s: System) {
    && s.jobs == [ClaimedJob("s", "w")] && s.sweeps == []
    && s.rows.Keys == {"s"}
    && s.rows["s"] == ClaimedRow(NewRow(s.now), "w", s.now, s.lease)
  }

  lemma ReachJustClaimed(now: int, lease: nat)
    ensures JustClaimed(Step(Step(Init(now, lease), Create("s")), Claim("s", "w")))
  {
    var s1 := Step(Init(now, lease), Create("s"));
    assert s1.rows == map["s" := NewRow(now)] && s1.jobs == [];
  }

  lemma RecoverJustClaimed(s: System)
    requires JustClaimed(s)
    ensures var t := Step(s, Tick(s.lease + 1));
            FailedBeforeStart(Step(Step(t, SweepSelect(["s"])), SweepWrite(0)))
  {
    var t := Step(s, Tick(s.lease + 1));
    var u := Step(t, SweepSelect(["s"]));
    assert Stale(t.rows["s"], t.now);
    assert u == t.(sweeps := [["s"]]);
  }

  lemma FailedBeforeStartIsReachable(now: int, lease: nat)
    ensures exists acts :: FencedRun(Init(now, lease), acts, "s") && FailedBeforeStart(Exec(Init(now, lease), acts))
  {
    ReachJustClaimed(now, lease);
    RecoverAfter(Init(now, lease), Create("s"), Claim("s", "w"));
  }

  lemma RecoverAfter(s: System, a: Action, b: Action)
    requires !a.Start? && !b.Start? && JustClaimed(Step(Step(s, a), b))
    ensures exists acts :: FencedRun(s, acts, "s") && FailedBeforeStart(Exec(s, acts))
  {
    var t := Step(Step(s, a), b);
    RecoverJustClaimed(t);
    FiveSteps(s, a, b, Tick(t.lease + 1), SweepSelect(["s"]), SweepWrite(0));
  }

  lemma FiveSteps(s: System, a: Action, b: Action, c: Action, d: Action, e: Action)
    requires !a.Start? && !b.Start? && !c.Start? && !d.Start? && !e.Start?
    ensures FencedRun(s, [a, b, c, d, e], "s")
    ensures Exec(s, [a, b, c, d, e]) == Step(Step(Step(Step(Step(s, a), b), c), d), e)
  {
    var s4 := Step(Step(Step(Step(s, a), b), c), d);
    Prepend(Step(s4, e), s4, e, []);
    Prepend(Step(s4, e), Step(Step(Step(s, a), b), c), d, [e]);
    Prepend(Step(s4, e), Step(Step(s, a), b), c, [d, e]);
    Prepend(Step(s4, e), Step(s, a), b, [c, d, e]);
    Prepend(Step(s4, e), s, a, [b, c, d, e]);
    assert [a] + [b, c, d, e] == [a, b, c, d, e] && [b] + [c, d, e] == [b, c, d, e];
    assert [c] + [d, e] == [c, d, e] && [d] + [e] == [d, e] && [e] + [] == [e];
  }

  lemma Prepend(goal: System, s: System, a: Action, acts: seq<Action>)
    requires !CapturesNull(s, a, "s")
    requires FencedRun(Step(s, a), acts, "s") && Exec(Step(s, a), acts) == goal
    ensures FencedRun(s, [a] + acts, "s") && Exec(s, [a] + acts) == goal
  {
    assert ([a] + acts)[1..] == acts;
  }

  // Nothing stands in the way of a job without an owner.
  predicate Unhindered(row: ScanRow, job: Job, now: int) {
    !job.leaseLost && !PastDeadline(row, now) && row.cancelRequestedAt.None?
  }

  lemma ProgramOpens(plan: Plan)
    ensures var program := Program(plan); |program| > 2 && program[0] == Check && program[1] == Progress(Validating, 10)
  {
  }

  // The first two turns of a job without an owner, whatever its row.
  lemma OwnerlessTurns(row: ScanRow, job: Job, now: int, lease: nat)
    requires job.owner.None? && job.phase == Active && job.pc == 0 && Terminal(row.status)
    requires |job.program| > 2 && job.program[0] == Check && job.program[1] == Progress(Validating, 10)
    ensures var first := JobTurn(row, job, Proceed, now, lease);
            var second := JobTurn(first.row, first.job, Proceed, now, lease);
            second.row.status == Validating <==> Unhindered(row, job, now)
  {
  }

  lemma AdvanceTwice(s: System, j: nat)
    requires j < |s.jobs| && s.jobs[j].scan in s.rows
    ensures var id := s.jobs[j].scan;
            var first := JobTurn(s.rows[id], s.jobs[j], Proceed, s.now, s.lease);
            var s' := Step(Step(s, Advance(j, Proceed)), Advance(j, Proceed));
            id in s'.rows && s'.rows[id] == JobTurn(first.row, first.job, Proceed, s.now, s.lease).row
  {
    TurnKeepsJob(s.rows[s.jobs[j].scan], s.jobs[j], Proceed, s.now, s.lease);
  }

  // In every state of a fenced scan: a start that captures a null owner finds the scan
  // ended, and the job takes it back to validating in two steps exactly when no flag,
  // deadline or cancellation stops it.
  lemma NullCaptureRevivesScan(s: System, j: nat, plan: Plan, id: string)
    requires Inv(s, id) && CapturesNull(s, Start(j, plan), id)
    ensures Terminal(s.rows[id].status)
    ensures var s' := Step(Step(Step(s, Start(j, plan)), Advance(j, Proceed)), Advance(j, Proceed));
            id in s'.rows && (s'.rows[id].status == Validating <==> Unhindered(s.rows[id], s.jobs[j], s.now))
  {
    var started := Step(s, Start(j, plan));
    ProgramOpens(plan);
    assert JobOk(s.rows[id], s.jobs[j], s.now) && RowOk(s.rows[id]);
    assert started.jobs[j] == s.jobs[j].(owner := None, program := Program(plan), phase := Active);
    AdvanceTwice(started, j);
    OwnerlessTurns(s.rows[id], started.jobs[j], s.now, s.lease);
  }
}

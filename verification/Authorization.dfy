/**
 Auth profiles, targets and scans. Each API call is one transaction whose row
 locks serialise it against the others; the one value a call reads before it
 locks (the target's profile) is an argument here, as stale as it may be.
 */
module Authorization {
  import opened Prelude
  import opened ScanRows

  datatype Profile = Profile(workspace: string, secret: Option<string>, revokedAt: Option<int>, rotations: nat)

  datatype WebTarget = WebTarget(workspace: string, profile: Option<string>, permission: bool, archivedAt: Option<int>)

  datatype Scan = Scan(
    workspace: string,
    target: Option<string>,
    repository: Option<string>,
    profile: Option<string>,
    status: Status)

  datatype Directory = Directory(
    profiles: map<string, Profile>,
    targets: map<string, WebTarget>,
    scans: map<string, Scan>)

  datatype Reply = Done | NotFound | Conflict | BadRequest

  datatype Outcome = Outcome(dir: Directory, reply: Reply)

  // ------------------------------------------------------------ queries

  predicate OwnProfile(d: Directory, ws: string, p: string) {
    p in d.profiles && d.profiles[p].workspace == ws
  }

  // A target that is not archived, in the caller's workspace.
  predicate OwnTarget(d: Directory, ws: string, t: string) {
    t in d.targets && d.targets[t].workspace == ws && d.targets[t].archivedAt.None?
  }

  predicate Live(s: Scan) {
    !Terminal(s.status)
  }

  predicate ProfileInUse(d: Directory, p: string)
    requires p in d.profiles
  {
    exists id :: id in d.scans && d.scans[id].workspace == d.profiles[p].workspace
                 && d.scans[id].profile == Some(p) && Live(d.scans[id])
  }

  predicate TargetBusy(d: Directory, ws: string, t: string) {
    exists id :: id in d.scans && d.scans[id].workspace == ws && d.scans[id].target == Some(t) && Live(d.scans[id])
  }

  // ------------------------------------------------------------ transactions

  function CreateProfile(d: Directory, id: string, ws: string, secret: string): Outcome {
    if secret == "" then Outcome(d, BadRequest)
    else if id in d.profiles then Outcome(d, Conflict)
    else Outcome(d.(profiles := d.profiles[id := Profile(ws, Some(secret), None, 0)]), Done)
  }

  function RotateProfile(d: Directory, p: string, ws: string, secret: string): Outcome {
    if !OwnProfile(d, ws, p) then Outcome(d, NotFound)
    else if d.profiles[p].revokedAt.Some? || ProfileInUse(d, p) then Outcome(d, Conflict)
    else if secret == "" then Outcome(d, BadRequest)
    else
      var profile := d.profiles[p];
      Outcome(d.(profiles := d.profiles[p := profile.(secret := Some(secret), rotations := profile.rotations + 1)]), Done)
  }

  function DetachAll(targets: map<string, WebTarget>, ws: string, p: string): map<string, WebTarget> {
    map t | t in targets ::
      if targets[t].workspace == ws && targets[t].profile == Some(p) then targets[t].(profile := None) else targets[t]
  }

  // Revoking twice is harmless.
  function RevokeProfile(d: Directory, p: string, ws: string, now: int): Outcome {
    if !OwnProfile(d, ws, p) then Outcome(d, NotFound)
    else if d.profiles[p].revokedAt.Some? then Outcome(d, Done)
    else if ProfileInUse(d, p) then Outcome(d, Conflict)
    else
      Outcome(d.(profiles := d.profiles[p := d.profiles[p].(secret := None, revokedAt := Some(now))],
                 targets := DetachAll(d.targets, ws, p)), Done)
  }

  // require_workspace_auth_profile
  function ProfileReply(d: Directory, ws: string, profile: Option<string>): Reply {
    if profile.None? then Done
    else if !OwnProfile(d, ws, profile.value) then NotFound
    else if d.profiles[profile.value].revokedAt.Some? then Conflict
    else Done
  }

  function CreateTarget(d: Directory, id: string, ws: string, profile: Option<string>, permission: bool): Outcome {
    if !permission then Outcome(d, BadRequest)
    else if ProfileReply(d, ws, profile) != Done then Outcome(d, ProfileReply(d, ws, profile))
    else if id in d.targets then Outcome(d, Conflict)
    else Outcome(d.(targets := d.targets[id := WebTarget(ws, profile, true, None)]), Done)
  }

  function AttachProfile(d: Directory, t: string, ws: string, seen: Option<string>, profile: Option<string>): Outcome {
    if !OwnTarget(d, ws, t) then Outcome(d, NotFound)
    else if d.targets[t].profile != seen then Outcome(d, Conflict)
    else if ProfileReply(d, ws, profile) != Done then Outcome(d, ProfileReply(d, ws, profile))
    else if TargetBusy(d, ws, t) then Outcome(d, Conflict)
    else Outcome(d.(targets := d.targets[t := d.targets[t].(profile := profile)]), Done)
  }

  function ArchiveTarget(d: Directory, t: string, ws: string, now: int): Outcome {
    if !OwnTarget(d, ws, t) then Outcome(d, NotFound)
    else if TargetBusy(d, ws, t) then Outcome(d, Conflict)
    else Outcome(d.(targets := d.targets[t := d.targets[t].(profile := None, permission := false, archivedAt := Some(now))]), Done)
  }

  function ReauthorizeTarget(d: Directory, t: string, ws: string): Outcome {
    if !OwnTarget(d, ws, t) then Outcome(d, NotFound)
    else Outcome(d.(targets := d.targets[t := d.targets[t].(permission := true)]), Done)
  }

  // get_target_for_scan: `seen` is the profile read before the locks, and the
  // profile row that was locked is the one it names.
  function TargetForScanReply(d: Directory, t: string, ws: string, seen: Option<string>): Reply {
    if !OwnTarget(d, ws, t) then NotFound
    else if d.targets[t].profile != seen then Conflict
    else if seen.Some? && (!OwnProfile(d, ws, seen.value) || d.profiles[seen.value].revokedAt.Some?) then Conflict
    else if !d.targets[t].permission then BadRequest
    else Done
  }

  datatype Kind = PassiveWeb | OtherWeb | RepositoryOf(asset: string)

  // create_scan for a target. A repository profile turns the target into its
  // repository asset, and the scan then carries no target and no profile.
  function CreateScan(d: Directory, id: string, t: string, ws: string, seen: Option<string>, kind: Kind, policyOk: bool): Outcome {
    var reply := TargetForScanReply(d, t, ws, seen);
    if reply != Done then Outcome(d, reply)
    else if !policyOk then Outcome(d, BadRequest)
    else if kind.OtherWeb? && d.targets[t].profile.Some? then Outcome(d, BadRequest)
    else if id in d.scans then Outcome(d, Conflict)
    else
      var scan := if kind.RepositoryOf? then Scan(ws, None, Some(kind.asset), None, Queued)
                  else Scan(ws, Some(t), None, d.targets[t].profile, Queued);
      Outcome(d.(scans := d.scans[id := scan]), Done)
  }

  function CreateRepositoryScan(d: Directory, id: string, asset: string, ws: string): Outcome {
    if id in d.scans then Outcome(d, Conflict)
    else Outcome(d.(scans := d.scans[id := Scan(ws, None, Some(asset), None, Queued)]), Done)
  }

  // Any lifecycle write; terminal scans are never written again.
  function MoveScan(d: Directory, id: string, status: Status): Outcome {
    if id !in d.scans then Outcome(d, NotFound)
    else if !Live(d.scans[id]) then Outcome(d, BadRequest)
    else Outcome(d.(scans := d.scans[id := d.scans[id].(status := status)]), Done)
  }

  datatype Action =
    | DoCreateProfile(id: string, ws: string, secret: string)
    | DoRotate(id: string, ws: string, secret: string)
    | DoRevoke(id: string, ws: string, now: int)
    | DoCreateTarget(id: string, ws: string, profile: Option<string>, permission: bool)
    | DoAttach(id: string, ws: string, seen: Option<string>, profile: Option<string>)
    | DoArchive(id: string, ws: string, now: int)
    | DoReauthorize(id: string, ws: string)
    | DoCreateScan(id: string, target: string, ws: string, seen: Option<string>, kind: Kind, policyOk: bool)
    | DoCreateRepositoryScan(id: string, asset: string, ws: string)
    | DoMoveScan(id: string, status: Status)

  function Step(d: Directory, a: Action): Outcome {
    match a
    case DoCreateProfile(id, ws, secret) => CreateProfile(d, id, ws, secret)
    case DoRotate(id, ws, secret) => RotateProfile(d, id, ws, secret)
    case DoRevoke(id, ws, now) => RevokeProfile(d, id, ws, now)
    case DoCreateTarget(id, ws, profile, permission) => CreateTarget(d, id, ws, profile, permission)
    case DoAttach(id, ws, seen, profile) => AttachProfile(d, id, ws, seen, profile)
    case DoArchive(id, ws, now) => ArchiveTarget(d, id, ws, now)
    case DoReauthorize(id, ws) => ReauthorizeTarget(d, id, ws)
    case DoCreateScan(id, t, ws, seen, kind, policyOk) => CreateScan(d, id, t, ws, seen, kind, policyOk)
    case DoCreateRepositoryScan(id, asset, ws) => CreateRepositoryScan(d, id, asset, ws)
    case DoMoveScan(id, status) => MoveScan(d, id, status)
  }

  function Exec(d: Directory, acts: seq<Action>): Directory
    decreases |acts|
  {
    if acts == [] then d else Exec(Step(d, acts[0]).dir, acts[1..])
  }

  const EMPTY := Directory(map[], map[], map[])

  // ------------------------------------------------------------ joint invariant

  predicate ProfileOk(p: Profile) {
    p.revokedAt.Some? <==> p.secret.None?
  }

  // An attached profile is active and in the target's workspace, and an
  // archived target has none.
  predicate TargetOk(d: Directory, t: WebTarget) {
    && (t.profile.Some? ==>
          && OwnProfile(d, t.workspace, t.profile.value)
          && d.profiles[t.profile.value].revokedAt.None?)
    && (t.archivedAt.Some? ==> t.profile.None? && !t.permission)
  }

  // A live web scan runs under its target's present profile.
  predicate ScanOk(d: Directory, s: Scan) {
    && (s.target.Some? <==> s.repository.None?)
    && (s.profile.Some? ==> s.target.Some?)
    && (Live(s) && s.target.Some? ==>
          && OwnTarget(d, s.workspace, s.target.value)
          && d.targets[s.target.value].profile == s.profile)
  }

  ghost predicate Inv(d: Directory) {
    && (forall p :: p in d.profiles ==> ProfileOk(d.profiles[p]))
    && (forall t :: t in d.targets ==> TargetOk(d, d.targets[t]))
    && (forall s :: s in d.scans ==> ScanOk(d, d.scans[s]))
  }

  lemma ProfileWriteKeepsInv(d: Directory, a: Action)
    requires Inv(d) && (a.DoCreateProfile? || a.DoRotate? || a.DoRevoke?)
    ensures Inv(Step(d, a).dir)
  {
  }

  lemma TargetWriteKeepsInv(d: Directory, a: Action)
    requires Inv(d) && (a.DoCreateTarget? || a.DoAttach? || a.DoArchive? || a.DoReauthorize?)
    ensures Inv(Step(d, a).dir)
  {
  }

  lemma ScanWriteKeepsInv(d: Directory, a: Action)
    requires Inv(d) && (a.DoCreateScan? || a.DoCreateRepositoryScan? || a.DoMoveScan?)
    ensures Inv(Step(d, a).dir)
  {
  }

  lemma StepKeepsInv(d: Directory, a: Action)
    requires Inv(d)
    ensures Inv(Step(d, a).dir)
  {
    if a.DoCreateProfile? || a.DoRotate? || a.DoRevoke? {
      ProfileWriteKeepsInv(d, a);
    } else if a.DoCreateScan? || a.DoCreateRepositoryScan? || a.DoMoveScan? {
      ScanWriteKeepsInv(d, a);
    } else {
      TargetWriteKeepsInv(d, a);
    }
  }

  lemma {:induction false} RunKeepsInv(d: Directory, acts: seq<Action>)
    requires Inv(d)
    ensures Inv(Exec(d, acts))
    decreases |acts|
  {
    if acts != [] {
      StepKeepsInv(d, acts[0]);
      RunKeepsInv(Step(d, acts[0]).dir, acts[1..]);
    }
  }

  // ------------------------------------------------------------ what it gives

  lemma RevokedProfileIsUnused(acts: seq<Action>, p: string)
    requires p in Exec(EMPTY, acts).profiles && Exec(EMPTY, acts).profiles[p].revokedAt.Some?
    ensures var d := Exec(EMPTY, acts);
            && d.profiles[p].secret.None?
            && (forall t :: t in d.targets ==> d.targets[t].profile != Some(p))
            && (forall s :: s in d.scans && Live(d.scans[s]) ==> d.scans[s].profile != Some(p))
  {
    RunKeepsInv(EMPTY, acts);
    var d := Exec(EMPTY, acts);
    assert ProfileOk(d.profiles[p]);
    forall t | t in d.targets ensures d.targets[t].profile != Some(p) {
      assert TargetOk(d, d.targets[t]);
    }
    forall s | s in d.scans && Live(d.scans[s]) ensures d.scans[s].profile != Some(p) {
      assert ScanOk(d, d.scans[s]);
    }
  }

  lemma LiveScanMatchesItsTarget(acts: seq<Action>, s: string)
    requires s in Exec(EMPTY, acts).scans && Live(Exec(EMPTY, acts).scans[s])
    requires Exec(EMPTY, acts).scans[s].target.Some?
    ensures var d := Exec(EMPTY, acts);
            var scan := d.scans[s];
            && scan.target.value in d.targets
            && d.targets[scan.target.value].archivedAt.None?
            && d.targets[scan.target.value].workspace == scan.workspace
            && d.targets[scan.target.value].profile == scan.profile
            && (scan.profile.Some? ==>
                  && OwnProfile(d, scan.workspace, scan.profile.value)
                  && d.profiles[scan.profile.value].secret.Some?)
  {
    RunKeepsInv(EMPTY, acts);
    var d := Exec(EMPTY, acts);
    assert ScanOk(d, d.scans[s]);
    assert TargetOk(d, d.targets[d.scans[s].target.value]);
    if d.scans[s].profile.Some? {
      assert ProfileOk(d.profiles[d.scans[s].profile.value]);
    }
  }

  // While a scan stays live, its credential is neither rotated nor revoked.
  lemma {:induction false} LiveScanKeepsItsCredential(d: Directory, acts: seq<Action>, s: string)
    requires Inv(d) && s in d.scans && d.scans[s].profile.Some?
    requires s in Exec(d, acts).scans && Live(Exec(d, acts).scans[s])
    ensures Live(d.scans[s]) && Exec(d, acts).scans[s].profile == d.scans[s].profile
    ensures var p := d.scans[s].profile.value;
            p in d.profiles && p in Exec(d, acts).profiles && Exec(d, acts).profiles[p] == d.profiles[p]
    decreases |acts|
  {
    assert ScanOk(d, d.scans[s]);
    if acts == [] {
      assert TargetOk(d, d.targets[d.scans[s].target.value]);
    } else {
      StepKeepsInv(d, acts[0]);
      CredentialStep(d, acts[0], s);
      var d1 := Step(d, acts[0]).dir;
      LiveScanKeepsItsCredential(d1, acts[1..], s);
      assert ScanOk(d, d.scans[s]) && TargetOk(d, d.targets[d.scans[s].target.value]);
    }
  }

  lemma CredentialStep(d: Directory, a: Action, s: string)
    requires Inv(d) && s in d.scans && d.scans[s].profile.Some?
    ensures var d1 := Step(d, a).dir;
            var p := d.scans[s].profile.value;
            && s in d1.scans && d1.scans[s].profile == d.scans[s].profile
            && (Live(d1.scans[s]) ==> Live(d.scans[s]))
            && (Live(d.scans[s]) ==> p in d.profiles && p in d1.profiles && d1.profiles[p] == d.profiles[p])
  {
    var scan := d.scans[s];
    assert ScanOk(d, scan);
    if Live(scan) {
      assert TargetOk(d, d.targets[scan.target.value]);
      assert ProfileInUse(d, scan.profile.value);
    }
  }

  // ------------------------------------------------------------ what the log tells

  // One call and how it was answered.
  datatype Event = Event(action: Action, reply: Reply)

  function Front(acts: seq<Action>): seq<Action>
    requires acts != []
  {
    acts[..|acts| - 1]
  }

  function Log(acts: seq<Action>): (log: seq<Event>)
    ensures |log| == |acts|
  {
    if acts == [] then []
    else
      var last := acts[|acts| - 1];
      Log(Front(acts)) + [Event(last, Step(Exec(EMPTY, Front(acts)), last).reply)]
  }

  lemma {:induction false} ExecLast(d: Directory, acts: seq<Action>)
    requires acts != []
    ensures Exec(d, acts) == Step(Exec(d, Front(acts)), acts[|acts| - 1]).dir
    decreases |acts|
  {
    if |acts| > 1 {
      ExecLast(Step(d, acts[0]).dir, acts[1..]);
      assert Front(acts[1..]) == Front(acts)[1..];
    } else {
      assert acts[1..] == [];
    }
  }

  // The run before its last call, and that call.
  lemma LastCall(acts: seq<Action>) returns (d: Directory, a: Action)
    requires acts != []
    ensures d == Exec(EMPTY, Front(acts)) && a == acts[|acts| - 1] && Inv(d)
    ensures Exec(EMPTY, acts) == Step(d, a).dir
    ensures Log(acts) == Log(Front(acts)) + [Event(a, Step(d, a).reply)]
  {
    d, a := Exec(EMPTY, Front(acts)), acts[|acts| - 1];
    RunKeepsInv(EMPTY, Front(acts));
    ExecLast(EMPTY, acts);
  }

  predicate GivesSecret(e: Event, p: string) {
    e.reply == Done && (e.action.DoCreateProfile? || e.action.DoRotate?) && e.action.id == p
  }

  predicate LastGift(log: seq<Event>, p: string, i: nat) {
    i < |log| && GivesSecret(log[i], p) && forall j :: i < j < |log| ==> !GivesSecret(log[j], p)
  }

  predicate Revokes(e: Event, p: string) {
    e.reply == Done && e.action.DoRevoke? && e.action.id == p
  }

  predicate RevokedAfter(log: seq<Event>, i: nat, p: string) {
    exists j :: i < j < |log| && Revokes(log[j], p)
  }

  lemma RevokedGrows(log: seq<Event>, e: Event, i: nat, p: string)
    requires i < |log|
    ensures RevokedAfter(log + [e], i, p) <==> RevokedAfter(log, i, p) || Revokes(e, p)
  {
    var log' := log + [e];
    if j :| i < j < |log| && Revokes(log[j], p) {
      assert Revokes(log'[j], p);
    }
    assert log'[|log|] == e;
  }

  // The secret of a profile is that of the latest granted creation or rotation, unless the
  // profile was revoked since.
  ghost predicate SecretTold(d: Directory, log: seq<Event>, p: string) {
    if p in d.profiles then exists i: nat :: LastGift(log, p, i) && GiftStands(d.profiles[p].secret, log, i, p)
    else forall i :: 0 <= i < |log| ==> !GivesSecret(log[i], p)
  }

  predicate GiftStands(secret: Option<string>, log: seq<Event>, i: nat, p: string)
    requires i < |log| && GivesSecret(log[i], p)
  {
    secret == if RevokedAfter(log, i, p) then None else Some(log[i].action.secret)
  }

  lemma SecretStep(d: Directory, a: Action, log: seq<Event>, p: string)
    requires Inv(d) && SecretTold(d, log, p)
    ensures SecretTold(Step(d, a).dir, log + [Event(a, Step(d, a).reply)], p)
  {
    var e := Event(a, Step(d, a).reply);
    var d', log' := Step(d, a).dir, log + [e];
    if p in d'.profiles {
      if GivesSecret(e, p) {
        assert LastGift(log', p, |log|) && GiftStands(d'.profiles[p].secret, log', |log|, p);
      } else {
        var i: nat :| LastGift(log, p, i) && GiftStands(d.profiles[p].secret, log, i, p);
        RevokedGrows(log, e, i, p);
        assert ProfileOk(d.profiles[p]);
        assert LastGift(log', p, i) && GiftStands(d'.profiles[p].secret, log', i, p);
      }
    }
  }

  lemma {:induction false} SecretIsLatest(acts: seq<Action>, p: string)
    ensures SecretTold(Exec(EMPTY, acts), Log(acts), p)
  {
    if acts != [] {
      var d, a := LastCall(acts);
      SecretIsLatest(Front(acts), p);
      SecretStep(d, a, Log(Front(acts)), p);
    }
  }

  predicate CreatesProfile(e: Event, p: string) {
    e.reply == Done && e.action.DoCreateProfile? && e.action.id == p
  }

  // How often the log has a granted rotation of the profile.
  function Rotations(log: seq<Event>, p: string): nat {
    if log == [] then 0
    else
      var e := log[|log| - 1];
      Rotations(log[..|log| - 1], p) + if e.reply == Done && e.action.DoRotate? && e.action.id == p then 1 else 0
  }

  lemma RotationsGrow(log: seq<Event>, e: Event, p: string)
    ensures Rotations(log + [e], p) ==
            Rotations(log, p) + if e.reply == Done && e.action.DoRotate? && e.action.id == p then 1 else 0
  {
    assert (log + [e])[..|log|] == log;
  }

  // A profile stays in its workspace, counts its rotations, and dates its revocation.
  ghost predicate RecordTold(d: Directory, log: seq<Event>, p: string) {
    if p in d.profiles then
      var profile := d.profiles[p];
      && profile.rotations == Rotations(log, p)
      && (exists i :: 0 <= i < |log| && CreatesProfile(log[i], p) && log[i].action.ws == profile.workspace)
      && (profile.revokedAt.Some? ==>
            exists i :: 0 <= i < |log| && Revokes(log[i], p) && Some(log[i].action.now) == profile.revokedAt)
    else Rotations(log, p) == 0
  }

  lemma RecordStep(d: Directory, a: Action, log: seq<Event>, p: string)
    requires RecordTold(d, log, p)
    ensures RecordTold(Step(d, a).dir, log + [Event(a, Step(d, a).reply)], p)
  {
    var e := Event(a, Step(d, a).reply);
    var log' := log + [e];
    RotationsGrow(log, e, p);
    assert log'[|log|] == e;
    if p in d.profiles {
      var i :| 0 <= i < |log| && CreatesProfile(log[i], p) && log[i].action.ws == d.profiles[p].workspace;
      assert CreatesProfile(log'[i], p);
      if d.profiles[p].revokedAt.Some? {
        var j :| 0 <= j < |log| && Revokes(log[j], p) && Some(log[j].action.now) == d.profiles[p].revokedAt;
        assert Revokes(log'[j], p);
      }
    }
  }

  lemma {:induction false} RecordIsKept(acts: seq<Action>, p: string)
    ensures RecordTold(Exec(EMPTY, acts), Log(acts), p)
  {
    if acts != [] {
      var d, a := LastCall(acts);
      RecordIsKept(Front(acts), p);
      RecordStep(d, a, Log(Front(acts)), p);
    }
  }

  predicate SetsProfile(e: Event, t: string) {
    e.reply == Done && (e.action.DoCreateTarget? || e.action.DoAttach? || e.action.DoArchive?) && e.action.id == t
  }

  function ProfileSet(a: Action): Option<string>
    requires a.DoCreateTarget? || a.DoAttach? || a.DoArchive?
  {
    if a.DoArchive? then None else a.profile
  }

  predicate LastSetting(log: seq<Event>, t: string, i: nat) {
    i < |log| && SetsProfile(log[i], t) && forall j :: i < j < |log| ==> !SetsProfile(log[j], t)
  }

  // A target has the profile of the latest granted creation, attachment or archiving, unless
  // that profile was revoked since.
  ghost predicate ProfileTold(d: Directory, log: seq<Event>, t: string) {
    if t in d.targets then exists i: nat :: LastSetting(log, t, i) && SettingStands(d.targets[t].profile, log, i)
    else forall i :: 0 <= i < |log| ==> !SetsProfile(log[i], t)
  }

  predicate SettingStands(profile: Option<string>, log: seq<Event>, i: nat)
    requires i < |log| && SetsProfile(log[i], log[i].action.id)
  {
    var given := ProfileSet(log[i].action);
    profile == if given.Some? && RevokedAfter(log, i, given.value) then None else given
  }

  lemma ProfileStep(d: Directory, a: Action, log: seq<Event>, t: string)
    requires Inv(d) && ProfileTold(d, log, t)
    ensures ProfileTold(Step(d, a).dir, log + [Event(a, Step(d, a).reply)], t)
  {
    var d', log' := Step(d, a).dir, log + [Event(a, Step(d, a).reply)];
    if t in d'.targets {
      if SetsProfile(log'[|log|], t) {
        assert LastSetting(log', t, |log|) && SettingStands(d'.targets[t].profile, log', |log|);
      } else {
        var i: nat :| LastSetting(log, t, i) && SettingStands(d.targets[t].profile, log, i);
        SettingStep(d, a, log, t, i);
        assert LastSetting(log', t, i);
      }
    }
  }

  lemma SettingStep(d: Directory, a: Action, log: seq<Event>, t: string, i: nat)
    requires Inv(d) && t in d.targets && LastSetting(log, t, i) && SettingStands(d.targets[t].profile, log, i)
    requires !SetsProfile(Event(a, Step(d, a).reply), t)
    ensures t in Step(d, a).dir.targets
    ensures SettingStands(Step(d, a).dir.targets[t].profile, log + [Event(a, Step(d, a).reply)], i)
  {
    var e := Event(a, Step(d, a).reply);
    assert TargetOk(d, d.targets[t]);
    var given := ProfileSet(log[i].action);
    if given.Some? {
      RevokedGrows(log, e, i, given.value);
    }
  }

  lemma {:induction false} ProfileIsLatest(acts: seq<Action>, t: string)
    ensures ProfileTold(Exec(EMPTY, acts), Log(acts), t)
  {
    if acts != [] {
      var d, a := LastCall(acts);
      ProfileIsLatest(Front(acts), t);
      ProfileStep(d, a, Log(Front(acts)), t);
    }
  }

  predicate CreatesTarget(e: Event, t: string) {
    e.reply == Done && e.action.DoCreateTarget? && e.action.id == t
  }

  predicate Archives(e: Event, t: string) {
    e.reply == Done && e.action.DoArchive? && e.action.id == t
  }

  // A target stays in its workspace, and it is archived and without permission from its
  // first granted archiving on.
  ghost predicate TargetTold(d: Directory, log: seq<Event>, t: string) {
    t in d.targets ==>
      var target := d.targets[t];
      && (exists i :: 0 <= i < |log| && CreatesTarget(log[i], t) && log[i].action.ws == target.workspace)
      && (target.permission <==> target.archivedAt.None?)
      && if target.archivedAt.None? then forall i :: 0 <= i < |log| ==> !Archives(log[i], t)
         else exists i :: 0 <= i < |log| && Archives(log[i], t) && Some(log[i].action.now) == target.archivedAt
  }

  lemma TargetStep(d: Directory, a: Action, log: seq<Event>, t: string)
    requires TargetTold(d, log, t) && ProfileTold(d, log, t)
    ensures TargetTold(Step(d, a).dir, log + [Event(a, Step(d, a).reply)], t)
  {
    var e := Event(a, Step(d, a).reply);
    var d', log' := Step(d, a).dir, log + [e];
    assert log'[|log|] == e;
    if t in d.targets {
      var i :| 0 <= i < |log| && CreatesTarget(log[i], t) && log[i].action.ws == d.targets[t].workspace;
      assert CreatesTarget(log'[i], t);
      if d.targets[t].archivedAt.Some? {
        var j :| 0 <= j < |log| && Archives(log[j], t) && Some(log[j].action.now) == d.targets[t].archivedAt;
        assert Archives(log'[j], t);
      }
    } else {
      assert forall i :: 0 <= i < |log| ==> !SetsProfile(log[i], t);
    }
  }

  lemma {:induction false} TargetIsAsArchived(acts: seq<Action>, t: string)
    ensures TargetTold(Exec(EMPTY, acts), Log(acts), t)
  {
    if acts != [] {
      var d, a := LastCall(acts);
      ProfileIsLatest(Front(acts), t);
      TargetIsAsArchived(Front(acts), t);
      TargetStep(d, a, Log(Front(acts)), t);
    }
  }

  predicate Launches(e: Event, s: string) {
    e.reply == Done && (e.action.DoCreateScan? || e.action.DoCreateRepositoryScan?) && e.action.id == s
  }

  predicate Moves(e: Event, s: string) {
    e.reply == Done && e.action.DoMoveScan? && e.action.id == s
  }

  // A scan is what its launch asked for, in the status it was moved to last.
  ghost predicate ScanTold(d: Directory, log: seq<Event>, s: string) {
    if s in d.scans then exists i: nat :: i < |log| && Launches(log[i], s) && LaunchStands(d.scans[s], log, i, s)
    else forall i :: 0 <= i < |log| ==> !Launches(log[i], s) && !Moves(log[i], s)
  }

  predicate Asked(scan: Scan, a: Action)
    requires a.DoCreateScan? || a.DoCreateRepositoryScan?
  {
    && scan.workspace == a.ws
    && if a.DoCreateRepositoryScan? then scan.repository == Some(a.asset) && scan.target.None? && scan.profile.None?
       else if a.kind.RepositoryOf? then scan.repository == Some(a.kind.asset) && scan.target.None? && scan.profile.None?
       else scan.repository.None? && scan.target == Some(a.target) && scan.profile == a.seen
  }

  ghost predicate LaunchStands(scan: Scan, log: seq<Event>, i: nat, s: string)
    requires i < |log| && Launches(log[i], s)
  {
    Asked(scan, log[i].action) && StatusStands(scan.status, log, s)
  }

  ghost predicate StatusStands(status: Status, log: seq<Event>, s: string) {
    || (status == Queued && forall m :: 0 <= m < |log| ==> !Moves(log[m], s))
    || exists m: nat :: LastMove(log, s, m) && status == log[m].action.status
  }

  predicate LastMove(log: seq<Event>, s: string, m: nat) {
    m < |log| && Moves(log[m], s) && forall j :: m < j < |log| ==> !Moves(log[j], s)
  }

  lemma StatusStep(status: Status, log: seq<Event>, e: Event, s: string)
    requires StatusStands(status, log, s)
    ensures StatusStands(if Moves(e, s) then e.action.status else status, log + [e], s)
  {
    var log' := log + [e];
    if Moves(e, s) {
      assert LastMove(log', s, |log|);
    } else if m: nat :| LastMove(log, s, m) && status == log[m].action.status {
      assert LastMove(log', s, m);
    }
  }

  lemma ScanStep(d: Directory, a: Action, log: seq<Event>, s: string)
    requires ScanTold(d, log, s)
    ensures ScanTold(Step(d, a).dir, log + [Event(a, Step(d, a).reply)], s)
  {
    var e := Event(a, Step(d, a).reply);
    var d', log' := Step(d, a).dir, log + [e];
    if s in d'.scans {
      if Launches(e, s) {
        assert StatusStands(Queued, log', s);
        assert Launches(log'[|log|], s) && LaunchStands(d'.scans[s], log', |log|, s);
      } else {
        var i: nat :| i < |log| && Launches(log[i], s) && LaunchStands(d.scans[s], log, i, s);
        StatusStep(d.scans[s].status, log, e, s);
        assert Launches(log'[i], s) && LaunchStands(d'.scans[s], log', i, s);
      }
    }
  }

  lemma {:induction false} ScanIsAsLaunched(acts: seq<Action>, s: string)
    ensures ScanTold(Exec(EMPTY, acts), Log(acts), s)
  {
    if acts != [] {
      var d, a := LastCall(acts);
      ScanIsAsLaunched(Front(acts), s);
      ScanStep(d, a, Log(Front(acts)), s);
    }
  }

  // A live scan runs under the secret that was the latest when it was launched, and still is.
  ghost predicate CredentialTold(d: Directory, log: seq<Event>, s: string) {
    s in d.scans && Live(d.scans[s]) && d.scans[s].profile.Some? ==>
      var p := d.scans[s].profile.value;
      && p in d.profiles
      && exists i: nat, j: nat :: i < j < |log| && LastGift(log, p, i) && Launches(log[j], s)
                                  && d.profiles[p].secret == Some(log[i].action.secret)
  }

  lemma CredentialLaunch(d: Directory, a: Action, log: seq<Event>, s: string)
    requires Inv(d) && Launches(Event(a, Step(d, a).reply), s)
    requires forall p :: SecretTold(d, log, p)
    ensures CredentialTold(Step(d, a).dir, log + [Event(a, Step(d, a).reply)], s)
  {
    var d' := Step(d, a).dir;
    var log' := log + [Event(a, Done)];
    if d'.scans[s].profile.Some? {
      var p := d'.scans[s].profile.value;
      assert p in d.profiles && d.profiles[p].revokedAt.None? && ProfileOk(d.profiles[p]);
      assert SecretTold(d, log, p);
      var i: nat :| LastGift(log, p, i) && GiftStands(d.profiles[p].secret, log, i, p);
      assert LastGift(log', p, i) && Launches(log'[|log|], s);
    }
  }

  lemma CredentialKept(d: Directory, a: Action, log: seq<Event>, s: string)
    requires Inv(d) && !Launches(Event(a, Step(d, a).reply), s) && CredentialTold(d, log, s)
    ensures CredentialTold(Step(d, a).dir, log + [Event(a, Step(d, a).reply)], s)
  {
    var d' := Step(d, a).dir;
    var log' := log + [Event(a, Step(d, a).reply)];
    if s in d'.scans && Live(d'.scans[s]) && d'.scans[s].profile.Some? {
      CredentialStep(d, a, s);
      var p := d.scans[s].profile.value;
      NoGift(d, a, s);
      var i: nat, j: nat :| i < j < |log| && LastGift(log, p, i) && Launches(log[j], s)
                            && d.profiles[p].secret == Some(log[i].action.secret);
      assert LastGift(log', p, i) && Launches(log'[j], s);
    }
  }

  // The profile of a live scan is neither created again nor rotated.
  lemma NoGift(d: Directory, a: Action, s: string)
    requires Inv(d) && s in d.scans && Live(d.scans[s]) && d.scans[s].profile.Some?
    ensures !GivesSecret(Event(a, Step(d, a).reply), d.scans[s].profile.value)
  {
    var scan := d.scans[s];
    assert ScanOk(d, scan);
    assert TargetOk(d, d.targets[scan.target.value]);
    assert ProfileInUse(d, scan.profile.value);
  }

  lemma {:induction false} LiveScanUsesTheLatestSecret(acts: seq<Action>, s: string)
    ensures CredentialTold(Exec(EMPTY, acts), Log(acts), s)
  {
    if acts != [] {
      var d, a := LastCall(acts);
      var log := Log(Front(acts));
      if Launches(Event(a, Step(d, a).reply), s) {
        forall p
          ensures SecretTold(d, log, p)
        {
          SecretIsLatest(Front(acts), p);
        }
        CredentialLaunch(d, a, log, s);
      } else {
        LiveScanUsesTheLatestSecret(Front(acts), s);
        CredentialKept(d, a, log, s);
      }
    }
  }

  // ------------------------------------------------------------ when a call is granted

  predicate Usable(d: Directory, ws: string, profile: Option<string>) {
    profile.Some? ==> OwnProfile(d, ws, profile.value) && d.profiles[profile.value].secret.Some?
  }

  predicate UnderScan(d: Directory, p: string) {
    exists s :: s in d.scans && Live(d.scans[s]) && d.scans[s].profile == Some(p)
  }

  predicate UnderTest(d: Directory, t: string) {
    exists s :: s in d.scans && Live(d.scans[s]) && d.scans[s].target == Some(t)
  }

  // What a caller can look up before the call.
  predicate Granted(d: Directory, a: Action) {
    match a
    case DoCreateProfile(id, ws, secret) => id !in d.profiles && secret != ""
    case DoRotate(id, ws, secret) => OwnProfile(d, ws, id) && d.profiles[id].secret.Some? && secret != "" && !UnderScan(d, id)
    case DoRevoke(id, ws, now) => OwnProfile(d, ws, id) && !UnderScan(d, id)
    case DoCreateTarget(id, ws, profile, permission) => permission && id !in d.targets && Usable(d, ws, profile)
    case DoAttach(id, ws, seen, profile) =>
      OwnTarget(d, ws, id) && d.targets[id].profile == seen && Usable(d, ws, profile) && !UnderTest(d, id)
    case DoArchive(id, ws, now) => OwnTarget(d, ws, id) && !UnderTest(d, id)
    case DoReauthorize(id, ws) => OwnTarget(d, ws, id)
    case DoCreateScan(id, t, ws, seen, kind, policyOk) =>
      && OwnTarget(d, ws, t) && d.targets[t].profile == seen && d.targets[t].permission
      && policyOk && (kind.OtherWeb? ==> seen.None?) && id !in d.scans
    case DoCreateRepositoryScan(id, asset, ws) => id !in d.scans
    case DoMoveScan(id, status) => id in d.scans && Live(d.scans[id])
  }

  lemma ScansAreAtHome(d: Directory, s: string)
    requires Inv(d) && s in d.scans && Live(d.scans[s])
    ensures var scan := d.scans[s];
            && (scan.target.Some? ==> OwnTarget(d, scan.workspace, scan.target.value))
            && (scan.profile.Some? ==> OwnProfile(d, scan.workspace, scan.profile.value)
                                       && d.profiles[scan.profile.value].revokedAt.None?)
  {
    assert ScanOk(d, d.scans[s]);
    if d.scans[s].target.Some? {
      assert TargetOk(d, d.targets[d.scans[s].target.value]);
    }
  }

  lemma InUseIsUnderScan(d: Directory, p: string)
    requires Inv(d) && p in d.profiles
    ensures ProfileInUse(d, p) <==> UnderScan(d, p)
    ensures UnderScan(d, p) ==> d.profiles[p].revokedAt.None?
  {
    forall s | s in d.scans && Live(d.scans[s]) && d.scans[s].profile == Some(p)
      ensures d.scans[s].workspace == d.profiles[p].workspace && d.profiles[p].revokedAt.None?
    {
      ScansAreAtHome(d, s);
    }
  }

  lemma BusyIsUnderTest(d: Directory, t: string)
    requires Inv(d) && t in d.targets
    ensures TargetBusy(d, d.targets[t].workspace, t) <==> UnderTest(d, t)
  {
    forall s | s in d.scans && Live(d.scans[s]) && d.scans[s].target == Some(t)
      ensures d.scans[s].workspace == d.targets[t].workspace
    {
      ScansAreAtHome(d, s);
    }
  }

  // After any run a call is granted exactly then, and a call that is refused changes nothing.
  lemma GrantedExactly(acts: seq<Action>, a: Action)
    ensures var d := Exec(EMPTY, acts);
            && (Step(d, a).reply == Done <==> Granted(d, a))
            && (Step(d, a).reply != Done ==> Step(d, a).dir == d)
  {
    var d := Exec(EMPTY, acts);
    RunKeepsInv(EMPTY, acts);
    GrantedStep(d, a);
  }

  lemma GrantedStep(d: Directory, a: Action)
    requires Inv(d)
    ensures Step(d, a).reply == Done <==> Granted(d, a)
    ensures Step(d, a).reply != Done ==> Step(d, a).dir == d
  {
    if (a.DoRotate? || a.DoRevoke?) && a.id in d.profiles {
      assert ProfileOk(d.profiles[a.id]);
      InUseIsUnderScan(d, a.id);
    } else if (a.DoCreateTarget? || a.DoAttach?) && a.profile.Some? && a.profile.value in d.profiles {
      assert ProfileOk(d.profiles[a.profile.value]);
    }
    if (a.DoAttach? || a.DoArchive?) && a.id in d.targets {
      BusyIsUnderTest(d, a.id);
    } else if a.DoCreateScan? && a.target in d.targets {
      assert TargetOk(d, d.targets[a.target]);
    }
  }

  // ------------------------------------------------------------ the mutable directory

  class Store {
    var profiles: map<string, Profile>
    var targets: map<string, WebTarget>
    var scans: map<string, Scan>

    ghost function Contents(): Directory
      reads this
    {
      Directory(profiles, targets, scans)
    }

    constructor ()
      ensures Contents() == EMPTY
    {
      profiles, targets, scans := map[], map[], map[];
    }

    method InUse(p: string) returns (used: bool)
      requires p in profiles
      ensures used == ProfileInUse(Contents(), p)
    {
      var rest := scans.Keys;
      used := false;
      while rest != {}
        invariant rest <= scans.Keys
        invariant forall id :: id in scans && id !in rest ==>
                    !(scans[id].workspace == profiles[p].workspace && scans[id].profile == Some(p) && Live(scans[id]))
        decreases rest
      {
        var id :| id in rest;
        if scans[id].workspace == profiles[p].workspace && scans[id].profile == Some(p) && Live(scans[id]) {
          return true;
        }
        rest := rest - {id};
      }
    }

    method HasActiveScan(ws: string, t: string) returns (busy: bool)
      ensures busy == TargetBusy(Contents(), ws, t)
    {
      var rest := scans.Keys;
      busy := false;
      while rest != {}
        invariant rest <= scans.Keys
        invariant forall id :: id in scans && id !in rest ==>
                    !(scans[id].workspace == ws && scans[id].target == Some(t) && Live(scans[id]))
        decreases rest
      {
        var id :| id in rest;
        if scans[id].workspace == ws && scans[id].target == Some(t) && Live(scans[id]) {
          return true;
        }
        rest := rest - {id};
      }
    }

    method Rotate(p: string, ws: string, secret: string) returns (reply: Reply)
      modifies this
      ensures Outcome(Contents(), reply) == RotateProfile(old(Contents()), p, ws, secret)
      ensures reply == Done ==>
                && p in profiles && profiles[p].secret == Some(secret) && profiles[p].workspace == ws
                && profiles.Keys == old(profiles).Keys && targets == old(targets) && scans == old(scans)
                && forall q :: q in profiles && q != p ==> profiles[q] == old(profiles)[q]
    {
      if p !in profiles || profiles[p].workspace != ws {
        return NotFound;
      }
      if profiles[p].revokedAt.Some? {
        return Conflict;
      }
      var used := InUse(p);
      if used {
        return Conflict;
      }
      if secret == "" {
        return BadRequest;
      }
      profiles := profiles[p := profiles[p].(secret := Some(secret), rotations := profiles[p].rotations + 1)];
      reply := Done;
    }

    method Revoke(p: string, ws: string, now: int) returns (reply: Reply)
      modifies this
      ensures Outcome(Contents(), reply) == RevokeProfile(old(Contents()), p, ws, now)
    {
      if p !in profiles || profiles[p].workspace != ws {
        return NotFound;
      }
      if profiles[p].revokedAt.Some? {
        return Done;
      }
      var used := InUse(p);
      if used {
        return Conflict;
      }
      profiles := profiles[p := profiles[p].(secret := None, revokedAt := Some(now))];
      targets := DetachAll(targets, ws, p);
      reply := Done;
    }

    method AddTarget(id: string, ws: string, profile: Option<string>, permission: bool) returns (reply: Reply)
      modifies this
      ensures Outcome(Contents(), reply) == CreateTarget(old(Contents()), id, ws, profile, permission)
    {
      if !permission {
        return BadRequest;
      }
      if profile.Some? {
        if profile.value !in profiles || profiles[profile.value].workspace != ws {
          return NotFound;
        }
        if profiles[profile.value].revokedAt.Some? {
          return Conflict;
        }
      }
      if id in targets {
        return Conflict;
      }
      targets := targets[id := WebTarget(ws, profile, true, None)];
      reply := Done;
    }

    method Attach(t: string, ws: string, seen: Option<string>, profile: Option<string>) returns (reply: Reply)
      modifies this
      ensures Outcome(Contents(), reply) == AttachProfile(old(Contents()), t, ws, seen, profile)
      ensures reply == Done ==>
                && t in targets && targets[t].profile == profile && profiles == old(profiles) && scans == old(scans)
                && targets.Keys == old(targets).Keys && forall u :: u in targets && u != t ==> targets[u] == old(targets)[u]
    {
      if t !in targets || targets[t].workspace != ws || targets[t].archivedAt.Some? {
        return NotFound;
      }
      if targets[t].profile != seen {
        return Conflict;
      }
      if profile.Some? {
        if profile.value !in profiles || profiles[profile.value].workspace != ws {
          return NotFound;
        }
        if profiles[profile.value].revokedAt.Some? {
          return Conflict;
        }
      }
      var busy := HasActiveScan(ws, t);
      if busy {
        return Conflict;
      }
      targets := targets[t := targets[t].(profile := profile)];
      reply := Done;
    }

    method Archive(t: string, ws: string, now: int) returns (reply: Reply)
      modifies this
      ensures Outcome(Contents(), reply) == ArchiveTarget(old(Contents()), t, ws, now)
    {
      if t !in targets || targets[t].workspace != ws || targets[t].archivedAt.Some? {
        return NotFound;
      }
      var busy := HasActiveScan(ws, t);
      if busy {
        return Conflict;
      }
      targets := targets[t := targets[t].(archivedAt := Some(now), permission := false, profile := None)];
      reply := Done;
    }

    method LaunchScan(id: string, t: string, ws: string, seen: Option<string>, kind: Kind, policyOk: bool) returns (reply: Reply)
      modifies this
      ensures Outcome(Contents(), reply) == CreateScan(old(Contents()), id, t, ws, seen, kind, policyOk)
    {
      if t !in targets || targets[t].workspace != ws || targets[t].archivedAt.Some? {
        return NotFound;
      }
      if targets[t].profile != seen {
        return Conflict;
      }
      if seen.Some? {
        if seen.value !in profiles || profiles[seen.value].workspace != ws || profiles[seen.value].revokedAt.Some? {
          return Conflict;
        }
      }
      if !targets[t].permission || !policyOk || (kind.OtherWeb? && seen.Some?) {
        return BadRequest;
      }
      if id in scans {
        return Conflict;
      }
      match kind {
        case RepositoryOf(asset) => scans := scans[id := Scan(ws, None, Some(asset), None, Queued)];
        case _ => scans := scans[id := Scan(ws, Some(t), None, seen, Queued)];
      }
      reply := Done;
    }
  }
}

/**
 Finding lifecycle and suppression. A status is materialised per finding when
 something is written, rules expire silently as time passes, and three read
 paths compute the effective status independently.
 */
module FindingManagement {
  import opened Prelude

  datatype Subject = Target(id: string) | RepositoryAsset(id: string)

  datatype Lifecycle = Open | Confirmed | InProgress | Resolved | Suppressed | FalsePositive

  datatype Finding = Finding(subject: Subject, dedupeKey: string, severity: string, sourceTool: string)

  datatype Rule = Rule(
    subject: Subject,
    dedupeKey: Option<string>,
    severity: Option<string>,
    sourceTool: Option<string>,
    expiresAt: Option<int>,
    revokedAt: Option<int>)

  datatype Occurrence = Occurrence(lifecycle: Lifecycle, suppressed: bool, ruleId: Option<nat>)

  type Key = (Subject, string)

  // Rules are kept in creation order; a rule's id is its position.
  datatype State = State(
    now: int,
    findings: map<string, Finding>,
    states: map<Key, Lifecycle>,
    occurrences: map<string, Occurrence>,
    rules: seq<Rule>)

  function KeyOf(f: Finding): Key {
    (f.subject, f.dedupeKey)
  }

  predicate RuleActive(rule: Rule, now: int) {
    rule.revokedAt.None? && (rule.expiresAt.None? || rule.expiresAt.value > now)
  }

  predicate Matches(rule: Rule, f: Finding) {
    && rule.subject == f.subject
    && (rule.dedupeKey.Some? ==> rule.dedupeKey.value == f.dedupeKey)
    && (rule.severity.Some? ==> rule.severity.value == f.severity)
    && (rule.sourceTool.Some? ==> rule.sourceTool.value == AsciiLower(f.sourceTool))
  }

  predicate Applies(rule: Rule, f: Finding, now: int) {
    RuleActive(rule, now) && Matches(rule, f)
  }

  // ------------------------------------------------------------ writing

  // The newest active matching rule.
  function ActiveRule(rules: seq<Rule>, f: Finding, now: int): (r: Option<nat>)
    ensures r.Some? ==> r.value < |rules| && Applies(rules[r.value], f, now)
    ensures r.Some? ==> forall i :: r.value < i < |rules| ==> !Applies(rules[i], f, now)
    ensures r.None? ==> forall i :: 0 <= i < |rules| ==> !Applies(rules[i], f, now)
  {
    if rules == [] then None
    else if Applies(rules[|rules| - 1], f, now) then Some(|rules| - 1)
    else ActiveRule(rules[..|rules| - 1], f, now)
  }

  function Tracked(st: State, key: Key): Lifecycle {
    if key in st.states then st.states[key] else Open
  }

  function Synced(st: State, f: Finding): Occurrence {
    var rule := ActiveRule(st.rules, f, st.now);
    Occurrence(if rule.Some? then Suppressed else Tracked(st, KeyOf(f)), rule.Some?, rule)
  }

  function KeysOf(findings: map<string, Finding>, ids: set<string>): set<Key>
    requires ids <= findings.Keys
  {
    set id | id in ids :: KeyOf(findings[id])
  }

  function WithDefaults(states: map<Key, Lifecycle>, keys: set<Key>): map<Key, Lifecycle> {
    map key | key in states.Keys + keys :: if key in states then states[key] else Open
  }

  function SyncedMap(st: State, ids: set<string>): map<string, Occurrence>
    requires ids <= st.findings.Keys
  {
    map id | id in ids :: Synced(st, st.findings[id])
  }

  // sync_occurrence_state over a set of stored findings.
  function SyncAll(st: State, ids: set<string>): State
    requires ids <= st.findings.Keys
  {
    st.(states := WithDefaults(st.states, KeysOf(st.findings, ids)),
        occurrences := st.occurrences + SyncedMap(st, ids))
  }

  function OfSubject(st: State, subject: Subject): set<string> {
    set id | id in st.findings && st.findings[id].subject == subject
  }

  function OfKey(st: State, key: Key): set<string> {
    set id | id in st.findings && KeyOf(st.findings[id]) == key
  }

  function Persist(st: State, id: string, f: Finding): State {
    if id in st.findings then st else SyncAll(st.(findings := st.findings[id := f]), {id})
  }

  function UpdateLifecycle(st: State, id: string, status: Lifecycle): State {
    if id !in st.findings then st
    else
      var key := KeyOf(st.findings[id]);
      var written := st.(states := st.states[key := status]);
      SyncAll(written, OfKey(written, key))
  }

  function CreateRule(st: State, rule: Rule): State {
    var written := st.(rules := st.rules + [rule]);
    SyncAll(written, OfSubject(written, rule.subject))
  }

  function RevokeRule(st: State, k: nat): State {
    if k >= |st.rules| || st.rules[k].revokedAt.Some? then st
    else
      var written := st.(rules := st.rules[k := st.rules[k].(revokedAt := Some(st.now))]);
      SyncAll(written, OfSubject(written, st.rules[k].subject))
  }

  datatype Action =
    | Tick(d: nat)
    | DoPersist(id: string, finding: Finding)
    | DoUpdate(id: string, status: Lifecycle)
    | DoCreateRule(rule: Rule)
    | DoRevoke(k: nat)

  function Step(st: State, a: Action): State {
    match a
    case Tick(d) => st.(now := st.now + d)
    case DoPersist(id, f) => Persist(st, id, f)
    case DoUpdate(id, status) => UpdateLifecycle(st, id, status)
    case DoCreateRule(rule) => CreateRule(st, rule)
    case DoRevoke(k) => RevokeRule(st, k)
  }

  function Exec(st: State, acts: seq<Action>): State
    decreases |acts|
  {
    if acts == [] then st else Exec(Step(st, acts[0]), acts[1..])
  }

  function Init(now: int): State {
    State(now, map[], map[], map[], [])
  }

  // ------------------------------------------------------------ reading

  datatype Display = Display(lifecycle: Lifecycle, suppressed: bool, ruleId: Option<nat>)

  function AsStored(o: Occurrence): Display {
    Display(o.lifecycle, o.suppressed, o.ruleId)
  }

  // occurrence_state_for_read, with the defaults of serialize_finding.
  function SingleRead(st: State, id: string, f: Finding): Display {
    if id in st.occurrences then
      var o := st.occurrences[id];
      if o.suppressed && o.ruleId.Some? && o.ruleId.value < |st.rules| && !RuleActive(st.rules[o.ruleId.value], st.now)
      then Display(Tracked(st, KeyOf(f)), false, None)
      else AsStored(o)
    else Display(Tracked(st, KeyOf(f)), false, None)
  }

  // The CASE expressions over the three outer joins of query_findings.
  function SqlSuppressed(st: State, id: string): bool {
    && id in st.occurrences
    && st.occurrences[id].suppressed
    && st.occurrences[id].ruleId.Some?
    && st.occurrences[id].ruleId.value < |st.rules|
    && RuleActive(st.rules[st.occurrences[id].ruleId.value], st.now)
  }

  function SqlLifecycle(st: State, id: string, f: Finding): Lifecycle {
    if SqlSuppressed(st, id) then Suppressed
    else if KeyOf(f) in st.states then st.states[KeyOf(f)]
    else if id in st.occurrences then st.occurrences[id].lifecycle
    else Open
  }

  // What was fetched for the findings of a page.
  ghost predicate Fetched(st: State, id: string, persisted: map<string, Occurrence>, rules: map<nat, Rule>,
                          states: map<Key, Lifecycle>)
  {
    && id in st.findings
    && (id in persisted <==> id in st.occurrences) && (id in persisted ==> persisted[id] == st.occurrences[id])
    && (id in persisted && persisted[id].ruleId.Some? ==>
          var k := persisted[id].ruleId.value;
          (k in rules <==> k < |st.rules|) && (k in rules ==> rules[k] == st.rules[k]))
    && var key := KeyOf(st.findings[id]);
    && (key in states <==> key in st.states) && (key in states ==> states[key] == st.states[key])
  }

  // occurrence_display_lookup: everything needed is fetched first, for all
  // findings of the page, and the display rows are then built one by one.
  method BatchRead(st: State, ids: seq<string>) returns (display: map<string, Display>)
    requires forall id :: id in ids ==> id in st.findings
    ensures display.Keys <= set id | id in ids
    ensures forall id :: id in display ==> display[id] == SingleRead(st, id, st.findings[id])
    ensures forall id :: id in ids && id !in display ==>
              id !in st.occurrences && SingleRead(st, id, st.findings[id]) == Display(Open, false, None)
  {
    var persisted := map id | id in st.occurrences && id in ids :: st.occurrences[id];
    var ruleIds := set id | id in persisted && persisted[id].ruleId.Some? :: persisted[id].ruleId.value;
    var rules := map k: nat | k in ruleIds && k < |st.rules| :: st.rules[k];
    var keys := set id | id in ids :: KeyOf(st.findings[id]);
    var states := map key | key in st.states && key in keys :: st.states[key];
    forall id | id in ids
      ensures Fetched(st, id, persisted, rules, states)
    {
      assert KeyOf(st.findings[id]) in keys;
      if id in persisted && persisted[id].ruleId.Some? {
        assert persisted[id].ruleId.value in ruleIds;
      }
    }
    display := DisplayRows(st, ids, st.findings, persisted, rules, states, st.now);
  }

  method DisplayRows(ghost st: State, ids: seq<string>, findings: map<string, Finding>, persisted: map<string, Occurrence>,
                     rules: map<nat, Rule>, states: map<Key, Lifecycle>, now: int)
    returns (display: map<string, Display>)
    requires findings == st.findings && now == st.now && forall id :: id in ids ==> id in st.findings
    requires forall id :: id in ids ==> Fetched(st, id, persisted, rules, states)
    ensures forall id :: id in display ==> id in ids
    ensures forall id :: id in display ==> display[id] == SingleRead(st, id, st.findings[id])
    ensures forall id :: id in ids && id !in display ==>
              id !in st.occurrences && SingleRead(st, id, st.findings[id]) == Display(Open, false, None)
  {
    display := map[];
    for i := 0 to |ids|
      invariant forall id :: id in display ==> id in ids
      invariant forall id :: id in display ==> display[id] == SingleRead(st, id, st.findings[id])
      invariant forall j :: 0 <= j < i && ids[j] !in display ==>
                  ids[j] !in st.occurrences && SingleRead(st, ids[j], st.findings[ids[j]]) == Display(Open, false, None)
    {
      var id := ids[i];
      assert Fetched(st, id, persisted, rules, states);
      var key := KeyOf(findings[id]);
      if id !in persisted {
        if key !in states {
          continue;
        }
        display := display[id := Display(states[key], false, None)];
        continue;
      }
      var o := persisted[id];
      if o.suppressed && o.ruleId.Some? && o.ruleId.value in rules && !RuleActive(rules[o.ruleId.value], now) {
        display := display[id := Display(if key in states then states[key] else Open, false, None)];
        continue;
      }
      display := display[id := AsStored(o)];
    }
  }

  // ------------------------------------------------------------ invariant

  predicate OccurrenceOk(st: State, f: Finding, o: Occurrence) {
    && KeyOf(f) in st.states
    && (o.suppressed <==> o.ruleId.Some?)
    && (o.suppressed ==>
          && o.lifecycle == Suppressed
          && o.ruleId.value < |st.rules|
          && Matches(st.rules[o.ruleId.value], f)
          && forall i :: o.ruleId.value < i < |st.rules| ==> !Applies(st.rules[i], f, st.now))
    && (!o.suppressed ==>
          && o.lifecycle == st.states[KeyOf(f)]
          && forall i :: 0 <= i < |st.rules| ==> !Applies(st.rules[i], f, st.now))
  }

  ghost predicate Inv(st: State) {
    && st.occurrences.Keys == st.findings.Keys
    && forall id :: id in st.findings ==> OccurrenceOk(st, st.findings[id], st.occurrences[id])
  }

  // A sync makes its own findings right, whatever they were before.
  lemma SyncAllRight(st: State, ids: set<string>, id: string)
    requires ids <= st.findings.Keys && id in ids
    ensures var st' := SyncAll(st, ids);
            && id in st'.occurrences
            && OccurrenceOk(st', st.findings[id], st'.occurrences[id])
            && (st'.occurrences[id].suppressed <==> exists i :: 0 <= i < |st.rules| && Applies(st.rules[i], st.findings[id], st.now))
  {
    var st' := SyncAll(st, ids);
    var f := st.findings[id];
    assert st'.occurrences[id] == Synced(st, f);
    assert KeyOf(f) in st'.states && st'.states[KeyOf(f)] == Tracked(st, KeyOf(f));
  }

  // The findings outside a sync stay right if their rules and their tracked
  // status do not change.
  lemma SyncAllFrame(st: State, ids: set<string>, id: string)
    requires ids <= st.findings.Keys && id in st.findings && id !in ids
    requires id in st.occurrences && OccurrenceOk(st, st.findings[id], st.occurrences[id])
    ensures var st' := SyncAll(st, ids);
            id in st'.occurrences && OccurrenceOk(st', st.findings[id], st'.occurrences[id])
  {
    var st' := SyncAll(st, ids);
    assert st'.occurrences[id] == st.occurrences[id];
    assert st'.states[KeyOf(st.findings[id])] == st.states[KeyOf(st.findings[id])];
  }

  lemma SyncAllKeepsInv(st: State, ids: set<string>)
    requires ids <= st.findings.Keys
    requires st.findings.Keys == st.occurrences.Keys + ids
    requires forall id :: id in st.findings && id !in ids ==> OccurrenceOk(st, st.findings[id], st.occurrences[id])
    ensures Inv(SyncAll(st, ids))
  {
    var st' := SyncAll(st, ids);
    assert st'.occurrences.Keys == st.occurrences.Keys + ids;
    forall id | id in st'.findings
      ensures OccurrenceOk(st', st'.findings[id], st'.occurrences[id])
    {
      if id in ids { SyncAllRight(st, ids, id); } else { SyncAllFrame(st, ids, id); }
    }
  }

  lemma PersistKeepsInv(st: State, id: string, f: Finding)
    requires Inv(st)
    ensures Inv(Persist(st, id, f))
  {
    if id !in st.findings {
      var written := st.(findings := st.findings[id := f]);
      assert written.findings.Keys == st.occurrences.Keys + {id};
      forall i | i in st.findings
        ensures OccurrenceOk(written, written.findings[i], st.occurrences[i])
      {
        assert OccurrenceOk(st, st.findings[i], st.occurrences[i]);
      }
      SyncAllKeepsInv(written, {id});
    }
  }

  lemma TickKeepsInv(st: State, d: nat)
    requires Inv(st)
    ensures Inv(st.(now := st.now + d))
  {
    forall id | id in st.findings
      ensures OccurrenceOk(st.(now := st.now + d), st.findings[id], st.occurrences[id])
    {
      assert OccurrenceOk(st, st.findings[id], st.occurrences[id]);
    }
  }

  lemma UpdateKeepsInv(st: State, id: string, status: Lifecycle)
    requires Inv(st)
    ensures Inv(UpdateLifecycle(st, id, status))
  {
    if id in st.findings {
      var key := KeyOf(st.findings[id]);
      var written := st.(states := st.states[key := status]);
      forall i | i in st.findings && KeyOf(st.findings[i]) != key
        ensures OccurrenceOk(written, st.findings[i], st.occurrences[i])
      {
        OtherStatusKeepsOk(st, key, status, st.findings[i], st.occurrences[i]);
      }
      SyncAllKeepsInv(written, OfKey(written, key));
    }
  }

  lemma OtherStatusKeepsOk(st: State, key: Key, status: Lifecycle, f: Finding, o: Occurrence)
    requires OccurrenceOk(st, f, o) && KeyOf(f) != key
    ensures OccurrenceOk(st.(states := st.states[key := status]), f, o)
  {
  }

  // Rules of one subject leave the findings of the others as they are.
  lemma RuleWriteKeepsInv(st: State, written: State, subject: Subject)
    requires Inv(st) && written == st.(rules := written.rules) && |written.rules| >= |st.rules|
    requires forall i :: 0 <= i < |st.rules| && st.rules[i].subject != subject ==> written.rules[i] == st.rules[i]
    requires forall i :: 0 <= i < |written.rules| && (i >= |st.rules| || st.rules[i].subject == subject) ==>
               written.rules[i].subject == subject
    ensures Inv(SyncAll(written, OfSubject(written, subject)))
  {
    forall id | id in st.findings && st.findings[id].subject != subject
      ensures OccurrenceOk(written, st.findings[id], st.occurrences[id])
    {
      assert OccurrenceOk(st, st.findings[id], st.occurrences[id]);
    }
    SyncAllKeepsInv(written, OfSubject(written, subject));
  }

  lemma StepKeepsInv(st: State, a: Action)
    requires Inv(st)
    ensures Inv(Step(st, a))
  {
    match a
    case Tick(d) => TickKeepsInv(st, d);
    case DoPersist(id, f) => PersistKeepsInv(st, id, f);
    case DoUpdate(id, status) => UpdateKeepsInv(st, id, status);
    case DoCreateRule(rule) =>
      RuleWriteKeepsInv(st, st.(rules := st.rules + [rule]), rule.subject);
    case DoRevoke(k) =>
      if k < |st.rules| && st.rules[k].revokedAt.None? {
        var revoked := st.rules[k].(revokedAt := Some(st.now));
        RuleWriteKeepsInv(st, st.(rules := st.rules[k := revoked]), st.rules[k].subject);
      }
  }

  lemma {:induction false} RunKeepsInv(st: State, acts: seq<Action>)
    requires Inv(st)
    ensures Inv(Exec(st, acts))
    decreases |acts|
  {
    if acts != [] {
      StepKeepsInv(st, acts[0]);
      RunKeepsInv(Step(st, acts[0]), acts[1..]);
    }
  }

  // ------------------------------------------------------------ the mutable store

  // A sync changes no tracked status and no rule, so it cannot change what
  // the next sync computes.
  lemma SyncedIsStable(st: State, ids: set<string>, f: Finding)
    requires ids <= st.findings.Keys
    ensures Synced(SyncAll(st, ids), f) == Synced(st, f)
    ensures Tracked(SyncAll(st, ids), KeyOf(f)) == Tracked(st, KeyOf(f))
  {
  }

  lemma DefaultsCompose(states: map<Key, Lifecycle>, a: set<Key>, b: set<Key>)
    ensures WithDefaults(WithDefaults(states, a), b) == WithDefaults(states, a + b)
  {
  }

  lemma SyncedMapsJoin(st: State, st': State, ids: set<string>, id: string)
    requires ids <= st.findings.Keys && id in st.findings && st'.findings == st.findings
    requires Synced(st', st.findings[id]) == Synced(st, st.findings[id])
    ensures SyncedMap(st, ids + {id}) == SyncedMap(st, ids) + SyncedMap(st', {id})
  {
  }

  lemma KeysJoin(findings: map<string, Finding>, ids: set<string>, id: string)
    requires ids <= findings.Keys && id in findings
    ensures KeysOf(findings, ids + {id}) == KeysOf(findings, ids) + KeysOf(findings, {id})
  {
  }

  // Syncing one finding after the others is syncing them together.
  lemma SyncOneMore(st: State, ids: set<string>, id: string)
    requires ids <= st.findings.Keys && id in st.findings
    ensures SyncAll(SyncAll(st, ids), {id}) == SyncAll(st, ids + {id})
  {
    var first := SyncAll(st, ids);
    SyncedIsStable(st, ids, st.findings[id]);
    SyncedMapsJoin(st, first, ids, id);
    KeysJoin(st.findings, ids, id);
    DefaultsCompose(st.states, KeysOf(st.findings, ids), KeysOf(st.findings, {id}));
    OverlaysCompose(st.occurrences, SyncedMap(st, ids), SyncedMap(first, {id}));
  }

  lemma OverlaysCompose(m: map<string, Occurrence>, a: map<string, Occurrence>, b: map<string, Occurrence>)
    ensures (m + a) + b == m + (a + b)
  {
  }

  // What a sync of one finding writes.
  lemma SyncOneIs(st: State, id: string)
    requires id in st.findings
    ensures var f := st.findings[id];
            SyncAll(st, {id}) ==
            st.(states := if KeyOf(f) in st.states then st.states else st.states[KeyOf(f) := Open],
                occurrences := st.occurrences[id := Synced(st, f)])
  {
    var f := st.findings[id];
    assert KeysOf(st.findings, {id}) == {KeyOf(f)};
    OneDefault(st.states, KeyOf(f));
    assert SyncedMap(st, {id}) == map[id := Synced(st, f)];
    OneOverlay(st.occurrences, id, Synced(st, f));
  }

  lemma OneDefault(states: map<Key, Lifecycle>, key: Key)
    ensures WithDefaults(states, {key}) == if key in states then states else states[key := Open]
  {
  }

  lemma OneOverlay(m: map<string, Occurrence>, id: string, o: Occurrence)
    ensures m + map[id := o] == m[id := o]
  {
  }

  lemma SyncShows(st: State, ids: set<string>, id: string)
    requires ids <= st.findings.Keys && id in ids
    ensures var shown := SingleRead(SyncAll(st, ids), id, st.findings[id]);
            shown.lifecycle == if shown.suppressed then Suppressed else Tracked(st, KeyOf(st.findings[id]))
  {
    assert SyncAll(st, ids).occurrences[id] == Synced(st, st.findings[id]);
  }

  // The status given is the one shown for every finding of the key that no rule suppresses.
  lemma UpdateShows(st: State, id: string, status: Lifecycle)
    requires id in st.findings
    ensures var st' := UpdateLifecycle(st, id, status);
            forall i :: i in st'.findings && KeyOf(st'.findings[i]) == KeyOf(st'.findings[id]) ==>
              var shown := SingleRead(st', i, st'.findings[i]);
              shown.lifecycle == if shown.suppressed then Suppressed else status
  {
    var key := KeyOf(st.findings[id]);
    var written := st.(states := st.states[key := status]);
    forall i | i in written.findings && KeyOf(written.findings[i]) == key
      ensures var shown := SingleRead(SyncAll(written, OfKey(written, key)), i, written.findings[i]);
              shown.lifecycle == if shown.suppressed then Suppressed else status
    {
      SyncShows(written, OfKey(written, key), i);
    }
  }

  class FindingStore {
    var findings: map<string, Finding>
    var states: map<Key, Lifecycle>
    var occurrences: map<string, Occurrence>
    var rules: seq<Rule>

    ghost function Contents(now: int): State
      reads this
    {
      State(now, findings, states, occurrences, rules)
    }

    constructor ()
      ensures forall now :: Contents(now) == Init(now)
    {
      findings, states, occurrences, rules := map[], map[], map[], [];
    }

    // active_suppression_for_finding: newest first, skipping each rule that
    // is inactive or filters the finding out.
    method ActiveSuppression(f: Finding, now: int) returns (rule: Option<nat>)
      ensures rule == ActiveRule(rules, f, now)
    {
      var k := |rules|;
      while k > 0
        invariant 0 <= k <= |rules|
        invariant ActiveRule(rules, f, now) == ActiveRule(rules[..k], f, now)
      {
        var candidate := rules[k - 1];
        assert rules[..k][..k - 1] == rules[..k - 1];
        k := k - 1;
        if candidate.subject != f.subject || !RuleActive(candidate, now) {
          continue;
        }
        if candidate.dedupeKey.Some? && candidate.dedupeKey.value != f.dedupeKey {
          continue;
        }
        if candidate.severity.Some? && candidate.severity.value != f.severity {
          continue;
        }
        if candidate.sourceTool.Some? && candidate.sourceTool.value != AsciiLower(f.sourceTool) {
          continue;
        }
        return Some(k);
      }
      rule := None;
    }

    method SyncOccurrence(id: string, now: int)
      requires id in findings
      modifies this
      ensures Contents(now) == SyncAll(old(Contents(now)), {id})
    {
      var f := findings[id];
      var key := KeyOf(f);
      if key !in states {
        states := states[key := Open];
      }
      var rule := ActiveSuppression(f, now);
      occurrences := occurrences[id := Occurrence(if rule.Some? then Suppressed else states[key], rule.Some?, rule)];
      SyncOneIs(old(Contents(now)), id);
    }

    method SyncEach(ids: set<string>, now: int)
      requires ids <= findings.Keys
      modifies this
      ensures Contents(now) == SyncAll(old(Contents(now)), ids)
    {
      var todo := ids;
      ghost var done: set<string> := {};
      assert SyncAll(Contents(now), {}) == Contents(now);
      while todo != {}
        invariant todo !! done && todo + done == ids
        invariant findings == old(findings)
        invariant Contents(now) == SyncAll(old(Contents(now)), done)
        decreases todo
      {
        var id :| id in todo;
        SyncOneMore(old(Contents(now)), done, id);
        SyncOccurrence(id, now);
        todo := todo - {id};
        done := done + {id};
      }
      assert done == ids;
    }

    method PersistFinding(id: string, f: Finding, now: int)
      modifies this
      ensures Contents(now) == Persist(old(Contents(now)), id, f)
    {
      if id !in findings {
        findings := findings[id := f];
        SyncOccurrence(id, now);
      }
    }

    // False for an unknown finding (404).
    method UpdateFindingLifecycle(id: string, status: Lifecycle, now: int) returns (found: bool)
      modifies this
      ensures found == (id in old(findings))
      ensures Contents(now) == UpdateLifecycle(old(Contents(now)), id, status)
      ensures found ==> forall i :: i in findings && KeyOf(findings[i]) == KeyOf(findings[id]) ==>
                var shown := SingleRead(Contents(now), i, findings[i]);
                shown.lifecycle == if shown.suppressed then Suppressed else status
    {
      if id !in findings {
        return false;
      }
      var key := KeyOf(findings[id]);
      states := states[key := status];
      var matching := set i | i in findings && KeyOf(findings[i]) == key;
      SyncEach(matching, now);
      found := true;
      UpdateShows(old(Contents(now)), id, status);
    }

    method CreateSuppressionRule(rule: Rule, now: int)
      modifies this
      ensures Contents(now) == CreateRule(old(Contents(now)), rule)
    {
      rules := rules + [rule];
      var matching := set i | i in findings && findings[i].subject == rule.subject;
      SyncEach(matching, now);
    }

    // A second revocation changes nothing.
    method RevokeSuppressionRule(k: nat, now: int) returns (found: bool)
      modifies this
      ensures found == (k < |old(rules)|)
      ensures Contents(now) == RevokeRule(old(Contents(now)), k)
      ensures found ==> forall i, later :: i in findings ==>
                var shown := SingleRead(Contents(later), i, findings[i]);
                shown.suppressed ==> shown.ruleId != Some(k)
    {
      if k >= |rules| {
        return false;
      }
      if rules[k].revokedAt.None? {
        var subject := rules[k].subject;
        rules := rules[k := rules[k].(revokedAt := Some(now))];
        var matching := set i | i in findings && findings[i].subject == subject;
        SyncEach(matching, now);
      }
      found := true;
    }
  }

  // ------------------------------------------------------------ what readers see

  // After any run the single read and the SQL expressions agree on every
  // finding; BatchRead's contract ties the third path to the single read.
  lemma ReadPathsAgree(now: int, acts: seq<Action>, id: string)
    requires id in Exec(Init(now), acts).findings
    ensures var st := Exec(Init(now), acts);
            var shown := SingleRead(st, id, st.findings[id]);
            && shown.lifecycle == SqlLifecycle(st, id, st.findings[id])
            && shown.suppressed == SqlSuppressed(st, id)
  {
    RunKeepsInv(Init(now), acts);
    var st := Exec(Init(now), acts);
    assert OccurrenceOk(st, st.findings[id], st.occurrences[id]);
  }

  predicate SomeRuleApplies(st: State, f: Finding) {
    exists i :: 0 <= i < |st.rules| && Applies(st.rules[i], f, st.now)
  }

  // The recorded rule ran out while an older one still applies.
  predicate Drifted(st: State, id: string, f: Finding) {
    && id in st.occurrences
    && st.occurrences[id].ruleId.Some?
    && st.occurrences[id].ruleId.value < |st.rules|
    && !RuleActive(st.rules[st.occurrences[id].ruleId.value], st.now)
    && exists i :: 0 <= i < st.occurrences[id].ruleId.value && Applies(st.rules[i], f, st.now)
  }

  // Shown suppressed means an active matching rule exists; the converse holds
  // exactly when the finding has not drifted.
  lemma ShownSuppressedMeansRule(now: int, acts: seq<Action>, id: string)
    requires id in Exec(Init(now), acts).findings
    ensures var st := Exec(Init(now), acts);
            var f := st.findings[id];
            var shown := SingleRead(st, id, f);
            && (shown.suppressed ==>
                  && shown.ruleId.Some? && shown.ruleId.value < |st.rules|
                  && Applies(st.rules[shown.ruleId.value], f, st.now))
            && ((shown.suppressed <==> SomeRuleApplies(st, f)) <==> !Drifted(st, id, f))
  {
    RunKeepsInv(Init(now), acts);
    var st := Exec(Init(now), acts);
    var f := st.findings[id];
    var o := st.occurrences[id];
    assert OccurrenceOk(st, f, o);
    if o.suppressed && RuleActive(st.rules[o.ruleId.value], st.now) {
      assert Applies(st.rules[o.ruleId.value], f, st.now);
    }
  }

  // A lifecycle set by hand to "suppressed" is shown without any rule.
  lemma ShownLifecycleSuppressed(now: int, acts: seq<Action>, id: string)
    requires id in Exec(Init(now), acts).findings
    ensures var st := Exec(Init(now), acts);
            var f := st.findings[id];
            var shown := SingleRead(st, id, f);
            && KeyOf(f) in st.states
            && (shown.lifecycle == Suppressed <==> shown.suppressed || st.states[KeyOf(f)] == Suppressed)
            && (!shown.suppressed ==> shown.lifecycle == st.states[KeyOf(f)])
  {
    RunKeepsInv(Init(now), acts);
    var st := Exec(Init(now), acts);
    assert OccurrenceOk(st, st.findings[id], st.occurrences[id]);
  }

  lemma FreshlySynced(st: State, ids: set<string>, id: string)
    requires ids <= st.findings.Keys && id in ids
    ensures var st' := SyncAll(st, ids);
            SingleRead(st', id, st.findings[id]).suppressed <==> SomeRuleApplies(st', st.findings[id])
  {
    SyncAllRight(st, ids, id);
  }

  // Right after an operation, every finding it synced is suppressed exactly
  // when some active rule matches it.
  predicate SyncedBy(st: State, a: Action, id: string) {
    match a
    case Tick(_) => false
    case DoPersist(i, _) => i == id && i !in st.findings
    case DoUpdate(i, _) => i in st.findings && id in st.findings && KeyOf(st.findings[i]) == KeyOf(st.findings[id])
    case DoCreateRule(rule) => id in st.findings && st.findings[id].subject == rule.subject
    case DoRevoke(k) =>
      k < |st.rules| && st.rules[k].revokedAt.None? && id in st.findings && st.findings[id].subject == st.rules[k].subject
  }

  lemma SuppressedAfterWrite(st: State, a: Action, id: string)
    requires SyncedBy(st, a, id)
    ensures id in Step(st, a).findings
    ensures SingleRead(Step(st, a), id, Step(st, a).findings[id]).suppressed
            <==> SomeRuleApplies(Step(st, a), Step(st, a).findings[id])
  {
    match a
    case DoPersist(i, f) =>
      FreshlySynced(st.(findings := st.findings[i := f]), {i}, id);
    case DoUpdate(i, status) =>
      var key := KeyOf(st.findings[i]);
      var written := st.(states := st.states[key := status]);
      FreshlySynced(written, OfKey(written, key), id);
    case DoCreateRule(rule) =>
      var written := st.(rules := st.rules + [rule]);
      FreshlySynced(written, OfSubject(written, rule.subject), id);
    case DoRevoke(k) =>
      var written := st.(rules := st.rules[k := st.rules[k].(revokedAt := Some(st.now))]);
      FreshlySynced(written, OfSubject(written, st.rules[k].subject), id);
  }

  // ------------------------------------------------------------ the run told by its actions

  function Front(acts: seq<Action>): seq<Action>
    requires acts != []
  {
    acts[..|acts| - 1]
  }

  function Clock(now: int, acts: seq<Action>): int {
    if acts == [] then now
    else
      match acts[|acts| - 1]
      case Tick(d) => Clock(now, Front(acts)) + d
      case _ => Clock(now, Front(acts))
  }

  // The first finding persisted under an id stays the finding of that id.
  function Known(acts: seq<Action>, id: string): Option<Finding> {
    if acts == [] then None
    else if Known(Front(acts), id).Some? then Known(Front(acts), id)
    else
      match acts[|acts| - 1]
      case DoPersist(i, f) => if i == id then Some(f) else None
      case _ => None
  }

  predicate HasKey(f: Option<Finding>, key: Key) {
    f.Some? && KeyOf(f.value) == key
  }

  // The status last given to a known finding of the key, and open before any was given.
  function Given(acts: seq<Action>, key: Key): Lifecycle {
    if acts == [] then Open
    else
      match acts[|acts| - 1]
      case DoUpdate(id, status) => if HasKey(Known(Front(acts), id), key) then status else Given(Front(acts), key)
      case _ => Given(Front(acts), key)
  }

  function Created(acts: seq<Action>): seq<Rule> {
    if acts == [] then []
    else
      match acts[|acts| - 1]
      case DoCreateRule(rule) => Created(Front(acts)) + [rule]
      case _ => Created(Front(acts))
  }

  // When rule k was revoked: at its creation or by the first revocation behind it.
  function Revocation(now: int, acts: seq<Action>, k: nat): Option<int> {
    if acts == [] then None
    else if Revocation(now, Front(acts), k).Some? then Revocation(now, Front(acts), k)
    else
      match acts[|acts| - 1]
      case DoCreateRule(rule) => if k == |Created(Front(acts))| then rule.revokedAt else None
      case DoRevoke(j) => if j == k < |Created(Front(acts))| then Some(Clock(now, Front(acts))) else None
      case _ => None
  }

  lemma {:induction false} ExecLast(st: State, acts: seq<Action>)
    requires acts != []
    ensures Exec(st, acts) == Step(Exec(st, Front(acts)), acts[|acts| - 1])
    decreases |acts|
  {
    if |acts| > 1 {
      ExecLast(Step(st, acts[0]), acts[1..]);
      assert Front(acts[1..]) == Front(acts)[1..];
    } else {
      assert acts[1..] == [];
    }
  }

  predicate FindingTold(st: State, acts: seq<Action>, id: string) {
    && (id in st.findings <==> Known(acts, id).Some?)
    && (id in st.findings ==> st.findings[id] == Known(acts, id).value)
  }

  ghost predicate FindingsTold(st: State, acts: seq<Action>) {
    forall id :: FindingTold(st, acts, id)
  }

  ghost predicate StatesTold(st: State, acts: seq<Action>) {
    forall key :: Tracked(st, key) == Given(acts, key)
  }

  predicate RuleTold(st: State, now: int, acts: seq<Action>, k: nat) {
    k < |st.rules| == |Created(acts)| ==> st.rules[k] == Created(acts)[k].(revokedAt := Revocation(now, acts, k))
  }

  ghost predicate RulesTold(st: State, now: int, acts: seq<Action>) {
    && st.now == Clock(now, acts)
    && |st.rules| == |Created(acts)|
    && forall k: nat :: RuleTold(st, now, acts, k)
  }

  lemma SyncKeepsTracked(st: State, ids: set<string>, key: Key)
    requires ids <= st.findings.Keys
    ensures Tracked(SyncAll(st, ids), key) == Tracked(st, key)
  {
  }

  lemma StepFindings(st: State, acts: seq<Action>, id: string)
    requires acts != [] && FindingTold(st, Front(acts), id)
    ensures FindingTold(Step(st, acts[|acts| - 1]), acts, id)
  {
  }

  lemma StepStates(st: State, acts: seq<Action>, key: Key)
    requires acts != [] && FindingsTold(st, Front(acts)) && Tracked(st, key) == Given(Front(acts), key)
    ensures Tracked(Step(st, acts[|acts| - 1]), key) == Given(acts, key)
  {
    match acts[|acts| - 1]
    case DoUpdate(id, status) =>
      assert FindingTold(st, Front(acts), id);
      UpdateTracks(st, id, status, key);
    case _ => StepKeepsTracked(st, acts[|acts| - 1], key);
  }

  lemma UpdateTracks(st: State, id: string, status: Lifecycle, key: Key)
    ensures Tracked(UpdateLifecycle(st, id, status), key) ==
            if id in st.findings && KeyOf(st.findings[id]) == key then status else Tracked(st, key)
  {
    if id in st.findings {
      var written := st.(states := st.states[KeyOf(st.findings[id]) := status]);
      SyncKeepsTracked(written, OfKey(written, KeyOf(st.findings[id])), key);
    }
  }

  lemma StepKeepsTracked(st: State, a: Action, key: Key)
    requires !a.DoUpdate?
    ensures Tracked(Step(st, a), key) == Tracked(st, key)
  {
  }

  // No rule beyond those created has been revoked.
  lemma {:induction false} Unborn(now: int, acts: seq<Action>, k: nat)
    requires k >= |Created(acts)|
    ensures Revocation(now, acts, k).None?
  {
    if acts != [] {
      Unborn(now, Front(acts), k);
    }
  }

  lemma StepClock(st: State, now: int, acts: seq<Action>)
    requires acts != [] && st.now == Clock(now, Front(acts)) && |st.rules| == |Created(Front(acts))|
    ensures var st' := Step(st, acts[|acts| - 1]); st'.now == Clock(now, acts) && |st'.rules| == |Created(acts)|
  {
  }

  lemma StepRule(st: State, now: int, acts: seq<Action>, k: nat)
    requires acts != [] && RulesTold(st, now, Front(acts))
    ensures RuleTold(Step(st, acts[|acts| - 1]), now, acts, k)
  {
    Unborn(now, Front(acts), |st.rules|);
    assert RuleTold(st, now, Front(acts), k);
    match acts[|acts| - 1]
    case DoRevoke(j) => if j == k < |st.rules| { RevokeTold(st, now, acts, k); }
    case _ =>
  }

  lemma RevokeTold(st: State, now: int, acts: seq<Action>, k: nat)
    requires acts != [] && RulesTold(st, now, Front(acts))
    requires k < |st.rules| && acts[|acts| - 1] == DoRevoke(k)
    ensures RevokeRule(st, k).rules[k] == Created(acts)[k].(revokedAt := Revocation(now, acts, k))
  {
    assert RuleTold(st, now, Front(acts), k);
  }

  lemma {:induction false} RunTold(now: int, acts: seq<Action>)
    ensures var st := Exec(Init(now), acts);
            FindingsTold(st, acts) && StatesTold(st, acts) && RulesTold(st, now, acts)
  {
    if acts != [] {
      var st := Exec(Init(now), Front(acts));
      RunTold(now, Front(acts));
      ExecLast(Init(now), acts);
      var last := Step(st, acts[|acts| - 1]);
      forall id
        ensures FindingTold(last, acts, id)
      {
        assert FindingTold(st, Front(acts), id);
        StepFindings(st, acts, id);
      }
      forall key
        ensures Tracked(last, key) == Given(acts, key)
      {
        StepStates(st, acts, key);
      }
      StepClock(st, now, acts);
      forall k: nat
        ensures RuleTold(last, now, acts, k)
      {
        StepRule(st, now, acts, k);
      }
    }
  }

  // What a reader sees after any run, in terms of the actions alone: the status last given
  // to the finding's key, or a rule that was created for it and neither revoked nor expired.
  lemma ShownIsGiven(now: int, acts: seq<Action>, id: string)
    ensures var st := Exec(Init(now), acts);
            && (id in st.findings <==> Known(acts, id).Some?)
            && (id in st.findings ==>
                  var f := Known(acts, id).value;
                  var shown := SingleRead(st, id, f);
                  && st.findings[id] == f
                  && (!shown.suppressed ==> shown.lifecycle == Given(acts, KeyOf(f)) && shown.ruleId.None?)
                  && (shown.suppressed ==>
                        && shown.lifecycle == Suppressed && shown.ruleId.Some?
                        && var k := shown.ruleId.value;
                        && k < |Created(acts)| && Matches(Created(acts)[k], f)
                        && Revocation(now, acts, k).None?
                        && (Created(acts)[k].expiresAt.Some? ==> Clock(now, acts) < Created(acts)[k].expiresAt.value)))
  {
    RunTold(now, acts);
    RunKeepsInv(Init(now), acts);
    var st := Exec(Init(now), acts);
    assert FindingTold(st, acts, id);
    if id in st.findings {
      assert OccurrenceOk(st, st.findings[id], st.occurrences[id]);
      var o := st.occurrences[id];
      if o.suppressed {
        assert RuleTold(st, now, acts, o.ruleId.value);
      }
      assert Tracked(st, KeyOf(st.findings[id])) == Given(acts, KeyOf(st.findings[id]));
    }
  }

  lemma {:induction false} RevocationStays(now: int, before: seq<Action>, after: seq<Action>, k: nat)
    requires Revocation(now, before, k).Some?
    ensures Revocation(now, before + after, k) == Revocation(now, before, k)
  {
    if after == [] {
      assert before + after == before;
    } else {
      assert Front(before + after) == before + Front(after);
      RevocationStays(now, before, Front(after), k);
    }
  }

  // Once an existing rule has been revoked, no later state of any run shows a finding
  // suppressed by it.
  lemma RevokedRuleIsNeverShown(now: int, before: seq<Action>, k: nat, after: seq<Action>, id: string)
    requires k < |Created(before)|
    ensures var st := Exec(Init(now), before + [DoRevoke(k)] + after);
            id in st.findings ==> SingleRead(st, id, st.findings[id]).ruleId != Some(k)
  {
    var revoked := before + [DoRevoke(k)];
    assert Front(revoked) == before;
    RevocationStays(now, revoked, after, k);
    ShownIsGiven(now, revoked + after, id);
  }

  // Drift happens: a newer rule that expires hides an older one that does not.
  const DRIFT_FINDING := Finding(Target("t"), "k", "high", "zap")
  const LASTING_RULE := Rule(Target("t"), None, None, None, None, None)
  const EXPIRING_RULE := Rule(Target("t"), None, None, None, Some(5), None)

  function OneFinding(now: int, o: Occurrence, rules: seq<Rule>): State {
    State(now, map["f" := DRIFT_FINDING], map[KeyOf(DRIFT_FINDING) := Open], map["f" := o], rules)
  }

  lemma DriftPersist()
    ensures Step(Init(0), DoPersist("f", DRIFT_FINDING)) == OneFinding(0, Occurrence(Open, false, None), [])
  {
  }

  lemma DriftCreate(o: Occurrence, rules: seq<Rule>, rule: Rule)
    requires rule.subject == Target("t") && Applies(rule, DRIFT_FINDING, 0)
    ensures Step(OneFinding(0, o, rules), DoCreateRule(rule))
         == OneFinding(0, Occurrence(Suppressed, true, Some(|rules|)), rules + [rule])
  {
    var written := OneFinding(0, o, rules + [rule]);
    assert OfSubject(written, Target("t")) == {"f"};
    SyncOneIs(written, "f");
    assert ActiveRule(rules + [rule], DRIFT_FINDING, 0) == Some(|rules|);
    assert written.occurrences["f" := Synced(written, DRIFT_FINDING)] == map["f" := Synced(written, DRIFT_FINDING)];
  }

  lemma DriftExample()
    ensures var acts := [DoPersist("f", DRIFT_FINDING), DoCreateRule(LASTING_RULE), DoCreateRule(EXPIRING_RULE), Tick(5)];
            var st := Exec(Init(0), acts);
            && st == OneFinding(5, Occurrence(Suppressed, true, Some(1)), [LASTING_RULE, EXPIRING_RULE])
            && SomeRuleApplies(st, DRIFT_FINDING)
            && !SingleRead(st, "f", DRIFT_FINDING).suppressed
  {
    var acts := [DoPersist("f", DRIFT_FINDING), DoCreateRule(LASTING_RULE), DoCreateRule(EXPIRING_RULE), Tick(5)];
    DriftPersist();
    DriftCreate(Occurrence(Open, false, None), [], LASTING_RULE);
    DriftCreate(Occurrence(Suppressed, true, Some(0)), [LASTING_RULE], EXPIRING_RULE);
    FourSteps(Init(0), acts);
    var st := OneFinding(5, Occurrence(Suppressed, true, Some(1)), [LASTING_RULE, EXPIRING_RULE]);
    assert [] + [LASTING_RULE] == [LASTING_RULE];
    assert Applies(st.rules[0], DRIFT_FINDING, 5);
  }

  lemma FourSteps(st: State, acts: seq<Action>)
    requires |acts| == 4
    ensures Exec(st, acts) == Step(Step(Step(Step(st, acts[0]), acts[1]), acts[2]), acts[3])
  {
    assert acts[1..][1..] == acts[2..];
    assert acts[2..][1..] == acts[3..];
    var s2 := Step(Step(st, acts[0]), acts[1]);
    assert Exec(st, acts) == Exec(s2, acts[2..]);
    assert acts[3..][1..] == [];
    assert Exec(s2, acts[2..]) == Exec(Step(s2, acts[2]), acts[3..]);
  }
}

/**
 Copying a repository into a staging directory with an explicit stack, against
 the recursive filter of the source tree. A directory lists its entries in name
 order, and does not change while it is copied.
 */
module Staging {
  import opened Prelude

  // UnreadableFolder cannot be listed and LostFile cannot be read; Other is
  // neither a link, a folder nor a regular file.
  datatype Node = Link | Folder(entries: seq<Entry>) | UnreadableFolder | File(content: string) | LostFile | Other

  datatype Entry = Entry(name: string, node: Node)

  datatype Limits = Limits(maxFiles: int, maxFileBytes: int, maxTotalBytes: int)

  datatype StagingError = LimitExceeded | StagingFailed

  const SKIPPED_DIRECTORIES := {
    ".git", ".hg", ".svn", ".cache", ".mypy_cache", ".next", ".npm", ".pytest_cache", ".ruff_cache", ".tox",
    ".venv", "__pycache__", "bower_components", "build", "coverage", "dist", "node_modules", "target", "vendor"
  }

  const UNTRUSTED_SCANNER_CONFIGS := {
    ".gitleaks.toml", ".gitleaksignore", "osv-scanner.toml", "osv-scanner.json"
  }

  // Links, entries that are not regular, and the names that are never staged.
  predicate NeverStaged(e: Entry) {
    match e.node
    case Link => true
    case Folder(_) => e.name in SKIPPED_DIRECTORIES
    case UnreadableFolder => e.name in SKIPPED_DIRECTORIES
    case File(_) => e.name in UNTRUSTED_SCANNER_CONFIGS
    case LostFile => e.name in UNTRUSTED_SCANNER_CONFIGS
    case Other => true
  }

  // ------------------------------------------------------------ the recursive filter

  type Path = seq<string>

  datatype Item = MadeFolder | Copy(content: string)

  // What a part of the tree amounts to: the counts, whether a kept file is too
  // large, whether something kept cannot be read, and what is staged.
  datatype Tally = Tally(files: nat, bytes: nat, skipped: nat, oversized: bool, broken: bool,
                         staged: set<(Path, Item)>)

  // Which entries are skipped, and the largest file that may be copied.
  datatype Filter = Filter(skip: Entry -> bool, maxFileBytes: int)

  const NOTHING := Tally(0, 0, 0, false, false, {})

  function Plus(a: Tally, b: Tally): Tally {
    Tally(a.files + b.files, a.bytes + b.bytes, a.skipped + b.skipped, a.oversized || b.oversized,
          a.broken || b.broken, a.staged + b.staged)
  }

  // A folder that has been made, with what is in it.
  function OfNode(n: Node, at: Path, f: Filter): Tally
    decreases n, 1
  {
    if n.Folder? then OfEntries(n.entries, at, f) else NOTHING.(broken := true)
  }

  function OfEntry(e: Entry, at: Path, f: Filter): Tally
    decreases e, 2
  {
    var path := at + [e.name];
    if f.skip(e) then NOTHING.(skipped := 1)
    else if e.node.File? then
      Tally(1, |e.node.content|, 0, |e.node.content| > f.maxFileBytes, false, {(path, Copy(e.node.content))})
    else if e.node.LostFile? then NOTHING.(broken := true)
    else Plus(NOTHING.(staged := {(path, MadeFolder)}), OfNode(e.node, path, f))
  }

  function OfEntries(entries: seq<Entry>, at: Path, f: Filter): Tally
    decreases entries, 0
  {
    if entries == [] then NOTHING
    else Plus(OfEntry(entries[0], at, f), OfEntries(entries[1..], at, f))
  }

  ghost predicate OverLimit(t: Tally, limits: Limits) {
    t.oversized || (t.files > 0 && (t.files > limits.maxFiles || t.bytes > limits.maxTotalBytes))
  }

  // ------------------------------------------------------------ the stack

  datatype Frame = Frame(node: Node, at: Path)

  function Size(entries: seq<Entry>): nat
    decreases entries
  {
    if entries == [] then 0 else 1 + NodeSize(entries[0].node) + Size(entries[1..])
  }

  function NodeSize(n: Node): nat
    decreases n
  {
    if n.Folder? then 1 + Size(n.entries) else 1
  }

  function FramesSize(frames: seq<Frame>): nat {
    if frames == [] then 0 else FramesSize(frames[..|frames| - 1]) + NodeSize(frames[|frames| - 1].node)
  }

  // What is at hand, with what waits on the stack, makes up the whole tree.
  ghost predicate Balanced(all: Tally, have: Tally, pending: seq<Frame>, f: Filter)
    decreases |pending|
  {
    if pending == [] then all == have
    else
      var last := pending[|pending| - 1];
      Balanced(all, Plus(have, OfNode(last.node, last.at, f)), pending[..|pending| - 1], f)
  }

  lemma PushFrame(all: Tally, have: Tally, pending: seq<Frame>, last: Frame, f: Filter)
    ensures Balanced(all, have, pending + [last], f) == Balanced(all, Plus(have, OfNode(last.node, last.at, f)), pending, f)
    ensures FramesSize(pending + [last]) == FramesSize(pending) + NodeSize(last.node)
  {
    assert (pending + [last])[..|pending|] == pending;
  }

  lemma {:induction false} HaveIsPart(all: Tally, have: Tally, pending: seq<Frame>, f: Filter)
    requires Balanced(all, have, pending, f)
    ensures have.files <= all.files && have.bytes <= all.bytes && have.staged <= all.staged
    ensures (have.oversized ==> all.oversized) && (have.broken ==> all.broken)
    decreases |pending|
  {
    if pending != [] {
      var last := pending[|pending| - 1];
      HaveIsPart(all, Plus(have, OfNode(last.node, last.at, f)), pending[..|pending| - 1], f);
    }
  }

  lemma Associative(a: Tally, b: Tally, c: Tally)
    ensures Plus(Plus(a, b), c) == Plus(a, Plus(b, c))
  {
    assert (a.staged + b.staged) + c.staged == a.staged + (b.staged + c.staged);
  }

  lemma Commutative(a: Tally, b: Tally)
    ensures Plus(a, b) == Plus(b, a)
    ensures Plus(a, NOTHING) == a
  {
    assert a.staged + b.staged == b.staged + a.staged;
    assert a.staged + {} == a.staged;
  }

  lemma NothingAdded(a: Tally)
    ensures Plus(NOTHING, a) == a
  {
    Commutative(NOTHING, a);
    Commutative(a, NOTHING);
  }

  predicate Enters(e: Entry, f: Filter) {
    !f.skip(e) && !e.node.File? && !e.node.LostFile?
  }

  function Made(path: Path): Tally {
    NOTHING.(staged := {(path, MadeFolder)})
  }

  lemma EnterFolder(all: Tally, done: Tally, entries: seq<Entry>, at: Path, pending: seq<Frame>, f: Filter)
    requires entries != [] && Enters(entries[0], f)
    requires Balanced(all, Plus(done, OfEntries(entries, at, f)), pending, f)
    ensures var path := at + [entries[0].name];
            Balanced(all, Plus(Plus(done, Made(path)), OfEntries(entries[1..], at, f)), pending + [Frame(entries[0].node, path)], f)
  {
    var path := at + [entries[0].name];
    var made, inside, rest := Made(path), OfNode(entries[0].node, path, f), OfEntries(entries[1..], at, f);
    assert OfEntries(entries, at, f) == Plus(Plus(made, inside), rest);
    Associative(made, inside, rest);
    Associative(done, made, Plus(inside, rest));
    Commutative(inside, rest);
    Associative(Plus(done, made), rest, inside);
    PushFrame(all, Plus(Plus(done, made), rest), pending, Frame(entries[0].node, path), f);
  }

  lemma FinishEntry(all: Tally, done: Tally, entries: seq<Entry>, at: Path, pending: seq<Frame>, f: Filter)
    requires entries != [] && Balanced(all, Plus(done, OfEntries(entries, at, f)), pending, f)
    ensures Balanced(all, Plus(Plus(done, OfEntry(entries[0], at, f)), OfEntries(entries[1..], at, f)), pending, f)
  {
    Associative(done, OfEntry(entries[0], at, f), OfEntries(entries[1..], at, f));
  }

  // What has been copied so far respects the limits.
  ghost predicate WithinLimits(done: Tally, limits: Limits) {
    !done.oversized && !done.broken &&
    (done.files > 0 ==> done.files <= limits.maxFiles && done.bytes <= limits.maxTotalBytes)
  }

  datatype Outcome = Copied(files: nat, bytes: nat, skipped: nat) | Failed(error: StagingError)

  // What the caller may conclude from the outcome.
  ghost predicate Explains(all: Tally, limits: Limits, r: Outcome, staged: set<(Path, Item)>) {
    && staged <= all.staged
    && match r
       case Copied(files, bytes, skipped) =>
         all == Tally(files, bytes, skipped, false, false, staged) && !OverLimit(all, limits)
       case Failed(LimitExceeded) => OverLimit(all, limits)
       case Failed(StagingFailed) => all.broken
  }

  // A file at hand that breaks a limit, or cannot be read, condemns the whole tree.
  lemma HeadCondemns(all: Tally, done: Tally, entries: seq<Entry>, at: Path, pending: seq<Frame>, f: Filter, limits: Limits)
    requires entries != [] && !f.skip(entries[0]) && f.maxFileBytes == limits.maxFileBytes
    requires Balanced(all, Plus(done, OfEntries(entries, at, f)), pending, f)
    ensures done.staged <= all.staged
    ensures entries[0].node.LostFile? ==> all.broken
    ensures entries[0].node.File? ==>
              var bytes := |entries[0].node.content|;
              bytes > limits.maxFileBytes || done.files + 1 > limits.maxFiles || done.bytes + bytes > limits.maxTotalBytes
              ==> OverLimit(all, limits)
  {
    assert OfEntries(entries, at, f) == Plus(OfEntry(entries[0], at, f), OfEntries(entries[1..], at, f));
    HaveIsPart(all, Plus(done, OfEntries(entries, at, f)), pending, f);
  }

  // One folder: its files are copied, its folders are made and put on the stack.
  method CopyFolder(ghost all: Tally, folder: seq<Entry>, at: Path, waiting: seq<Frame>, before: Tally,
                    limits: Limits, f: Filter)
    returns (failure: Option<StagingError>, done: Tally, pending: seq<Frame>)
    requires f.maxFileBytes == limits.maxFileBytes
    requires Balanced(all, Plus(before, OfEntries(folder, at, f)), waiting, f)
    requires WithinLimits(before, limits)
    ensures FramesSize(pending) <= FramesSize(waiting) + Size(folder)
    ensures WithinLimits(done, limits)
    ensures failure.None? ==> Balanced(all, done, pending, f)
    ensures failure.Some? ==> Explains(all, limits, Failed(failure.value), done.staged)
  {
    done, pending := before, waiting;
    var entries := folder;
    while entries != []
      invariant Balanced(all, Plus(done, OfEntries(entries, at, f)), pending, f)
      invariant WithinLimits(done, limits)
      invariant FramesSize(pending) + Size(entries) <= FramesSize(waiting) + Size(folder)
      decreases entries
    {
      var e := entries[0];
      var path := at + [e.name];
      if f.skip(e) {
        FinishEntry(all, done, entries, at, pending, f);
        done := Plus(done, NOTHING.(skipped := 1));
      } else if Enters(e, f) {
        EnterFolder(all, done, entries, at, pending, f);
        PushFrame(all, done, pending, Frame(e.node, path), f);
        done := Plus(done, Made(path));
        pending := pending + [Frame(e.node, path)];
      } else {
        HeadCondemns(all, done, entries, at, pending, f, limits);
        if e.node.LostFile? {
          return Some(StagingFailed), done, pending;
        }
        var bytes := |e.node.content|;
        if bytes > limits.maxFileBytes {
          return Some(LimitExceeded), done, pending;
        }
        if done.files + 1 > limits.maxFiles || done.bytes + bytes > limits.maxTotalBytes {
          return Some(LimitExceeded), done, pending;
        }
        FinishEntry(all, done, entries, at, pending, f);
        done := Plus(done, Tally(1, bytes, 0, false, false, {(path, Copy(e.node.content))}));
      }
      entries := entries[1..];
    }
    Commutative(done, NOTHING);
    failure := None;
  }

  lemma StartBalanced(all: Tally, start: seq<Frame>, f: Filter)
    requires |start| == 1 && all == OfNode(start[0].node, start[0].at, f)
    ensures Balanced(all, NOTHING, start, f)
  {
    NothingAdded(all);
    EmptyBalanced(all, start[..0], f);
  }

  lemma EmptyBalanced(all: Tally, pending: seq<Frame>, f: Filter)
    requires pending == []
    ensures Balanced(all, all, pending, f)
  {
  }

  lemma PopFrame(all: Tally, done: Tally, pending: seq<Frame>, f: Filter)
    requires pending != [] && Balanced(all, done, pending, f)
    ensures var last := pending[|pending| - 1];
            Balanced(all, Plus(done, OfNode(last.node, last.at, f)), pending[..|pending| - 1], f)
    ensures done.staged <= all.staged && (!pending[|pending| - 1].node.Folder? ==> all.broken)
  {
    var last := pending[|pending| - 1];
    HaveIsPart(all, done, pending, f);
    HaveIsPart(all, Plus(done, OfNode(last.node, last.at, f)), pending[..|pending| - 1], f);
  }

  // The walk with an explicit stack, for any filter.
  method Walk(ghost all: Tally, start: seq<Frame>, limits: Limits, f: Filter)
    returns (r: Outcome, staged: set<(Path, Item)>)
    requires f.maxFileBytes == limits.maxFileBytes && Balanced(all, NOTHING, start, f)
    ensures Explains(all, limits, r, staged)
  {
    var done, pending := NOTHING, start;
    while pending != []
      invariant Balanced(all, done, pending, f)
      invariant WithinLimits(done, limits)
      decreases FramesSize(pending)
    {
      PopFrame(all, done, pending, f);
      var frame := pending[|pending| - 1];
      pending := pending[..|pending| - 1];
      if !frame.node.Folder? {
        return Failed(StagingFailed), done.staged;
      }
      var failure;
      failure, done, pending := CopyFolder(all, frame.node.entries, frame.at, pending, done, limits, f);
      if failure.Some? {
        return Failed(failure.value), done.staged;
      }
    }
    return Copied(done.files, done.bytes, done.skipped), done.staged;
  }

  // ------------------------------------------------------------ the staged tree

  // Names are unique in every folder.
  ghost predicate UniqueNames(entries: seq<Entry>)
    decreases entries
  {
    && (forall i, j :: 0 <= i < j < |entries| ==> entries[i].name != entries[j].name)
    && (forall i :: 0 <= i < |entries| && entries[i].node.Folder? ==> UniqueNames(entries[i].node.entries))
  }

  ghost predicate Below(at: Path, name: string, p: Path) {
    |p| > |at| && p[..|at|] == at && p[|at|] == name
  }

  // Everything that an entry stages lies at or below its own path.
  lemma {:induction false} StagedBelow(e: Entry, at: Path, f: Filter, x: (Path, Item))
    requires x in OfEntry(e, at, f).staged
    ensures Below(at, e.name, x.0)
    decreases e, 1
  {
    var path := at + [e.name];
    if Enters(e, f) && x in OfNode(e.node, path, f).staged {
      StagedInFolder(e.node.entries, path, f, x);
    }
  }

  lemma {:induction false} StagedInFolder(entries: seq<Entry>, at: Path, f: Filter, x: (Path, Item))
    requires x in OfEntries(entries, at, f).staged
    ensures |x.0| > |at| && x.0[..|at|] == at && exists i :: 0 <= i < |entries| && entries[i].name == x.0[|at|]
    decreases entries, 0
  {
    if x in OfEntry(entries[0], at, f).staged {
      StagedBelow(entries[0], at, f, x);
    } else {
      StagedInFolder(entries[1..], at, f, x);
      var i :| 0 <= i < |entries[1..]| && entries[1..][i].name == x.0[|at|];
      assert entries[i + 1].name == x.0[|at|];
    }
  }

  lemma HeadAndRestDiffer(entries: seq<Entry>, at: Path, f: Filter, here: (Path, Item), there: (Path, Item))
    requires entries != [] && UniqueNames(entries)
    requires here in OfEntry(entries[0], at, f).staged && there in OfEntries(entries[1..], at, f).staged
    ensures here.0 != there.0
  {
    var rest := entries[1..];
    StagedBelow(entries[0], at, f, here);
    StagedInFolder(rest, at, f, there);
    var i :| 0 <= i < |rest| && rest[i].name == there.0[|at|];
    assert entries[i + 1] == rest[i];
  }

  // No path is staged twice, so no folder is made and no file created where
  // something already is.
  lemma {:induction false} PathsAreFresh(entries: seq<Entry>, at: Path, f: Filter, x: (Path, Item), y: (Path, Item))
    requires UniqueNames(entries) && x in OfEntries(entries, at, f).staged && y in OfEntries(entries, at, f).staged
    requires x.0 == y.0
    ensures x == y
    decreases entries
  {
    var head, rest := OfEntry(entries[0], at, f).staged, OfEntries(entries[1..], at, f).staged;
    assert (x in head || x in rest) && (y in head || y in rest);
    if x in head && y in head {
      FreshInEntry(entries[0], at, f, x, y);
    } else if x in rest && y in rest {
      PathsAreFresh(entries[1..], at, f, x, y);
    } else if x in head {
      HeadAndRestDiffer(entries, at, f, x, y);
    } else {
      HeadAndRestDiffer(entries, at, f, y, x);
    }
  }

  lemma {:induction false} FreshInEntry(e: Entry, at: Path, f: Filter, x: (Path, Item), y: (Path, Item))
    requires e.node.Folder? ==> UniqueNames(e.node.entries)
    requires x in OfEntry(e, at, f).staged && y in OfEntry(e, at, f).staged && x.0 == y.0
    ensures x == y
    decreases e
  {
    var path := at + [e.name];
    if Enters(e, f) {
      var inside := OfNode(e.node, path, f).staged;
      if x in inside {
        StagedInFolder(e.node.entries, path, f, x);
      }
      if y in inside {
        StagedInFolder(e.node.entries, path, f, y);
      }
      if x in inside && y in inside {
        PathsAreFresh(e.node.entries, path, f, x, y);
      }
    }
  }

  // ------------------------------------------------------------ looking a path up

  // What a path of the source is staged as, that it is kept and cannot be read, or that it
  // is skipped.
  datatype Sight = Saw(item: Item) | CannotRead | PassedOver

  predicate Shows(e: Entry, what: Sight) {
    match what
    case Saw(Copy(content)) => e.node == File(content) && e.name !in UNTRUSTED_SCANNER_CONFIGS
    case Saw(MadeFolder) => (e.node.Folder? || e.node.UnreadableFolder?) && e.name !in SKIPPED_DIRECTORIES
    case CannotRead =>
      || (e.node.LostFile? && e.name !in UNTRUSTED_SCANNER_CONFIGS)
      || (e.node.UnreadableFolder? && e.name !in SKIPPED_DIRECTORIES)
    case PassedOver =>
      || e.node.Link? || e.node.Other?
      || ((e.node.Folder? || e.node.UnreadableFolder?) && e.name in SKIPPED_DIRECTORIES)
      || ((e.node.File? || e.node.LostFile?) && e.name in UNTRUSTED_SCANNER_CONFIGS)
  }

  // The entry at a path, behind folders none of which is skipped.
  ghost predicate Holds(entries: seq<Entry>, path: Path, what: Sight)
    decreases |path|, 1
  {
    path != [] && exists e :: e in entries && e.name == path[0] && EntryHolds(e, path, what)
  }

  ghost predicate EntryHolds(e: Entry, path: Path, what: Sight)
    requires path != []
    decreases |path|, 0
  {
    if |path| == 1 then Shows(e, what)
    else e.node.Folder? && e.name !in SKIPPED_DIRECTORIES && Holds(e.node.entries, path[1..], what)
  }

  lemma HoldsSplit(entries: seq<Entry>, path: Path, what: Sight)
    requires entries != [] && path != []
    ensures Holds(entries, path, what) <==>
            (entries[0].name == path[0] && EntryHolds(entries[0], path, what)) || Holds(entries[1..], path, what)
  {
    if e :| e in entries && e.name == path[0] && EntryHolds(e, path, what) {
      assert e == entries[0] || e in entries[1..];
    }
  }

  // A path is staged exactly when the source holds it and no folder on the way is skipped.
  lemma {:induction false} StagedIffHeld(entries: seq<Entry>, at: Path, maxFileBytes: int, path: Path, item: Item)
    requires path != []
    ensures (at + path, item) in OfEntries(entries, at, Filter(NeverStaged, maxFileBytes)).staged
            <==> Holds(entries, path, Saw(item))
    decreases entries, 0
  {
    if entries != [] {
      HoldsSplit(entries, path, Saw(item));
      EntryStagedIffHeld(entries[0], at, maxFileBytes, path, item);
      StagedIffHeld(entries[1..], at, maxFileBytes, path, item);
    }
  }

  lemma {:induction false} EntryStagedIffHeld(e: Entry, at: Path, maxFileBytes: int, path: Path, item: Item)
    requires path != []
    ensures (at + path, item) in OfEntry(e, at, Filter(NeverStaged, maxFileBytes)).staged
            <==> e.name == path[0] && EntryHolds(e, path, Saw(item))
    decreases e, 1
  {
    var f := Filter(NeverStaged, maxFileBytes);
    if (at + path, item) in OfEntry(e, at, f).staged {
      StagedBelow(e, at, f, (at + path, item));
      assert (at + path)[|at|] == path[0];
    }
    if e.name == path[0] {
      PathSplits(at, path);
      if e.node.Folder? {
        FolderHoldsItself(e, at, f, item);
        if |path| > 1 {
          StagedIffHeld(e.node.entries, at + [e.name], maxFileBytes, path[1..], item);
        }
      }
    }
  }

  lemma PathSplits(at: Path, path: Path)
    requires path != []
    ensures at + path == (at + [path[0]]) + path[1..]
    ensures |path| == 1 <==> at + path == at + [path[0]]
  {
  }

  // Nothing in a folder is staged at the folder's own path.
  lemma FolderHoldsItself(e: Entry, at: Path, f: Filter, item: Item)
    requires e.node.Folder?
    ensures (at + [e.name], item) !in OfEntries(e.node.entries, at + [e.name], f).staged
  {
    if (at + [e.name], item) in OfEntries(e.node.entries, at + [e.name], f).staged {
      StagedInFolder(e.node.entries, at + [e.name], f, (at + [e.name], item));
    }
  }

  ghost predicate StagesWhatIsHeld(entries: seq<Entry>, root: Path, staged: set<(Path, Item)>) {
    forall path, item :: path != [] ==> ((root + path, item) in staged <==> Holds(entries, path, Saw(item)))
  }

  // Succeeds exactly when nothing kept is over a limit or unreadable, and then the
  // counts and the staged tree are those of the recursive filter; on failure nothing
  // else has been staged.
  method CopyTree(source: Node, root: Path, limits: Limits) returns (r: Outcome, staged: set<(Path, Item)>)
    ensures var all := OfNode(source, root, Filter(NeverStaged, limits.maxFileBytes));
            && Explains(all, limits, r, staged)
            && (r.Copied? <==> !OverLimit(all, limits) && !all.broken)
            && (!all.broken ==> (r == Failed(LimitExceeded) <==> OverLimit(all, limits)))
    ensures source.Folder? && r.Copied? ==> StagesWhatIsHeld(source.entries, root, staged)
  {
    var f := Filter(NeverStaged, limits.maxFileBytes);
    var start := [Frame(source, root)];
    StartBalanced(OfNode(source, root, f), start, f);
    r, staged := Walk(OfNode(source, root, f), start, limits, f);
    if source.Folder? {
      forall path, item | path != []
        ensures (root + path, item) in OfNode(source, root, f).staged <==> Holds(source.entries, path, Saw(item))
      {
        StagedIffHeld(source.entries, root, limits.maxFileBytes, path, item);
      }
    }
  }

  // Something kept cannot be read exactly when such an entry is held somewhere.
  lemma {:induction false} BrokenIffHeld(entries: seq<Entry>, at: Path, maxFileBytes: int)
    ensures OfEntries(entries, at, Filter(NeverStaged, maxFileBytes)).broken
            <==> exists path :: Holds(entries, path, CannotRead)
    decreases entries, 0
  {
    if entries != [] {
      BrokenIffHeld(entries[1..], at, maxFileBytes);
      EntryBrokenIffHeld(entries[0], at, maxFileBytes);
      if path :| path != [] && path[0] == entries[0].name && EntryHolds(entries[0], path, CannotRead) {
        HoldsSplit(entries, path, CannotRead);
      }
      if path :| Holds(entries[1..], path, CannotRead) {
        HoldsSplit(entries, path, CannotRead);
      }
      if path :| Holds(entries, path, CannotRead) {
        HoldsSplit(entries, path, CannotRead);
      }
    }
  }

  lemma {:induction false} EntryBrokenIffHeld(e: Entry, at: Path, maxFileBytes: int)
    ensures OfEntry(e, at, Filter(NeverStaged, maxFileBytes)).broken
            <==> exists path :: path != [] && path[0] == e.name && EntryHolds(e, path, CannotRead)
    decreases e, 1
  {
    if e.node.Folder? && e.name !in SKIPPED_DIRECTORIES {
      BrokenIffHeld(e.node.entries, at + [e.name], maxFileBytes);
      if path :| path != [] && path[0] == e.name && EntryHolds(e, path, CannotRead) {
        assert Holds(e.node.entries, path[1..], CannotRead);
      }
      if path :| Holds(e.node.entries, path, CannotRead) {
        var whole := [e.name] + path;
        assert whole[0] == e.name && whole[1..] == path && EntryHolds(e, whole, CannotRead);
      }
    } else if Shows(e, CannotRead) {
      var path := [e.name];
      assert path[0] == e.name && EntryHolds(e, path, CannotRead);
    }
  }

  // ------------------------------------------------------------ counting what is staged

  type Listing = seq<(Path, string)>

  function Bytes(listing: Listing): nat {
    if listing == [] then 0 else |listing[0].1| + Bytes(listing[1..])
  }

  lemma {:induction false} BytesJoin(a: Listing, b: Listing)
    ensures Bytes(a + b) == Bytes(a) + Bytes(b)
  {
    if a == [] {
      assert a + b == b;
    } else {
      assert (a + b)[1..] == a[1..] + b;
      BytesJoin(a[1..], b);
    }
  }

  // Each staged file once.
  ghost predicate Lists(listing: Listing, t: Tally, maxFileBytes: int) {
    && (forall path, content :: (path, content) in listing <==> (path, Copy(content)) in t.staged)
    && (forall i, j :: 0 <= i < j < |listing| ==> listing[i].0 != listing[j].0)
    && t.files == |listing| && t.bytes == Bytes(listing)
    && (t.oversized <==> exists i :: 0 <= i < |listing| && |listing[i].1| > maxFileBytes)
  }

  // The counts are the number of the staged files and of their bytes, and a file is too
  // large exactly when a staged one is.
  lemma {:induction false} StagedFilesCounted(entries: seq<Entry>, at: Path, f: Filter) returns (listing: Listing)
    requires UniqueNames(entries)
    ensures Lists(listing, OfEntries(entries, at, f), f.maxFileBytes)
    decreases entries, 0
  {
    if entries == [] {
      return [];
    }
    var head := EntryFilesCounted(entries[0], at, f);
    var rest := StagedFilesCounted(entries[1..], at, f);
    forall x, y | x in head && y in rest
      ensures x.0 != y.0
    {
      HeadAndRestDiffer(entries, at, f, (x.0, Copy(x.1)), (y.0, Copy(y.1)));
    }
    ListsJoin(head, rest, OfEntry(entries[0], at, f), OfEntries(entries[1..], at, f), f.maxFileBytes);
    return head + rest;
  }

  lemma ListsJoin(a: Listing, b: Listing, s: Tally, t: Tally, maxFileBytes: int)
    requires Lists(a, s, maxFileBytes) && Lists(b, t, maxFileBytes)
    requires forall x, y :: x in a && y in b ==> x.0 != y.0
    ensures Lists(a + b, Plus(s, t), maxFileBytes)
  {
    BytesJoin(a, b);
    var all := a + b;
    forall i, j | 0 <= i < j < |all|
      ensures all[i].0 != all[j].0
    {
      assert all[i] in a || all[i] in b;
      assert i < |a| <= j ==> all[i] in a && all[j] in b;
    }
    if i :| 0 <= i < |a| && |a[i].1| > maxFileBytes {
      assert all[i] == a[i];
    }
    if i :| 0 <= i < |b| && |b[i].1| > maxFileBytes {
      assert all[|a| + i] == b[i];
    }
  }

  lemma {:induction false} EntryFilesCounted(e: Entry, at: Path, f: Filter) returns (listing: Listing)
    requires e.node.Folder? ==> UniqueNames(e.node.entries)
    ensures Lists(listing, OfEntry(e, at, f), f.maxFileBytes)
    decreases e, 1
  {
    listing := [];
    if Enters(e, f) && e.node.Folder? {
      listing := StagedFilesCounted(e.node.entries, at + [e.name], f);
    } else if !f.skip(e) && e.node.File? {
      listing := [(at + [e.name], e.node.content)];
      assert Bytes(listing[1..]) == 0;
      assert listing[0].1 == e.node.content;
    }
  }

  // Each path that is passed over once.
  ghost predicate ListsSkipped(listing: seq<Path>, entries: seq<Entry>, skipped: nat) {
    && (forall path :: path in listing <==> Holds(entries, path, PassedOver))
    && (forall i, j :: 0 <= i < j < |listing| ==> listing[i] != listing[j])
    && skipped == |listing|
  }

  // The number of skipped entries is the number of the paths that are passed over.
  lemma {:induction false} SkippedEntriesCounted(entries: seq<Entry>, at: Path, maxFileBytes: int) returns (listing: seq<Path>)
    requires UniqueNames(entries)
    ensures ListsSkipped(listing, entries, OfEntries(entries, at, Filter(NeverStaged, maxFileBytes)).skipped)
    decreases entries, 0
  {
    if entries == [] {
      return [];
    }
    var head := EntrySkippedCounted(entries[0], at, maxFileBytes);
    var rest := SkippedEntriesCounted(entries[1..], at, maxFileBytes);
    listing := head + rest;
    forall path
      ensures path in listing <==> Holds(entries, path, PassedOver)
      ensures path in head ==> path !in rest
    {
      if path != [] {
        HoldsSplit(entries, path, PassedOver);
        if entries[0].name == path[0] {
          HeadNameIsNew(entries, path);
        }
      }
    }
    assert forall i :: 0 <= i < |head| ==> listing[i] == head[i] && listing[i] in head;
    assert forall i :: |head| <= i < |listing| ==> listing[i] == rest[i - |head|] && listing[i] in rest;
  }

  lemma HeadNameIsNew(entries: seq<Entry>, path: Path)
    requires UniqueNames(entries) && entries != [] && path != [] && entries[0].name == path[0]
    ensures !Holds(entries[1..], path, PassedOver)
  {
    forall e | e in entries[1..]
      ensures e.name != path[0]
    {
      var i :| 0 <= i < |entries[1..]| && entries[1..][i] == e;
      assert entries[i + 1] == e;
    }
  }

  lemma {:induction false} EntrySkippedCounted(e: Entry, at: Path, maxFileBytes: int) returns (listing: seq<Path>)
    requires e.node.Folder? ==> UniqueNames(e.node.entries)
    ensures forall path :: path in listing <==> path != [] && path[0] == e.name && EntryHolds(e, path, PassedOver)
    ensures forall i, j :: 0 <= i < j < |listing| ==> listing[i] != listing[j]
    ensures OfEntry(e, at, Filter(NeverStaged, maxFileBytes)).skipped == |listing|
    decreases e, 1
  {
    listing := [];
    if NeverStaged(e) {
      listing := [[e.name]];
      assert forall path: Path :: |path| == 1 && path[0] == e.name ==> path == listing[0];
    } else if e.node.Folder? {
      var inside := SkippedEntriesCounted(e.node.entries, at + [e.name], maxFileBytes);
      listing := seq(|inside|, i requires 0 <= i < |inside| => [e.name] + inside[i]);
      forall i | 0 <= i < |inside|
        ensures listing[i][1..] == inside[i]
      {
      }
      forall path
        ensures path in listing <==> path != [] && path[0] == e.name && EntryHolds(e, path, PassedOver)
      {
        PathBelow(e.name, path, inside, listing);
        assert |path| == 1 ==> path[1..] == [];
      }
    }
  }

  lemma PathBelow(name: string, path: Path, inside: seq<Path>, listing: seq<Path>)
    requires |listing| == |inside| && forall i :: 0 <= i < |inside| ==> listing[i] == [name] + inside[i]
    ensures path in listing <==> path != [] && path[0] == name && path[1..] in inside
  {
    if path != [] && path[0] == name && path[1..] in inside {
      var i :| 0 <= i < |inside| && inside[i] == path[1..];
      assert listing[i] == [name] + path[1..] == path;
    }
  }
}

/** The scratch-directory quota walk (calibration_supervisor.cpp, `inspect_scratch_tree`): an explicit worklist
    of relative paths with several budgets, against a recursive account of the whole tree. */
module ScratchTree {
  import opened Results

  const BLOCK_BYTES: nat := 512
  const MAX_RELATIVE_PATH: nat := 4096
  const MAX_PATH_BYTES: nat := 4 * 1024 * 1024
  const MAX_COMPONENTS: nat := 65536

  /** An inode as the walk sees it: its name in its parent, `st_blocks`, and, for a directory, its entries in
      the order `readdir` returns them, without the two dot entries. */
  datatype Node = Node(name: string, blocks: int, directory: bool, entries: seq<Node>)

  datatype State = WithinLimit | AllocatedBytesExceeded | EntriesExceeded | TraversalExceeded | InspectionFailed

  // ----- paths ---------------------------------------------------------------------------------------------

  predicate Component(name: string) { name != "" && '/' !in name }

  predicate Components(names: seq<string>) { forall i :: 0 <= i < |names| ==> Component(names[i]) }

  /** A child's path, as the walk builds it. */
  function Extend(relative: string, name: string): string { if relative == "" then name else relative + "/" + name }

  function Join(names: seq<string>): string {
    if names == [] then "" else Extend(Join(names[..|names| - 1]), names[|names| - 1])
  }

  predicate Distinct(es: seq<Node>) { forall i, j :: 0 <= i < j < |es| ==> es[i].name != es[j].name }

  /** What a file system guarantees: usable names, no two alike in a directory. */
  predicate Wellformed(es: seq<Node>) {
    Distinct(es) && WellformedEach(es)
  }

  predicate WellformedEach(es: seq<Node>)
    decreases es
  {
    es == [] || (Component(es[0].name) && Distinct(es[0].entries) && WellformedEach(es[0].entries) && WellformedEach(es[1..]))
  }

  /** The entry of that name, as `openat` finds it. */
  function Child(es: seq<Node>, name: string): (r: Option<Node>)
    ensures r.Some? ==> r.value in es && r.value.name == name
  {
    if es == [] then None else if es[0].name == name then Some(es[0]) else Child(es[1..], name)
  }

  /** The directory reached from `root` by a list of names. */
  function At(root: Node, names: seq<string>): Option<Node> {
    if names == [] then (if root.directory then Some(root) else None)
    else
      var parent :- At(root, names[..|names| - 1]);
      var child :- Child(parent.entries, names[|names| - 1]);
      if child.directory then Some(child) else None
  }

  // ----- the account of a tree --------------------------------------------------------------------------------

  /** Blocks, entries, path components walked, bytes of directory paths, entries with a negative block count,
      directories with an over-long path, directories, and the paths expanded. */
  datatype Tally = Tally(
    blocks: nat, entries: nat, steps: nat, bytes: nat, negative: nat, long: nat, count: nat, dirs: multiset<string>)

  const NOTHING := Tally(0, 0, 0, 0, 0, 0, 0, multiset{})

  function Plus(a: Tally, b: Tally): Tally {
    Tally(a.blocks + b.blocks, a.entries + b.entries, a.steps + b.steps, a.bytes + b.bytes,
          a.negative + b.negative, a.long + b.long, a.count + b.count, a.dirs + b.dirs)
  }

  /** What the entry itself adds when its parent is listed. */
  function Seen(e: Node, path: string): Tally {
    Tally(Max(e.blocks, 0), 1, 0, if e.directory then |path| else 0, if e.blocks < 0 then 1 else 0,
          if e.directory && |path| > MAX_RELATIVE_PATH then 1 else 0, 0, multiset{})
  }

  /** What opening a directory adds: one component for every name on the way down to it. */
  function Opened(names: seq<string>): Tally { Tally(0, 0, |names|, 0, 0, 0, 1, multiset{Join(names)}) }

  /** Everything below a list of entries whose parent is at `base`. */
  function Cost(es: seq<Node>, base: seq<string>): Tally
    decreases es, 0
  {
    if es == [] then NOTHING else Plus(EntryCost(es[0], base), Cost(es[1..], base))
  }

  function EntryCost(e: Node, base: seq<string>): Tally
    decreases e, 1
  {
    var names := base + [e.name];
    Plus(Seen(e, Join(names)), if e.directory then Due(e, names) else NOTHING)
  }

  /** A directory still to be expanded. */
  function Due(e: Node, names: seq<string>): Tally
    decreases e, 0
  {
    Plus(Opened(names), Cost(e.entries, names))
  }

  /** The whole tree: the root's own blocks, and the root as a directory to expand. */
  function Total(root: Node): Tally {
    Plus(Tally(Max(root.blocks, 0), 0, 0, 0, if root.blocks < 0 then 1 else 0, 0, 0, multiset{}), Due(root, []))
  }

  // ----- the account is that of the tree ------------------------------------------------------------------------

  /** All inodes below a list of entries. */
  function Inodes(es: seq<Node>): nat {
    if es == [] then 0 else 1 + (if es[0].directory then Inodes(es[0].entries) else 0) + Inodes(es[1..])
  }

  /** The blocks of all of them; a negative count, which fails the walk, is no blocks. */
  function BlocksBelow(es: seq<Node>): nat {
    if es == [] then 0
    else Max(es[0].blocks, 0) + (if es[0].directory then BlocksBelow(es[0].entries) else 0) + BlocksBelow(es[1..])
  }

  function TreeBlocks(root: Node): nat { Max(root.blocks, 0) + BlocksBelow(root.entries) }

  lemma {:induction false} CostIsTree(es: seq<Node>, base: seq<string>)
    ensures Cost(es, base).entries == Inodes(es) && Cost(es, base).blocks == BlocksBelow(es)
    decreases es, 0
  {
    hide EntryCost;
    if es != [] {
      EntryIsTree(es[0], base);
      CostIsTree(es[1..], base);
    }
  }

  lemma {:induction false} EntryIsTree(e: Node, base: seq<string>)
    ensures EntryCost(e, base).entries == 1 + if e.directory then Inodes(e.entries) else 0
    ensures EntryCost(e, base).blocks == Max(e.blocks, 0) + if e.directory then BlocksBelow(e.entries) else 0
    decreases e, 1
  {
    hide Cost, Join, Inodes, BlocksBelow;
    CostIsTree(e.entries, base + [e.name]);
  }

  lemma {:induction false} TotalIsTree(root: Node)
    ensures Total(root).entries == Inodes(root.entries) && Total(root).blocks == TreeBlocks(root)
  {
    hide Cost, Join, Inodes, BlocksBelow;
    CostIsTree(root.entries, []);
  }

  lemma {:induction false} CostHas(es: seq<Node>, base: seq<string>, e: Node)
    requires e in es
    ensures EntryCost(e, base).dirs <= Cost(es, base).dirs
  {
    hide EntryCost;
    if e != es[0] {
      CostHas(es[1..], base, e);
    }
  }

  /** What a reachable directory is due, the whole tree is. */
  lemma {:induction false} DueWithin(root: Node, names: seq<string>)
    requires At(root, names).Some?
    ensures Due(At(root, names).value, names).dirs <= Total(root).dirs
  {
    hide Cost, Join;
    if names != [] {
      var front, last := names[..|names| - 1], names[|names| - 1];
      DueWithin(root, front);
      var parent := At(root, front).value;
      var child := Child(parent.entries, last).value;
      assert front + [last] == names;
      CostHas(parent.entries, front, child);
    }
  }

  lemma {:induction false} CostReachable(root: Node, names: seq<string>, d: Node, j: nat, p: string) returns (trail: seq<string>)
    requires At(root, names) == Some(d) && Wellformed(d.entries) && Components(names) && j <= |d.entries|
    requires p in Cost(d.entries[j..], names).dirs
    ensures Components(trail) && At(root, trail).Some? && Join(trail) == p
    decreases d.entries[j..]
  {
    hide Join, At, Wellformed, Components, EntryCost;
    var es := d.entries[j..];
    assert es != [];
    assert es[0] == d.entries[j] && es[1..] == d.entries[j + 1..];
    if p in EntryCost(es[0], names).dirs {
      AtEntry(root, names, d, j);
      trail := EntryReachable(root, names, d, j, p);
    } else {
      trail := CostReachable(root, names, d, j + 1, p);
    }
  }

  lemma {:induction false} EntryReachable(root: Node, names: seq<string>, d: Node, j: nat, p: string) returns (trail: seq<string>)
    requires At(root, names) == Some(d) && Wellformed(d.entries) && Components(names) && j < |d.entries|
    requires p in EntryCost(d.entries[j], names).dirs
    ensures Components(trail) && At(root, trail).Some? && Join(trail) == p
    decreases d.entries[j], 1
  {
    var e := d.entries[j];
    trail := names + [e.name];
    AtEntry(root, names, d, j);
    hide Join, At, Components, Cost;
    assert e.directory;
    if p != Join(trail) {
      EachWellformed(d.entries, j);
      assert e.entries[0..] == e.entries;
      trail := CostReachable(root, trail, e, 0, p);
    }
  }

  /** The directories of the account are exactly the directories of the tree: those some list of names reaches. */
  lemma {:induction false} DirectoriesExact(root: Node, p: string)
    requires root.directory && Wellformed(root.entries)
    ensures p in Total(root).dirs <==> exists names :: Components(names) && At(root, names).Some? && Join(names) == p
  {
    hide Join, Wellformed, Components, Cost;
    if names :| Components(names) && At(root, names).Some? && Join(names) == p {
      DueWithin(root, names);
      hide At;
      assert p in Due(At(root, names).value, names).dirs;
    }
    if p in Total(root).dirs {
      assert At(root, []) == Some(root);
      RootNames();
      if p != Join([]) {
        assert root.entries[0..] == root.entries;
        var trail := CostReachable(root, [], root, 0, p);
      }
    }
  }

  lemma {:induction false} RootNames()
    ensures Components([]) && Join([]) == ""
  {
  }

  // ----- walking a path -----------------------------------------------------------------------------------------

  lemma {:induction false} JoinEmpty(names: seq<string>)
    requires Components(names)
    ensures Join(names) == "" <==> names == []
  {
    if names != [] {
      var last := names[|names| - 1];
      assert Component(last);
      assert |Extend(Join(names[..|names| - 1]), last)| >= |last|;
    }
  }

  /** The same path read from the front. */
  lemma {:induction false} JoinFront(names: seq<string>)
    requires Components(names) && |names| >= 2
    ensures Join(names) == names[0] + "/" + Join(names[1..])
  {
    var n := |names|;
    var front := names[..n - 1];
    assert Components(names[1..]);
    assert names[1..][..n - 2] == names[1..n - 1];
    if n == 2 {
      assert front == [names[0]] && names[1..] == [names[1]];
      assert Join([names[0]]) == Extend(Join([]), names[0]) == names[0];
      assert Join([names[1]]) == names[1];
      assert Component(names[0]);
    } else {
      JoinFront(front);
      assert front[1..] == names[1..n - 1];
      JoinEmpty(names[1..n - 1]);
      JoinEmpty(front);
      assert names[1..][|names[1..]| - 1] == names[n - 1];
    }
  }

  /** `std::string::find` for a slash. */
  method FindSlash(s: string, from: nat) returns (r: Option<nat>)
    requires from <= |s|
    ensures r.Some? ==> from <= r.value < |s| && s[r.value] == '/' && '/' !in s[from..r.value]
    ensures r.None? ==> '/' !in s[from..]
  {
    var i := from;
    while i < |s|
      invariant from <= i <= |s| && '/' !in s[from..i]
    {
      if s[i] == '/' { return Some(i); }
      assert s[from..i + 1] == s[from..i] + [s[i]];
      i := i + 1;
    }
    assert s[from..] == s[from..i];
    return None;
  }

  /** Where the first name of a path ends. */
  lemma {:induction false} FirstSlash(names: seq<string>, path: string)
    requires Components(names) && names != [] && path == Join(names)
    ensures |names| == 1 ==> path == names[0] && '/' !in path
    ensures |names| >= 2 ==> |path| > |names[0]| && path[|names[0]|] == '/' && path[..|names[0]|] == names[0]
    ensures |names| >= 2 ==> path[|names[0]| + 1..] == Join(names[1..])
    ensures '/' !in names[0] && names[0] != ""
  {
    assert Component(names[0]);
    if |names| == 1 {
      assert names[..0] == [];
      assert Join(names) == Extend(Join([]), names[0]);
    } else {
      JoinFront(names);
    }
  }

  lemma {:induction false} AtPrefix(root: Node, names: seq<string>, i: nat)
    requires i <= |names| && At(root, names).Some?
    ensures At(root, names[..i]).Some?
    decreases |names|
  {
    if i < |names| {
      var front := names[..|names| - 1];
      AtPrefix(root, front, i);
      assert front[..i] == names[..i];
    } else {
      assert names[..i] == names;
    }
  }

  /** A slash found from the start of a name marks exactly its end. */
  lemma {:induction false} NameEnd(names: seq<string>, path: string, found: Option<nat>)
    requires Components(names) && names != [] && path == Join(names)
    requires found.Some? ==> found.value < |path| && path[found.value] == '/' && '/' !in path[..found.value]
    requires found.None? ==> '/' !in path
    ensures found.None? <==> |names| == 1
    ensures found.Some? ==> found.value == |names[0]| && path[..found.value] == names[0]
    ensures found.Some? ==> path[found.value + 1..] == Join(names[1..])
    ensures found.None? ==> path == names[0]
    ensures path != ""
  {
    FirstSlash(names, path);
    var n := |names[0]|;
    if |names| >= 2 {
      assert path[n] in path;
      var k := found.value;
      assert forall j :: 0 <= j < n ==> path[j] == path[..n][j] && names[0][j] != '/';
      assert forall j :: 0 <= j < k ==> path[..k][j] == path[j] && path[j] != '/';
      assert path[k] == '/' && path[n] == '/';
    }
  }

  /** One component of the path, and the slash after it if any. */
  method NextComponent(relative: string, start: nat, ghost names: seq<string>)
    returns (component: string, end: Option<nat>)
    requires Components(names) && names != [] && start <= |relative| && relative[start..] == Join(names)
    ensures component == names[0]
    ensures end.None? <==> |names| == 1
    ensures end.Some? ==> start <= end.value < |relative| && relative[end.value + 1..] == Join(names[1..])
  {
    hide Join;
    end := FindSlash(relative, start);
    ghost var rest := relative[start..];
    ghost var found := if end.Some? then Some(end.value - start) else None;
    if end.Some? {
      assert rest[..found.value] == relative[start..end.value] && rest[found.value] == '/';
      assert rest[found.value + 1..] == relative[end.value + 1..];
    }
    NameEnd(names, rest, found);
    component := relative[start..if end.None? then |relative| else end.value];
  }

  lemma {:induction false} AtStep(root: Node, names: seq<string>, i: nat, directory: Node)
    requires i < |names| && At(root, names).Some? && At(root, names[..i]) == Some(directory)
    ensures Child(directory.entries, names[i]).Some?
    ensures At(root, names[..i + 1]) == Child(directory.entries, names[i])
  {
    AtPrefix(root, names, i + 1);
    assert names[..i + 1][..i] == names[..i] && names[..i + 1][i] == names[i];
  }

  lemma {:induction false} NamesFrom(names: seq<string>, i: nat)
    requires Components(names) && i < |names|
    ensures Components(names[i..]) && names[i..][0] == names[i] && names[i..][1..] == names[i + 1..]
    ensures |names[i..]| == |names| - i
  {
  }

  /** The loop has opened `directory` by the first `i` names and stands at the next one. */
  ghost predicate Walking(root: Node, names: seq<string>, relative: string, start: nat, i: nat, directory: Node) {
    && i <= |names| && start <= |relative| && At(root, names[..i]) == Some(directory)
    && (i < |names| ==> relative[start..] == Join(names[i..]) && start < |relative|)
    && (i == |names| ==> start == |relative|)
  }

  lemma {:induction false} WalkStarts(root: Node, names: seq<string>)
    requires Components(names) && At(root, names).Some?
    ensures Walking(root, names, Join(names), 0, 0, root)
  {
    AtPrefix(root, names, 0);
    JoinEmpty(names);
    assert names[0..] == names && Join(names)[0..] == Join(names) && names[..0] == [];
  }

  lemma {:induction false} WalkFurther(root: Node, names: seq<string>, relative: string, start: nat, i: nat,
                                       directory: Node, end: Option<nat>)
    requires Components(names) && At(root, names).Some? && i < |names|
    requires Walking(root, names, relative, start, i, directory)
    requires end.None? <==> |names[i..]| == 1
    requires end.Some? ==> end.value < |relative| && relative[end.value + 1..] == Join(names[i..][1..])
    ensures Child(directory.entries, names[i]).Some?
    ensures var d := Child(directory.entries, names[i]).value;
      && (end.None? ==> i + 1 == |names| && At(root, names) == Some(d))
      && (end.Some? ==> Walking(root, names, relative, end.value + 1, i + 1, d))
  {
    hide At, Join, Child, Components;
    NamesFrom(names, i);
    AtStep(root, names, i, directory);
    if i + 1 < |names| {
      NamesFrom(names, i + 1);
      JoinEmpty(names[i + 1..]);
    } else {
      assert names[..i + 1] == names;
    }
  }

  /** The component loop: from the root down to the directory a pending path names. */
  method WalkTo(root: Node, relative: string, walked: nat, fault: nat -> bool, calls: nat, ghost names: seq<string>)
    returns (state: State, directory: Node, components: nat, calls': nat)
    requires Components(names) && relative == Join(names) && At(root, names).Some? && walked <= MAX_COMPONENTS
    ensures state == WithinLimit ==>
      directory == At(root, names).value && components == walked + |names| <= MAX_COMPONENTS
    ensures state == TraversalExceeded ==> walked + |names| > MAX_COMPONENTS
    ensures state == InspectionFailed ==> exists n :: fault(n)
    ensures state == WithinLimit || state == TraversalExceeded || state == InspectionFailed
  {
    calls', components, directory := calls, walked, root;
    if fault(calls') { return InspectionFailed, directory, components, calls'; }
    calls' := calls' + 1;
    WalkStarts(root, names);
    var start: nat := 0;
    ghost var i: nat := 0;
    hide At, Join, Child, Components;
    while start < |relative|
      invariant i <= |names| && Walking(root, names, relative, start, i, directory)
      invariant components == walked + i <= MAX_COMPONENTS
      decreases |names| - i
    {
      NamesFrom(names, i);
      var component, end := NextComponent(relative, start, names[i..]);
      components := components + 1;
      if components > MAX_COMPONENTS { return TraversalExceeded, directory, components, calls'; }
      WalkFurther(root, names, relative, start, i, directory, end);
      if fault(calls') { return InspectionFailed, directory, components, calls'; }
      calls' := calls' + 1;
      directory := Child(directory.entries, component).value;
      i := i + 1;
      if end.None? { return WithinLimit, directory, components, calls'; }
      start := end.value + 1;
    }
    assert names[..|names|] == names;
    return WithinLimit, directory, components, calls';
  }

  // ----- the worklist -------------------------------------------------------------------------------------------

  /** The directory a pending path stands for, still to be paid. */
  function DueAt(root: Node, names: seq<string>): Tally {
    var d := At(root, names);
    if d.Some? then Due(d.value, names) else NOTHING
  }

  function SumDue(root: Node, trails: seq<seq<string>>): Tally {
    if trails == [] then NOTHING
    else Plus(SumDue(root, trails[..|trails| - 1]), DueAt(root, trails[|trails| - 1]))
  }

  function PathBytes(pending: seq<string>): nat {
    if pending == [] then 0 else PathBytes(pending[..|pending| - 1]) + |pending[|pending| - 1]|
  }

  predicate Queued(root: Node, relative: string, names: seq<string>) {
    Components(names) && relative == Join(names) && At(root, names).Some?
  }

  /** The pending paths name directories of the tree. */
  predicate Queue(root: Node, pending: seq<string>, trails: seq<seq<string>>) {
    |pending| == |trails| && forall i :: 0 <= i < |pending| ==> Queued(root, pending[i], trails[i])
  }

  datatype Budget = Budget(pending: seq<string>, pathBytes: nat, entries: nat, charged: nat, calls: nat)

  /** The running counters say what was paid so far, and stay within the limits. */
  predicate Accounts(b: Budget, paid: Tally, allocatedLimit: nat, entryLimit: nat) {
    && b.charged == paid.blocks * BLOCK_BYTES && b.charged <= allocatedLimit
    && b.entries == paid.entries <= entryLimit
    && b.pathBytes == PathBytes(b.pending) && b.pathBytes <= paid.bytes && b.pathBytes <= MAX_PATH_BYTES
    && paid.negative == 0 && paid.long == 0
  }

  /** What each verdict says about the account `t` of the whole tree. */
  ghost predicate Justified(state: State, t: Tally, allocatedLimit: nat, entryLimit: nat, fault: nat -> bool) {
    match state
    case WithinLimit => true
    case AllocatedBytesExceeded => t.blocks * BLOCK_BYTES > allocatedLimit
    case EntriesExceeded => t.entries > entryLimit
    case TraversalExceeded => t.long > 0 || t.bytes > MAX_PATH_BYTES || t.steps > MAX_COMPONENTS
    case InspectionFailed => t.negative > 0 || exists n :: fault(n)
  }

  lemma {:induction false} PathBytesPush(pending: seq<string>, child: string)
    ensures PathBytes(pending + [child]) == PathBytes(pending) + |child|
  {
    assert (pending + [child])[..|pending|] == pending;
  }

  lemma {:induction false} SumDuePush(root: Node, trails: seq<seq<string>>, names: seq<string>)
    ensures SumDue(root, trails + [names]) == Plus(SumDue(root, trails), DueAt(root, names))
  {
    hide DueAt, Plus;
    assert (trails + [names])[..|trails|] == trails;
  }

  lemma {:induction false} ChildUnique(es: seq<Node>, j: nat)
    requires Distinct(es) && j < |es|
    ensures Child(es, es[j].name) == Some(es[j])
  {
    if j > 0 {
      assert es[0].name != es[j].name;
      ChildUnique(es[1..], j - 1);
    }
  }

  lemma {:induction false} EachWellformed(es: seq<Node>, j: nat)
    requires WellformedEach(es) && j < |es|
    ensures Component(es[j].name) && Wellformed(es[j].entries)
  {
    if j > 0 {
      EachWellformed(es[1..], j - 1);
    }
  }

  lemma {:induction false} AtWellformed(root: Node, names: seq<string>)
    requires Wellformed(root.entries) && At(root, names).Some?
    ensures Wellformed(At(root, names).value.entries)
    decreases |names|
  {
    if names != [] {
      var front := names[..|names| - 1];
      AtWellformed(root, front);
      var es := At(root, front).value.entries;
      var child := Child(es, names[|names| - 1]).value;
      var j :| 0 <= j < |es| && es[j] == child;
      EachWellformed(es, j);
    }
  }

  /** A directory entry of a reached directory is reached by one more name. */
  lemma {:induction false} AtEntry(root: Node, names: seq<string>, directory: Node, j: nat)
    requires At(root, names) == Some(directory) && Components(names) && Wellformed(directory.entries)
    requires j < |directory.entries|
    ensures Components(names + [directory.entries[j].name])
    ensures Join(names + [directory.entries[j].name]) == Extend(Join(names), directory.entries[j].name)
    ensures directory.entries[j].directory ==> At(root, names + [directory.entries[j].name]) == Some(directory.entries[j])
  {
    hide WellformedEach, Distinct, Component, Child;
    var names' := names + [directory.entries[j].name];
    assert names'[..|names|] == names;
    EachWellformed(directory.entries, j);
    ChildUnique(directory.entries, j);
  }

  /** Paying one entry and queueing what it makes due. */
  lemma {:induction false} Shuffle(paid: Tally, sum: Tally, seen: Tally, due: Tally, rest: Tally)
    ensures Plus(Plus(paid, sum), Plus(Plus(seen, due), rest)) == Plus(Plus(Plus(paid, seen), Plus(sum, due)), rest)
  {
  }

  lemma {:induction false} PlusNothing(a: Tally)
    ensures Plus(a, NOTHING) == a && Plus(NOTHING, a) == a
  {
  }

  /** The whole account `t` holds at least what was paid and what the next entry adds. */
  lemma {:induction false} EntryTotals(paid: Tally, sum: Tally, e: Node, path: string, due: Tally, rest: Tally)
    ensures var t := Plus(Plus(paid, sum), Plus(Plus(Seen(e, path), due), rest));
      && t.entries >= paid.entries + 1 && t.blocks >= paid.blocks + Max(e.blocks, 0)
      && (e.blocks < 0 ==> t.negative > 0)
      && (e.directory ==> t.bytes >= paid.bytes + |path|)
      && (e.directory && |path| > MAX_RELATIVE_PATH ==> t.long > 0)
  {
  }

  /** The counters after a file, and after a queued directory. */
  lemma {:induction false} EntryPaid(b: Budget, paid: Tally, e: Node, path: string, allocatedLimit: nat, entryLimit: nat)
    requires Accounts(b, paid, allocatedLimit, entryLimit)
    requires b.entries + 1 <= entryLimit && 0 <= e.blocks <= (allocatedLimit - b.charged) / BLOCK_BYTES
    ensures var b' := b.(entries := b.entries + 1, calls := b.calls + 1, charged := b.charged + e.blocks * BLOCK_BYTES);
      (!e.directory ==> Accounts(b', Plus(paid, Seen(e, path)), allocatedLimit, entryLimit))
      && (e.directory && |path| <= MAX_RELATIVE_PATH && b.pathBytes + |path| <= MAX_PATH_BYTES ==>
            Accounts(b'.(pathBytes := b.pathBytes + |path|, pending := b.pending + [path]),
                     Plus(paid, Seen(e, path)), allocatedLimit, entryLimit))
  {
    hide PathBytes;
    PathBytesPush(b.pending, path);
  }

  lemma {:induction false} QueuePush(root: Node, pending: seq<string>, trails: seq<seq<string>>, child: string, names: seq<string>)
    requires Queue(root, pending, trails) && Queued(root, child, names)
    ensures Queue(root, pending + [child], trails + [names])
  {
    hide Queued;
  }

  lemma {:induction false} LimitsOf(b: Budget, paid: Tally, allocatedLimit: nat, entryLimit: nat)
    requires Accounts(b, paid, allocatedLimit, entryLimit)
    ensures b.charged == paid.blocks * BLOCK_BYTES <= allocatedLimit && b.entries == paid.entries
    ensures b.pathBytes <= paid.bytes && b.pathBytes <= MAX_PATH_BYTES
  {
  }

  /** Counting and sizing one entry; `t` is an account that holds at least this entry beside what was paid. */
  method ChargeEntry(e: Node, allocatedLimit: nat, entryLimit: nat, fault: nat -> bool, b: Budget, ghost paid: Tally,
                     ghost t: Tally)
    returns (state: State, b': Budget)
    requires Accounts(b, paid, allocatedLimit, entryLimit)
    requires t.entries >= paid.entries + 1 && t.blocks >= paid.blocks + Max(e.blocks, 0)
    requires e.blocks < 0 ==> t.negative > 0
    ensures Justified(state, t, allocatedLimit, entryLimit, fault)
    ensures state == WithinLimit ==>
      b.entries + 1 <= entryLimit && 0 <= e.blocks <= (allocatedLimit - b.charged) / BLOCK_BYTES
      && b' == b.(entries := b.entries + 1, calls := b.calls + 1, charged := b.charged + e.blocks * BLOCK_BYTES)
  {
    hide PathBytes;
    b' := b.(entries := b.entries + 1);
    if b'.entries > entryLimit { return EntriesExceeded, b'; }
    if fault(b'.calls) { return InspectionFailed, b'; }
    b' := b'.(calls := b'.calls + 1);
    if e.blocks < 0 { return InspectionFailed, b'; }
    if e.blocks > (allocatedLimit - Min(b'.charged, allocatedLimit)) / BLOCK_BYTES {
      return AllocatedBytesExceeded, b';
    }
    b' := b'.(charged := b'.charged + e.blocks * BLOCK_BYTES);
    return WithinLimit, b';
  }

  /** One `readdir` entry: counted, sized, and queued if it is a directory. */
  method ListEntry(ghost root: Node, e: Node, relative: string, ghost names: seq<string>,
                   allocatedLimit: nat, entryLimit: nat, fault: nat -> bool,
                   b: Budget, ghost trails: seq<seq<string>>, ghost paid: Tally, ghost rest: Tally)
    returns (state: State, b': Budget, ghost trails': seq<seq<string>>, ghost paid': Tally)
    requires Queue(root, b.pending, trails) && Accounts(b, paid, allocatedLimit, entryLimit)
    requires Components(names + [e.name]) && Join(names + [e.name]) == Extend(relative, e.name)
    requires e.directory ==> At(root, names + [e.name]) == Some(e)
    ensures Justified(state, Plus(Plus(paid, SumDue(root, trails)), Plus(EntryCost(e, names), rest)),
                      allocatedLimit, entryLimit, fault)
    ensures state == WithinLimit ==>
      Queue(root, b'.pending, trails') && Accounts(b', paid', allocatedLimit, entryLimit)
    ensures state == WithinLimit ==>
      paid' == Plus(paid, Seen(e, Join(names + [e.name])))
      && Plus(Plus(paid', SumDue(root, trails')), rest)
         == Plus(Plus(paid, SumDue(root, trails)), Plus(EntryCost(e, names), rest))
  {
    hide Cost, EntryCost, At, Join, Due, Queued, Components, Queue, Plus, Seen, SumDue, DueAt, Accounts, Justified;
    ghost var path := names + [e.name];
    ghost var seen, due := Seen(e, Join(path)), if e.directory then Due(e, path) else NOTHING;
    EntryParts(e, names);
    ghost var t := Plus(Plus(paid, SumDue(root, trails)), Plus(EntryCost(e, names), rest));
    EntryTotals(paid, SumDue(root, trails), e, Join(path), due, rest);
    Shuffle(paid, SumDue(root, trails), seen, due, rest);
    LimitsOf(b, paid, allocatedLimit, entryLimit);
    trails', paid' := trails, Plus(paid, seen);
    state, b' := ChargeEntry(e, allocatedLimit, entryLimit, fault, b, paid, t);
    if state != WithinLimit { return; }
    EntryPaid(b, paid, e, Join(path), allocatedLimit, entryLimit);
    if e.directory {
      var child := Extend(relative, e.name);
      if |child| > MAX_RELATIVE_PATH || |child| > MAX_PATH_BYTES - Min(b'.pathBytes, MAX_PATH_BYTES) {
        TraversalJustified(t, allocatedLimit, entryLimit, fault);
        return TraversalExceeded, b', trails', paid';
      }
      b' := b'.(pathBytes := b'.pathBytes + |child|, pending := b'.pending + [child]);
      trails' := trails + [path];
      SumDuePush(root, trails, path);
      DueReached(root, path, e);
      QueuedNow(root, child, path);
      QueuePush(root, b.pending, trails, child, path);
    } else {
      PlusNothing(SumDue(root, trails));
    }
    return WithinLimit, b', trails', paid';
  }

  lemma {:induction false} EntryParts(e: Node, names: seq<string>)
    ensures var path := names + [e.name];
      EntryCost(e, names) == Plus(Seen(e, Join(path)), if e.directory then Due(e, path) else NOTHING)
  {
  }

  lemma {:induction false} DueReached(root: Node, names: seq<string>, e: Node)
    requires At(root, names) == Some(e)
    ensures DueAt(root, names) == Due(e, names)
  {
  }

  lemma {:induction false} TraversalJustified(t: Tally, allocatedLimit: nat, entryLimit: nat, fault: nat -> bool)
    requires t.long > 0 || t.bytes > MAX_PATH_BYTES
    ensures Justified(TraversalExceeded, t, allocatedLimit, entryLimit, fault)
  {
  }

  lemma {:induction false} QueuedNow(root: Node, child: string, names: seq<string>)
    requires Components(names) && child == Join(names) && At(root, names).Some?
    ensures Queued(root, child, names)
  {
  }

  /** The `readdir` loop over one directory. */
  method ListDirectory(ghost root: Node, directory: Node, relative: string, ghost names: seq<string>,
                       allocatedLimit: nat, entryLimit: nat, fault: nat -> bool,
                       b: Budget, ghost trails: seq<seq<string>>, ghost paid: Tally)
    returns (state: State, b': Budget, ghost trails': seq<seq<string>>, ghost paid': Tally)
    requires Queue(root, b.pending, trails) && Accounts(b, paid, allocatedLimit, entryLimit)
    requires Queued(root, relative, names) && At(root, names) == Some(directory) && Wellformed(directory.entries)
    ensures Justified(state, Plus(Plus(paid, SumDue(root, trails)), Cost(directory.entries, names)),
                      allocatedLimit, entryLimit, fault)
    ensures state == WithinLimit ==>
      Queue(root, b'.pending, trails') && Accounts(b', paid', allocatedLimit, entryLimit)
    ensures state == WithinLimit ==>
      paid'.steps == paid.steps && paid'.dirs == paid.dirs && paid'.count == paid.count
      && Plus(paid', SumDue(root, trails')) == Plus(Plus(paid, SumDue(root, trails)), Cost(directory.entries, names))
  {
    hide Accounts, Queue, Justified, At, Join, Due, EntryCost, Components, Wellformed, SumDue;
    b', trails', paid' := b, trails, paid;
    ghost var t := Plus(Plus(paid, SumDue(root, trails)), Cost(directory.entries, names));
    var es := directory.entries;
    assert es[0..] == es;
    if fault(b'.calls) {
      FaultJustified(t, allocatedLimit, entryLimit, fault, b'.calls);
      return InspectionFailed, b', trails', paid';
    }
    b' := Called(b');
    AccountsCalled(b, paid, allocatedLimit, entryLimit);
    var j: nat := 0;
    while j < |es|
      invariant j <= |es|
      invariant Queue(root, b'.pending, trails') && Accounts(b', paid', allocatedLimit, entryLimit)
      invariant paid'.steps == paid.steps && paid'.dirs == paid.dirs && paid'.count == paid.count
      invariant Plus(Plus(paid', SumDue(root, trails')), Cost(es[j..], names)) == t
    {
      if fault(b'.calls) {
        FaultJustified(t, allocatedLimit, entryLimit, fault, b'.calls);
        return InspectionFailed, b', trails', paid';
      }
      AccountsCalled(b', paid', allocatedLimit, entryLimit);
      b' := Called(b');
      QueuedParts(root, relative, names);
      AtEntry(root, names, directory, j);
      ghost var before := paid';
      state, b', trails', paid' := ListEntry(root, es[j], relative, names, allocatedLimit, entryLimit, fault,
                                             b', trails', paid', Cost(es[j + 1..], names));
      if state != WithinLimit { return state, b', trails', paid'; }
      j := j + 1;
    }
    PlusNothing(Plus(paid', SumDue(root, trails')));
    JustifiedWithin(t, allocatedLimit, entryLimit, fault);
    return WithinLimit, b', trails', paid';
  }

  /** One more system call. */
  function Called(b: Budget): Budget { b.(calls := b.calls + 1) }

  lemma {:induction false} AccountsCalled(b: Budget, paid: Tally, allocatedLimit: nat, entryLimit: nat)
    requires Accounts(b, paid, allocatedLimit, entryLimit)
    ensures Accounts(Called(b), paid, allocatedLimit, entryLimit)
  {
  }

  lemma {:induction false} FaultJustified(t: Tally, allocatedLimit: nat, entryLimit: nat, fault: nat -> bool, n: nat)
    requires fault(n)
    ensures Justified(InspectionFailed, t, allocatedLimit, entryLimit, fault)
  {
  }

  lemma {:induction false} JustifiedWithin(t: Tally, allocatedLimit: nat, entryLimit: nat, fault: nat -> bool)
    ensures Justified(WithinLimit, t, allocatedLimit, entryLimit, fault)
  {
  }

  lemma {:induction false} QueuedParts(root: Node, relative: string, names: seq<string>)
    requires Queued(root, relative, names)
    ensures Components(names) && relative == Join(names) && At(root, names).Some?
  {
  }

  // ----- the whole walk -------------------------------------------------------------------------------------------

  /** Popping a pending directory and opening it. */
  lemma {:induction false} PopDue(root: Node, trails: seq<seq<string>>, paid: Tally, directory: Node)
    requires trails != [] && At(root, trails[|trails| - 1]) == Some(directory)
    ensures var names := trails[|trails| - 1]; var front := trails[..|trails| - 1];
      Plus(paid, SumDue(root, trails))
      == Plus(Plus(Plus(paid, Opened(names)), SumDue(root, front)), Cost(directory.entries, names))
  {
    hide Opened, Cost, At;
    var names, front := trails[|trails| - 1], trails[..|trails| - 1];
    Reorder(paid, SumDue(root, front), Opened(names), Cost(directory.entries, names));
  }

  lemma {:induction false} Reorder(paid: Tally, sum: Tally, opening: Tally, cost: Tally)
    ensures Plus(paid, Plus(sum, Plus(opening, cost))) == Plus(Plus(Plus(paid, opening), sum), cost)
  {
  }

  /** The root's checks and the worklist.  `fault(n)` says whether the n-th system call fails, and `expanded` lists
      the directories opened.  Every verdict is justified by the account of the whole tree; the tree passes only if
      all of it was expanded, each directory as often as it occurs, and all of it is within both limits. */
  method ExpandPending(root: Node, allocatedLimit: nat, entryLimit: nat, fault: nat -> bool)
    returns (state: State, expanded: seq<string>)
    requires Wellformed(root.entries) && (!root.directory ==> fault(0))
    ensures Justified(state, Total(root), allocatedLimit, entryLimit, fault)
    ensures state == WithinLimit ==>
      Total(root).blocks * BLOCK_BYTES <= allocatedLimit && Total(root).entries <= entryLimit
      && Total(root).negative == 0 && Total(root).long == 0 && Total(root).steps <= MAX_COMPONENTS
    ensures multiset(expanded) <= Total(root).dirs
    ensures state == WithinLimit ==> multiset(expanded) == Total(root).dirs
  {
    hide Cost, At, Join, Due, Queued, Components, Wellformed;
    expanded := [];
    ghost var t := Total(root);
    if fault(0) || fault(1) { return InspectionFailed, expanded; }
    if root.blocks < 0 { return InspectionFailed, expanded; }
    if root.blocks > allocatedLimit / BLOCK_BYTES { return AllocatedBytesExceeded, expanded; }
    var b := Budget([""], 0, 0, root.blocks * BLOCK_BYTES, 2);
    var components: nat := 0;
    ghost var trails: seq<seq<string>> := [[]];
    ghost var paid := Tally(root.blocks, 0, 0, 0, 0, 0, 0, multiset{});
    StartQueue(root, paid);
    hide Accounts, Queue, SumDue, Total, Plus, Opened, Justified;
    while b.pending != []
      invariant Queue(root, b.pending, trails) && Accounts(b, paid, allocatedLimit, entryLimit)
      invariant Plus(paid, SumDue(root, trails)) == t
      invariant paid.steps == components <= MAX_COMPONENTS && paid.dirs == multiset(expanded)
      decreases t.count - paid.count
    {
      var last := |b.pending| - 1;
      QueueLast(root, b.pending, trails);
      ghost var names := trails[last];
      var relative := b.pending[last];
      PopBudget(b, paid, allocatedLimit, entryLimit);
      b := b.(pending := b.pending[..last], pathBytes := b.pathBytes - |relative|);
      var directory, calls;
      QueuedParts(root, relative, names);
      WithinTotal(paid, SumDue(root, trails), t);
      state, directory, components, calls := WalkTo(root, relative, components, fault, b.calls, names);
      PopDue(root, trails, paid, At(root, names).value);
      StepsWithin(paid, names, SumDue(root, trails[..last]), Cost(At(root, names).value.entries, names), t);
      if state != WithinLimit {
        WalkJustified(state, t, paid.steps + |names|, allocatedLimit, entryLimit, fault);
        return;
      }
      b := b.(calls := calls);
      PayOpened(b, paid, names, allocatedLimit, entryLimit);
      OpenedParts(paid, names);
      paid := Plus(paid, Opened(names));
      trails := trails[..last];
      expanded := expanded + [relative];
      AtWellformed(root, names);
      state, b, trails, paid := ListDirectory(root, directory, relative, names, allocatedLimit, entryLimit, fault,
                                              b, trails, paid);
      if state != WithinLimit { return; }
      WithinTotal(paid, SumDue(root, trails), t);
    }
    QueueEmpty(root, trails, paid, b);
    AccountsMean(b, paid, allocatedLimit, entryLimit);
    JustifiedWithin(t, allocatedLimit, entryLimit, fault);
    return WithinLimit, expanded;
  }

  lemma {:induction false} WithinTotal(paid: Tally, rest: Tally, t: Tally)
    requires Plus(paid, rest) == t
    ensures paid.dirs <= t.dirs && paid.count <= t.count
  {
  }

  lemma {:induction false} StepsWithin(paid: Tally, names: seq<string>, sum: Tally, cost: Tally, t: Tally)
    requires Plus(Plus(Plus(paid, Opened(names)), sum), cost) == t
    ensures paid.steps + |names| <= t.steps && Plus(paid, Opened(names)).dirs <= t.dirs
    ensures paid.count < t.count
  {
  }

  lemma {:induction false} OpenedParts(paid: Tally, names: seq<string>)
    ensures var next := Plus(paid, Opened(names));
      next.steps == paid.steps + |names| && next.dirs == paid.dirs + multiset{Join(names)} && next.count == paid.count + 1
  {
  }

  lemma {:induction false} WalkJustified(state: State, t: Tally, steps: nat, allocatedLimit: nat, entryLimit: nat,
                                         fault: nat -> bool)
    requires state == TraversalExceeded ==> MAX_COMPONENTS < steps <= t.steps
    requires state == InspectionFailed ==> exists n :: fault(n)
    requires state == WithinLimit || state == TraversalExceeded || state == InspectionFailed
    requires steps <= t.steps
    ensures Justified(state, t, allocatedLimit, entryLimit, fault)
  {
  }

  lemma {:induction false} StartQueue(root: Node, paid: Tally)
    requires root.directory
    requires root.blocks >= 0 && paid == Tally(root.blocks, 0, 0, 0, 0, 0, 0, multiset{})
    ensures Queue(root, [""], [[]]) && Plus(paid, SumDue(root, [[]])) == Total(root) && PathBytes([""]) == 0
  {
    hide Cost;
    assert Queued(root, "", []);
    SumDuePush(root, [], []);
    var none: seq<seq<string>> := [];
    assert none + [[]] == [[]];
    PlusNothing(Due(root, []));
    PathBytesPush([], "");
    assert [] + [""] == [""];
  }

  lemma {:induction false} QueueLast(root: Node, pending: seq<string>, trails: seq<seq<string>>)
    requires Queue(root, pending, trails) && pending != []
    ensures |trails| == |pending| && Queued(root, pending[|pending| - 1], trails[|pending| - 1])
    ensures Queue(root, pending[..|pending| - 1], trails[..|pending| - 1])
  {
    hide Queued;
  }

  lemma {:induction false} PopBudget(b: Budget, paid: Tally, allocatedLimit: nat, entryLimit: nat)
    requires Accounts(b, paid, allocatedLimit, entryLimit) && b.pending != []
    ensures var last := |b.pending| - 1;
      b.pathBytes >= |b.pending[last]| &&
      Accounts(b.(pending := b.pending[..last], pathBytes := b.pathBytes - |b.pending[last]|), paid, allocatedLimit, entryLimit)
  {
  }

  lemma {:induction false} PayOpened(b: Budget, paid: Tally, names: seq<string>, allocatedLimit: nat, entryLimit: nat)
    requires Accounts(b, paid, allocatedLimit, entryLimit)
    ensures Accounts(b, Plus(paid, Opened(names)), allocatedLimit, entryLimit)
  {
  }

  lemma {:induction false} QueueEmpty(root: Node, trails: seq<seq<string>>, paid: Tally, b: Budget)
    requires Queue(root, b.pending, trails) && b.pending == []
    ensures Plus(paid, SumDue(root, trails)) == paid
  {
    PlusNothing(paid);
  }

  lemma {:induction false} AccountsMean(b: Budget, paid: Tally, allocatedLimit: nat, entryLimit: nat)
    requires Accounts(b, paid, allocatedLimit, entryLimit)
    ensures paid.blocks * BLOCK_BYTES <= allocatedLimit && paid.entries <= entryLimit
    ensures paid.negative == 0 && paid.long == 0
  {
  }

  /** `inspect_scratch_tree` on an unchanging tree: every verdict is justified, a passing one by the whole tree; and
      where no system call fails and no traversal budget can run out, the tree passes exactly if its blocks and its
      entries are within both limits, and a refusal names the limit it passes. */
  method InspectScratchTree(root: Node, allocatedLimit: nat, entryLimit: nat, fault: nat -> bool)
    returns (state: State, expanded: seq<string>)
    requires Wellformed(root.entries) && (!root.directory ==> fault(0))
    ensures Justified(state, Total(root), allocatedLimit, entryLimit, fault)
    ensures state == WithinLimit ==>
      TreeBlocks(root) * 512 <= allocatedLimit && Inodes(root.entries) <= entryLimit
      && Total(root).negative == 0 && Total(root).long == 0 && Total(root).steps <= MAX_COMPONENTS
    ensures multiset(expanded) <= Total(root).dirs
    ensures state == WithinLimit ==> multiset(expanded) == Total(root).dirs
    ensures Total(root).negative == 0 && Total(root).long == 0 && Total(root).bytes <= 4194304
            && Total(root).steps <= 65536 && (forall n :: !fault(n)) ==>
      && (state == WithinLimit <==>
            TreeBlocks(root) * 512 <= allocatedLimit && Inodes(root.entries) <= entryLimit)
      && (state == AllocatedBytesExceeded ==> TreeBlocks(root) * 512 > allocatedLimit)
      && (state == EntriesExceeded ==> Inodes(root.entries) > entryLimit)
      && (state == WithinLimit || state == AllocatedBytesExceeded || state == EntriesExceeded)
  {
    TotalIsTree(root);
    hide Total, TreeBlocks, Inodes;
    state, expanded := ExpandPending(root, allocatedLimit, entryLimit, fault);
  }

  // ----- every directory once --------------------------------------------------------------------------------------

  /** `p` is the path `c` or lies below it. */
  predicate Under(c: string, p: string) { p == c || (|p| > |c| && p[..|c|] == c && p[|c|] == '/') }

  lemma {:induction false} UnderExtend(base: string, name: string, p: string)
    requires base != "" && name != "" && Under(Extend(base, name), p)
    ensures Under(base, p) && p != base
  {
    var c := base + "/" + name;
    assert Extend(base, name) == c;
    assert c[..|base|] == base && c[|base|] == '/';
    assert p[..|c|] == c;
    assert p[..|base|] == p[..|c|][..|base|];
    assert p[|base|] == p[..|c|][|base|];
  }

  /** Two children of one directory have nothing below both. */
  lemma {:induction false} SiblingsApart(base: string, a: string, b: string, p: string)
    requires Component(a) && Component(b) && Under(Extend(base, a), p) && Under(Extend(base, b), p)
    ensures a == b
  {
    var ca, cb := Extend(base, a), Extend(base, b);
    var k := |ca| - |a|;
    assert ca[k..] == a && cb[k..] == b;
    assert p[..|ca|] == ca && p[..|cb|] == cb;
    assert |ca| == |cb|;
  }

  lemma {:induction false} JoinOneMore(base: seq<string>, name: string)
    ensures Join(base + [name]) == Extend(Join(base), name)
  {
    assert (base + [name])[..|base|] == base;
  }

  /** `p` is the path of an entry of the directory at `base`, or lies below one. */
  predicate UnderSome(es: seq<Node>, base: seq<string>, p: string) {
    es != [] && (Under(Extend(Join(base), es[0].name), p) || UnderSome(es[1..], base, p))
  }

  /** Every directory path below a list of entries lies under one of them. */
  lemma {:induction false} CostUnder(es: seq<Node>, base: seq<string>, p: string)
    requires WellformedEach(es) && Components(base) && p in Cost(es, base).dirs
    ensures UnderSome(es, base, p)
    decreases es, 0
  {
    CostParts(es, base, p);
    hide Cost, EntryCost, WellformedEach, Components, Under;
    if p in EntryCost(es[0], base).dirs {
      EntryUnder(es[0], base, p);
    } else {
      CostUnder(es[1..], base, p);
    }
  }

  lemma {:induction false} CostParts(es: seq<Node>, base: seq<string>, p: string)
    requires WellformedEach(es) && p in Cost(es, base).dirs
    ensures es != [] && (p in EntryCost(es[0], base).dirs || p in Cost(es[1..], base).dirs)
    ensures Component(es[0].name) && WellformedEach(es[0].entries) && WellformedEach(es[1..])
  {
    hide EntryCost;
  }

  lemma {:induction false} EntryUnder(e: Node, base: seq<string>, p: string)
    requires Component(e.name) && WellformedEach(e.entries) && Components(base) && p in EntryCost(e, base).dirs
    ensures Under(Extend(Join(base), e.name), p)
    decreases e, 1
  {
    var names := base + [e.name];
    JoinOneMore(base, e.name);
    JoinEmpty(names);
    hide Join, Extend, Under, UnderSome, WellformedEach;
    if p != Join(names) {
      CostUnder(e.entries, names, p);
      SomeIsBelow(e.entries, names, p);
    } else {
      UnderItself(p);
    }
  }

  lemma {:induction false} UnderItself(p: string)
    ensures Under(p, p)
  {
  }

  /** What lies under some entry lies properly below the directory. */
  lemma {:induction false} SomeIsBelow(es: seq<Node>, names: seq<string>, p: string)
    requires WellformedEach(es) && UnderSome(es, names, p)
    ensures Join(names) != "" ==> Under(Join(names), p)
    ensures p != Join(names)
  {
    hide Join, Under;
    if Under(Extend(Join(names), es[0].name), p) {
      BelowBase(Join(names), es[0].name, p);
    } else {
      SomeIsBelow(es[1..], names, p);
    }
  }

  lemma {:induction false} BelowBase(base: string, name: string, p: string)
    requires name != "" && Under(Extend(base, name), p)
    ensures base != "" ==> Under(base, p)
    ensures p != base
  {
    if base != "" {
      UnderExtend(base, name, p);
    }
  }

  /** An entry and differently named siblings share nothing. */
  lemma {:induction false} ApartFromAll(e: Node, es: seq<Node>, base: seq<string>, p: string)
    requires Component(e.name) && WellformedEach(es) && Under(Extend(Join(base), e.name), p)
    requires forall j :: 0 <= j < |es| ==> es[j].name != e.name
    ensures !UnderSome(es, base, p)
  {
    hide Join, Under, Extend;
    if es != [] {
      ApartFromAll(e, es[1..], base, p);
      if Under(Extend(Join(base), es[0].name), p) {
        SiblingsApart(Join(base), e.name, es[0].name, p);
      }
    }
  }

  /** No directory path occurs twice below a list of well-formed entries. */
  lemma {:induction false} CostOnce(es: seq<Node>, base: seq<string>, p: string)
    requires Wellformed(es) && Components(base)
    ensures Cost(es, base).dirs[p] <= 1
    decreases es, 0
  {
    if es != [] {
      TailDistinct(es);
      EntryOnce(es[0], base, p);
      CostOnce(es[1..], base, p);
      hide EntryCost, Under, UnderSome;
      if p in EntryCost(es[0], base).dirs && p in Cost(es[1..], base).dirs {
        EntryUnder(es[0], base, p);
        CostUnder(es[1..], base, p);
        ApartFromAll(es[0], es[1..], base, p);
      }
    }
  }

  lemma {:induction false} TailDistinct(es: seq<Node>)
    requires Distinct(es) && es != []
    ensures Distinct(es[1..]) && forall j :: 0 <= j < |es[1..]| ==> es[1..][j].name != es[0].name
  {
  }

  lemma {:induction false} EntryOnce(e: Node, base: seq<string>, p: string)
    requires Component(e.name) && Distinct(e.entries) && WellformedEach(e.entries) && Components(base)
    ensures EntryCost(e, base).dirs[p] <= 1
    decreases e, 1
  {
    var names := base + [e.name];
    CostOnce(e.entries, names, p);
    NotBelowItself(e.entries, names);
  }

  lemma {:induction false} NotBelowItself(es: seq<Node>, names: seq<string>)
    requires WellformedEach(es) && Components(names)
    ensures Join(names) !in Cost(es, names).dirs
  {
    hide Join, Cost, UnderSome;
    if Join(names) in Cost(es, names).dirs {
      CostUnder(es, names, Join(names));
      SomeIsBelow(es, names, Join(names));
    }
  }

  /** In a well-formed tree every directory path occurs once: the walk expands no directory twice. */
  lemma {:induction false} ExpandedOnce(root: Node, expanded: seq<string>, i: nat, j: nat)
    requires Wellformed(root.entries) && multiset(expanded) <= Total(root).dirs && i < j < |expanded|
    ensures expanded[i] != expanded[j]
  {
    var p := expanded[i];
    CostOnce(root.entries, [], p);
    NotBelowItself(root.entries, []);
    assert Total(root).dirs[p] <= 1;
    if expanded[j] == p {
      TwiceCounted(expanded, i, j);
    }
  }

  lemma {:induction false} TwiceCounted(s: seq<string>, i: nat, j: nat)
    requires i < j < |s| && s[i] == s[j]
    ensures multiset(s)[s[i]] >= 2
  {
    assert s == s[..j] + [s[j]] + s[j + 1..];
    assert s[i] in s[..j];
    assert multiset(s) == multiset(s[..j]) + multiset{s[j]} + multiset(s[j + 1..]);
  }
}

/** The initrd and kernel directories never show two entries, crashes included. */
module SingleEntry {
  import opened Words
  import opened FileTree
  import opened Listing
  import opened FileOps
  import opened BootDirectory
  import opened CrashSafety

  /** The two procedures that own a whole directory. */
  datatype Call =
    | LinkCall(name: string, target: Path)
    | ConcatCall(name: string, a: Path, b: Path)

  function Perform(w: World, d: Disk, dir: Path, call: Call): IoResult {
    match call
    case LinkCall(name, target) => EnsureSymlink(w, d, dir, name, target)
    case ConcatCall(name, a, b) => ConcatenateFiles(w, d, dir + [name], a, b)
  }

  /** Sources are reached without links, outside the directory's tree. */
  predicate Fits(t: Tree, dir: Path, call: Call) {
    call.ConcatCall? ==>
      Plain(t, call.a) && Plain(t, call.b) && dir != [] && call.a[0] != dir[0] && call.b[0] != dir[0]
  }

  /** Removals work, and the temporary names drawn are not the one to be served. */
  ghost predicate Decent(w: World, call: Call) {
    NoRemovalFails(w) && (call.ConcatCall? ==> Undrawn(w, CONCAT_PREFIX, call.name))
  }

  function ClaimOf(t: Tree, dir: Path, call: Call): Claim {
    match call
    case LinkCall(name, target) => Claim(t, dir + [name], PointsTo(target), true, false, None)
    case ConcatCall(name, a, b) => Claim(t, dir + [name], Data(Joined(t, a, b)), true, false, None)
  }

  ghost predicate SingleThrough(d: Disk, e: Disk, dir: Path) {
    && d.log <= e.log && OneEntry(e.nodes, dir)
    && forall k | |d.log| <= k < |e.log| :: OneEntry(e.log[k], dir)
  }

  /**
   * One call, under every fault but failing removals: the directory has at most one entry in every
   * tree on the way, the name is absent, as before or complete, and success leaves it alone there.
   */
  lemma CallKeepsSingle(w: World, d: Disk, dir: Path, call: Call)
    requires OneEntry(d.nodes, dir) && Decent(w, call) && Fits(d.nodes, dir, call)
    requires Direct(d.nodes, dir + [call.name])
    ensures var r, c := Perform(w, d, dir, call), ClaimOf(d.nodes, dir, call);
            && Good(c, d, r.disk) && SingleThrough(d, r.disk, dir)
            && (r.ok ==> c.dst in r.disk.nodes && OnlyChild(r.disk.nodes, dir, c.dst))
  {
    hide Good, Plain, Content, ConcatenateFiles, EnsureSymlink, OneEntry, OnlyChild, Skips, Undrawn;
    var c := ClaimOf(d.nodes, dir, call);
    assert Parent(c.dst) == dir && c.dst[|c.dst| - 1] == call.name;
    TidyStarts(c, d);
    match call
    case LinkCall(name, target) =>
      SymlinkSafe(w, c, d, name, target);
      SingleFromGood(c, d, Perform(w, d, dir, call).disk);
    case ConcatCall(name, a, b) =>
      ConcatSafe(w, c, d, a, b);
      SingleFromGood(c, d, Perform(w, d, dir, call).disk);
      if Skips(w, d, c.dst, a, b) {
        SkippedNameExists(w, d, c.dst, a, b);
        HoldsOneEntry(c, d.nodes);
      }
  }

  lemma TidyStarts(c: Claim, d: Disk)
    requires c.before == d.nodes && c.dst != [] && c.kept == None
    requires OneEntry(d.nodes, Parent(c.dst)) && !c.timed
    ensures HoldsBy(c, d.nodes, d.clock)
  {
  }

  lemma SingleFromGood(c: Claim, d: Disk, e: Disk)
    requires Good(c, d, e) && c.tidy
    ensures SingleThrough(d, e, Parent(c.dst))
  {
    hide OneEntry;
  }

  /** A name whose modification time can be read is an entry. */
  lemma SkippedNameExists(w: World, d: Disk, dst: Path, a: Path, b: Path)
    requires Skips(w, d, dst, a, b) && dst != [] && Direct(d.nodes, dst)
    ensures dst in d.nodes
  {
    WalkLast(d.nodes, dst, MAX_LINKS);
  }

  // ---- the other entries ----

  ghost predicate Temporary(w: World, q: Path) {
    q != [] && exists n: nat :: q[|q| - 1] == CONCAT_PREFIX + w.pick(n)
  }

  /** Of the entries other than dst, each was there before or is a temporary file of this call. */
  ghost predicate Littered(w: World, dst: Path, t: Tree, u: Tree) {
    forall q | q in u && IsChild(Parent(dst), q) && q != dst ::
      (q in t && u[q] == t[q]) || (Temporary(w, q) && u[q].File?)
  }

  ghost predicate LitteredThrough(w: World, dst: Path, t: Tree, earlier: seq<Tree>, d: Disk) {
    && earlier <= d.log && Littered(w, dst, t, d.nodes)
    && forall k | |earlier| <= k < |d.log| :: Littered(w, dst, t, d.log[k])
  }

  lemma LitterPut(w: World, dst: Path, t: Tree, earlier: seq<Tree>, d: Disk, u: Tree)
    requires LitteredThrough(w, dst, t, earlier, d) && Littered(w, dst, t, u)
    ensures LitteredThrough(w, dst, t, earlier, Put(w, d, u))
  {
    hide Littered;
  }

  lemma LitterNext(w: World, dst: Path, t: Tree, earlier: seq<Tree>, d: Disk)
    requires LitteredThrough(w, dst, t, earlier, d)
    ensures LitteredThrough(w, dst, t, earlier, Next(w, d))
  {
    hide Littered;
  }

  lemma {:induction false} LitterEntries(w: World, dst: Path, t: Tree, earlier: seq<Tree>, d: Disk, names: seq<string>)
    requires LitteredThrough(w, dst, t, earlier, d)
    ensures LitteredThrough(w, dst, t, earlier, RemoveEntries(w, d, Parent(dst), names))
    decreases |names|
  {
    hide LitteredThrough, Temporary;
    if names != [] {
      var p := Parent(dst) + [names[0]];
      LitterNext(w, dst, t, earlier, d);
      LitterHere(w, dst, t, earlier, d);
      LitterPut(w, dst, t, earlier, d, Without(d.nodes, p));
      LitterEntries(w, dst, t, earlier, RemoveAll(w, d, p), names[1..]);
    }
  }

  lemma LitterHere(w: World, dst: Path, t: Tree, earlier: seq<Tree>, d: Disk)
    requires LitteredThrough(w, dst, t, earlier, d)
    ensures Littered(w, dst, t, d.nodes)
  {
    hide Littered;
  }

  lemma LitterSymlink(w: World, d: Disk, dst: Path, target: Path)
    requires dst != []
    ensures LitteredThrough(w, dst, d.nodes, d.log, EnsureSymlink(w, d, Parent(dst), dst[|dst| - 1], target).disk)
  {
    hide LitteredThrough, RemoveEntries, Entries, Temporary;
    var t, log := d.nodes, d.log;
    assert Parent(dst) + [dst[|dst| - 1]] == dst;
    LitterStart(w, dst, d);
    var d1 := Next(w, d);
    LitterNext(w, dst, t, log, d);
    LitterNext(w, dst, t, log, d1);
    var d2 := Next(w, d1);
    var d3 := RemoveEntries(w, d2, Parent(dst), Entries(t, Parent(dst)));
    LitterEntries(w, dst, t, log, d2, Entries(t, Parent(dst)));
    LitterNext(w, dst, t, log, d3);
    LitterHere(w, dst, t, log, d3);
    LitterPut(w, dst, t, log, d3, d3.nodes[dst := Link(target)]);
  }

  lemma LitterStart(w: World, dst: Path, d: Disk)
    ensures LitteredThrough(w, dst, d.nodes, d.log, d)
  {
  }

  lemma LitterAppend(w: World, dst: Path, t: Tree, earlier: seq<Tree>, d: Disk, tmp: Path, data: Bytes)
    requires LitteredThrough(w, dst, t, earlier, d) && IsFile(d, tmp) && Temporary(w, tmp)
    ensures LitteredThrough(w, dst, t, earlier, Append(w, d, tmp, data).disk)
  {
    hide LitteredThrough, Temporary;
    LitterHere(w, dst, t, earlier, d);
    LitterPut(w, dst, t, earlier, d, Append(w, d, tmp, data).disk.nodes);
  }

  lemma LitterCopy(w: World, dst: Path, t: Tree, earlier: seq<Tree>, d: Disk, tmp: Path, src: Path)
    requires LitteredThrough(w, dst, t, earlier, d) && IsFile(d, tmp) && Temporary(w, tmp)
    ensures LitteredThrough(w, dst, t, earlier, CopyFrom(w, d, tmp, src).disk)
  {
    hide LitteredThrough, Temporary, Append, Content;
    LitterNext(w, dst, t, earlier, d);
    if OpenRead(w, d, src).Some? {
      LitterAppend(w, dst, t, earlier, Next(w, d), tmp, OpenRead(w, d, src).value);
    }
  }

  lemma LitterPublish(w: World, dst: Path, t: Tree, earlier: seq<Tree>, d: Disk, tmp: Path)
    requires LitteredThrough(w, dst, t, earlier, d)
    ensures LitteredThrough(w, dst, t, earlier, Publish(w, d, tmp, dst).disk)
  {
    hide LitteredThrough, Temporary;
    var d1 := Next(w, d);
    var d2 := Next(w, d1);
    LitterNext(w, dst, t, earlier, d);
    LitterNext(w, dst, t, earlier, d1);
    LitterNext(w, dst, t, earlier, d2);
    LitterHere(w, dst, t, earlier, d2);
    if tmp in d2.nodes {
      LitterPut(w, dst, t, earlier, d2, (d2.nodes - {tmp})[dst := d2.nodes[tmp]]);
    }
  }

  lemma LitterFill(w: World, dst: Path, t: Tree, earlier: seq<Tree>, d: Disk, tmp: Path, a: Path, b: Path)
    requires LitteredThrough(w, dst, t, earlier, d) && IsFile(d, tmp) && Temporary(w, tmp)
    ensures LitteredThrough(w, dst, t, earlier, FillAndPublish(w, d, tmp, dst, a, b).disk)
  {
    hide LitteredThrough, Temporary, CopyFrom, Publish;
    var first := CopyFrom(w, d, tmp, a);
    LitterCopy(w, dst, t, earlier, d, tmp, a);
    var second := CopyFrom(w, first.disk, tmp, b);
    LitterCopy(w, dst, t, earlier, first.disk, tmp, b);
    LitterPublish(w, dst, t, earlier, second.disk, tmp);
  }

  lemma LitterRebuild(w: World, dst: Path, t: Tree, earlier: seq<Tree>, d: Disk, a: Path, b: Path)
    requires LitteredThrough(w, dst, t, earlier, d) && dst != []
    ensures LitteredThrough(w, dst, t, earlier, Rebuild(w, d, dst, a, b).disk)
  {
    hide LitteredThrough, Temporary, FillAndPublish, RemoveEntries, Entries;
    LitterNext(w, dst, t, earlier, d);
    if ReadDir(w, d, Parent(dst)).Some? {
      var names := ReadDir(w, d, Parent(dst)).value;
      var d1 := RemoveEntries(w, Next(w, d), Parent(dst), names);
      LitterEntries(w, dst, t, earlier, Next(w, d), names);
      LitterNext(w, dst, t, earlier, d1);
      var tmp := TempPath(w, d1, Parent(dst), CONCAT_PREFIX);
      assert Temporary(w, tmp) by { DrawnIsTemporary(w, d1, Parent(dst)); }
      var made := CreateTemp(w, d1, Parent(dst), CONCAT_PREFIX);
      if made.ok {
        LitterHere(w, dst, t, earlier, d1);
        LitterPut(w, dst, t, earlier, d1, made.disk.nodes);
        LitterFill(w, dst, t, earlier, made.disk, tmp, a, b);
        var r := FillAndPublish(w, made.disk, tmp, dst, a, b);
        LitterNext(w, dst, t, earlier, r.disk);
        LitterHere(w, dst, t, earlier, r.disk);
        LitterPut(w, dst, t, earlier, r.disk, r.disk.nodes - {tmp});
      }
    }
  }

  lemma DrawnIsTemporary(w: World, d: Disk, dir: Path)
    ensures Temporary(w, TempPath(w, d, dir, CONCAT_PREFIX))
  {
    var tmp := TempPath(w, d, dir, CONCAT_PREFIX);
    assert tmp[|tmp| - 1] == CONCAT_PREFIX + w.pick(d.step);
  }

  lemma LitterConcat(w: World, d: Disk, dst: Path, a: Path, b: Path)
    requires dst != []
    ensures LitteredThrough(w, dst, d.nodes, d.log, ConcatenateFiles(w, d, dst, a, b).disk)
  {
    hide LitteredThrough, Rebuild, StatTime;
    var t, log := d.nodes, d.log;
    LitterStart(w, dst, d);
    var d1 := Next(w, d);
    var d2 := Next(w, d1);
    var d3 := Next(w, d2);
    LitterNext(w, dst, t, log, d);
    LitterNext(w, dst, t, log, d1);
    LitterNext(w, dst, t, log, d2);
    LitterRebuild(w, dst, t, log, d1, a, b);
    LitterRebuild(w, dst, t, log, d3, a, b);
  }

  lemma LitterPerform(w: World, d: Disk, dir: Path, call: Call)
    ensures LitteredThrough(w, dir + [call.name], d.nodes, d.log, Perform(w, d, dir, call).disk)
  {
    hide LitteredThrough, ConcatenateFiles, EnsureSymlink;
    var dst := dir + [call.name];
    assert Parent(dst) == dir && dst[|dst| - 1] == call.name;
    match call
    case LinkCall(name, target) => LitterSymlink(w, d, dst, target);
    case ConcatCall(name, a, b) => LitterConcat(w, d, dst, a, b);
  }

  // ---- any sequence of calls, stopped anywhere ----

  /** A call, stopped after the operation that logged tree number `crash` if that is given. */
  datatype Attempt = Attempt(w: World, call: Call, crash: Option<nat>)

  function AfterAttempt(d: Disk, dir: Path, at: Attempt): Disk {
    var e := Perform(at.w, d, dir, at.call).disk;
    match at.crash
    case None => e
    case Some(k) => StoppedAt(d, e, k)
  }

  function RunAttempts(d: Disk, dir: Path, ats: seq<Attempt>): Disk
    decreases |ats|
  {
    if ats == [] then d else AfterAttempt(RunAttempts(d, dir, ats[..|ats| - 1]), dir, ats[|ats| - 1])
  }

  ghost predicate AllFit(t: Tree, dir: Path, ats: seq<Attempt>) {
    forall at | at in ats :: Decent(at.w, at.call) && Fits(t, dir, at.call) && at.call.name != ".."
  }

  function GoalOf(t: Tree, call: Call): Goal {
    match call
    case LinkCall(_, target) => PointsTo(target)
    case ConcatCall(_, a, b) => Data(Joined(t, a, b))
  }

  /** What this attempt can have put at q: a temporary file, or its complete output. */
  ghost predicate FromAttempt(t: Tree, dir: Path, at: Attempt, q: Path, n: Node) {
    || (Temporary(at.w, q) && n.File?)
    || (q == dir + [at.call.name] && Meets(n, GoalOf(t, at.call)))
  }

  /** An entry from before, a temporary file, or the complete output or wanted link of some call so far. */
  ghost predicate EntryKnown(t: Tree, dir: Path, ats: seq<Attempt>, q: Path, n: Node) {
    (q in t && n == t[q]) || exists at | at in ats :: FromAttempt(t, dir, at, q, n)
  }

  ghost predicate AllKnown(t: Tree, dir: Path, ats: seq<Attempt>, u: Tree) {
    forall q | q in u && IsChild(dir, q) :: EntryKnown(t, dir, ats, q, u[q])
  }

  /** A call leaves the later calls' sources plain, and their goals the same. */
  lemma CallKeepsFit(t: Tree, u: Tree, dir: Path, call: Call)
    requires ChangedOnlyIn(t, u, dir) && Fits(t, dir, call)
    ensures Fits(u, dir, call) && GoalOf(u, call) == GoalOf(t, call)
  {
    hide ChangedOnlyIn, Content, ModTime;
    if call.ConcatCall? {
      OutsideIsSame(t, u, dir, call.a[0]);
      OutsideIsSame(t, u, dir, call.b[0]);
      PlainSame(t, u, call.a);
      PlainSame(t, u, call.b);
    }
  }

  /** dir and everything above it are real directories. */
  predicate RealDir(t: Tree, dir: Path) {
    !Upward(dir) && forall k | 0 <= k <= |dir| :: DirAt(t, dir[..k])
  }

  lemma RealDirStays(t: Tree, u: Tree, dir: Path, name: string)
    requires ChangedOnlyIn(t, u, dir) && RealDir(t, dir) && name != ".."
    ensures RealDir(u, dir) && Direct(u, dir + [name])
  {
    forall k | 0 <= k <= |dir| ensures DirAt(u, dir[..k]) {
      assert !(dir < dir[..k]);
      assert DirAt(t, dir[..k]);
    }
    var q := dir + [name];
    forall k | 0 <= k < |q| ensures DirAt(u, q[..k]) {
      assert q[..k] == dir[..k];
    }
  }

  /** Any tree a call shows: one entry, known if all were known before. */
  lemma TreeKnown(t: Tree, e: Tree, u: Tree, dir: Path, ats: seq<Attempt>, at: Attempt)
    requires AllKnown(t, dir, ats, e) && Littered(at.w, dir + [at.call.name], e, u)
    requires Holds(ClaimOf(e, dir, at.call), u) && GoalOf(e, at.call) == GoalOf(t, at.call)
    ensures AllKnown(t, dir, ats + [at], u) && OneEntry(u, dir) && ChangedOnlyIn(e, u, dir)
  {
    hide ChangedOnlyIn, Temporary, Meets, OneEntry, Joined;
    var dst := dir + [at.call.name];
    assert Parent(dst) == dir && at in ats + [at];
    forall q | q in u && IsChild(dir, q) ensures EntryKnown(t, dir, ats + [at], q, u[q]) {
      if q in e && u[q] == e[q] {
        KnownLater(t, dir, ats, at, q, u[q]);
      } else {
        assert FromAttempt(t, dir, at, q, u[q]);
      }
    }
  }

  lemma KnownLater(t: Tree, dir: Path, ats: seq<Attempt>, at: Attempt, q: Path, n: Node)
    requires EntryKnown(t, dir, ats, q, n)
    ensures EntryKnown(t, dir, ats + [at], q, n)
  {
    hide FromAttempt;
    if !(q in t && n == t[q]) {
      var old' :| old' in ats && FromAttempt(t, dir, old', q, n);
      assert old' in ats + [at];
    }
  }

  lemma AttemptKnown(t: Tree, e: Disk, dir: Path, ats: seq<Attempt>, at: Attempt)
    requires ChangedOnlyIn(t, e.nodes, dir) && OneEntry(e.nodes, dir) && RealDir(e.nodes, dir)
        && AllKnown(t, dir, ats, e.nodes)
    requires Decent(at.w, at.call) && Fits(t, dir, at.call) && at.call.name != ".."
    ensures var u := AfterAttempt(e, dir, at).nodes;
            AllKnown(t, dir, ats + [at], u) && OneEntry(u, dir) && ChangedOnlyIn(e.nodes, u, dir)
  {
    hide ChangedOnlyIn, OneEntry, RealDir, AllKnown, Fits, Decent, Perform, Littered, Holds, Direct, OnlyChild,
         GoalOf, Good, LitteredThrough;
    var call, dst := at.call, dir + [at.call.name];
    var c := ClaimOf(e.nodes, dir, call);
    assert Parent(c.dst) == dir && c.dst == dst;
    CallKeepsFit(t, e.nodes, dir, call);
    UnchangedOutside(e.nodes, dir);
    RealDirStays(e.nodes, e.nodes, dir, call.name);
    CallKeepsSingle(at.w, e, dir, call);
    LitterPerform(at.w, e, dir, call);
    var f := Perform(at.w, e, dir, call).disk;
    GoodHolds(at.w, c, e, f);
    LitterHere(at.w, dst, e.nodes, e.log, f);
    if at.crash == None {
      TreeKnown(t, e.nodes, f.nodes, dir, ats, at);
    } else if |e.log| <= at.crash.value < |f.log| {
      GoodLogged(c, e, f, at.crash.value);
      LitterLogged(at.w, dst, e.nodes, e.log, f, at.crash.value);
      TreeKnown(t, e.nodes, f.log[at.crash.value], dir, ats, at);
    } else {
      NothingHappened(t, e.nodes, dir, ats, at);
    }
  }

  lemma NothingHappened(t: Tree, e: Tree, dir: Path, ats: seq<Attempt>, at: Attempt)
    requires AllKnown(t, dir, ats, e)
    ensures AllKnown(t, dir, ats + [at], e)
  {
    hide EntryKnown;
    forall q | q in e && IsChild(dir, q) ensures EntryKnown(t, dir, ats + [at], q, e[q]) {
      KnownLater(t, dir, ats, at, q, e[q]);
    }
  }

  lemma LitterLogged(w: World, dst: Path, t: Tree, earlier: seq<Tree>, d: Disk, k: nat)
    requires LitteredThrough(w, dst, t, earlier, d) && |earlier| <= k < |d.log|
    ensures Littered(w, dst, t, d.log[k])
  {
    hide Littered;
  }

  /**
   * Over any sequence of link and concatenation calls, each run to its end or stopped after any file
   * operation, the next starting from what the last one left: the directory never holds two entries,
   * and the one it holds was there before, is a temporary file, or is complete.
   */
  lemma {:induction false} NeverTwoEntries(d: Disk, dir: Path, ats: seq<Attempt>)
    requires OneEntry(d.nodes, dir) && RealDir(d.nodes, dir) && AllFit(d.nodes, dir, ats)
    ensures var e := RunAttempts(d, dir, ats);
            && OneEntry(e.nodes, dir) && AllKnown(d.nodes, dir, ats, e.nodes)
            && ChangedOnlyIn(d.nodes, e.nodes, dir) && RealDir(e.nodes, dir)
    decreases |ats|
  {
    hide OneEntry, RealDir, AllKnown, ChangedOnlyIn, AfterAttempt, Decent, Fits, Direct;
    UnchangedOutside(d.nodes, dir);
    if ats == [] {
      NothingYet(d.nodes, dir);
    } else {
      var init, at := ats[..|ats| - 1], ats[|ats| - 1];
      assert ats == init + [at] && at in ats;
      NeverTwoEntries(d, dir, init);
      var e := RunAttempts(d, dir, init);
      AttemptKnown(d.nodes, e, dir, init, at);
      ChangedTwice(d.nodes, e.nodes, AfterAttempt(e, dir, at).nodes, dir);
      RealDirStays(e.nodes, AfterAttempt(e, dir, at).nodes, dir, "");
    }
  }

  lemma NothingYet(t: Tree, dir: Path)
    ensures AllKnown(t, dir, [], t)
  {
  }

  /** After such a run, a call that succeeds leaves its name alone in the directory. */
  lemma SuccessLeavesOne(d: Disk, dir: Path, ats: seq<Attempt>, w: World, call: Call)
    requires OneEntry(d.nodes, dir) && RealDir(d.nodes, dir) && AllFit(d.nodes, dir, ats + [Attempt(w, call, None)])
    requires Perform(w, RunAttempts(d, dir, ats), dir, call).ok
    ensures var u := Perform(w, RunAttempts(d, dir, ats), dir, call).disk.nodes;
            var dst := dir + [call.name];
            && dst in u && OnlyChild(u, dir, dst)
            && EntryKnown(d.nodes, dir, ats + [Attempt(w, call, None)], dst, u[dst])
  {
    hide OneEntry, RealDir, ChangedOnlyIn, Decent, Fits, Direct, Perform, OnlyChild, EntryKnown, RunAttempts, Good;
    var last := Attempt(w, call, None);
    var all := ats + [last];
    assert last in all && all[..|all| - 1] == ats && all[|all| - 1] == last;
    NeverTwoEntries(d, dir, ats);
    var e := RunAttempts(d, dir, ats);
    AttemptKnown(d.nodes, e, dir, ats, last);
    CallKeepsFit(d.nodes, e.nodes, dir, call);
    UnchangedOutside(e.nodes, dir);
    RealDirStays(e.nodes, e.nodes, dir, call.name);
    CallKeepsSingle(w, e, dir, call);
    assert IsChild(dir, dir + [call.name]);
  }
}

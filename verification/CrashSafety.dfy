/**
 * What every intermediate tree of an assembly procedure looks like, whatever fails: changes stay
 * inside one directory, and the published name is absent, as before, or completely new.
 */
module CrashSafety {
  import opened Words
  import opened FileTree
  import opened Listing
  import opened FileOps
  import opened BootDirectory

  /** What the published name is meant to become; Data(None) when the sources cannot be read. */
  datatype Goal = Data(bytes: Option<Bytes>) | PointsTo(target: Path)

  predicate Meets(n: Node, g: Goal) {
    match g
    case Data(b) => n.File? && b == Some(n.data)
    case PointsTo(target) => n == Link(target)
  }

  /**
   * tidy adds that the directory never holds two entries; it needs removals that work.
   * timed adds that dst is never stamped in the future; it needs a start where it is not.
   * kept is a sibling of dst that stays as it was, for procedures that spare siblings.
   */
  datatype Claim = Claim(before: Tree, dst: Path, goal: Goal, tidy: bool, timed: bool, kept: Option<Path>)

  predicate OnlyChild(t: Tree, dir: Path, p: Path) {
    forall q | q in t && IsChild(dir, q) :: q == p
  }

  predicate OneEntry(t: Tree, dir: Path) {
    forall p, q | p in t && q in t && IsChild(dir, p) && IsChild(dir, q) :: p == q
  }

  predicate DstSound(c: Claim, t: Tree) {
    c.dst in t ==> (c.dst in c.before && t[c.dst] == c.before[c.dst]) || Meets(t[c.dst], c.goal)
  }

  predicate SiblingKept(c: Claim, t: Tree) {
    c.kept.Some? ==>
      && (c.kept.value in t <==> c.kept.value in c.before)
      && (c.kept.value in t ==> t[c.kept.value] == c.before[c.kept.value])
  }

  ghost predicate Holds(c: Claim, t: Tree) {
    && c.dst != [] && c.kept != Some(c.dst)
    && ChangedOnlyIn(c.before, t, Parent(c.dst))
    && DstSound(c, t) && SiblingKept(c, t)
    && (c.tidy ==> OneEntry(t, Parent(c.dst)))
  }

  /** No published file is stamped later than `now`. */
  predicate Stamped(t: Tree, dst: Path, now: nat) {
    dst in t && t[dst].File? ==> t[dst].mtime <= now
  }

  ghost predicate HoldsBy(c: Claim, t: Tree, now: nat) {
    Holds(c, t) && (c.timed ==> Stamped(t, c.dst, now))
  }

  /** d was reached from d0 through trees that all satisfy the claim. */
  ghost predicate Good(c: Claim, d0: Disk, d: Disk) {
    && d0.clock <= d.clock && d0.log <= d.log
    && HoldsBy(c, d.nodes, d.clock)
    && forall k | |d0.log| <= k < |d.log| :: HoldsBy(c, d.log[k], d.clock)
  }

  lemma GoodStart(c: Claim, d: Disk)
    requires HoldsBy(c, d.nodes, d.clock)
    ensures Good(c, d, d)
  {
  }

  lemma GoodNext(w: World, c: Claim, d0: Disk, d: Disk)
    requires Good(c, d0, d)
    ensures Good(c, d0, Next(w, d))
  {
    hide Holds;
  }

  lemma GoodPut(w: World, c: Claim, d0: Disk, d: Disk, t: Tree)
    requires Good(c, d0, d) && HoldsBy(c, t, Next(w, d).clock)
    ensures Good(c, d0, Put(w, d, t))
  {
    hide Holds;
  }

  lemma GoodTransitive(c: Claim, d0: Disk, d1: Disk, d2: Disk)
    requires Good(c, d0, d1) && Good(c, d1, d2)
    ensures Good(c, d0, d2)
  {
    hide Holds;
    forall k | |d0.log| <= k < |d2.log| ensures HoldsBy(c, d2.log[k], d2.clock) {
      if k < |d1.log| {
        assert d2.log[k] == d1.log[k];
      }
    }
  }

  // ---- tree edits that keep the claim ----

  lemma KeepsWithout(c: Claim, t: Tree, p: Path, now: nat)
    requires HoldsBy(c, t, now) && Parent(c.dst) < p && c.kept == None
    ensures HoldsBy(c, Without(t, p), now)
  {
  }

  lemma KeepsRemove(c: Claim, t: Tree, p: Path, now: nat)
    requires HoldsBy(c, t, now) && IsChild(Parent(c.dst), p) && c.kept != Some(p)
    ensures HoldsBy(c, t - {p}, now)
  {
    assert Parent(c.dst) < p by { ChildBelow(Parent(c.dst), p); }
  }

  lemma ChildBelow(dir: Path, p: Path)
    requires IsChild(dir, p)
    ensures dir < p && p == dir + [p[|p| - 1]]
  {
  }

  lemma KeepsOther(c: Claim, t: Tree, p: Path, n: Node, now: nat)
    requires HoldsBy(c, t, now) && IsChild(Parent(c.dst), p) && p != c.dst && c.kept != Some(p)
    requires c.tidy ==> OnlyChild(t, Parent(c.dst), p)
    ensures HoldsBy(c, t[p := n], now)
    ensures c.tidy ==> OnlyChild(t[p := n], Parent(c.dst), p)
  {
    ChildBelow(Parent(c.dst), p);
  }

  lemma KeepsGoal(c: Claim, t: Tree, n: Node, now: nat)
    requires HoldsBy(c, t, now) && Meets(n, c.goal) && (n.File? ==> n.mtime <= now)
    requires c.tidy ==> OnlyChild(t, Parent(c.dst), c.dst)
    ensures HoldsBy(c, t[c.dst := n], now)
    ensures c.tidy ==> OnlyChild(t[c.dst := n], Parent(c.dst), c.dst)
  {
    ChildBelow(Parent(c.dst), c.dst);
  }

  lemma KeepsRename(c: Claim, t: Tree, from: Path, now: nat)
    requires HoldsBy(c, t, now) && from in t && IsChild(Parent(c.dst), from) && Meets(t[from], c.goal)
        && (t[from].File? ==> t[from].mtime <= now) && c.kept != Some(from)
    requires c.tidy ==> OnlyChild(t, Parent(c.dst), from)
    ensures HoldsBy(c, (t - {from})[c.dst := t[from]], now)
    ensures c.tidy ==> OnlyChild((t - {from})[c.dst := t[from]], Parent(c.dst), c.dst)
  {
    KeepsRemove(c, t, from, now);
    KeepsGoal(c, t - {from}, t[from], now);
  }

  // ---- emptying a directory ----

  lemma {:induction false} EntriesRemoved(w: World, c: Claim, d0: Disk, d: Disk, names: seq<string>)
    requires Good(c, d0, d) && c.kept == None
    ensures Good(c, d0, RemoveEntries(w, d, Parent(c.dst), names))
    decreases |names|
  {
    hide Holds, Good, Without;
    if names == [] {
    } else {
      var p := Parent(c.dst) + [names[0]];
      var d1 := RemoveAll(w, d, p);
      if w.removeFault(d.step) {
        GoodNext(w, c, d0, d);
      } else {
        GoodHolds(w, c, d0, d);
        KeepsWithout(c, d.nodes, p, d1.clock);
        GoodPut(w, c, d0, d, Without(d.nodes, p));
      }
      EntriesRemoved(w, c, d0, d1, names[1..]);
    }
  }

  lemma GoodHolds(w: World, c: Claim, d0: Disk, d: Disk)
    requires Good(c, d0, d)
    ensures Holds(c, d.nodes) && HoldsBy(c, d.nodes, Next(w, d).clock)
  {
  }

  predicate RemovalsWork(w: World, d: Disk, names: seq<string>) {
    forall k | d.step <= k < d.step + |names| :: !w.removeFault(k)
  }

  /** With working removals only names outside the list remain. */
  lemma {:induction false} EntriesGone(w: World, d: Disk, dir: Path, names: seq<string>, x: string)
    requires RemovalsWork(w, d, names)
    ensures var d' := RemoveEntries(w, d, dir, names);
            dir + [x] in d'.nodes ==> dir + [x] in d.nodes && x !in names
    decreases |names|
  {
    if names == [] {
    } else {
      var p := dir + [names[0]];
      EntriesGone(w, RemoveAll(w, d, p), dir, names[1..], x);
      if x == names[0] {
        assert p <= dir + [x];
      }
    }
  }

  lemma DirEmptied(w: World, d: Disk, dir: Path, p: Path)
    requires RemovalsWork(w, d, Entries(d.nodes, dir))
    ensures OnlyChild(RemoveEntries(w, d, dir, Entries(d.nodes, dir)).nodes, dir, p)
  {
    var d' := RemoveEntries(w, d, dir, Entries(d.nodes, dir));
    forall q | q in d'.nodes ensures !IsChild(dir, q) {
      if IsChild(dir, q) {
        ChildBelow(dir, q);
        EntriesGone(w, d, dir, Entries(d.nodes, dir), q[|q| - 1]);
        assert false;
      }
    }
  }

  // ---- symbolic links ----

  /** Removals never fail: the hypothesis behind every single-entry claim. */
  ghost predicate NoRemovalFails(w: World) {
    forall n: nat :: !w.removeFault(n)
  }

  /** No operation but a removal fails. */
  ghost predicate Faultless(w: World) {
    forall n: nat :: !w.fault(n)
  }

  lemma SymlinkSafe(w: World, c: Claim, d: Disk, name: string, target: Path)
    requires HoldsBy(c, d.nodes, d.clock) && c.dst == Parent(c.dst) + [name] && c.goal == PointsTo(target)
        && c.kept == None
    requires c.tidy ==> NoRemovalFails(w)
    ensures var r := EnsureSymlink(w, d, Parent(c.dst), name, target);
            && Good(c, d, r.disk)
            && (r.ok ==> c.dst in r.disk.nodes && r.disk.nodes[c.dst] == Link(target))
            && (r.ok && c.tidy ==> OnlyChild(r.disk.nodes, Parent(c.dst), c.dst))
  {
    hide Holds, Good, RemoveEntries, Entries;
    var dir := Parent(c.dst);
    GoodStart(c, d);
    GoodNext(w, c, d, d);
    var d1 := Next(w, d);
    GoodNext(w, c, d, d1);
    if ReadLink(w, d, c.dst) == Some(target) {
      HoldsOneEntry(c, d.nodes);
    } else if ReadDir(w, d1, dir) != None {
      var d2 := Next(w, d1);
      var d3 := RemoveEntries(w, d2, dir, Entries(d.nodes, dir));
      EntriesRemoved(w, c, d, d2, Entries(d.nodes, dir));
      if c.tidy {
        DirEmptied(w, d2, dir, c.dst);
      }
      GoodNext(w, c, d, d3);
      GoodHolds(w, c, d, d3);
      KeepsGoal(c, d3.nodes, Link(target), Next(w, d3).clock);
      GoodPut(w, c, d, d3, d3.nodes[c.dst := Link(target)]);
    }
  }

  lemma HoldsOneEntry(c: Claim, t: Tree)
    requires Holds(c, t)
    ensures c.tidy && c.dst in t ==> OnlyChild(t, Parent(c.dst), c.dst)
  {
  }

  // ---- filling and publishing a temporary file ----

  /** A temporary child of the directory, alone in it when tidy, holding `data` written since `since`. */
  ghost predicate Filling(c: Claim, d0: Disk, d: Disk, tmp: Path, data: Bytes, since: nat) {
    && Good(c, d0, d)
    && IsChild(Parent(c.dst), tmp) && tmp != c.dst && c.kept != Some(tmp)
    && tmp in d.nodes && d.nodes[tmp].File? && d.nodes[tmp].data == data
    && since <= d.nodes[tmp].mtime <= d.clock
    && (c.tidy ==> OnlyChild(d.nodes, Parent(c.dst), tmp))
  }

  lemma FillingNext(w: World, c: Claim, d0: Disk, d: Disk, tmp: Path, data: Bytes, since: nat)
    requires Filling(c, d0, d, tmp, data, since)
    ensures Filling(c, d0, Next(w, d), tmp, data, since)
  {
    GoodNext(w, c, d0, d);
  }

  lemma AppendSafe(w: World, c: Claim, d0: Disk, d: Disk, tmp: Path, data: Bytes, since: nat, more: Bytes)
    requires Filling(c, d0, d, tmp, data, since)
    ensures var r := Append(w, d, tmp, more);
            && Good(c, d0, r.disk)
            && (r.ok ==> Filling(c, d0, r.disk, tmp, data + more, since))
  {
    hide Holds, Good;
    var n := if w.fault(d.step) && w.partial(d.step) < |more| then w.partial(d.step) else |more|;
    var node := if n == 0 then d.nodes[tmp] else File(d.nodes[tmp].data + more[..n], Next(w, d).clock);
    GoodHolds(w, c, d0, d);
    KeepsOther(c, d.nodes, tmp, node, Next(w, d).clock);
    GoodPut(w, c, d0, d, d.nodes[tmp := node]);
    GoodClock(c, d0, d);
    assert data + more[..|more|] == data + more;
    assert n == 0 && !w.fault(d.step) ==> data + more == data;
  }

  lemma GoodClock(c: Claim, d0: Disk, d: Disk)
    requires Good(c, d0, d)
    ensures d0.clock <= d.clock
  {
  }

  /** The sources lie outside the directory, so the claim pins what they contain. */
  lemma SourceStays(c: Claim, t: Tree, src: Path)
    requires Holds(c, t) && Plain(c.before, src) && |c.dst| > 1 && c.dst[0] != src[0]
    ensures Content(t, src) == Content(c.before, src) && ModTime(t, src) == ModTime(c.before, src)
  {
    OutsideIsSame(c.before, t, Parent(c.dst), src[0]);
    PlainSame(c.before, t, src);
  }

  lemma CopySafe(w: World, c: Claim, d0: Disk, d: Disk, tmp: Path, data: Bytes, since: nat, src: Path)
    requires Filling(c, d0, d, tmp, data, since)
    requires Plain(c.before, src) && |c.dst| > 1 && c.dst[0] != src[0]
    ensures var r := CopyFrom(w, d, tmp, src);
            && Good(c, d0, r.disk)
            && (r.ok ==> Content(c.before, src).Some?
                         && Filling(c, d0, r.disk, tmp, data + Content(c.before, src).value, since))
  {
    hide Holds, Good, Plain, Content;
    GoodHolds(w, c, d0, d);
    SourceStays(c, d.nodes, src);
    GoodNext(w, c, d0, d);
    FillingNext(w, c, d0, d, tmp, data, since);
    if OpenRead(w, d, src).Some? {
      AppendSafe(w, c, d0, Next(w, d), tmp, data, since, OpenRead(w, d, src).value);
    }
  }

  /** dst was published at some time in [since, now] and, when tidy, is all the directory holds. */
  predicate Published(c: Claim, d: Disk, since: nat) {
    && c.dst in d.nodes && d.nodes[c.dst].File? && c.goal == Data(Some(d.nodes[c.dst].data))
    && since <= d.nodes[c.dst].mtime <= d.clock
    && (c.tidy ==> OnlyChild(d.nodes, Parent(c.dst), c.dst))
  }

  lemma PublishSafe(w: World, c: Claim, d0: Disk, d: Disk, tmp: Path, data: Bytes, since: nat)
    requires Filling(c, d0, d, tmp, data, since) && c.goal == Data(Some(data))
    ensures var r := Publish(w, d, tmp, c.dst);
            && Good(c, d0, r.disk)
            && (r.ok ==> Published(c, r.disk, since) && tmp !in r.disk.nodes)
  {
    hide Holds, Good, OnlyChild;
    var d1 := Next(w, d);
    FillingNext(w, c, d0, d, tmp, data, since);
    var d2 := Next(w, d1);
    FillingNext(w, c, d0, d1, tmp, data, since);
    GoodNext(w, c, d0, d2);
    GoodHolds(w, c, d0, d2);
    KeepsRename(c, d2.nodes, tmp, Next(w, d2).clock);
    GoodPut(w, c, d0, d2, (d2.nodes - {tmp})[c.dst := d2.nodes[tmp]]);
  }

  lemma RemoveTempSafe(w: World, c: Claim, d0: Disk, d: Disk, tmp: Path)
    requires Good(c, d0, d) && IsChild(Parent(c.dst), tmp) && c.kept != Some(tmp)
    ensures Good(c, d0, Remove(w, d, tmp))
    ensures tmp !in d.nodes ==> Remove(w, d, tmp) == Next(w, d)
  {
    hide Holds, Good;
    GoodNext(w, c, d0, d);
    GoodHolds(w, c, d0, d);
    KeepsRemove(c, d.nodes, tmp, Next(w, d).clock);
    GoodPut(w, c, d0, d, d.nodes - {tmp});
  }

  // ---- concatenation ----

  function Joined(t: Tree, a: Path, b: Path): Option<Bytes> {
    if Content(t, a).Some? && Content(t, b).Some? then Some(Content(t, a).value + Content(t, b).value) else None
  }

  predicate ConcatSetting(c: Claim, a: Path, b: Path) {
    && Plain(c.before, a) && Plain(c.before, b) && |c.dst| > 1 && c.dst[0] != a[0] && c.dst[0] != b[0]
    && c.goal == Data(Joined(c.before, a, b)) && c.kept == None
  }

  lemma FillSafe(w: World, c: Claim, d0: Disk, d: Disk, tmp: Path, a: Path, b: Path, since: nat)
    requires Filling(c, d0, d, tmp, [], since) && ConcatSetting(c, a, b)
    ensures var r := FillAndPublish(w, d, tmp, c.dst, a, b);
            && Good(c, d0, r.disk)
            && (r.ok ==> Published(c, r.disk, since) && tmp !in r.disk.nodes)
  {
    hide Good, Filling, Published, Plain, Content, Publish, CopyFrom;
    FillingIsFile(c, d0, d, tmp, [], since);
    var first := CopyFrom(w, d, tmp, a);
    CopySafe(w, c, d0, d, tmp, [], since, a);
    if first.ok {
      var ca := Content(c.before, a).value;
      assert [] + ca == ca;
      var second := CopyFrom(w, first.disk, tmp, b);
      CopySafe(w, c, d0, first.disk, tmp, ca, since, b);
      if second.ok {
        PublishSafe(w, c, d0, second.disk, tmp, ca + Content(c.before, b).value, since);
      }
    }
  }

  lemma FillingIsFile(c: Claim, d0: Disk, d: Disk, tmp: Path, data: Bytes, since: nat)
    requires Filling(c, d0, d, tmp, data, since)
    ensures IsFile(d, tmp)
  {
  }

  /** No temporary name the world draws is this one. */
  ghost predicate Undrawn(w: World, prefix: string, name: string) {
    forall n: nat :: prefix + w.pick(n) != name
  }

  lemma OtherPrefixUndrawn(w: World, prefix: string, name: string)
    requires !(prefix <= name)
    ensures Undrawn(w, prefix, name)
  {
    forall n: nat ensures prefix + w.pick(n) != name {
      assert prefix <= prefix + w.pick(n);
    }
  }

  /** Neither the published name nor the spared sibling is drawn for a temporary file. */
  ghost predicate NamesApart(w: World, c: Claim, prefix: string) {
    && c.dst != [] && Undrawn(w, prefix, c.dst[|c.dst| - 1])
    && (c.kept.Some? ==> c.kept.value != [] && Undrawn(w, prefix, c.kept.value[|c.kept.value| - 1]))
  }

  lemma TempSafe(w: World, c: Claim, d0: Disk, d: Disk, prefix: string)
    requires Good(c, d0, d) && NamesApart(w, c, prefix)
    requires c.tidy ==> OnlyChild(d.nodes, Parent(c.dst), TempPath(w, d, Parent(c.dst), prefix))
    ensures var made := CreateTemp(w, d, Parent(c.dst), prefix);
            && Good(c, d0, made.disk)
            && (made.ok ==> Filling(c, d0, made.disk, TempPath(w, d, Parent(c.dst), prefix), [], d.clock))
  {
    hide Holds, Good;
    var tmp := TempPath(w, d, Parent(c.dst), prefix);
    assert tmp[|tmp| - 1] == prefix + w.pick(d.step);
    GoodNext(w, c, d0, d);
    GoodHolds(w, c, d0, d);
    var node := File([], Next(w, d).clock);
    KeepsOther(c, d.nodes, tmp, node, Next(w, d).clock);
    GoodPut(w, c, d0, d, d.nodes[tmp := node]);
  }

  lemma RebuildSafe(w: World, c: Claim, d0: Disk, d: Disk, a: Path, b: Path)
    requires Good(c, d0, d) && ConcatSetting(c, a, b) && NamesApart(w, c, CONCAT_PREFIX)
    requires c.tidy ==> NoRemovalFails(w)
    ensures var r := Rebuild(w, d, c.dst, a, b);
            Good(c, d0, r.disk) && (r.ok ==> Published(c, r.disk, d.clock))
  {
    hide Good, Filling, Plain, Content, FillAndPublish, CreateTemp, Entries, RemoveEntries, OnlyChild, TempPath, Remove;
    var dir := Parent(c.dst);
    GoodNext(w, c, d0, d);
    if ReadDir(w, d, dir) != None {
      var names := Entries(d.nodes, dir);
      var d1 := RemoveEntries(w, Next(w, d), dir, names);
      EntriesRemoved(w, c, Next(w, d), Next(w, d), names) by { StartAgain(c, d0, Next(w, d)); }
      StartAgain(c, d0, Next(w, d));
      GoodTransitive(c, d0, Next(w, d), d1);
      GoodClock(c, Next(w, d), d1);
      var tmp := TempPath(w, d1, dir, CONCAT_PREFIX);
      if c.tidy {
        DirEmptied(w, Next(w, d), dir, tmp);
      }
      var made := CreateTemp(w, d1, dir, CONCAT_PREFIX);
      TempSafe(w, c, d0, d1, CONCAT_PREFIX);
      if made.ok {
        FillSafe(w, c, d0, made.disk, tmp, a, b, d1.clock);
        var r := FillAndPublish(w, made.disk, tmp, c.dst, a, b);
        assert IsChild(dir, tmp) by { TempIsChild(w, d1, dir, CONCAT_PREFIX); }
        RemoveTempSafe(w, c, d0, r.disk, tmp);
      }
    }
  }

  lemma TempIsChild(w: World, d: Disk, dir: Path, prefix: string)
    ensures IsChild(dir, TempPath(w, d, dir, prefix))
  {
  }

  lemma TempNotKept(w: World, c: Claim, d: Disk, prefix: string)
    requires NamesApart(w, c, prefix)
    ensures c.kept != Some(TempPath(w, d, Parent(c.dst), prefix))
  {
    var tmp := TempPath(w, d, Parent(c.dst), prefix);
    assert tmp[|tmp| - 1] == prefix + w.pick(d.step);
  }

  lemma StartAgain(c: Claim, d0: Disk, d: Disk)
    requires Good(c, d0, d)
    ensures Good(c, d, d)
  {
  }

  /** Both sources strictly older than what is already at dst, links followed. */
  predicate UpToDate(t: Tree, dst: Path, a: Path, b: Path) {
    && ModTime(t, dst).Some? && ModTime(t, a).Some? && ModTime(t, b).Some?
    && ModTime(t, dst).value > ModTime(t, a).value && ModTime(t, dst).value > ModTime(t, b).value
  }

  /** The call finds both sources strictly older than what is already at dst, and leaves it at that. */
  predicate Skips(w: World, d: Disk, dst: Path, a: Path, b: Path) {
    var td := StatTime(w, d, dst);
    var ta := StatTime(w, Next(w, d), a);
    var tb := StatTime(w, Next(w, Next(w, d)), b);
    td.Some? && ta.Some? && tb.Some? && td.value > ta.value && td.value > tb.value
  }

  lemma SkipsIff(w: World, d: Disk, dst: Path, a: Path, b: Path)
    requires NotDirectory(d.nodes, dst) && NotDirectory(d.nodes, a) && NotDirectory(d.nodes, b)
    ensures Skips(w, d, dst, a, b) <==>
            UpToDate(d.nodes, dst, a, b) && !w.fault(d.step) && !w.fault(d.step + 1) && !w.fault(d.step + 2)
  {
    hide StatTime, NotDirectory, ModTime;
    StatOfFile(w, d, dst);
    StatOfFile(w, Next(w, d), a);
    StatOfFile(w, Next(w, Next(w, d)), b);
  }

  /**
   * Concatenation under every fault: nothing outside the directory changes, the served name is at
   * all times absent, as before or complete, and success means skipped-as-fresh or newly published.
   */
  lemma ConcatSafe(w: World, c: Claim, d: Disk, a: Path, b: Path)
    requires HoldsBy(c, d.nodes, d.clock) && ConcatSetting(c, a, b) && NamesApart(w, c, CONCAT_PREFIX)
    requires c.tidy ==> NoRemovalFails(w)
    ensures var r := ConcatenateFiles(w, d, c.dst, a, b);
            && Good(c, d, r.disk)
            && (r.ok ==> if Skips(w, d, c.dst, a, b) then r.disk.nodes == d.nodes else Published(c, r.disk, d.clock))
  {
    hide Holds, Good, Plain, Content, Rebuild, ModTime, Resolve, NamesApart;
    var d1 := Next(w, d);
    var d2 := Next(w, d1);
    var d3 := Next(w, d2);
    GoodStart(c, d);
    GoodNext(w, c, d, d);
    GoodNext(w, c, d, d1);
    GoodNext(w, c, d, d2);
    RebuildSafe(w, c, d, d1, a, b);
    RebuildSafe(w, c, d, d3, a, b);
  }

  // ---- extraction ----

  /** The complete entry an image offers at `src`, if it has one within the size limit. */
  function Entry(files: map<string, Bytes>, src: string): Option<Bytes> {
    if Rooted(src) in files && |files[Rooted(src)]| <= MAX_EXTRACTED then Some(files[Rooted(src)]) else None
  }

  lemma FillEntrySafe(w: World, c: Claim, d0: Disk, d: Disk, tmp: Path, data: Bytes, since: nat)
    requires Filling(c, d0, d, tmp, [], since)
    requires |data| <= MAX_EXTRACTED ==> c.goal == Data(Some(data))
    ensures var r := FillAndPublishEntry(w, d, tmp, c.dst, data);
            && Good(c, d0, r.disk)
            && (r.ok ==> |data| <= MAX_EXTRACTED && Published(c, r.disk, since) && tmp !in r.disk.nodes)
  {
    hide Good, Filling, Published, Publish, Append;
    FillingIsFile(c, d0, d, tmp, [], since);
    var copied := if |data| <= MAX_EXTRACTED then data else data[..MAX_EXTRACTED + 1];
    AppendSafe(w, c, d0, d, tmp, [], since, copied);
    assert [] + copied == copied;
    var r := Append(w, d, tmp, copied);
    if r.ok && |data| <= MAX_EXTRACTED {
      PublishSafe(w, c, d0, r.disk, tmp, data, since);
    }
  }

  /**
   * Extraction of one entry under every fault: the output is absent, as before or the complete
   * entry, and success means the complete entry, never a truncated one.
   */
  lemma ExtractSafe(w: World, c: Claim, d0: Disk, d: Disk, files: map<string, Bytes>, src: string)
    requires Good(c, d0, d) && !c.tidy && c.goal == Data(Entry(files, src)) && NamesApart(w, c, EXTRACT_PREFIX)
    ensures var r := ExtractFile(w, d, files, src, c.dst);
            && Good(c, d0, r.disk)
            && (r.ok ==> Entry(files, src).Some? && Published(c, r.disk, d.clock))
  {
    hide Good, Filling, Published, FillAndPublishEntry, CreateTemp, TempPath, Remove, Rooted;
    GoodNext(w, c, d0, d);
    var dir, d1 := Parent(c.dst), Next(w, d);
    var tmp := TempPath(w, d1, dir, EXTRACT_PREFIX);
    TempSafe(w, c, d0, d1, EXTRACT_PREFIX);
    var made := CreateTemp(w, d1, dir, EXTRACT_PREFIX);
    if !w.fault(d.step) && Rooted(src) in files && made.ok {
      var data := files[Rooted(src)];
      FillEntrySafe(w, c, d0, made.disk, tmp, data, d1.clock);
      var r := FillAndPublishEntry(w, made.disk, tmp, c.dst, data);
      TempIsChild(w, d1, dir, EXTRACT_PREFIX);
      TempNotKept(w, c, d1, EXTRACT_PREFIX);
      RemoveTempSafe(w, c, d0, r.disk, tmp);
      if r.ok {
        PublishedLater(w, c, r.disk, d1.clock, d.clock);
      }
    }
  }

  lemma PublishedLater(w: World, c: Claim, d: Disk, since: nat, earlier: nat)
    requires Published(c, d, since) && earlier <= since
    ensures Published(c, Next(w, d), earlier)
  {
    hide OnlyChild;
  }

  // ---- directories ----

  /** u is t with some missing directories on the way to p made, from the top down. */
  ghost predicate MadeDirs(t: Tree, u: Tree, p: Path) {
    forall q: Path ::
      && (q in t ==> q in u && u[q] == t[q])
      && (q in u && q !in t ==> q != [] && q <= p && u[q] == Dir && DirAt(u, Parent(q)))
  }

  lemma {:induction false} MkdirEffect(w: World, d: Disk, p: Path)
    ensures var r := MkdirAll(w, d, p);
            && MadeDirs(d.nodes, r.disk.nodes, p) && d.clock <= r.disk.clock && d.log <= r.disk.log
            && (forall k | |d.log| <= k < |r.disk.log| :: MadeDirs(d.nodes, r.disk.log[k], p))
            && (r.ok ==> forall k | 0 <= k <= |p| :: DirAt(r.disk.nodes, p[..k]))
    decreases |p|
  {
    hide MadeDirs;
    if p == [] {
      MadeNone(d.nodes, p);
    } else {
      MkdirEffect(w, d, Parent(p));
      var above := MkdirAll(w, d, Parent(p));
      MadeDirsWiden(d.nodes, above.disk.nodes, Parent(p), p);
      forall k | |d.log| <= k < |above.disk.log| ensures MadeDirs(d.nodes, above.disk.log[k], p) {
        MadeDirsWiden(d.nodes, above.disk.log[k], Parent(p), p);
      }
      assert Parent(p)[..|Parent(p)|] == Parent(p);
      if above.ok && p !in above.disk.nodes {
        MadeOneMore(d.nodes, above.disk.nodes, p);
      }
      if MkdirAll(w, d, p).ok {
        DirsToLast(above.disk.nodes, MkdirAll(w, d, p).disk.nodes, p);
      }
    }
  }

  lemma MadeNone(t: Tree, p: Path)
    ensures MadeDirs(t, t, p)
  {
  }

  lemma MadeOneMore(t: Tree, u: Tree, p: Path)
    requires MadeDirs(t, u, p) && p != [] && p !in u && DirAt(u, Parent(p))
    ensures MadeDirs(t, u[p := Dir], p)
  {
  }

  /** Real directories down to p's parent, and p made one or found one. */
  lemma DirsToLast(t: Tree, u: Tree, p: Path)
    requires p != [] && forall k | 0 <= k <= |Parent(p)| :: DirAt(t, Parent(p)[..k])
    requires DirAt(u, p) && (u == t || u == t[p := Dir])
    ensures forall k | 0 <= k <= |p| :: DirAt(u, p[..k])
  {
    forall k | 0 <= k <= |p| ensures DirAt(u, p[..k]) {
      if k < |p| {
        assert p[..k] == Parent(p)[..k];
        assert DirAt(t, Parent(p)[..k]);
      } else {
        assert p[..k] == p;
      }
    }
  }

  lemma {:induction false} MkdirSucceeds(w: World, d: Disk, p: Path)
    requires Faultless(w) && forall k | 0 < k <= |p| :: p[..k] in d.nodes ==> d.nodes[p[..k]].Dir?
    ensures MkdirAll(w, d, p).ok
    decreases |p|
  {
    if p != [] {
      forall k | 0 < k <= |Parent(p)| ensures Parent(p)[..k] == p[..k] {
      }
      MkdirSucceeds(w, d, Parent(p));
      MkdirEffect(w, d, Parent(p));
      assert p[..|p|] == p;
    }
  }

  lemma MadeDirsWiden(t: Tree, u: Tree, p: Path, q: Path)
    requires MadeDirs(t, u, p) && p <= q
    ensures MadeDirs(t, u, q)
  {
    forall x: Path | x in u && x !in t ensures x <= q {
      assert x <= p;
    }
  }

  /** Real directories stay above p when only entries below `dir`, not a prefix of it, change. */
  lemma DirsStay(t: Tree, u: Tree, dir: Path, p: Path)
    requires DirsAbove(t, p) && ChangedOnlyIn(t, u, dir) && !(dir < Parent(p)) && p != []
    ensures DirsAbove(u, p)
  {
    forall k | 0 <= k < |p| ensures DirAt(u, p[..k]) {
      assert !(dir < p[..k]);
      assert DirAt(t, p[..k]);
    }
  }

  lemma DirectBelow(t: Tree, dir: Path, name: string)
    requires (forall k | 0 <= k <= |dir| :: DirAt(t, dir[..k])) && ".." !in dir && name != ".."
    ensures Direct(t, dir + [name])
  {
    var p := dir + [name];
    forall k | 0 <= k < |p| ensures DirAt(t, p[..k]) {
      assert p[..k] == dir[..k];
    }
  }

  lemma DirectFile(t: Tree, p: Path)
    requires p != [] && Direct(t, p) && p in t && t[p].File?
    ensures Content(t, p) == Some(t[p].data) && ModTime(t, p) == Some(t[p].mtime)
  {
    WalkLast(t, p, MAX_LINKS);
  }

  /** A claim about the present tree holds at the start. */
  lemma ClaimStarts(c: Claim, d: Disk)
    requires c.before == d.nodes && c.dst != [] && c.kept != Some(c.dst) && !c.tidy && Stamped(d.nodes, c.dst, d.clock)
    ensures HoldsBy(c, d.nodes, d.clock)
  {
  }

  lemma GoodLogged(c: Claim, d: Disk, e: Disk, k: nat)
    requires Good(c, d, e) && |d.log| <= k < |e.log|
    ensures HoldsBy(c, e.log[k], e.clock)
  {
    hide HoldsBy;
  }

  lemma GoodLog(c: Claim, d: Disk, e: Disk)
    requires Good(c, d, e)
    ensures d.log <= e.log && HoldsBy(c, e.nodes, e.clock)
  {
    hide HoldsBy;
  }

  lemma MadeBootDirsSpareArtifacts(t: Tree, u: Tree, p: Path)
    requires MadeDirs(t, u, p) && p != [] && p[0] == "boot"
    ensures SameBelow(t, u, ["artifacts"])
  {
    assert "boot"[0] != "artifacts"[0];
    forall q: Path | ["artifacts"] <= q ensures (q in t <==> q in u) && (q in t ==> t[q] == u[q]) {
      if q in u && q !in t {
        assert false;
      }
    }
  }

  lemma UnchangedOutside(t: Tree, dir: Path)
    ensures ChangedOnlyIn(t, t, dir)
  {
  }

  lemma ChangedTwice(t: Tree, u: Tree, v: Tree, dir: Path)
    requires ChangedOnlyIn(t, u, dir) && ChangedOnlyIn(u, v, dir)
    ensures ChangedOnlyIn(t, v, dir)
  {
  }

  lemma {:induction false} MkdirIdle(w: World, d: Disk, p: Path)
    requires forall k | 0 <= k <= |p| :: DirAt(d.nodes, p[..k])
    ensures var r := MkdirAll(w, d, p); r.ok && r.disk.nodes == d.nodes && r.disk.log == d.log
    decreases |p|
  {
    if p != [] {
      forall k | 0 <= k <= |Parent(p)| ensures DirAt(d.nodes, Parent(p)[..k]) {
        assert Parent(p)[..k] == p[..k];
      }
      MkdirIdle(w, d, Parent(p));
      assert p[..|p|] == p;
    }
  }
}

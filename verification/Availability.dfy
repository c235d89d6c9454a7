/**
 * Without faults a reconcile succeeds exactly when the bytes it needs are there: the run theorems
 * about successful reconciles are never about nothing.
 */
module Availability {
  import opened Words
  import opened FileTree
  import opened Listing
  import opened FileOps
  import opened BootDirectory
  import opened ArtifactStore
  import opened Assembly
  import opened CrashSafety
  import NB = InitrdCache
  import ISO = IsoCache
  import CacheRuns

  lemma ContentHasTime(t: Tree, p: Path)
    ensures Content(t, p).Some? <==> ModTime(t, p).Some?
  {
  }

  /** Every name on the way to p that exists is a directory. */
  predicate Unblocked(t: Tree, p: Path) {
    forall k | 0 < k <= |p| :: p[..k] in t ==> t[p[..k]].Dir?
  }

  // ---- emptying and linking ----

  lemma {:induction false} EntriesSpare(w: World, d: Disk, dir: Path, names: seq<string>)
    ensures ChangedOnlyIn(d.nodes, RemoveEntries(w, d, dir, names).nodes, dir)
    decreases |names|
  {
    hide ChangedOnlyIn;
    if names == [] {
      UnchangedOutside(d.nodes, dir);
    } else {
      var d1 := RemoveAll(w, d, dir + [names[0]]);
      assert ChangedOnlyIn(d.nodes, d1.nodes, dir) by { RemovalSpares(w, d, dir, names[0]); }
      EntriesSpare(w, d1, dir, names[1..]);
      ChangedTwice(d.nodes, d1.nodes, RemoveEntries(w, d1, dir, names[1..]).nodes, dir);
    }
  }

  lemma RemovalSpares(w: World, d: Disk, dir: Path, name: string)
    ensures ChangedOnlyIn(d.nodes, RemoveAll(w, d, dir + [name]).nodes, dir)
  {
    var u := RemoveAll(w, d, dir + [name]).nodes;
    forall p: Path | !(dir < p) ensures (p in d.nodes <==> p in u) && (p in d.nodes ==> u[p] == d.nodes[p]) {
      assert !(dir + [name] <= p);
    }
  }

  /** With working removals an emptied directory has no child left, and the rest stays. */
  lemma Emptied(w: World, d: Disk, dir: Path, name: string)
    requires NoRemovalFails(w)
    ensures var u := RemoveEntries(w, d, dir, Entries(d.nodes, dir)).nodes;
            && dir + [name] !in u && ChangedOnlyIn(d.nodes, u, dir)
            && (DirAt(d.nodes, dir) ==> DirAt(u, dir))
  {
    hide Entries, RemoveEntries, ChangedOnlyIn;
    DirEmptied(w, d, dir, []);
    EntriesSpare(w, d, dir, Entries(d.nodes, dir));
    var u := RemoveEntries(w, d, dir, Entries(d.nodes, dir)).nodes;
    assert IsChild(dir, dir + [name]);
    if DirAt(d.nodes, dir) {
      DirSpared(d.nodes, u, dir);
    }
  }

  lemma DirSpared(t: Tree, u: Tree, dir: Path)
    requires ChangedOnlyIn(t, u, dir) && DirAt(t, dir)
    ensures DirAt(u, dir)
  {
    assert !(dir < dir);
  }

  lemma LinkSucceeds(w: World, d: Disk, dir: Path, name: string, target: Path)
    requires Faultless(w) && NoRemovalFails(w) && DirAt(d.nodes, dir)
    ensures var r := EnsureSymlink(w, d, dir, name, target); r.ok && ChangedOnlyIn(d.nodes, r.disk.nodes, dir)
  {
    hide RemoveEntries, Entries;
    var d2 := Next(w, Next(w, d));
    Emptied(w, d2, dir, name);
    assert Parent(dir + [name]) == dir;
  }

  // ---- concatenation ----

  lemma SourceReads(t: Tree, u: Tree, dir: Path, a: Path)
    requires ChangedOnlyIn(t, u, dir) && dir != [] && Plain(t, a) && a[0] != dir[0]
    ensures Content(u, a) == Content(t, a)
  {
    hide Content, ModTime;
    OutsideIsSame(t, u, dir, a[0]);
    PlainSame(t, u, a);
  }

  lemma ChildSpared(t: Tree, u: Tree, dir: Path, p: Path, n: Node)
    requires ChangedOnlyIn(t, u, dir) && IsChild(dir, p)
    ensures ChangedOnlyIn(t, u[p := n], dir)
  {
    ChildBelow(dir, p);
  }

  /** Filling a temporary file in an emptied directory and renaming it cannot fail if both sources read. */
  lemma FillSucceeds(w: World, t: Tree, d: Disk, tmp: Path, dst: Path, a: Path, b: Path)
    requires Faultless(w) && IsFile(d, tmp) && dst != [] && |dst| > 1
    requires ChangedOnlyIn(t, d.nodes, Parent(dst)) && IsChild(Parent(dst), tmp) && DirAt(d.nodes, Parent(dst))
    requires dst in d.nodes ==> dst == tmp
    requires Plain(t, a) && Plain(t, b) && a[0] != dst[0] && b[0] != dst[0]
    requires Content(t, a).Some? && Content(t, b).Some?
    ensures FillAndPublish(w, d, tmp, dst, a, b).ok
  {
    hide Content, Plain, ChangedOnlyIn, Append;
    var dir := Parent(dst);
    SourceReads(t, d.nodes, dir, a);
    var first := CopyFrom(w, d, tmp, a);
    AppendsTo(w, Next(w, d), tmp, Content(t, a).value);
    ChildSpared(t, d.nodes, dir, tmp, first.disk.nodes[tmp]);
    SourceReads(t, first.disk.nodes, dir, b);
    AppendsTo(w, Next(w, first.disk), tmp, Content(t, b).value);
    ChildBelow(dir, tmp);
  }

  /** A copy without fault changes its own file and nothing else. */
  lemma AppendsTo(w: World, d: Disk, p: Path, data: Bytes)
    requires Faultless(w) && IsFile(d, p)
    ensures var r := Append(w, d, p, data); r.ok && r.disk.nodes == d.nodes[p := r.disk.nodes[p]]
  {
  }

  lemma RebuildSucceeds(w: World, d: Disk, dst: Path, a: Path, b: Path)
    requires Faultless(w) && NoRemovalFails(w) && |dst| > 1 && DirAt(d.nodes, Parent(dst))
    requires Plain(d.nodes, a) && Plain(d.nodes, b) && a[0] != dst[0] && b[0] != dst[0]
    requires Content(d.nodes, a).Some? && Content(d.nodes, b).Some?
    ensures Rebuild(w, d, dst, a, b).ok
  {
    hide Content, Plain, FillAndPublish, RemoveEntries, Entries, ChangedOnlyIn;
    var dir, d1 := Parent(dst), Next(w, d);
    var e := RemoveEntries(w, d1, dir, Entries(d.nodes, dir));
    var tmp := TempPath(w, e, dir, CONCAT_PREFIX);
    Emptied(w, d1, dir, CONCAT_PREFIX + w.pick(e.step));
    Emptied(w, d1, dir, dst[|dst| - 1]);
    assert dst == dir + [dst[|dst| - 1]] && IsChild(dir, tmp);
    var made := CreateTemp(w, e, dir, CONCAT_PREFIX);
    assert made.ok;
    ChildSpared(d.nodes, e.nodes, dir, tmp, made.disk.nodes[tmp]);
    FillSucceeds(w, d.nodes, made.disk, tmp, dst, a, b);
  }

  /** Without faults a concatenation succeeds exactly when it skips or both sources can be read. */
  lemma ConcatSucceedsIff(w: World, d: Disk, dst: Path, a: Path, b: Path)
    requires Faultless(w) && NoRemovalFails(w) && |dst| > 1 && DirAt(d.nodes, Parent(dst))
    requires Plain(d.nodes, a) && Plain(d.nodes, b) && a[0] != dst[0] && b[0] != dst[0]
    requires Undrawn(w, CONCAT_PREFIX, dst[|dst| - 1])
    ensures ConcatenateFiles(w, d, dst, a, b).ok <==> Skips(w, d, dst, a, b) || Joined(d.nodes, a, b).Some?
  {
    hide Content, ModTime, Resolve, StatTime, Plain, Rebuild, Good, ChangedOnlyIn, Undrawn;
    ContentHasTime(d.nodes, a);
    ContentHasTime(d.nodes, b);
    if Joined(d.nodes, a, b).Some? {
      var d1 := Next(w, d);
      StatOfFile(w, d1, a);
      StatOfFile(w, Next(w, d1), b);
      RebuildSucceeds(w, d1, dst, a, b);
      RebuildSucceeds(w, Next(w, Next(w, d1)), dst, a, b);
    } else if ConcatenateFiles(w, d, dst, a, b).ok {
      var c := Claim(d.nodes, dst, Data(Joined(d.nodes, a, b)), false, false, None);
      UnchangedOutside(d.nodes, Parent(dst));
      ConcatSafe(w, c, d, a, b);
    }
  }

  /** Of files, a skip needs both sources too. */
  lemma FilesSucceedIff(w: World, d: Disk, dst: Path, a: Path, b: Path)
    requires Faultless(w) && NoRemovalFails(w) && |dst| > 1 && DirAt(d.nodes, Parent(dst))
    requires Plain(d.nodes, a) && Plain(d.nodes, b) && a[0] != dst[0] && b[0] != dst[0]
    requires Undrawn(w, CONCAT_PREFIX, dst[|dst| - 1])
    requires NotDirectory(d.nodes, a) && NotDirectory(d.nodes, b)
    ensures ConcatenateFiles(w, d, dst, a, b).ok <==> Joined(d.nodes, a, b).Some?
  {
    hide Content, ModTime, Resolve, StatTime, Plain, ConcatenateFiles, Undrawn, NotDirectory;
    ConcatSucceedsIff(w, d, dst, a, b);
    ContentHasTime(d.nodes, a);
    ContentHasTime(d.nodes, b);
    StatOfFile(w, Next(w, d), a);
    StatOfFile(w, Next(w, Next(w, d)), b);
  }

  // ---- netboot ----

  /**
   * From any state with the mode directories unblocked: a netboot reconcile without faults succeeds
   * exactly when, with firmware, both initrd and firmware can be read; without firmware always.
   */
  lemma NetbootSucceedsIff(w: World, d: Disk, s: NB.Setup, firmware: bool)
    requires Faultless(w) && NoRemovalFails(w) && s.Named() && s.Apart(w) && NB.SourcesSound(d.nodes, s)
    requires Unblocked(d.nodes, KernelDir(s.bc)) && Unblocked(d.nodes, InitrdDir(s.bc))
    ensures NB.Reconcile(w, d, s, firmware).failed == None <==>
            (firmware ==> Joined(d.nodes, ArtifactPath(s.initrd), ArtifactPath(s.firmware)).Some?)
  {
    hide Plain, Content, MkdirAll, EnsureSymlink, ConcatenateFiles, MadeDirs, ChangedOnlyIn, SameBelow, StoreSound,
         Undrawn, NotDirectory;
    var k := MkdirAll(w, d, KernelDir(s.bc));
    MkdirSucceeds(w, d, KernelDir(s.bc));
    MkdirEffect(w, d, KernelDir(s.bc));
    var i := MkdirAll(w, k.disk, InitrdDir(s.bc));
    UnblockedStays(d.nodes, k.disk.nodes, KernelDir(s.bc), InitrdDir(s.bc));
    MkdirSucceeds(w, k.disk, InitrdDir(s.bc));
    MkdirEffect(w, k.disk, InitrdDir(s.bc));
    DirsStand(k.disk.nodes, i.disk.nodes, s.bc);
    LinkSucceeds(w, i.disk, KernelDir(s.bc), s.kernel.file, LinkFromModeDir(s.kernel));
    var l := EnsureSymlink(w, i.disk, KernelDir(s.bc), s.kernel.file, LinkFromModeDir(s.kernel));
    InitrdDirSpared(i.disk.nodes, l.disk.nodes, s.bc);
    SourcesSpared(d.nodes, k.disk.nodes, i.disk.nodes, l.disk.nodes, s);
    if firmware {
      var dst := InitrdDir(s.bc) + [s.initrd.file];
      assert Parent(dst) == InitrdDir(s.bc) && |"boot"| != |"artifacts"|;
      NB.SourceIsFile(l.disk.nodes, s.initrd);
      NB.SourceIsFile(l.disk.nodes, s.firmware);
      FilesSucceedIff(w, l.disk, dst, ArtifactPath(s.initrd), ArtifactPath(s.firmware));
    } else {
      LinkSucceeds(w, l.disk, InitrdDir(s.bc), s.initrd.file, LinkFromModeDir(s.initrd));
    }
  }

  lemma UnblockedStays(t: Tree, u: Tree, made: Path, p: Path)
    requires MadeDirs(t, u, made) && Unblocked(t, p)
    ensures Unblocked(u, p)
  {
  }

  lemma DirsStand(t: Tree, u: Tree, bc: string)
    requires MadeDirs(t, u, InitrdDir(bc))
    requires forall k | 0 <= k <= 3 :: DirAt(t, KernelDir(bc)[..k])
    requires forall k | 0 <= k <= 3 :: DirAt(u, InitrdDir(bc)[..k])
    ensures DirAt(u, KernelDir(bc)) && DirAt(u, InitrdDir(bc))
  {
    assert KernelDir(bc)[..3] == KernelDir(bc) && InitrdDir(bc)[..3] == InitrdDir(bc);
  }

  lemma InitrdDirSpared(t: Tree, u: Tree, bc: string)
    requires ChangedOnlyIn(t, u, KernelDir(bc)) && DirAt(t, InitrdDir(bc))
    ensures DirAt(u, InitrdDir(bc))
  {
    assert |KernelDir(bc)| == 3 && |InitrdDir(bc)| == 3;
    assert !(KernelDir(bc) < InitrdDir(bc));
  }

  /** Making the directories and the kernel link leaves the artifacts as they are. */
  lemma SourcesSpared(t: Tree, k: Tree, i: Tree, l: Tree, s: NB.Setup)
    requires MadeDirs(t, k, KernelDir(s.bc)) && MadeDirs(k, i, InitrdDir(s.bc)) && ChangedOnlyIn(i, l, KernelDir(s.bc))
    requires NB.SourcesSound(t, s)
    ensures NB.SourcesSound(l, s)
    ensures forall p | p in s.Sources() :: Content(l, p) == Content(t, p)
  {
    hide Content, ModTime, Plain, MadeDirs, ChangedOnlyIn, SameBelow, StoreSound;
    MadeBootDirsSpareArtifacts(t, k, KernelDir(s.bc));
    MadeBootDirsSpareArtifacts(k, i, InitrdDir(s.bc));
    assert |"boot"| == 4 && |"artifacts"| == 9;
    OutsideIsSame(i, l, KernelDir(s.bc), "artifacts");
    StoreSame(t, k);
    StoreSame(k, i);
    StoreSame(i, l);
    forall p | p in s.Sources() ensures Plain(l, p) && Content(l, p) == Content(t, p) {
      assert Plain(t, p) && p[0] == "artifacts";
      PlainSame(t, k, p);
      PlainSame(k, i, p);
      PlainSame(i, l, p);
    }
    assert ArtifactPath(s.kernel) in s.Sources() && ArtifactPath(s.initrd) in s.Sources()
        && ArtifactPath(s.firmware) in s.Sources();
  }

  // ---- ISO images ----

  /** No temporary name drawn is taken: what drawing again until one is free amounts to. */
  ghost predicate DrawsFree(w: World, t: Tree, bc: string) {
    forall n: nat :: BootDir(bc) + [EXTRACT_PREFIX + w.pick(n)] !in t
  }

  predicate NoDirAt(t: Tree, p: Path) {
    p in t ==> !t[p].Dir?
  }

  /** Nor is an output name a directory. */
  ghost predicate OutputsFree(w: World, t: Tree, bc: string, image: string) {
    && DrawsFree(w, t, bc)
    && forall name | name in {"vmlinuz", "initrd", image} :: NoDirAt(t, BootDir(bc) + [name])
  }

  /** Without faults an entry within the limit is extracted; the outputs stay free. */
  lemma EntrySucceedsIff(w: World, d: Disk, files: map<string, Bytes>, src: string, bc: string, name: string,
      image: string)
    requires Faultless(w) && DirAt(d.nodes, BootDir(bc)) && OutputsFree(w, d.nodes, bc, image)
    requires !(EXTRACT_PREFIX <= name) && name in {"vmlinuz", "initrd"}
    ensures var r := ExtractFile(w, d, files, src, BootDir(bc) + [name]);
            && (r.ok <==> Entry(files, src).Some?)
            && (r.ok ==> DirAt(r.disk.nodes, BootDir(bc)) && OutputsFree(w, r.disk.nodes, bc, image))
  {
    hide Rooted, Append;
    var dst := BootDir(bc) + [name];
    assert Parent(dst) == BootDir(bc) && NoDirAt(d.nodes, dst);
    if Rooted(src) in files {
      var data := files[Rooted(src)];
      var tmp := BootDir(bc) + [EXTRACT_PREFIX + w.pick(d.step + 1)];
      var made := CreateTemp(w, Next(w, d), BootDir(bc), EXTRACT_PREFIX);
      assert made.ok && IsFile(made.disk, tmp);
      AppendsTo(w, made.disk, tmp, if |data| <= MAX_EXTRACTED then data else data[..MAX_EXTRACTED + 1]);
      assert tmp[2] != dst[2] by { PrefixTells(w.pick(d.step + 1), name); }
      if |data| <= MAX_EXTRACTED {
        var full := Append(w, made.disk, tmp, data).disk;
        PublishFrees(w, d.nodes, full, tmp, dst, bc, name, image);
      }
    }
  }

  lemma PrefixTells(pick: string, name: string)
    requires !(EXTRACT_PREFIX <= name)
    ensures EXTRACT_PREFIX + pick != name
  {
    assert EXTRACT_PREFIX <= EXTRACT_PREFIX + pick;
  }

  lemma PublishFrees(w: World, t: Tree, d: Disk, tmp: Path, dst: Path, bc: string, name: string,
      image: string)
    requires Faultless(w) && DirAt(t, BootDir(bc)) && OutputsFree(w, t, bc, image) && !(EXTRACT_PREFIX <= name)
    requires NoDirAt(t, dst)
    requires dst == BootDir(bc) + [name] && Parent(tmp) == BootDir(bc) && |tmp| == 3 && tmp != dst
    requires tmp !in t && IsFile(d, tmp) && d.nodes == t[tmp := d.nodes[tmp]]
    ensures var r := Publish(w, d, tmp, dst);
            && r.ok && r.disk.nodes == t[dst := d.nodes[tmp]]
            && DirAt(r.disk.nodes, BootDir(bc)) && OutputsFree(w, r.disk.nodes, bc, image)
  {
    assert Parent(dst) == BootDir(bc) && |BootDir(bc)| == 2;
    var u := t[dst := d.nodes[tmp]];
    assert (d.nodes - {tmp})[dst := d.nodes[tmp]] == u;
    forall n: nat ensures BootDir(bc) + [EXTRACT_PREFIX + w.pick(n)] !in u {
      PrefixTells(w.pick(n), name);
      assert (BootDir(bc) + [EXTRACT_PREFIX + w.pick(n)])[2] != dst[2];
    }
    forall other | other in {"vmlinuz", "initrd", image} ensures NoDirAt(u, BootDir(bc) + [other]) {
      assert NoDirAt(t, BootDir(bc) + [other]);
    }
  }

  lemma PairSucceeds(w: World, d: Disk, s: ISO.IsoSetup)
    requires Faultless(w) && DirAt(d.nodes, BootDir(s.bc)) && OutputsFree(w, d.nodes, s.bc, s.iso.file)
    requires ISO.EntryNow(d.nodes, s, s.kernelPath).Some? && ISO.EntryNow(d.nodes, s, s.initrdPath).Some?
    ensures var r := ExtractBoth(w, d, s.read, ArtifactPath(s.iso), s.kernelPath, s.initrdPath, BootDir(s.bc));
            r.ok && DirAt(r.disk.nodes, BootDir(s.bc)) && OutputsFree(w, r.disk.nodes, s.bc, s.iso.file)
  {
    hide Content, ExtractFile, Entry, OutputsFree;
    var files := OpenImage(w, d, s.read, ArtifactPath(s.iso)).value;
    assert EXTRACT_PREFIX[0] != "vmlinuz"[0] && EXTRACT_PREFIX[0] != "initrd"[0];
    EntrySucceedsIff(w, Next(w, d), files, s.kernelPath, s.bc, "vmlinuz", s.iso.file);
    var first := ExtractFile(w, Next(w, d), files, s.kernelPath, BootDir(s.bc) + ["vmlinuz"]);
    EntrySucceedsIff(w, first.disk, files, s.initrdPath, s.bc, "initrd", s.iso.file);
  }

  lemma ExtractionSucceedsIff(w: World, d: Disk, s: ISO.IsoSetup)
    requires Faultless(w) && DirAt(d.nodes, BootDir(s.bc)) && OutputsFree(w, d.nodes, s.bc, s.iso.file)
    requires ISO.Inv(d.nodes, s, d.clock) && Direct(d.nodes, s.Kernel()) && Direct(d.nodes, s.Initrd())
    ensures var r := ExtractFromIso(w, d, s.read, ArtifactPath(s.iso), s.kernelPath, s.initrdPath, BootDir(s.bc));
            && (r.ok <==> ISO.EntryNow(d.nodes, s, s.kernelPath).Some? && ISO.EntryNow(d.nodes, s, s.initrdPath).Some?)
            && (r.ok ==> DirAt(r.disk.nodes, BootDir(s.bc)) && OutputsFree(w, r.disk.nodes, s.bc, s.iso.file))
            && ChangedOnlyIn(d.nodes, r.disk.nodes, BootDir(s.bc))
  {
    hide Plain, Content, ModTime, Resolve, StatTime, ISO.EntryNow, ISO.InvThrough, ISO.OutputSound, ExtractBoth,
         OutputsFree, ChangedOnlyIn, StoreSound;
    var r := ExtractFromIso(w, d, s.read, ArtifactPath(s.iso), s.kernelPath, s.initrdPath, BootDir(s.bc));
    ISO.ExtractionSound(w, d, s);
    if ISO.EntryNow(d.nodes, s, s.kernelPath).Some? && ISO.EntryNow(d.nodes, s, s.initrdPath).Some? {
      EntryNeedsImage(d.nodes, s);
      StatOfFile(w, d, ArtifactPath(s.iso));
      var d2 := Next(w, Next(w, d));
      PairSucceeds(w, d2, s);
      PairSucceeds(w, Next(w, d2), s);
    } else if r.ok {
      EntriesSpared(d.nodes, r.disk.nodes, s);
      assert false;
    }
  }

  lemma EntryNeedsImage(t: Tree, s: ISO.IsoSetup)
    requires ISO.EntryNow(t, s, s.kernelPath).Some?
    ensures ModTime(t, ArtifactPath(s.iso)).Some?
  {
    hide Content, ModTime;
    ContentHasTime(t, ArtifactPath(s.iso));
  }

  lemma EntriesSpared(t: Tree, u: Tree, s: ISO.IsoSetup)
    requires ChangedOnlyIn(t, u, BootDir(s.bc)) && Plain(t, ArtifactPath(s.iso))
    ensures forall src :: ISO.EntryNow(u, s, src) == ISO.EntryNow(t, s, src)
  {
    hide Plain, Content, ModTime, ChangedOnlyIn;
    assert |"boot"| != |"artifacts"|;
    SourceReads(t, u, BootDir(s.bc), ArtifactPath(s.iso));
  }

  lemma FileLinkSucceeds(w: World, d: Disk, bc: string, name: string, target: Path)
    requires Faultless(w) && NoRemovalFails(w) && DirAt(d.nodes, BootDir(bc)) && NoDirAt(d.nodes, BootDir(bc) + [name])
    ensures EnsureFileSymlink(w, d, BootDir(bc) + [name], target).ok
  {
    var link := BootDir(bc) + [name];
    assert Parent(link) == BootDir(bc) && |BootDir(bc)| == 2 && |link| == 3;
  }

  /**
   * From a sound pair with the boot directory unblocked: an ISO reconcile without faults succeeds
   * exactly when the image offers both entries within the size limit.
   */
  lemma IsoSucceedsIff(w: World, d: Disk, s: ISO.IsoSetup)
    requires Faultless(w) && NoRemovalFails(w) && s.Named() && ISO.Inv(d.nodes, s, d.clock)
    requires Unblocked(d.nodes, BootDir(s.bc)) && OutputsFree(w, d.nodes, s.bc, s.iso.file)
    ensures ISO.Reconcile(w, d, s).failed == None <==>
            ISO.EntryNow(d.nodes, s, s.kernelPath).Some? && ISO.EntryNow(d.nodes, s, s.initrdPath).Some?
  {
    hide Plain, Content, MkdirAll, MadeDirs, ISO.EntryNow, ISO.InvThrough, ISO.Inv, ExtractFromIso, EnsureFileSymlink,
         OutputsFree, ChangedOnlyIn;
    var b := MkdirAll(w, d, BootDir(s.bc));
    MkdirSucceeds(w, d, BootDir(s.bc));
    MkdirEffect(w, d, BootDir(s.bc));
    ISO.MkdirThrough(w, d, s);
    ISO.ThroughEnds(d, b.disk, s);
    assert BootDir(s.bc)[..2] == BootDir(s.bc);
    InvIsPlain(d.nodes, s, d.clock);
    MadeKeepsFree(w, d.nodes, b.disk.nodes, s);
    ExtractionSucceedsIff(w, b.disk, s);
    var e := ExtractFromIso(w, b.disk, s.read, ArtifactPath(s.iso), s.kernelPath, s.initrdPath, BootDir(s.bc));
    if e.ok {
      ImageFree(w, e.disk.nodes, s);
      FileLinkSucceeds(w, e.disk, s.bc, s.iso.file, LinkFromBootDir(s.iso));
    }
  }

  lemma ImageFree(w: World, t: Tree, s: ISO.IsoSetup)
    requires OutputsFree(w, t, s.bc, s.iso.file)
    ensures NoDirAt(t, BootDir(s.bc) + [s.iso.file])
  {
  }

  lemma InvIsPlain(t: Tree, s: ISO.IsoSetup, now: nat)
    requires ISO.Inv(t, s, now)
    ensures Plain(t, ArtifactPath(s.iso))
  {
  }

  lemma MadeKeepsFree(w: World, t: Tree, u: Tree, s: ISO.IsoSetup)
    requires MadeDirs(t, u, BootDir(s.bc)) && OutputsFree(w, t, s.bc, s.iso.file)
    ensures OutputsFree(w, u, s.bc, s.iso.file)
    ensures Plain(t, ArtifactPath(s.iso)) ==> forall src :: ISO.EntryNow(u, s, src) == ISO.EntryNow(t, s, src)
  {
    hide Content, ModTime, Plain;
    assert |BootDir(s.bc)| == 2;
    forall n: nat ensures BootDir(s.bc) + [EXTRACT_PREFIX + w.pick(n)] !in u {
      assert |BootDir(s.bc) + [EXTRACT_PREFIX + w.pick(n)]| == 3;
    }
    forall name | name in {"vmlinuz", "initrd", s.iso.file} ensures NoDirAt(u, BootDir(s.bc) + [name]) {
      assert NoDirAt(t, BootDir(s.bc) + [name]) && |BootDir(s.bc) + [name]| == 3;
    }
    if Plain(t, ArtifactPath(s.iso)) {
      MadeBootDirsSpareArtifacts(t, u, BootDir(s.bc));
      PlainSame(t, u, ArtifactPath(s.iso));
    }
  }

  // ---- doing it again ----

  /** After a success, a netboot reconcile without faults succeeds again, whatever the times are. */
  lemma NetbootRepeats(w: World, d: Disk, s: NB.Setup, firmware: bool, again: World)
    requires s.Named() && s.Apart(w) && s.Apart(again) && NB.Inv(d.nodes, s, d.clock)
    requires NB.Reconcile(w, d, s, firmware).failed == None && Faultless(again) && NoRemovalFails(again)
    ensures NB.Reconcile(again, NB.Reconcile(w, d, s, firmware).disk, s, firmware).failed == None
  {
    hide NB.Reconcile, NB.InvThrough, UpToDate, Undrawn, StoreSound, Plain, Content, ModTime, NB.CacheSound;
    NB.ReconcileSound(w, d, s, firmware);
    var first := NB.Reconcile(w, d, s, firmware).disk;
    NB.ThroughEnds(d, first, s);
    DirUnblocked(first.nodes, KernelDir(s.bc), s.kernel.file);
    DirUnblocked(first.nodes, InitrdDir(s.bc), s.initrd.file);
    NetbootSucceedsIff(again, first, s, firmware);
  }

  lemma DirUnblocked(t: Tree, dir: Path, name: string)
    requires Direct(t, dir + [name])
    ensures Unblocked(t, dir)
  {
    NB.ReadyPrefixes(t, dir, name);
  }

  /** The same for an ISO reconcile, for images of any name. */
  lemma IsoRepeats(w: World, d: Disk, s: ISO.IsoSetup, again: World)
    requires s.Named() && ISO.Inv(d.nodes, s, d.clock) && ISO.Reconcile(w, d, s).failed == None
    requires Faultless(again) && NoRemovalFails(again) && DrawsFree(again, ISO.Reconcile(w, d, s).disk.nodes, s.bc)
    ensures ISO.Reconcile(again, ISO.Reconcile(w, d, s).disk, s).failed == None
  {
    hide ISO.Reconcile, ISO.InvThrough, ISO.Inv, ISO.EntryNow, Content, DrawsFree, ISO.Settled;
    ISO.ReconcileSound(w, d, s);
    var first := ISO.Reconcile(w, d, s).disk;
    ISO.ThroughEnds(d, first, s);
    DirUnblocked(first.nodes, BootDir(s.bc), "vmlinuz") by { ISO.ReadyDirs(first.nodes, s); }
    NamesNoDirs(first.nodes, s, first.clock);
    IsoSucceedsIff(again, first, s);
  }

  lemma NamesNoDirs(t: Tree, s: ISO.IsoSetup, now: nat)
    requires ISO.Inv(t, s, now) && s.Image() in t && t[s.Image()].Link?
    ensures forall name | name in {"vmlinuz", "initrd", s.iso.file} :: NoDirAt(t, BootDir(s.bc) + [name])
  {
    hide ISO.EntryNow, ModTime, Plain, StoreSound;
  }

  // ---- an image named like an output does hide it ----

  /** A first reconcile without faults. */
  ghost predicate FreshStart(w: World, d: Disk, s: ISO.IsoSetup) {
    && Faultless(w) && NoRemovalFails(w) && s.Named() && StoreSound(d.nodes)
    && (forall p | p in d.nodes :: !(["boot"] <= p))
    && ISO.EntryNow(d.nodes, s, s.kernelPath).Some? && ISO.EntryNow(d.nodes, s, s.initrdPath).Some?
  }

  lemma FreshSucceeds(w: World, d: Disk, s: ISO.IsoSetup)
    requires FreshStart(w, d, s)
    ensures ISO.Inv(d.nodes, s, d.clock) && ISO.Reconcile(w, d, s).failed == None
  {
    hide ISO.Inv, ISO.Reconcile, ISO.EntryNow, StoreSound;
    forall p | p in d.nodes ensures !(BootDir(s.bc) < p) {
      if BootDir(s.bc) < p {
        BelowBoot(p, s.bc);
        assert false;
      }
    }
    CacheRuns.EmptyIsSound(d, CacheRuns.Iso(s));
    NothingInTheWay(w, d.nodes, s);
    IsoSucceedsIff(w, d, s);
  }

  lemma BelowBoot(p: Path, bc: string)
    requires BootDir(bc) < p
    ensures ["boot"] <= p
  {
    assert p[0] == BootDir(bc)[0];
  }

  lemma NothingInTheWay(w: World, t: Tree, s: ISO.IsoSetup)
    requires forall p | p in t :: !(["boot"] <= p)
    ensures Unblocked(t, BootDir(s.bc)) && OutputsFree(w, t, s.bc, s.iso.file)
  {
    forall k | 0 < k <= |BootDir(s.bc)| ensures BootDir(s.bc)[..k] !in t {
      assert ["boot"] <= BootDir(s.bc)[..k];
    }
    forall x: string ensures BootDir(s.bc) + [x] !in t {
      assert ["boot"] <= BootDir(s.bc) + [x];
    }
  }

  /** An image called vmlinuz whose bytes are not the kernel's: success, and the kernel is not served. */
  lemma VmlinuzHidesKernel(w: World, d: Disk, s: ISO.IsoSetup)
    requires FreshStart(w, d, s) && s.iso.file == "vmlinuz"
    requires Content(d.nodes, ArtifactPath(s.iso)) != ISO.EntryNow(d.nodes, s, s.kernelPath)
    ensures ISO.Reconcile(w, d, s).failed == None
    ensures Content(ISO.Reconcile(w, d, s).disk.nodes, s.Kernel()) != ISO.EntryNow(d.nodes, s, s.kernelPath)
  {
    hide ISO.Inv, ISO.Reconcile, ISO.EntryNow, Content;
    FreshSucceeds(w, d, s);
    ISO.KernelServedIff(w, d, s);
  }

  /** The same for an image called initrd. */
  lemma InitrdHidesInitrd(w: World, d: Disk, s: ISO.IsoSetup)
    requires FreshStart(w, d, s) && s.iso.file == "initrd"
    requires Content(d.nodes, ArtifactPath(s.iso)) != ISO.EntryNow(d.nodes, s, s.initrdPath)
    ensures ISO.Reconcile(w, d, s).failed == None
    ensures Content(ISO.Reconcile(w, d, s).disk.nodes, s.Initrd()) != ISO.EntryNow(d.nodes, s, s.initrdPath)
  {
    hide ISO.Inv, ISO.Reconcile, ISO.EntryNow, Content;
    FreshSucceeds(w, d, s);
    ISO.InitrdServedIff(w, d, s);
  }

  /** One image installed in an empty data directory. */
  lemma OnlyImage(t: Tree, s: ISO.IsoSetup, data: Bytes, files: map<string, Bytes>)
    requires s.Named() && t == CacheRuns.Installed(map[], s.iso, data, 0) && s.read(data) == Some(files)
    ensures StoreSound(t) && (forall p | p in t :: !(["boot"] <= p)) && Content(t, ArtifactPath(s.iso)) == Some(data)
    ensures forall src :: ISO.EntryNow(t, s, src) == Entry(files, src)
  {
    hide StoreSound, Plain, Resolve, Content, ModTime, Regular, Entry;
    StoreEmpty(map[]);
    CacheRuns.InstallEdits(map[], s.iso, data, 0);
    CacheRuns.EditedSound(map[], t, 0);
    StoreReads(t, s.iso);
    forall p | p in t ensures !(["boot"] <= p) {
      assert p[0] == "artifacts" && "boot"[0] != "artifacts"[0];
    }
  }

  const FILES: map<string, Bytes> := map["/k" := [1], "/i" := [2]]

  lemma FilesHold()
    ensures Entry(FILES, "/k") == Some([1]) && Entry(FILES, "/i") == Some([2])
  {
    assert "/k"[1] != "/i"[1] && "/k"[0] == '/' && "/i"[0] == '/';
  }

  /** One that occurs: the image [3], installed as "vmlinuz" or "initrd", offers the entries [1] and [2]. */
  lemma ClashOccurs(name: string)
    requires name == "vmlinuz" || name == "initrd"
    ensures exists w: World, d: Disk, s: ISO.IsoSetup ::
              && FreshStart(w, d, s) && s.iso.file == name
              && Content(d.nodes, ArtifactPath(s.iso)) != ISO.EntryNow(d.nodes, s, s.kernelPath)
              && Content(d.nodes, ArtifactPath(s.iso)) != ISO.EntryNow(d.nodes, s, s.initrdPath)
  {
    hide StoreSound, Content, ISO.EntryNow, Entry, CacheRuns.Installed;
    var w := World(_ => false, _ => false, _ => 0, _ => 0, _ => "", _ => 0);
    var s := ISO.IsoSetup("b", Ref("a", name), "/k", "/i", _ => Some(FILES));
    var t := CacheRuns.Installed(map[], s.iso, [3], 0);
    assert |name| >= 6 && |"a"| == 1 && |"b"| == 1 && |".."| == 2;
    OnlyImage(t, s, [3], FILES);
    FilesHold();
    var k: Bytes, i: Bytes, m: Bytes := [1], [2], [3];
    assert k[0] != m[0] && i[0] != m[0];
    assert FreshStart(w, Disk(t, 1, 0, []), s);
  }
}

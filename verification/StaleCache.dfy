/** Where the modification-time caches are exact, and a run in which one is not. */
module StaleCache {
  import opened Words
  import opened FileTree
  import opened FileOps
  import opened BootDirectory
  import opened ArtifactStore
  import opened Assembly
  import opened Api
  import opened CrashSafety
  import opened InitrdCache
  import opened UrlUtil
  import AC = BootArtifactController
  import InstallSafety
  import Availability
  import CacheRuns
  import ISO = IsoCache

  /**
   * A successful concatenation serves the sources as they are exactly when it did not skip on a
   * stale file: the skip looks at times only, so a newer-looking file with other bytes is kept.
   */
  lemma ConcatFreshIff(w: World, c: Claim, d: Disk, a: Path, b: Path)
    requires HoldsBy(c, d.nodes, d.clock) && ConcatSetting(c, a, b) && NamesApart(w, c, CONCAT_PREFIX)
    requires c.before == d.nodes && !c.tidy && Direct(d.nodes, c.dst) && ConcatenateFiles(w, d, c.dst, a, b).ok
    ensures Content(ConcatenateFiles(w, d, c.dst, a, b).disk.nodes, c.dst) == Joined(d.nodes, a, b) <==>
            !Skips(w, d, c.dst, a, b) || Content(d.nodes, c.dst) == Joined(d.nodes, a, b)
  {
    hide Plain, ModTime, Content, Resolve, ConcatenateFiles, Skips, NamesApart;
    var r := ConcatenateFiles(w, d, c.dst, a, b);
    ConcatSafe(w, c, d, a, b);
    if !Skips(w, d, c.dst, a, b) {
      GoodHolds(w, c, d, r.disk);
      DirsStay(d.nodes, r.disk.nodes, Parent(c.dst), c.dst);
      DirectFile(r.disk.nodes, c.dst);
    }
  }

  // ---- a source installed again ----

  /** A build that is current but for the age of one source: the other is older, and the bytes are right. */
  ghost predicate BuiltBut(t: Tree, s: Setup, source: Ref) {
    var a, b, p := ArtifactPath(s.initrd), ArtifactPath(s.firmware), s.Dst();
    && s.Named() && StoreSound(t) && s.initrd != s.firmware && (source == s.initrd || source == s.firmware)
    && a in t && b in t && t[a].File? && t[b].File?
    && Direct(t, p) && p in t && t[p].File? && t[p].data == t[a].data + t[b].data
    && (if source == s.initrd then t[b].mtime else t[a].mtime) < t[p].mtime
  }

  /**
   * An initrd or firmware installed over such a build is picked up by the next concatenation
   * exactly when its bytes were written no earlier than the served file, or are the old ones.
   */
  lemma InstallSeenIff(w: World, s: Setup, source: Ref, t: Tree, data: Bytes, written: nat, d: Disk)
    requires BuiltBut(t, s, source) && s.Apart(w) && t[s.Dst()].mtime <= d.clock
    requires d.nodes == t[ArtifactPath(source) := File(data, written)] && !w.fault(d.step)
    requires ConcatenateFiles(w, d, s.Dst(), ArtifactPath(s.initrd), ArtifactPath(s.firmware)).ok
    ensures var t' := ConcatenateFiles(w, d, s.Dst(), ArtifactPath(s.initrd), ArtifactPath(s.firmware)).disk.nodes;
            Content(t', s.Dst()) == Joined(d.nodes, ArtifactPath(s.initrd), ArtifactPath(s.firmware)) <==>
            written >= t[s.Dst()].mtime || data == t[ArtifactPath(source)].data
  {
    hide Rebuild, Content, ModTime, Resolve, StatTime, Plain, StoreSound, Undrawn, Direct;
    var a, b, p, u := ArtifactPath(s.initrd), ArtifactPath(s.firmware), s.Dst(), d.nodes;
    InstalledReads(t, u, s, source, data, written);
    var c := JoinClaim(u, s);
    assert Parent(p) == InitrdDir(s.bc) && p[|p| - 1] == s.initrd.file;
    ClaimStarts(c, d);
    ConcatFreshIff(w, c, d, a, b);
    StatOfFile(w, d, p);
    StatOfFile(w, Next(w, d), a);
    StatOfFile(w, Next(w, Next(w, d)), b);
    JoinedCancels(t[a].data, t[b].data, data);
  }

  /** Replacing one half of a concatenation changes it exactly when the half changes. */
  lemma JoinedCancels(x: Bytes, y: Bytes, z: Bytes)
    ensures x + y == z + y <==> x == z
    ensures x + y == x + z <==> y == z
  {
    if x + y == z + y {
      assert |x| == |z|;
      assert x == (x + y)[..|x|] && z == (z + y)[..|z|];
    }
    if x + y == x + z {
      assert y == (x + y)[|x|..] && z == (x + z)[|x|..];
    }
  }

  lemma InstalledReads(t: Tree, u: Tree, s: Setup, source: Ref, data: Bytes, written: nat)
    requires BuiltBut(t, s, source) && u == t[ArtifactPath(source) := File(data, written)]
    ensures var a, b, p := ArtifactPath(s.initrd), ArtifactPath(s.firmware), s.Dst();
            && a in u && b in u && u[a].File? && u[b].File? && Plain(u, a) && Plain(u, b)
            && Direct(u, p) && p in u && u[p] == t[p]
            && Content(u, a) == Some(u[a].data) && ModTime(u, a) == Some(u[a].mtime)
            && Content(u, b) == Some(u[b].data) && ModTime(u, b) == Some(u[b].mtime)
            && Content(u, p) == Some(t[p].data) && ModTime(u, p) == Some(t[p].mtime)
            && NotDirectory(u, a) && NotDirectory(u, b) && NotDirectory(u, p)
            && a != b && u[ArtifactPath(source)] == File(data, written)
            && (source == s.initrd ==> u[b] == t[b]) && (source == s.firmware ==> u[a] == t[a])
  {
    hide Content, ModTime, Resolve, Plain, Regular, Direct, StoreSound;
    var a, b := ArtifactPath(s.initrd), ArtifactPath(s.firmware);
    assert a[1..] == [s.initrd.name, s.initrd.file] && b[1..] == [s.firmware.name, s.firmware.file];
    StoreOverwritten(t, u, source, data, written);
    StoreReads(u, s.initrd);
    StoreReads(u, s.firmware);
    ServedKept(t, u, s, ArtifactPath(source));
  }

  /** Overwriting an artifact leaves the served name as it is. */
  lemma ServedKept(t: Tree, u: Tree, s: Setup, a: Path)
    requires a in t && t[a].File? && |a| == 3
    requires forall x: Path | x != a :: (x in t <==> x in u) && (x in t ==> t[x] == u[x])
    requires Direct(t, s.Dst()) && s.Dst() in t && t[s.Dst()].File?
    ensures var p := s.Dst();
            && Direct(u, p) && p in u && u[p] == t[p] && NotDirectory(u, p)
            && Content(u, p) == Some(t[p].data) && ModTime(u, p) == Some(t[p].mtime)
  {
    hide Content, ModTime, Resolve;
    assert |s.Dst()| == 4;
    DirsKept(t, u, a, s.Dst());
    DirectFile(u, s.Dst());
  }

  lemma StoreOverwritten(t: Tree, u: Tree, r: Ref, data: Bytes, written: nat)
    requires StoreSound(t) && ArtifactPath(r) in t && u == t[ArtifactPath(r) := File(data, written)]
    ensures StoreSound(u)
  {
  }

  /** Overwriting a file leaves every real directory in place. */
  lemma DirsKept(t: Tree, u: Tree, a: Path, p: Path)
    requires a in t && t[a].File? && DirsAbove(t, p)
    requires forall x: Path | x != a :: (x in t <==> x in u) && (x in t ==> t[x] == u[x])
    ensures DirsAbove(u, p)
  {
    forall k | 0 <= k < |p| ensures DirAt(u, p[..k]) {
      assert DirAt(t, p[..k]);
    }
  }

  // ---- an image installed again ----

  /** Extraction that does not skip serves the entries of the image on disk. */
  lemma BothHold(w: World, d: Disk, s: ISO.IsoSetup)
    requires Plain(d.nodes, ArtifactPath(s.iso)) && Direct(d.nodes, s.Kernel()) && Direct(d.nodes, s.Initrd())
    requires Stamped(d.nodes, s.Kernel(), d.clock) && Stamped(d.nodes, s.Initrd(), d.clock)
    requires s.Initrd() in d.nodes ==> !d.nodes[s.Initrd()].Link?
    ensures var r := ExtractBoth(w, d, s.read, ArtifactPath(s.iso), s.kernelPath, s.initrdPath, BootDir(s.bc));
            r.ok ==> && Content(r.disk.nodes, s.Kernel()) == ISO.EntryNow(d.nodes, s, s.kernelPath)
                     && Content(r.disk.nodes, s.Initrd()) == ISO.EntryNow(d.nodes, s, s.initrdPath)
  {
    hide Plain, Content, ModTime, Entry, ExtractFile, Stamped, Direct;
    var r := ExtractBoth(w, d, s.read, ArtifactPath(s.iso), s.kernelPath, s.initrdPath, BootDir(s.bc));
    if r.ok {
      var files := OpenImage(w, d, s.read, ArtifactPath(s.iso)).value;
      var d1 := Next(w, d);
      assert Stamped(d1.nodes, s.Kernel(), d1.clock) && Stamped(d1.nodes, s.Initrd(), d1.clock) by {
        StampedLater(d.nodes, s.Kernel(), d.clock, d1.clock);
        StampedLater(d.nodes, s.Initrd(), d.clock, d1.clock);
      }
      var first := ExtractFile(w, d1, files, s.kernelPath, s.Kernel());
      OneHolds(w, d1, files, s.kernelPath, s.Kernel(), s.Initrd(), s);
      OneHolds(w, first.disk, files, s.initrdPath, s.Initrd(), s.Kernel(), s);
    }
  }

  lemma StampedLater(t: Tree, p: Path, now: nat, later: nat)
    requires Stamped(t, p, now) && now <= later
    ensures Stamped(t, p, later)
  {
  }

  /** One entry extracted, its sibling left alone. */
  lemma OneHolds(w: World, d: Disk, files: map<string, Bytes>, src: string, out: Path, other: Path, s: ISO.IsoSetup)
    requires (out == s.Kernel() && other == s.Initrd()) || (out == s.Initrd() && other == s.Kernel())
    requires Direct(d.nodes, out) && Direct(d.nodes, other) && (other in d.nodes ==> !d.nodes[other].Link?)
    requires Stamped(d.nodes, out, d.clock) && Stamped(d.nodes, other, d.clock)
    requires ExtractFile(w, d, files, src, out).ok
    ensures var e := ExtractFile(w, d, files, src, out).disk;
            && Direct(e.nodes, out) && Direct(e.nodes, other) && out in e.nodes && e.nodes[out].File?
            && Content(e.nodes, out) == Entry(files, src) && Content(e.nodes, other) == Content(d.nodes, other)
            && Stamped(e.nodes, out, e.clock) && Stamped(e.nodes, other, e.clock)
  {
    hide ExtractFile, Entry;
    ISO.NamesDiffer(s);
    OtherPrefixUndrawn(w, EXTRACT_PREFIX, "vmlinuz");
    OtherPrefixUndrawn(w, EXTRACT_PREFIX, "initrd");
    var c := Claim(d.nodes, out, Data(Entry(files, src)), false, true, Some(other));
    ClaimStarts(c, d);
    GoodStart(c, d);
    ExtractSafe(w, c, d, d, files, src);
    var e := ExtractFile(w, d, files, src, out).disk;
    GoodLog(c, d, e);
    DirsStay(d.nodes, e.nodes, BootDir(s.bc), out);
    DirsStay(d.nodes, e.nodes, BootDir(s.bc), other);
    DirectFile(e.nodes, out);
    SameEntryReads(d.nodes, e.nodes, other);
  }

  /** A name below real directories that is not a link reads by its node alone. */
  lemma SameEntryReads(t: Tree, u: Tree, p: Path)
    requires p != [] && Direct(t, p) && Direct(u, p)
    requires (p in t <==> p in u) && (p in t ==> u[p] == t[p] && !t[p].Link?)
    ensures Content(u, p) == Content(t, p)
  {
    WalkLast(t, p, MAX_LINKS);
    WalkLast(u, p, MAX_LINKS);
  }

  /** Both outputs were extracted from the image as it is in t. */
  ghost predicate ExtractedFrom(t: Tree, s: ISO.IsoSetup) {
    && s.Named() && StoreSound(t) && ArtifactPath(s.iso) in t
    && Direct(t, s.Kernel()) && s.Kernel() in t && t[s.Kernel()].File?
    && Direct(t, s.Initrd()) && s.Initrd() in t && t[s.Initrd()].File?
    && ISO.EntryNow(t, s, s.kernelPath) == Some(t[s.Kernel()].data)
    && ISO.EntryNow(t, s, s.initrdPath) == Some(t[s.Initrd()].data)
  }

  /**
   * An image installed over such a pair is picked up by the next extraction exactly when it was
   * written no earlier than one of the two files, or offers the same two entries.
   */
  lemma ImageSeenIff(w: World, s: ISO.IsoSetup, t: Tree, data: Bytes, written: nat, d: Disk)
    requires ExtractedFrom(t, s) && Stamped(t, s.Kernel(), d.clock) && Stamped(t, s.Initrd(), d.clock)
    requires d.nodes == t[ArtifactPath(s.iso) := File(data, written)] && !w.fault(d.step + 1) && !w.fault(d.step + 2)
    requires ExtractFromIso(w, d, s.read, ArtifactPath(s.iso), s.kernelPath, s.initrdPath, BootDir(s.bc)).ok
    ensures var u := ExtractFromIso(w, d, s.read, ArtifactPath(s.iso), s.kernelPath, s.initrdPath,
        BootDir(s.bc)).disk.nodes;
            && Content(u, s.Kernel()) == ISO.EntryNow(d.nodes, s, s.kernelPath)
            && Content(u, s.Initrd()) == ISO.EntryNow(d.nodes, s, s.initrdPath)
            <==>
            || written >= t[s.Kernel()].mtime || written >= t[s.Initrd()].mtime
            || (ISO.EntryNow(d.nodes, s, s.kernelPath) == ISO.EntryNow(t, s, s.kernelPath)
                && ISO.EntryNow(d.nodes, s, s.initrdPath) == ISO.EntryNow(t, s, s.initrdPath))
  {
    hide ExtractBoth, Content, ModTime, Resolve, StatTime, Plain, StoreSound, ISO.EntryNow, Direct, Regular;
    PairReads(t, d.nodes, s, data, written);
    var d1 := Next(w, d);
    var d2 := Next(w, d1);
    StatOfFile(w, d, ArtifactPath(s.iso));
    StatOfFile(w, d1, s.Kernel());
    StatOfFile(w, d2, s.Initrd());
    StampedLater(d.nodes, s.Kernel(), d.clock, d2.clock);
    StampedLater(d.nodes, s.Initrd(), d.clock, d2.clock);
    StampedLater(d.nodes, s.Kernel(), d.clock, Next(w, d2).clock);
    StampedLater(d.nodes, s.Initrd(), d.clock, Next(w, d2).clock);
    BothHold(w, d2, s);
    BothHold(w, Next(w, d2), s);
  }

  /** Older than both outputs and with other entries, it is missed: success, and the old pair goes on being served. */
  lemma ImageMissed(w: World, s: ISO.IsoSetup, t: Tree, data: Bytes, written: nat, d: Disk)
    requires ExtractedFrom(t, s) && Stamped(t, s.Kernel(), d.clock) && Stamped(t, s.Initrd(), d.clock) && Faultless(w)
    requires d.nodes == t[ArtifactPath(s.iso) := File(data, written)]
    requires written < t[s.Kernel()].mtime && written < t[s.Initrd()].mtime
    ensures var r := ExtractFromIso(w, d, s.read, ArtifactPath(s.iso), s.kernelPath, s.initrdPath, BootDir(s.bc));
            && r.ok && Content(r.disk.nodes, s.Kernel()) == ISO.EntryNow(t, s, s.kernelPath)
            && Content(r.disk.nodes, s.Initrd()) == ISO.EntryNow(t, s, s.initrdPath)
  {
    hide ExtractBoth, Content, ModTime, Resolve, StatTime, Plain, StoreSound, ISO.EntryNow, Direct, Regular;
    PairReads(t, d.nodes, s, data, written);
    StatOfFile(w, d, ArtifactPath(s.iso));
    StatOfFile(w, Next(w, d), s.Kernel());
    StatOfFile(w, Next(w, Next(w, d)), s.Initrd());
  }

  /** A first reconcile leaves a pair extracted from the image as it is. */
  lemma FirstExtraction(w: World, d: Disk, s: ISO.IsoSetup)
    requires Availability.FreshStart(w, d, s) && s.ImageApart() && 0 < d.clock
    ensures var e := ISO.Reconcile(w, d, s).disk;
            && ExtractedFrom(e.nodes, s) && 0 < e.nodes[s.Kernel()].mtime && 0 < e.nodes[s.Initrd()].mtime
            && Stamped(e.nodes, s.Kernel(), e.clock) && Stamped(e.nodes, s.Initrd(), e.clock)
            && (forall src :: ISO.EntryNow(e.nodes, s, src) == ISO.EntryNow(d.nodes, s, src))
  {
    hide ISO.Reconcile, ISO.OutputSound, ModTime, Resolve, Plain, StoreSound, Regular, Direct, Stamped, Entry;
    Availability.FreshSucceeds(w, d, s);
    ISO.ReconcileSound(w, d, s);
    ISO.ImageKept(w, d, s);
    var e := ISO.Reconcile(w, d, s).disk;
    ISO.ThroughEnds(d, e, s);
    DirectFile(e.nodes, s.Kernel());
    DirectFile(e.nodes, s.Initrd());
    StoreReads(e.nodes, s.iso);
  }

  const REBUILT: map<string, Bytes> := map["/k" := [4], "/i" := [5]]

  lemma RebuiltHold()
    ensures Entry(REBUILT, "/k") == Some([4]) && Entry(REBUILT, "/i") == Some([5])
  {
    assert "/k"[1] != "/i"[1] && "/k"[0] == '/' && "/i"[0] == '/';
  }

  lemma NewEntries(t: Tree, u: Tree, s: ISO.IsoSetup, data: Bytes, files: map<string, Bytes>)
    requires s.Named() && StoreSound(t) && ArtifactPath(s.iso) in t && u == t[ArtifactPath(s.iso) := File(data, 0)]
    requires s.read(data) == Some(files)
    ensures forall src :: ISO.EntryNow(u, s, src) == Entry(files, src)
  {
    hide StoreSound, Plain, Resolve, Content, ModTime, Regular, Entry;
    StoreOverwritten(t, u, s.iso, data, 0);
    StoreReads(u, s.iso);
  }

  /** One that occurs: a new image is put over the old one with the time it had elsewhere. */
  lemma ImageMissedOccurs()
    ensures exists w: World, d: Disk, s: ISO.IsoSetup, data: Bytes ::
              && Availability.FreshStart(w, d, s) && s.ImageApart()
              && var first := ISO.Reconcile(w, d, s).disk;
                 var u := first.(nodes := first.nodes[ArtifactPath(s.iso) := File(data, 0)]);
                 var again := ExtractFromIso(w, u, s.read, ArtifactPath(s.iso), s.kernelPath, s.initrdPath,
                     BootDir(s.bc));
                 && again.ok
                 && Content(again.disk.nodes, s.Kernel()) != ISO.EntryNow(u.nodes, s, s.kernelPath)
                 && Content(again.disk.nodes, s.Initrd()) != ISO.EntryNow(u.nodes, s, s.initrdPath)
  {
    hide StoreSound, Content, ISO.EntryNow, Entry, CacheRuns.Installed, ISO.Reconcile, ExtractFromIso, Stamped;
    var w := QUIET.(delay := _ => 0);
    var read := (b: Bytes) => if b == [3] then Some(Availability.FILES) else Some(REBUILT);
    var s := ISO.IsoSetup("b", Ref("a", "x"), "/k", "/i", read);
    var t := CacheRuns.Installed(map[], s.iso, [3], 0);
    var d := Disk(t, 1, 0, []);
    assert |"x"| == 1 && |"a"| == 1 && |"b"| == 1 && |".."| == 2 && |"vmlinuz"| == 7 && |"initrd"| == 6;
    Availability.OnlyImage(t, s, [3], Availability.FILES);
    Availability.FilesHold();
    assert Availability.FreshStart(w, d, s);
    FirstExtraction(w, d, s);
    var first := ISO.Reconcile(w, d, s).disk;
    var data: Bytes := [6];
    var u := first.(nodes := first.nodes[ArtifactPath(s.iso) := File(data, 0)]);
    ImageMissed(w, s, first.nodes, data, 0, u);
    RebuiltHold();
    NewEntries(first.nodes, u.nodes, s, data, REBUILT);
    var k: Bytes, i: Bytes, k': Bytes, i': Bytes := [1], [2], [4], [5];
    assert k[0] != k'[0] && i[0] != i'[0];
  }

  lemma PairReads(t: Tree, u: Tree, s: ISO.IsoSetup, data: Bytes, written: nat)
    requires ExtractedFrom(t, s) && u == t[ArtifactPath(s.iso) := File(data, written)]
    ensures Plain(u, ArtifactPath(s.iso)) && Direct(u, s.Kernel()) && Direct(u, s.Initrd())
    ensures s.Kernel() in u && u[s.Kernel()] == t[s.Kernel()] && s.Initrd() in u && u[s.Initrd()] == t[s.Initrd()]
    ensures Content(u, s.Kernel()) == Some(t[s.Kernel()].data) && Content(u, s.Initrd()) == Some(t[s.Initrd()].data)
    ensures ModTime(u, s.Kernel()) == Some(t[s.Kernel()].mtime) && ModTime(u, s.Initrd()) == Some(t[s.Initrd()].mtime)
    ensures ModTime(u, ArtifactPath(s.iso)) == Some(written)
    ensures NotDirectory(u, s.Kernel()) && NotDirectory(u, s.Initrd()) && NotDirectory(u, ArtifactPath(s.iso))
  {
    hide Content, ModTime, Resolve, Plain, Regular, StoreSound, ISO.EntryNow;
    assert "boot"[0] != "artifacts"[0] && s.Kernel()[0] == "boot" && s.Initrd()[0] == "boot";
    StoreReads(t, s.iso);
    StoreOverwritten(t, u, s.iso, data, written);
    StoreReads(u, s.iso);
    DirsKept(t, u, ArtifactPath(s.iso), s.Kernel());
    DirsKept(t, u, ArtifactPath(s.iso), s.Initrd());
    DirectFile(u, s.Kernel());
    DirectFile(u, s.Initrd());
  }

  // ---- a download that straddles a build ----

  /**
   * The end of a download over a build: the temporary file holds what was written at `written`, the
   * reconcile goes on to its end, and the next concatenation picks the bytes up exactly when they
   * were written no earlier than the build, or are the old ones.
   */
  lemma StraddlingDownloadSeenIff(x: World, d: Disk, f: AC.Setting, a: Artifact, source: Ref, data: Bytes, written: nat,
                                  s: Setup, w: World, e: Disk)
    requires BuiltBut(d.nodes, s, source) && s.Apart(w) && d.nodes[s.Dst()].mtime <= d.clock
    requires var tmp := AC.TempOf(ArtifactPath(source));
             && tmp in d.nodes && d.nodes[tmp] == File(data, written)
             && tmp != ArtifactPath(s.initrd) && tmp != ArtifactPath(s.firmware)
    requires var rest := AC.VerifyAndInstall(x, d, f, a, ArtifactPath(source), data);
             rest.result == AC.Done && e.nodes == rest.disk.nodes && rest.disk.clock <= e.clock
    requires !w.fault(e.step)
    requires ConcatenateFiles(w, e, s.Dst(), ArtifactPath(s.initrd), ArtifactPath(s.firmware)).ok
    ensures var t' := ConcatenateFiles(w, e, s.Dst(), ArtifactPath(s.initrd), ArtifactPath(s.firmware)).disk.nodes;
            Content(t', s.Dst()) == Joined(e.nodes, ArtifactPath(s.initrd), ArtifactPath(s.firmware)) <==>
            written >= d.nodes[s.Dst()].mtime || data == d.nodes[ArtifactPath(source)].data
  {
    hide AC.VerifyAndInstall, ConcatenateFiles, Content, AC.TempOf, Joined;
    var p, tmp := ArtifactPath(source), AC.TempOf(ArtifactPath(source));
    InstallSafety.TailInstalls(x, d, f, a, p, data);
    InstallSafety.TempDiffers(p);
    WithoutTemp(d.nodes, s, source, tmp);
    var t := d.nodes - {tmp};
    assert e.nodes == t[p := File(data, written)];
    InstallSeenIff(w, s, source, t, data, written, e);
  }

  lemma WithoutTemp(t: Tree, s: Setup, source: Ref, tmp: Path)
    requires BuiltBut(t, s, source) && tmp == AC.TempOf(ArtifactPath(source)) && tmp in t && t[tmp].File?
    requires tmp != ArtifactPath(s.initrd) && tmp != ArtifactPath(s.firmware)
    ensures BuiltBut(t - {tmp}, s, source)
  {
    var u := t - {tmp};
    assert |tmp| == 3 && tmp[0] == "artifacts" && s.Dst()[0] == "boot" && "boot"[0] != "artifacts"[0];
    assert Direct(u, s.Dst()) by {
      forall k | 0 <= k < |s.Dst()| ensures DirAt(u, s.Dst()[..k]) {
        assert DirAt(t, s.Dst()[..k]);
      }
    }
    forall q: Path | ["artifacts"] <= q && q in u && |q| > 1 ensures Parent(q) in u {
      assert |Parent(q)| < 3;
    }
  }

  // ---- one such run ----

  const QUIET: World := World(_ => false, _ => false, _ => 0, _ => 1, _ => "0", _ => 0)
  const STUBBORN: World := QUIET.(removeFault := _ => true)

  const HASH: string := seq(64, _ => '0')
  const CHANGED: Artifact :=
    Artifact(Key("n", "i"), 1, ArtifactSpec(Url("https://h/x", Some("/x")), Some(HASH), None),
             ArtifactStatus(ReadyArtifact, 0, None, None))

  /** The new bytes are [2]; only they have the hash the changed specification asks for. */
  const FETCH: AC.Setting :=
    AC.Setting((_, data) => if data == [2] then HASH else "", false, true, Found(CHANGED), AC.Answer([2], None), true)

  const EXAMPLE: Setup := Setup("b", Ref("k", "z"), Ref("i", "x"), Ref("f", "y"))

  const DIRS: Tree := map[["boot"] := Dir, ["boot", "b"] := Dir, ["boot", "b", "initrd"] := Dir]

  /** The old initrd [1] and the firmware [9] are installed; nothing is built yet. */
  const START: Tree := CacheRuns.Installed(CacheRuns.Installed(DIRS, EXAMPLE.initrd, [1], 0), EXAMPLE.firmware, [9], 0)

  function BuildAt(t: Tree, clock: nat): IoResult {
    ConcatenateFiles(QUIET, Disk(t, clock, 0, []), EXAMPLE.Dst(), ArtifactPath(EXAMPLE.initrd),
        ArtifactPath(EXAMPLE.firmware))
  }

  lemma ExampleNames()
    ensures EXAMPLE.Named() && EXAMPLE.Apart(QUIET) && EXAMPLE.initrd != EXAMPLE.firmware
    ensures AC.FilePath(CHANGED) == ArtifactPath(EXAMPLE.initrd) == ["artifacts", "i", "x"]
    ensures AC.TempOf(AC.FilePath(CHANGED)) == ["artifacts", "i", "x.tmp"]
    ensures Admitted(CHANGED.spec)
  {
    hide FilenameFromURL, Admitted;
    OneCharacterName("https://h/x", 'x');
    assert CHANGED.spec.url.raw == "https://h/" + ['x'];
    InstallSafety.ShortUrlAdmitted(CHANGED.spec, 'x', HASH);
    assert |"b"| == 1 && |"k"| == 1 && |"z"| == 1 && |"i"| == 1 && |"x"| == 1 && |"f"| == 1 && |"y"| == 1
        && |".."| == 2;
    assert "i"[0] != "f"[0];
    OtherPrefixUndrawn(QUIET, CONCAT_PREFIX, "x") by { assert CONCAT_PREFIX[0] != "x"[0]; }
    var p := AC.FilePath(CHANGED);
    assert p[..2] == ["artifacts", "i"] && p[2] == "x" && "x" + ".tmp" == "x.tmp";
  }

  lemma BootIsNotStore()
    ensures "boot" != "artifacts" && "boot" != ".." && "b" != ".." && "initrd" != ".." && "x" != ".."
  {
    assert |"boot"| == 4 && |"artifacts"| == 9 && |"b"| == 1 && |"initrd"| == 6 && |"x"| == 1 && |".."| == 2;
  }

  lemma StartIsSound()
    ensures StoreSound(START)
  {
    hide StoreSound, CacheRuns.Installed, CacheRuns.Edited;
    BootIsNotStore();
    forall p | p in DIRS ensures !(["artifacts"] <= p) {
      assert p[0] == "boot";
    }
    StoreEmpty(DIRS);
    var t := CacheRuns.Installed(DIRS, EXAMPLE.initrd, [1], 0);
    CacheRuns.InstallEdits(DIRS, EXAMPLE.initrd, [1], 0);
    CacheRuns.EditedSound(DIRS, t, 0);
    CacheRuns.InstallEdits(t, EXAMPLE.firmware, [9], 0);
    CacheRuns.EditedSound(t, START, 0);
  }

  lemma InstalledThere(t: Tree, r: Ref, data: Bytes, written: nat, p: Path)
    ensures var u, q := CacheRuns.Installed(t, r, data, written), ArtifactPath(r);
            && q in u && u[q] == File(data, written)
            && (|p| > 2 && p != q ==> (p in u <==> p in t) && (p in t ==> u[p] == t[p]))
  {
  }

  /** The paths of the example are different ones. */
  lemma ExamplePaths()
    ensures var a, b, dst := ArtifactPath(EXAMPLE.initrd), ArtifactPath(EXAMPLE.firmware), EXAMPLE.Dst();
            var tmp := AC.TempOf(a);
            && |a| == 3 && |b| == 3 && |tmp| == 3 && |dst| == 4 && a != b && tmp != a && tmp != b
            && tmp == ArtifactPath(Ref("i", "x.tmp"))
  {
    hide Undrawn;
    ExampleNames();
    var a, b := ArtifactPath(EXAMPLE.initrd), ArtifactPath(EXAMPLE.firmware);
    var tmp := AC.TempOf(a);
    assert tmp[2] == "x.tmp" && a[2] == "x" && a[1] == "i" && tmp[1] == "i" && b[1] == "f";
    assert |"x.tmp"| == 5 && |"x"| == 1 && "i"[0] != "f"[0];
  }

  lemma BothInstalled(t: Tree, r: Ref, q: Ref, x: Bytes, y: Bytes, p: Path)
    requires ArtifactPath(r) != ArtifactPath(q)
    ensures var u := CacheRuns.Installed(CacheRuns.Installed(t, r, x, 0), q, y, 0);
            && ArtifactPath(r) in u && u[ArtifactPath(r)] == File(x, 0)
            && ArtifactPath(q) in u && u[ArtifactPath(q)] == File(y, 0)
            && (|p| > 2 && p != ArtifactPath(r) && p != ArtifactPath(q) && p !in t ==> p !in u)
  {
    hide CacheRuns.Installed;
    var t1 := CacheRuns.Installed(t, r, x, 0);
    InstalledThere(t, r, x, 0, p);
    InstalledThere(t1, q, y, 0, p);
    InstalledThere(t1, q, y, 0, ArtifactPath(r));
  }

  lemma StartFiles()
    ensures var a, b, dst := ArtifactPath(EXAMPLE.initrd), ArtifactPath(EXAMPLE.firmware), EXAMPLE.Dst();
            && a in START && START[a] == File([1], 0) && b in START && START[b] == File([9], 0)
            && AC.TempOf(a) !in START && dst !in START
  {
    hide CacheRuns.Installed, AC.TempOf;
    ExamplePaths();
    TempIsDeep();
    BothInstalled(DIRS, EXAMPLE.initrd, EXAMPLE.firmware, [1], [9], AC.TempOf(ArtifactPath(EXAMPLE.initrd)));
    BothInstalled(DIRS, EXAMPLE.initrd, EXAMPLE.firmware, [1], [9], EXAMPLE.Dst());
  }

  /** Every tree that holds the boot directories reaches the served name directly. */
  lemma DstDirect(t: Tree)
    requires ["boot"] in t && t[["boot"]] == Dir && ["boot", "b"] in t && t[["boot", "b"]] == Dir
    requires ["boot", "b", "initrd"] in t && t[["boot", "b", "initrd"]] == Dir
    ensures Direct(t, EXAMPLE.Dst())
  {
    BootIsNotStore();
    var dst := EXAMPLE.Dst();
    assert dst == ["boot", "b", "initrd", "x"];
    assert dst[..0] == [] && dst[..1] == ["boot"] && dst[..2] == ["boot", "b"] && dst[..3] == ["boot", "b", "initrd"];
  }

  lemma StartDirs()
    ensures forall p | p in DIRS :: p in START && START[p] == Dir
  {
    BootIsNotStore();
    forall p | p in DIRS ensures p in START && START[p] == Dir {
      assert p[0] == "boot";
    }
  }

  /** A first build without faults, from a sound store with both sources: current from then on. */
  lemma FirstBuild(w: World, s: Setup, t: Tree, clock: nat)
    requires Faultless(w) && NoRemovalFails(w) && s.Named() && s.Apart(w) && s.initrd != s.firmware
    requires StoreSound(t) && Direct(t, s.Dst()) && s.Dst() !in t
    requires ArtifactPath(s.initrd) in t && ArtifactPath(s.firmware) in t
    requires t[ArtifactPath(s.firmware)].File? && t[ArtifactPath(s.firmware)].mtime < clock
    ensures var p := s.Dst();
            var r := ConcatenateFiles(w, Disk(t, clock, 0, []), p, ArtifactPath(s.initrd), ArtifactPath(s.firmware));
            && r.ok && BuiltBut(r.disk.nodes, s, s.initrd)
            && clock <= r.disk.nodes[p].mtime <= r.disk.clock
            && SameBelow(t, r.disk.nodes, ["artifacts"])
  {
    hide StoreSound, Content, ModTime, Resolve, Plain, Undrawn, ConcatenateFiles, Good, Regular, Direct,
         ChangedOnlyIn, SameBelow;
    var a, b, p := ArtifactPath(s.initrd), ArtifactPath(s.firmware), s.Dst();
    var d := Disk(t, clock, 0, []);
    var u := ConcatenateFiles(w, d, p, a, b).disk.nodes;
    assert Parent(p) == InitrdDir(s.bc) && p[|p| - 1] == s.initrd.file && "boot"[0] != "artifacts"[0];
    StoreReads(t, s.initrd);
    StoreReads(t, s.firmware);
    ReadyPrefixes(t, InitrdDir(s.bc), s.initrd.file);
    assert InitrdDir(s.bc)[..3] == InitrdDir(s.bc);
    Availability.FilesSucceedIff(w, d, p, a, b);
    var c := JoinClaim(t, s);
    ClaimStarts(c, d);
    ConcatSafe(w, c, d, a, b);
    NothingToSkip(w, d, p, a, b);
    GoodLog(c, d, ConcatenateFiles(w, d, p, a, b).disk);
    OutsideIsSame(t, u, InitrdDir(s.bc), "artifacts");
    StoreSame(t, u);
    DirsStand(t, u, p);
    ArtifactKept(t, u, s.initrd);
    ArtifactKept(t, u, s.firmware);
  }

  lemma ArtifactKept(t: Tree, u: Tree, r: Ref)
    requires SameBelow(t, u, ["artifacts"]) && ArtifactPath(r) in t
    ensures ArtifactPath(r) in u && u[ArtifactPath(r)] == t[ArtifactPath(r)]
  {
    assert ["artifacts"] <= ArtifactPath(r);
  }

  lemma DirsStand(t: Tree, u: Tree, p: Path)
    requires p != [] && Direct(t, p) && ChangedOnlyIn(t, u, Parent(p))
    ensures Direct(u, p)
  {
    DirsStay(t, u, Parent(p), p);
  }

  /** Nothing can be skipped where nothing stands. */
  lemma NothingToSkip(w: World, d: Disk, p: Path, a: Path, b: Path)
    requires p != [] && Direct(d.nodes, p) && p !in d.nodes
    ensures !Skips(w, d, p, a, b)
  {
    WalkLast(d.nodes, p, MAX_LINKS);
  }

  lemma OldIsBad()
    ensures !AC.Matches(FETCH.digest, CHANGED.spec, [1]) && AC.Matches(FETCH.digest, CHANGED.spec, [2])
  {
    var one: Bytes, two: Bytes := [1], [2];
    assert one[0] != two[0];
    assert AC.Lower("") == "" && AC.Lower(HASH) != "";
  }

  predicate HalfWay(t: Tree, m: nat) {
    t == START[AC.TempOf(ArtifactPath(EXAMPLE.initrd)) := File([2], m)]
  }

  lemma FileAddedSound(t: Tree, p: Path, q: Path, n: Node)
    requires StoreSound(t) && q in t && |p| == 3 && |q| == 3 && Parent(p) == Parent(q) && ["artifacts"] <= q && n.File?
    ensures StoreSound(t[p := n])
  {
    assert Parent(q) in t;
    forall x: Path | ["artifacts"] <= x && x in t[p := n] && |x| > 1 ensures Parent(x) in t[p := n] {
      assert x != p ==> Parent(x) in t;
    }
  }

  lemma HalfIsSound(t: Tree, m: nat)
    requires HalfWay(t, m)
    ensures StoreSound(t)
  {
    hide StoreSound, AC.TempOf, CacheRuns.Installed;
    StartIsSound();
    StartFiles();
    var a := ArtifactPath(EXAMPLE.initrd);
    InstallSafety.TempDiffers(a);
    FileAddedSound(START, AC.TempOf(a), a, File([2], m));
  }

  lemma HalfFiles(t: Tree, m: nat)
    requires HalfWay(t, m)
    ensures var a, b, dst := ArtifactPath(EXAMPLE.initrd), ArtifactPath(EXAMPLE.firmware), EXAMPLE.Dst();
            && dst !in t && Direct(t, dst)
            && a in t && t[a] == File([1], 0) && b in t && t[b] == File([9], 0)
            && AC.TempOf(a) in t && t[AC.TempOf(a)] == File([2], m)
  {
    hide AC.TempOf, Direct;
    StartFiles();
    StartDirs();
    InstallSafety.TempDiffers(ArtifactPath(EXAMPLE.initrd));
    assert ["boot"] in DIRS && ["boot", "b"] in DIRS && ["boot", "b", "initrd"] in DIRS;
    TempIsDeep();
    DstDirect(t);
  }

  lemma TempIsDeep()
    ensures var tmp := AC.TempOf(ArtifactPath(EXAMPLE.initrd));
            && |tmp| == 3 && tmp != ["boot", "b", "initrd"] && |EXAMPLE.Dst()| == 4
            && tmp != ArtifactPath(EXAMPLE.firmware)
  {
    ExampleNames();
    BootIsNotStore();
    var tmp := AC.TempOf(ArtifactPath(EXAMPLE.initrd));
    assert tmp[0] == "artifacts" && tmp[1] == "i" && ArtifactPath(EXAMPLE.firmware)[1] == "f" && "i"[0] != "f"[0];
  }

  /** Bytes written before a build and installed after it: the next faultless concatenation skips. */
  lemma SkippedAfterwards(x: World, d: Disk, f: AC.Setting, a: Artifact, data: Bytes, m: nat, s: Setup, w: World)
    requires BuiltBut(d.nodes, s, s.initrd) && m < d.nodes[s.Dst()].mtime && Faultless(w)
    requires var tmp := AC.TempOf(ArtifactPath(s.initrd));
             && tmp in d.nodes && d.nodes[tmp] == File(data, m)
             && tmp != ArtifactPath(s.initrd) && tmp != ArtifactPath(s.firmware)
    requires AC.VerifyAndInstall(x, d, f, a, ArtifactPath(s.initrd), data).result == AC.Done
    ensures var pi, pf, dst := ArtifactPath(s.initrd), ArtifactPath(s.firmware), s.Dst();
            var rest := AC.VerifyAndInstall(x, d, f, a, pi, data).disk;
            var again := ConcatenateFiles(w, Disk(rest.nodes, rest.clock, 0, []), dst, pi, pf);
            && again.ok && Content(again.disk.nodes, dst) == Some(d.nodes[dst].data)
            && Joined(again.disk.nodes, pi, pf) == Some(data + d.nodes[pf].data)
  {
    hide StoreSound, Content, ModTime, Resolve, Plain, ConcatenateFiles, AC.VerifyAndInstall, AC.TempOf, Direct,
         NotDirectory;
    var pi, pf, tmp := ArtifactPath(s.initrd), ArtifactPath(s.firmware), AC.TempOf(ArtifactPath(s.initrd));
    InstallSafety.TailInstalls(x, d, f, a, pi, data);
    WithoutTemp(d.nodes, s, s.initrd, tmp);
    var rest := AC.VerifyAndInstall(x, d, f, a, pi, data).disk;
    assert rest.nodes == (d.nodes - {tmp})[pi := File(data, m)];
    assert |tmp| == 3 && |s.Dst()| == 4 by { InstallSafety.TempDiffers(pi); }
    InstalledReads(d.nodes - {tmp}, rest.nodes, s, s.initrd, data, m);
    ConcatIdle(w, Disk(rest.nodes, rest.clock, 0, []), s.Dst(), pi, pf);
  }

  /** From the built tree the download ends well, and the next concatenation skips. */
  lemma RestOfRun(t: Tree, built: Disk, m: nat)
    requires HalfWay(t, m) && SameBelow(t, built.nodes, ["artifacts"])
    requires BuiltBut(built.nodes, EXAMPLE, EXAMPLE.initrd) && m < built.nodes[EXAMPLE.Dst()].mtime
    ensures var a, b, dst := ArtifactPath(EXAMPLE.initrd), ArtifactPath(EXAMPLE.firmware), EXAMPLE.Dst();
            var rest := AC.VerifyAndInstall(QUIET, built, FETCH, CHANGED, a, [2]);
            var again := BuildAt(rest.disk.nodes, rest.disk.clock);
            && rest.result == AC.Done && again.ok
            && Joined(again.disk.nodes, a, b) == Some([2, 9]) && Content(again.disk.nodes, dst) == Some([1, 9])
  {
    hide StoreSound, Content, ConcatenateFiles, AC.VerifyAndInstall, AC.Verified, AC.Matches, SameBelow, Direct,
        Joined, AC.TempOf, Undrawn, HalfWay, Admitted, BuiltBut;
    OldIsBad();
    BuiltOverHalf(t, built, m);
    InstallSafety.InstallCompletesIff(QUIET, built, FETCH, CHANGED, ArtifactPath(EXAMPLE.initrd), [2]);
    SkippedAfterwards(QUIET, built, FETCH, CHANGED, [2], m, EXAMPLE, QUIET);
    assert [2] + [9] == [2, 9] && [1] + [9] == [1, 9];
  }

  /** What the build finds and leaves of the half-finished download. */
  lemma BuiltOverHalf(t: Tree, built: Disk, m: nat)
    requires HalfWay(t, m) && SameBelow(t, built.nodes, ["artifacts"])
    requires BuiltBut(built.nodes, EXAMPLE, EXAMPLE.initrd)
    ensures var a, b, u := ArtifactPath(EXAMPLE.initrd), ArtifactPath(EXAMPLE.firmware), built.nodes;
            && AC.TempOf(a) in u && u[AC.TempOf(a)] == File([2], m) && AC.TempOf(a) != a && AC.TempOf(a) != b
            && a != [] && a in u && u[a] == File([1], 0) && b in u && u[b] == File([9], 0)
            && DirAt(u, Parent(a)) && EXAMPLE.Dst() in u && u[EXAMPLE.Dst()] == File([1, 9], u[EXAMPLE.Dst()].mtime)
  {
    hide StoreSound, SameBelow, Direct, AC.TempOf, HalfWay;
    HalfFiles(t, m);
    ExamplePaths();
    ArtifactKept(t, built.nodes, EXAMPLE.initrd);
    ArtifactKept(t, built.nodes, EXAMPLE.firmware);
    ArtifactKept(t, built.nodes, Ref("i", "x.tmp"));
    ParentStands(built.nodes, EXAMPLE.initrd);
    assert [1] + [9] == [1, 9];
  }

  lemma ParentStands(t: Tree, r: Ref)
    requires StoreSound(t) && ArtifactPath(r) in t
    ensures DirAt(t, Parent(ArtifactPath(r))) && t[ArtifactPath(r)].File?
  {
  }

  /**
   * The file's specification changes while a removal fails and an old Ready is still believed: the
   * new initrd is downloaded beside the old one, a build runs, and the download is installed. The
   * next concatenation reports success and goes on serving the old initrd.
   */
  lemma StraddlingDownloadServedStale()
    ensures var a, b, dst := ArtifactPath(EXAMPLE.initrd), ArtifactPath(EXAMPLE.firmware), EXAMPLE.Dst();
            var tmp := AC.TempOf(a);
            var log := AC.Reconcile(STUBBORN, Disk(START, 0, 0, []), FETCH, Found(CHANGED)).disk.log;
            && 1 < |log| && tmp in log[1] && log[1][tmp].File?
            && var built := BuildAt(log[1], log[1][tmp].mtime + 1);
               var rest := AC.VerifyAndInstall(QUIET, built.disk, FETCH, CHANGED, a, [2]);
               var again := BuildAt(rest.disk.nodes, rest.disk.clock);
               && built.ok && rest.result == AC.Done && again.ok
               && Joined(again.disk.nodes, a, b) == Some([2, 9])
               && Content(again.disk.nodes, dst) == Some([1, 9])
  {
    hide StoreSound, Content, ModTime, Resolve, Plain, Regular, Direct, ConcatenateFiles, AC.Reconcile,
         AC.VerifyAndInstall, AC.Verified, AC.Matches, AC.TempOf, BuiltBut, SameBelow, UpToDate;
    ExampleNames();
    StartIsSound();
    StartFiles();
    OldIsBad();
    var a, b, dst := ArtifactPath(EXAMPLE.initrd), ArtifactPath(EXAMPLE.firmware), EXAMPLE.Dst();
    var tmp := AC.TempOf(a);
    var d := Disk(START, 0, 0, []);
    StoreReads(START, EXAMPLE.initrd);
    InstallSafety.HalfDownloaded(STUBBORN, d, FETCH, CHANGED, CHANGED);
    var half := AC.Reconcile(STUBBORN, d, FETCH, Found(CHANGED)).disk.log[1];
    var m := half[tmp].mtime;
    assert half == START[tmp := File([2], m)];
    HalfIsSound(half, m);
    HalfFiles(half, m);
    FirstBuild(QUIET, EXAMPLE, half, m + 1);
    var built := BuildAt(half, m + 1).disk;
    RestOfRun(half, built, m);
  }
}

/**
 * ISO mode: the kernel and initrd extracted from an image are one cache of two files, and the
 * image itself is served beside them under its own name.
 */
module IsoCache {
  import opened Words
  import opened FileTree
  import opened FileOps
  import opened BootDirectory
  import opened ArtifactStore
  import opened Assembly
  import opened CrashSafety

  /** One ISO configuration: the artifact and the two in-image paths are fixed. */
  datatype IsoSetup = IsoSetup(bc: string, iso: Ref, kernelPath: string, initrdPath: string, read: Reader) {
    function Kernel(): Path {
      BootDir(bc) + ["vmlinuz"]
    }

    function Initrd(): Path {
      BootDir(bc) + ["initrd"]
    }

    function Image(): Path {
      BootDir(bc) + [iso.file]
    }

    predicate Named() {
      bc != ".." && Usable(iso)
    }

    /** The image's own name leaves the two extracted names alone. */
    predicate ImageApart() {
      iso.file != "vmlinuz" && iso.file != "initrd"
    }
  }

  /** What the image on disk offers, complete and within the size limit, at an in-image path. */
  function EntryNow(t: Tree, s: IsoSetup, src: string): Option<Bytes> {
    match Content(t, ArtifactPath(s.iso))
    case None => None
    case Some(bytes) =>
      match s.read(bytes)
      case None => None
      case Some(files) => Entry(files, src)
  }

  /** A link to the image, or an extracted file that is the image's complete entry if it is newer. */
  predicate OutputSound(t: Tree, s: IsoSetup, out: Path, src: string) {
    out in t && t[out] != Link(LinkFromBootDir(s.iso)) ==>
      && t[out].File?
      && (ModTime(t, ArtifactPath(s.iso)).Some? && t[out].mtime > ModTime(t, ArtifactPath(s.iso)).value
          ==> EntryNow(t, s, src) == Some(t[out].data))
  }

  ghost predicate Inv(t: Tree, s: IsoSetup, now: nat) {
    && StoreSound(t) && Plain(t, ArtifactPath(s.iso))
    && OutputSound(t, s, s.Kernel(), s.kernelPath) && OutputSound(t, s, s.Initrd(), s.initrdPath)
    && Stamped(t, s.Kernel(), now) && Stamped(t, s.Initrd(), now)
  }

  lemma InvLater(t: Tree, s: IsoSetup, now: nat, later: nat)
    requires Inv(t, s, now) && now <= later
    ensures Inv(t, s, later)
  {
    hide OutputSound, Plain, StoreSound;
  }

  lemma ImageSame(t: Tree, u: Tree, s: IsoSetup)
    requires Plain(t, ArtifactPath(s.iso)) && SameBelow(t, u, ["artifacts"])
    ensures var p := ArtifactPath(s.iso);
            Plain(u, p) && Content(u, p) == Content(t, p) && ModTime(u, p) == ModTime(t, p)
  {
    assert [ArtifactPath(s.iso)[0]] == ["artifacts"];
    PlainSame(t, u, ArtifactPath(s.iso));
  }

  /** Sparing the image, each output kept, gone, or replaced by its complete entry or the image's link. */
  predicate OutputStep(t: Tree, u: Tree, s: IsoSetup, out: Path, src: string) {
    out in u ==>
      || (out in t && u[out] == t[out])
      || (u[out].File? && EntryNow(t, s, src) == Some(u[out].data))
      || u[out] == Link(LinkFromBootDir(s.iso))
  }

  lemma StepKeepsInv(t: Tree, u: Tree, s: IsoSetup, now: nat, later: nat)
    requires Inv(t, s, now) && now <= later && SameBelow(t, u, ["artifacts"])
    requires OutputStep(t, u, s, s.Kernel(), s.kernelPath) && OutputStep(t, u, s, s.Initrd(), s.initrdPath)
    requires Stamped(u, s.Kernel(), later) && Stamped(u, s.Initrd(), later)
    ensures Inv(u, s, later)
  {
    hide Plain, Content, ModTime, StoreSound;
    StoreSame(t, u);
    ImageSame(t, u, s);
  }

  lemma MadeDirsKeepInv(t: Tree, u: Tree, s: IsoSetup, now: nat)
    requires Inv(t, s, now) && MadeDirs(t, u, BootDir(s.bc))
    ensures Inv(u, s, now)
  {
    hide Plain, Content, ModTime, StoreSound;
    MadeBootDirsSpareArtifacts(t, u, BootDir(s.bc));
    assert |s.Kernel()| == 3 && |s.Initrd()| == 3;
    StepKeepsInv(t, u, s, now, now);
  }

  // ---- the two claims ----

  function KernelClaim(t: Tree, s: IsoSetup, goal: Option<Bytes>): Claim {
    Claim(t, s.Kernel(), Data(goal), false, true, Some(s.Initrd()))
  }

  function InitrdClaim(t: Tree, s: IsoSetup, goal: Option<Bytes>): Claim {
    Claim(t, s.Initrd(), Data(goal), false, true, Some(s.Kernel()))
  }

  lemma NamesDiffer(s: IsoSetup)
    ensures s.Kernel() != s.Initrd() && Parent(s.Kernel()) == BootDir(s.bc) && Parent(s.Initrd()) == BootDir(s.bc)
    ensures !(EXTRACT_PREFIX <= "vmlinuz") && !(EXTRACT_PREFIX <= "initrd")
    ensures s.Kernel()[2] == "vmlinuz" && s.Initrd()[2] == "initrd"
  {
    assert "vmlinuz"[0] != "initrd"[0];
    assert EXTRACT_PREFIX[0] != "vmlinuz"[0] && EXTRACT_PREFIX[0] != "initrd"[0];
    assert s.Kernel()[2] != s.Initrd()[2];
  }

  lemma KernelStepKeepsInv(t: Tree, u: Tree, s: IsoSetup, now: nat, later: nat)
    requires Inv(t, s, now) && now <= later && HoldsBy(KernelClaim(t, s, EntryNow(t, s, s.kernelPath)), u, later)
    ensures Inv(u, s, later)
  {
    hide Plain, Content, ModTime, EntryNow, StoreSound;
    NamesDiffer(s);
    OutsideIsSame(t, u, BootDir(s.bc), "artifacts");
    StepKeepsInv(t, u, s, now, later);
  }

  lemma InitrdStepKeepsInv(t: Tree, u: Tree, s: IsoSetup, now: nat, later: nat)
    requires Inv(t, s, now) && now <= later && HoldsBy(InitrdClaim(t, s, EntryNow(t, s, s.initrdPath)), u, later)
    ensures Inv(u, s, later)
  {
    hide Plain, Content, ModTime, EntryNow, StoreSound;
    NamesDiffer(s);
    OutsideIsSame(t, u, BootDir(s.bc), "artifacts");
    StepKeepsInv(t, u, s, now, later);
  }

  /** Every tree between d and e, e's own included, keeps the invariant. */
  ghost predicate InvThrough(d: Disk, e: Disk, s: IsoSetup) {
    && d.clock <= e.clock && d.log <= e.log
    && Inv(e.nodes, s, e.clock)
    && forall k | |d.log| <= k < |e.log| :: Inv(e.log[k], s, e.clock)
  }

  lemma ThroughTransitive(d: Disk, e: Disk, f: Disk, s: IsoSetup)
    requires InvThrough(d, e, s) && InvThrough(e, f, s)
    ensures InvThrough(d, f, s)
  {
    hide Inv;
    forall k | |d.log| <= k < |f.log| ensures Inv(f.log[k], s, f.clock) {
      if k < |e.log| {
        assert f.log[k] == e.log[k];
        InvLater(e.log[k], s, e.clock, f.clock);
      }
    }
  }

  lemma ThroughEnds(d: Disk, e: Disk, s: IsoSetup)
    requires InvThrough(d, e, s)
    ensures Inv(e.nodes, s, e.clock) && d.clock <= e.clock
  {
    hide Inv;
  }

  lemma ThroughNext(w: World, d: Disk, e: Disk, s: IsoSetup)
    requires InvThrough(d, e, s)
    ensures InvThrough(d, Next(w, e), s)
  {
    hide Inv;
    InvLater(e.nodes, s, e.clock, Next(w, e).clock);
    forall k | |d.log| <= k < |e.log| ensures Inv(e.log[k], s, Next(w, e).clock) {
      InvLater(e.log[k], s, e.clock, Next(w, e).clock);
    }
  }

  lemma KernelThrough(d: Disk, e: Disk, s: IsoSetup)
    requires Inv(d.nodes, s, d.clock) && Good(KernelClaim(d.nodes, s, EntryNow(d.nodes, s, s.kernelPath)), d, e)
    ensures InvThrough(d, e, s)
  {
    hide Inv, HoldsBy, KernelClaim, EntryNow;
    var c := KernelClaim(d.nodes, s, EntryNow(d.nodes, s, s.kernelPath));
    GoodClock(c, d, e);
    GoodLog(c, d, e);
    KernelStepKeepsInv(d.nodes, e.nodes, s, d.clock, e.clock);
    forall k | |d.log| <= k < |e.log| ensures Inv(e.log[k], s, e.clock) {
      GoodLogged(c, d, e, k);
      KernelStepKeepsInv(d.nodes, e.log[k], s, d.clock, e.clock);
    }
  }

  lemma InitrdThrough(d: Disk, e: Disk, s: IsoSetup)
    requires Inv(d.nodes, s, d.clock) && Good(InitrdClaim(d.nodes, s, EntryNow(d.nodes, s, s.initrdPath)), d, e)
    ensures InvThrough(d, e, s)
  {
    hide Inv, HoldsBy, InitrdClaim, EntryNow;
    var c := InitrdClaim(d.nodes, s, EntryNow(d.nodes, s, s.initrdPath));
    GoodClock(c, d, e);
    GoodLog(c, d, e);
    InitrdStepKeepsInv(d.nodes, e.nodes, s, d.clock, e.clock);
    forall k | |d.log| <= k < |e.log| ensures Inv(e.log[k], s, e.clock) {
      GoodLogged(c, d, e, k);
      InitrdStepKeepsInv(d.nodes, e.log[k], s, d.clock, e.clock);
    }
  }

  // ---- extraction of the pair ----

  /** The file at out is newer than the image, or dates from `since` on. */
  predicate Recent(t: Tree, s: IsoSetup, out: Path, since: nat) {
    out in t && t[out].File? &&
    (t[out].mtime >= since
     || (ModTime(t, ArtifactPath(s.iso)).Some? && t[out].mtime > ModTime(t, ArtifactPath(s.iso)).value))
  }

  /** out holds, as a recent file, the complete entry the image offers at src. */
  predicate Holding(t: Tree, s: IsoSetup, out: Path, src: string, since: nat) {
    Recent(t, s, out, since) && EntryNow(t, s, src) == Some(t[out].data)
  }

  predicate PairHeld(t: Tree, s: IsoSetup, since: nat) {
    Holding(t, s, s.Kernel(), s.kernelPath, since) && Holding(t, s, s.Initrd(), s.initrdPath, since)
  }

  lemma HoldingAfter(t: Tree, u: Tree, s: IsoSetup, c: Claim, src: string)
    requires Plain(t, ArtifactPath(s.iso)) && Holds(c, u) && c.before == t && Parent(c.dst) == BootDir(s.bc)
    ensures EntryNow(u, s, src) == EntryNow(t, s, src) && Plain(u, ArtifactPath(s.iso))
    ensures ModTime(u, ArtifactPath(s.iso)) == ModTime(t, ArtifactPath(s.iso))
  {
    hide Plain, Content, ModTime;
    OutsideIsSame(t, u, BootDir(s.bc), "artifacts");
    ImageSame(t, u, s);
  }

  lemma KernelExtracted(w: World, d: Disk, s: IsoSetup, files: map<string, Bytes>)
    requires Inv(d.nodes, s, d.clock)
    requires EntryNow(d.nodes, s, s.kernelPath) == Entry(files, s.kernelPath)
    ensures var r := ExtractFile(w, d, files, s.kernelPath, s.Kernel());
            InvThrough(d, r.disk, s) && (r.ok ==> Holding(r.disk.nodes, s, s.Kernel(), s.kernelPath, d.clock))
            && EntryNow(r.disk.nodes, s, s.initrdPath) == EntryNow(d.nodes, s, s.initrdPath)
            && ChangedOnlyIn(d.nodes, r.disk.nodes, BootDir(s.bc))
  {
    hide Plain, EntryNow, Entry, ExtractFile, OutputSound, ChangedOnlyIn, StoreSound;
    NamesDiffer(s);
    OtherPrefixUndrawn(w, EXTRACT_PREFIX, "vmlinuz");
    OtherPrefixUndrawn(w, EXTRACT_PREFIX, "initrd");
    var c := KernelClaim(d.nodes, s, EntryNow(d.nodes, s, s.kernelPath));
    ClaimStarts(c, d);
    GoodStart(c, d);
    ExtractSafe(w, c, d, d, files, s.kernelPath);
    var r := ExtractFile(w, d, files, s.kernelPath, s.Kernel());
    KernelThrough(d, r.disk, s);
    GoodLog(c, d, r.disk);
    HoldingAfter(d.nodes, r.disk.nodes, s, c, s.kernelPath);
    HoldingAfter(d.nodes, r.disk.nodes, s, c, s.initrdPath);
  }

  lemma InitrdExtracted(w: World, d: Disk, s: IsoSetup, files: map<string, Bytes>, since: nat)
    requires Inv(d.nodes, s, d.clock) && Holding(d.nodes, s, s.Kernel(), s.kernelPath, since) && since <= d.clock
    requires EntryNow(d.nodes, s, s.initrdPath) == Entry(files, s.initrdPath)
    ensures var r := ExtractFile(w, d, files, s.initrdPath, s.Initrd());
            InvThrough(d, r.disk, s) && (r.ok ==> PairHeld(r.disk.nodes, s, since))
            && ChangedOnlyIn(d.nodes, r.disk.nodes, BootDir(s.bc))
  {
    hide Plain, EntryNow, Entry, ExtractFile, OutputSound, ChangedOnlyIn, StoreSound;
    NamesDiffer(s);
    OtherPrefixUndrawn(w, EXTRACT_PREFIX, "vmlinuz");
    OtherPrefixUndrawn(w, EXTRACT_PREFIX, "initrd");
    var c := InitrdClaim(d.nodes, s, EntryNow(d.nodes, s, s.initrdPath));
    ClaimStarts(c, d);
    GoodStart(c, d);
    ExtractSafe(w, c, d, d, files, s.initrdPath);
    var r := ExtractFile(w, d, files, s.initrdPath, s.Initrd());
    InitrdThrough(d, r.disk, s);
    GoodLog(c, d, r.disk);
    HoldingAfter(d.nodes, r.disk.nodes, s, c, s.kernelPath);
    HoldingAfter(d.nodes, r.disk.nodes, s, c, s.initrdPath);
  }

  lemma PairExtracted(w: World, d: Disk, s: IsoSetup)
    requires Inv(d.nodes, s, d.clock)
    ensures var r := ExtractBoth(w, d, s.read, ArtifactPath(s.iso), s.kernelPath, s.initrdPath, BootDir(s.bc));
            InvThrough(d, r.disk, s) && (r.ok ==> PairHeld(r.disk.nodes, s, d.clock))
            && ChangedOnlyIn(d.nodes, r.disk.nodes, BootDir(s.bc))
  {
    hide Inv, InvThrough, ExtractFile, Holding, PairHeld, Entry, ChangedOnlyIn;
    UnchangedOutside(d.nodes, BootDir(s.bc));
    StartThrough(d, s);
    ThroughNext(w, d, d, s);
    if OpenImage(w, d, s.read, ArtifactPath(s.iso)).Some? {
      var files := OpenImage(w, d, s.read, ArtifactPath(s.iso)).value;
      var d1 := Next(w, d);
      ThroughEnds(d, d1, s);
      KernelExtracted(w, d1, s, files);
      var first := ExtractFile(w, d1, files, s.kernelPath, s.Kernel());
      ThroughTransitive(d, d1, first.disk, s);
      if first.ok {
        ThroughEnds(d, first.disk, s);
        HoldingEarlier(first.disk.nodes, s, s.Kernel(), s.kernelPath, d1.clock, d.clock);
        ThroughClock(d, first.disk, s);
        InitrdExtracted(w, first.disk, s, files, d.clock);
        var second := ExtractFile(w, first.disk, files, s.initrdPath, s.Initrd()).disk;
        ThroughTransitive(d, first.disk, second, s);
        ChangedTwice(d.nodes, first.disk.nodes, second.nodes, BootDir(s.bc));
      }
    }
  }

  lemma HoldingEarlier(t: Tree, s: IsoSetup, out: Path, src: string, since: nat, earlier: nat)
    requires Holding(t, s, out, src, since) && earlier <= since
    ensures Holding(t, s, out, src, earlier)
  {
    hide EntryNow, ModTime;
  }

  lemma PairHeldEarlier(t: Tree, s: IsoSetup, since: nat, earlier: nat)
    requires PairHeld(t, s, since) && earlier <= since
    ensures PairHeld(t, s, earlier)
  {
    hide EntryNow, ModTime;
  }

  lemma ThroughClock(d: Disk, e: Disk, s: IsoSetup)
    requires InvThrough(d, e, s)
    ensures d.clock <= e.clock
  {
    hide Inv;
  }

  lemma StartThrough(d: Disk, s: IsoSetup)
    requires Inv(d.nodes, s, d.clock)
    ensures InvThrough(d, d, s)
  {
    hide Inv;
  }

  /** An output that looks newer than the image holds its entry. */
  lemma NewerIsHeld(t: Tree, s: IsoSetup, out: Path, src: string)
    requires OutputSound(t, s, out, src) && |out| == 3 && Direct(t, out) && Plain(t, ArtifactPath(s.iso))
    requires ModTime(t, ArtifactPath(s.iso)).Some? && Newer(ModTime(t, out), ModTime(t, ArtifactPath(s.iso)).value)
    ensures forall since :: Holding(t, s, out, src, since)
  {
    hide EntryNow, Plain;
    WalkLast(t, out, MAX_LINKS);
    if out in t && t[out].Link? {
      BootLinkReads(t, s, out);
    } else if out in t {
      DirectFile(t, out);
    }
  }

  /** A link to the image two directories up reads as the image. */
  lemma BootLinkReads(t: Tree, s: IsoSetup, p: Path)
    requires |p| == 3 && Direct(t, p) && p in t && t[p] == Link(LinkFromBootDir(s.iso)) && Plain(t, ArtifactPath(s.iso))
    ensures Content(t, p) == Content(t, ArtifactPath(s.iso)) && ModTime(t, p) == ModTime(t, ArtifactPath(s.iso))
    ensures Resolve(t, p) == Resolve(t, ArtifactPath(s.iso))
  {
    hide Content, ModTime, Plain;
    assert LinkFromBootDir(s.iso) == seq(|p| - 1, _ => "..") + ArtifactPath(s.iso);
    LinkReadsAs(t, p, ArtifactPath(s.iso));
  }

  lemma ImageIsFile(t: Tree, s: IsoSetup)
    requires StoreSound(t) && Plain(t, ArtifactPath(s.iso))
    ensures NotDirectory(t, ArtifactPath(s.iso))
  {
    assert s.iso.name in ArtifactPath(s.iso) && s.iso.file in ArtifactPath(s.iso);
    StoreReads(t, s.iso);
  }

  lemma OutIsFile(t: Tree, s: IsoSetup, out: Path, src: string)
    requires OutputSound(t, s, out, src) && |out| == 3 && Direct(t, out) && StoreSound(t)
        && Plain(t, ArtifactPath(s.iso))
    ensures NotDirectory(t, out)
  {
    hide EntryNow, Plain, StoreSound;
    WalkLast(t, out, MAX_LINKS);
    if out in t && t[out].Link? {
      BootLinkReads(t, s, out);
      ImageIsFile(t, s);
    }
  }

  /** The skip looks at both files, so a success is never half old and half new. */
  lemma ExtractionSound(w: World, d: Disk, s: IsoSetup)
    requires Inv(d.nodes, s, d.clock) && Direct(d.nodes, s.Kernel()) && Direct(d.nodes, s.Initrd())
    ensures var r := ExtractFromIso(w, d, s.read, ArtifactPath(s.iso), s.kernelPath, s.initrdPath, BootDir(s.bc));
            InvThrough(d, r.disk, s) && (r.ok ==> PairHeld(r.disk.nodes, s, d.clock))
            && ChangedOnlyIn(d.nodes, r.disk.nodes, BootDir(s.bc))
  {
    hide Plain, InvThrough, ExtractBoth, Holding, Content, ModTime, Resolve, OutputSound, Newer, ChangedOnlyIn,
         StoreSound, StatTime, NotDirectory;
    UnchangedOutside(d.nodes, BootDir(s.bc));
    var d1 := Next(w, d);
    var d2 := Next(w, d1);
    var d3 := Next(w, d2);
    StartThrough(d, s);
    ThroughNext(w, d, d, s);
    ThroughNext(w, d, d1, s);
    ThroughNext(w, d, d2, s);
    ThroughEnds(d, d2, s);
    ThroughEnds(d, d3, s);
    PairExtracted(w, d2, s);
    PairExtracted(w, d3, s);
    ThroughTransitive(d, d2,
        ExtractBoth(w, d2, s.read, ArtifactPath(s.iso), s.kernelPath, s.initrdPath, BootDir(s.bc)).disk, s);
    ThroughTransitive(d, d3,
        ExtractBoth(w, d3, s.read, ArtifactPath(s.iso), s.kernelPath, s.initrdPath, BootDir(s.bc)).disk, s);
    var r := ExtractFromIso(w, d, s.read, ArtifactPath(s.iso), s.kernelPath, s.initrdPath, BootDir(s.bc));
    if PairHeld(r.disk.nodes, s, d2.clock) {
      PairHeldEarlier(r.disk.nodes, s, d2.clock, d.clock);
    }
    if PairHeld(r.disk.nodes, s, d3.clock) {
      PairHeldEarlier(r.disk.nodes, s, d3.clock, d.clock);
    }
    if StatTime(w, d, ArtifactPath(s.iso)).Some? {
      var ti := StatTime(w, d, ArtifactPath(s.iso)).value;
      NoneIsNotNewer(ti);
      ImageIsFile(d.nodes, s);
      OutIsFile(d.nodes, s, s.Kernel(), s.kernelPath);
      OutIsFile(d.nodes, s, s.Initrd(), s.initrdPath);
      StatOfFile(w, d, ArtifactPath(s.iso));
      StatOfFile(w, d1, s.Kernel());
      StatOfFile(w, d2, s.Initrd());
      if Newer(StatTime(w, d1, s.Kernel()), ti) && Newer(StatTime(w, d2, s.Initrd()), ti) {
        NewerIsHeld(d.nodes, s, s.Kernel(), s.kernelPath);
        NewerIsHeld(d.nodes, s, s.Initrd(), s.initrdPath);
      }
    }
  }

  lemma NoneIsNotNewer(ti: nat)
    ensures !Newer(None, ti)
  {
  }

  // ---- the link to the image ----

  /** u is t but for what stands at p. */
  ghost predicate SameBut(t: Tree, u: Tree, p: Path) {
    forall q: Path | q != p :: (q in t <==> q in u) && (q in t ==> t[q] == u[q])
  }

  /** p is kept, gone, or the wanted link. */
  predicate LinkStep(t: Tree, u: Tree, p: Path, target: Path) {
    p in u ==> (p in t && u[p] == t[p]) || u[p] == Link(target)
  }

  lemma FileLinkEffect(w: World, d: Disk, p: Path, target: Path)
    requires p != []
    ensures var r := EnsureFileSymlink(w, d, p, target);
            && d.clock <= r.disk.clock && d.log <= r.disk.log && SameBut(d.nodes, r.disk.nodes, p)
            && LinkStep(d.nodes, r.disk.nodes, p, target)
            && (forall k | |d.log| <= k < |r.disk.log| ::
                  SameBut(d.nodes, r.disk.log[k], p) && LinkStep(d.nodes, r.disk.log[k], p, target))
            && (r.ok ==> p in r.disk.nodes && r.disk.nodes[p] == Link(target))
  {
  }

  lemma LinkKeepsInv(t: Tree, u: Tree, s: IsoSetup, now: nat, later: nat)
    requires Inv(t, s, now) && now <= later && SameBut(t, u, s.Image())
    requires LinkStep(t, u, s.Image(), LinkFromBootDir(s.iso))
    ensures Inv(u, s, later)
  {
    hide Plain, Content, ModTime, EntryNow, StoreSound;
    assert SameBelow(t, u, ["artifacts"]) by {
      assert "boot"[0] != "artifacts"[0] && s.Image()[0] == "boot";
    }
    StepKeepsInv(t, u, s, now, later);
  }

  lemma FileLinkThrough(w: World, d: Disk, s: IsoSetup)
    requires Inv(d.nodes, s, d.clock)
    ensures InvThrough(d, EnsureFileSymlink(w, d, s.Image(), LinkFromBootDir(s.iso)).disk, s)
  {
    hide Inv, SameBut, LinkStep, EnsureFileSymlink;
    var e := EnsureFileSymlink(w, d, s.Image(), LinkFromBootDir(s.iso)).disk;
    FileLinkEffect(w, d, s.Image(), LinkFromBootDir(s.iso));
    LinkKeepsInv(d.nodes, e.nodes, s, d.clock, e.clock);
    forall k | |d.log| <= k < |e.log| ensures Inv(e.log[k], s, e.clock) {
      LinkKeepsInv(d.nodes, e.log[k], s, d.clock, e.clock);
    }
  }

  lemma OwnNames(s: IsoSetup)
    ensures s.Image() == s.Kernel() <==> s.iso.file == "vmlinuz"
    ensures s.Image() == s.Initrd() <==> s.iso.file == "initrd"
  {
    assert s.Image()[2] == s.iso.file && s.Kernel()[2] == "vmlinuz" && s.Initrd()[2] == "initrd";
  }

  // ---- one reconcile ----

  function Reconcile(w: World, d: Disk, s: IsoSetup): Assembled {
    AssembleIso(w, d, s.read, s.bc, s.iso, s.kernelPath, s.initrdPath)
  }

  /** What an output of this name reads as: the entry, unless the image goes by the same name. */
  function Expected(t: Tree, s: IsoSetup, name: string, src: string): Option<Bytes> {
    if s.iso.file == name then Content(t, ArtifactPath(s.iso)) else EntryNow(t, s, src)
  }

  /** The image offers both entries; each is served complete unless the image's own name hides it. */
  ghost predicate Serves(t: Tree, s: IsoSetup) {
    && EntryNow(t, s, s.kernelPath).Some? && EntryNow(t, s, s.initrdPath).Some?
    && Content(t, s.Kernel()) == Expected(t, s, "vmlinuz", s.kernelPath)
    && Content(t, s.Initrd()) == Expected(t, s, "initrd", s.initrdPath)
    && Content(t, s.Image()) == Content(t, ArtifactPath(s.iso))
  }

  ghost predicate DirsReady(t: Tree, s: IsoSetup) {
    Direct(t, s.Kernel()) && Direct(t, s.Initrd()) && Direct(t, s.Image())
  }

  lemma DirsMade(t: Tree, s: IsoSetup)
    requires s.Named() && forall k | 0 <= k <= 2 :: DirAt(t, BootDir(s.bc)[..k])
    ensures DirsReady(t, s)
  {
    assert |"boot"| == 4 && |"vmlinuz"| == 7 && |"initrd"| == 6 && |".."| == 2;
    DirectBelow(t, BootDir(s.bc), "vmlinuz");
    DirectBelow(t, BootDir(s.bc), "initrd");
    DirectBelow(t, BootDir(s.bc), s.iso.file);
  }

  lemma MkdirThrough(w: World, d: Disk, s: IsoSetup)
    requires Inv(d.nodes, s, d.clock) && s.Named()
    ensures var r := MkdirAll(w, d, BootDir(s.bc));
            InvThrough(d, r.disk, s) && (r.ok ==> DirsReady(r.disk.nodes, s))
  {
    hide Inv, MkdirAll, MadeDirs, DirsReady;
    var r := MkdirAll(w, d, BootDir(s.bc));
    MkdirEffect(w, d, BootDir(s.bc));
    MadeDirsKeepInv(d.nodes, r.disk.nodes, s, d.clock);
    InvLater(r.disk.nodes, s, d.clock, r.disk.clock);
    forall k | |d.log| <= k < |r.disk.log| ensures Inv(r.disk.log[k], s, r.disk.clock) {
      MadeDirsKeepInv(d.nodes, r.disk.log[k], s, d.clock);
      InvLater(r.disk.log[k], s, d.clock, r.disk.clock);
    }
    if r.ok {
      DirsMade(r.disk.nodes, s);
    }
  }

  lemma ExtractionKeepsDirs(t: Tree, u: Tree, s: IsoSetup)
    requires DirsReady(t, s) && ChangedOnlyIn(t, u, BootDir(s.bc))
    ensures DirsReady(u, s)
  {
    DirsStay(t, u, BootDir(s.bc), s.Kernel());
    DirsStay(t, u, BootDir(s.bc), s.Initrd());
    DirsStay(t, u, BootDir(s.bc), s.Image());
  }

  /** Replacing one entry of the boot directory spares the image and the directories. */
  lemma LinkSpares(t: Tree, u: Tree, s: IsoSetup)
    requires SameBut(t, u, s.Image()) && DirsReady(t, s) && Plain(t, ArtifactPath(s.iso))
    ensures DirsReady(u, s) && Plain(u, ArtifactPath(s.iso))
    ensures Content(u, ArtifactPath(s.iso)) == Content(t, ArtifactPath(s.iso))
    ensures ModTime(u, ArtifactPath(s.iso)) == ModTime(t, ArtifactPath(s.iso))
    ensures forall src :: EntryNow(u, s, src) == EntryNow(t, s, src)
  {
    hide Plain, Content, ModTime;
    assert SameBelow(t, u, ["artifacts"]) by {
      assert "boot"[0] != "artifacts"[0] && s.Image()[0] == "boot";
    }
    ImageSame(t, u, s);
    assert ChangedOnlyIn(t, u, BootDir(s.bc)) by {
      assert BootDir(s.bc) < s.Image();
    }
    ExtractionKeepsDirs(t, u, s);
  }

  /** Directories, pair and image link are such that another reconcile has nothing to do. */
  ghost predicate Settled(t: Tree, s: IsoSetup, since: nat) {
    && DirsReady(t, s)
    && Recent(t, s, s.Kernel(), since) && Recent(t, s, s.Initrd(), since)
    && s.Image() in t && t[s.Image()] == Link(LinkFromBootDir(s.iso))
  }

  ghost predicate Complete(t: Tree, s: IsoSetup, since: nat) {
    && Serves(t, s) && DirsReady(t, s)
    && s.Image() in t && t[s.Image()] == Link(LinkFromBootDir(s.iso))
    && (s.ImageApart() ==> Settled(t, s, since))
  }

  /** Last step from a held pair: the image's link, which may take an output's place. */
  lemma ImageLinked(w: World, d: Disk, s: IsoSetup, since: nat)
    requires Inv(d.nodes, s, d.clock) && PairHeld(d.nodes, s, since) && DirsReady(d.nodes, s)
    ensures var r := EnsureFileSymlink(w, d, s.Image(), LinkFromBootDir(s.iso));
            r.ok ==> Complete(r.disk.nodes, s, since)
  {
    hide Plain, Content, ModTime, EntryNow, EnsureFileSymlink, OutputSound, StoreSound, Stamped;
    var r := EnsureFileSymlink(w, d, s.Image(), LinkFromBootDir(s.iso));
    FileLinkEffect(w, d, s.Image(), LinkFromBootDir(s.iso));
    if r.ok {
      var u := r.disk.nodes;
      LinkSpares(d.nodes, u, s);
      OwnNames(s);
      BootLinkReads(u, s, s.Image());
      if s.Image() != s.Kernel() {
        DirectFile(u, s.Kernel());
      }
      if s.Image() != s.Initrd() {
        DirectFile(u, s.Initrd());
      }
    }
  }

  /** One reconcile from a sound pair: sound at every step, and serving the whole pair if it succeeds. */
  lemma ReconcileSound(w: World, d: Disk, s: IsoSetup)
    requires s.Named() && Inv(d.nodes, s, d.clock)
    ensures var r := Reconcile(w, d, s);
            InvThrough(d, r.disk, s) && (r.failed == None ==> Complete(r.disk.nodes, s, d.clock))
  {
    hide Inv, InvThrough, MkdirAll, ExtractFromIso, EnsureFileSymlink, Complete, DirsReady, PairHeld, ChangedOnlyIn;
    var b := MkdirAll(w, d, BootDir(s.bc));
    MkdirThrough(w, d, s);
    ThroughEnds(d, b.disk, s);
    if b.ok {
      ReadyDirs(b.disk.nodes, s);
      ExtractionSound(w, b.disk, s);
      var e := ExtractFromIso(w, b.disk, s.read, ArtifactPath(s.iso), s.kernelPath, s.initrdPath, BootDir(s.bc));
      ThroughTransitive(d, b.disk, e.disk, s);
      ThroughEnds(d, e.disk, s);
      if e.ok {
        ExtractionKeepsDirs(b.disk.nodes, e.disk.nodes, s);
        FileLinkThrough(w, e.disk, s);
        ThroughTransitive(d, e.disk, EnsureFileSymlink(w, e.disk, s.Image(), LinkFromBootDir(s.iso)).disk, s);
        PairHeldEarlier(e.disk.nodes, s, b.disk.clock, d.clock);
        ImageLinked(w, e.disk, s, d.clock);
      }
    }
  }

  lemma ReadyDirs(t: Tree, s: IsoSetup)
    requires DirsReady(t, s)
    ensures Direct(t, s.Kernel()) && Direct(t, s.Initrd())
  {
  }

  // ---- an image named like an output ----

  /** A reconcile never touches the image itself. */
  lemma ImageKept(w: World, d: Disk, s: IsoSetup)
    requires s.Named() && Inv(d.nodes, s, d.clock)
    ensures var t := Reconcile(w, d, s).disk.nodes;
            && Content(t, ArtifactPath(s.iso)) == Content(d.nodes, ArtifactPath(s.iso))
            && forall src :: EntryNow(t, s, src) == EntryNow(d.nodes, s, src)
  {
    hide Plain, Content, ModTime, OutputSound, InvThrough, MkdirAll, ExtractFromIso, EnsureFileSymlink, PairHeld,
         ChangedOnlyIn, StoreSound, Stamped, MadeDirs, SameBelow, SameBut, LinkStep;
    var b := MkdirAll(w, d, BootDir(s.bc));
    MkdirThrough(w, d, s);
    MkdirEffect(w, d, BootDir(s.bc));
    MadeBootDirsSpareArtifacts(d.nodes, b.disk.nodes, BootDir(s.bc));
    ImageSame(d.nodes, b.disk.nodes, s);
    ThroughEnds(d, b.disk, s);
    if b.ok {
      ExtractionSound(w, b.disk, s);
      var e := ExtractFromIso(w, b.disk, s.read, ArtifactPath(s.iso), s.kernelPath, s.initrdPath, BootDir(s.bc));
      assert "boot"[0] != "artifacts"[0];
      OutsideIsSame(b.disk.nodes, e.disk.nodes, BootDir(s.bc), "artifacts");
      ImageSame(b.disk.nodes, e.disk.nodes, s);
      if e.ok {
        FileLinkEffect(w, e.disk, s.Image(), LinkFromBootDir(s.iso));
        ExtractionKeepsDirs(b.disk.nodes, e.disk.nodes, s);
        LinkSpares(e.disk.nodes, EnsureFileSymlink(w, e.disk, s.Image(), LinkFromBootDir(s.iso)).disk.nodes, s);
      }
    }
  }

  /**
   * Whatever the image is called, a successful reconcile leaves its own name reading as the image.
   * So an image called vmlinuz or initrd is served in place of what was extracted.
   */
  lemma ImageNameServesImage(w: World, d: Disk, s: IsoSetup)
    requires s.Named() && Inv(d.nodes, s, d.clock) && Reconcile(w, d, s).failed == None
    ensures Content(Reconcile(w, d, s).disk.nodes, s.Image()) == Content(d.nodes, ArtifactPath(s.iso))
  {
    hide Inv, InvThrough, Reconcile, EntryNow, Content;
    ReconcileSound(w, d, s);
    ImageKept(w, d, s);
  }

  /** A success serves the extracted kernel exactly when the image has another name, or the same bytes. */
  lemma KernelServedIff(w: World, d: Disk, s: IsoSetup)
    requires s.Named() && Inv(d.nodes, s, d.clock) && Reconcile(w, d, s).failed == None
    ensures Content(Reconcile(w, d, s).disk.nodes, s.Kernel()) == EntryNow(d.nodes, s, s.kernelPath) <==>
            s.iso.file != "vmlinuz" || Content(d.nodes, ArtifactPath(s.iso)) == EntryNow(d.nodes, s, s.kernelPath)
  {
    hide Inv, InvThrough, Reconcile, EntryNow, Content;
    ReconcileSound(w, d, s);
    ImageKept(w, d, s);
  }

  /** The same for the initrd. */
  lemma InitrdServedIff(w: World, d: Disk, s: IsoSetup)
    requires s.Named() && Inv(d.nodes, s, d.clock) && Reconcile(w, d, s).failed == None
    ensures Content(Reconcile(w, d, s).disk.nodes, s.Initrd()) == EntryNow(d.nodes, s, s.initrdPath) <==>
            s.iso.file != "initrd" || Content(d.nodes, ArtifactPath(s.iso)) == EntryNow(d.nodes, s, s.initrdPath)
  {
    hide Inv, InvThrough, Reconcile, EntryNow, Content;
    ReconcileSound(w, d, s);
    ImageKept(w, d, s);
  }

  lemma ExtractWrites(w: World, d: Disk, files: map<string, Bytes>, src: string, dst: Path)
    ensures var r := ExtractFile(w, d, files, src, dst);
            d.log <= r.disk.log && (r.ok ==> |d.log| < |r.disk.log|)
  {
  }

  /** An image named like an output is never newer than itself: the pair is extracted every time. */
  lemma ClashNeverSettles(w: World, d: Disk, s: IsoSetup, again: World)
    requires s.Named() && Inv(d.nodes, s, d.clock) && !s.ImageApart() && Reconcile(w, d, s).failed == None
    ensures var first := Reconcile(w, d, s).disk;
            var second := Reconcile(again, first, s);
            !(second.failed == None && second.disk.log == first.log)
  {
    hide Inv, InvThrough, Reconcile, Serves, Settled, DirsReady;
    ReconcileSound(w, d, s);
    var first := Reconcile(w, d, s).disk;
    ThroughEnds(d, first, s);
    ReextractsWhen(again, first, s);
  }

  lemma ReextractsWhen(w: World, d: Disk, s: IsoSetup)
    requires s.Named() && Inv(d.nodes, s, d.clock) && !s.ImageApart() && DirsReady(d.nodes, s)
    requires s.Image() in d.nodes && d.nodes[s.Image()] == Link(LinkFromBootDir(s.iso))
    ensures var r := Reconcile(w, d, s); !(r.failed == None && r.disk.log == d.log)
  {
    hide MkdirAll, EnsureFileSymlink, ExtractFromIso, StoreSound, Plain, OutputSound, Stamped, SameBut, LinkStep;
    BootDirStands(d.nodes, s);
    MkdirIdle(w, d, BootDir(s.bc));
    var b := MkdirAll(w, d, BootDir(s.bc)).disk;
    ClashExtracts(w, b, s);
    var e := ExtractFromIso(w, b, s.read, ArtifactPath(s.iso), s.kernelPath, s.initrdPath, BootDir(s.bc));
    if e.ok {
      FileLinkEffect(w, e.disk, s.Image(), LinkFromBootDir(s.iso));
    }
  }

  lemma BootDirStands(t: Tree, s: IsoSetup)
    requires DirsReady(t, s)
    ensures forall k | 0 <= k <= |BootDir(s.bc)| :: DirAt(t, BootDir(s.bc)[..k])
  {
    forall k | 0 <= k <= 2 ensures DirAt(t, BootDir(s.bc)[..k]) {
      assert s.Kernel()[..k] == BootDir(s.bc)[..k];
    }
  }

  /** With the image's link in an output's place the skip never applies. */
  lemma ClashExtracts(w: World, d: Disk, s: IsoSetup)
    requires StoreSound(d.nodes) && Plain(d.nodes, ArtifactPath(s.iso)) && !s.ImageApart() && Direct(d.nodes, s.Image())
    requires s.Image() in d.nodes && d.nodes[s.Image()] == Link(LinkFromBootDir(s.iso))
    ensures var e := ExtractFromIso(w, d, s.read, ArtifactPath(s.iso), s.kernelPath, s.initrdPath, BootDir(s.bc));
            d.log <= e.disk.log && (e.ok ==> |d.log| < |e.disk.log|)
  {
    hide Plain, StoreSound, Resolve, ModTime, StatTime, NotDirectory, ExtractBoth;
    OwnNames(s);
    BootLinkReads(d.nodes, s, s.Image());
    ImageIsFile(d.nodes, s);
    LinkIsFile(d.nodes, s);
    var d2 := Next(w, Next(w, d));
    StatOfFile(w, d, ArtifactPath(s.iso));
    StatOfFile(w, Next(w, d), s.Image());
    StatOfFile(w, d2, s.Image());
    BothWrite(w, d2, s);
    BothWrite(w, Next(w, d2), s);
  }

  lemma LinkIsFile(t: Tree, s: IsoSetup)
    requires NotDirectory(t, ArtifactPath(s.iso))
    requires Resolve(t, s.Image()) == Resolve(t, ArtifactPath(s.iso))
        && ModTime(t, s.Image()) == ModTime(t, ArtifactPath(s.iso))
    ensures NotDirectory(t, s.Image())
  {
    hide Resolve, ModTime;
  }

  lemma BothWrite(w: World, d: Disk, s: IsoSetup)
    ensures var e := ExtractBoth(w, d, s.read, ArtifactPath(s.iso), s.kernelPath, s.initrdPath, BootDir(s.bc));
            d.log <= e.disk.log && (e.ok ==> |d.log| < |e.disk.log|)
  {
    hide ExtractFile, Content;
    if OpenImage(w, d, s.read, ArtifactPath(s.iso)).Some? {
      var files := OpenImage(w, d, s.read, ArtifactPath(s.iso)).value;
      var d1 := Next(w, d);
      ExtractWrites(w, d1, files, s.kernelPath, s.Kernel());
      ExtractWrites(w, ExtractFile(w, d1, files, s.kernelPath, s.Kernel()).disk, files, s.initrdPath, s.Initrd());
    }
  }

  // ---- doing it again ----

  /**
   * Once the clock has passed the image's time, a further reconcile without faults succeeds and
   * changes nothing: neither file is extracted again.
   */
  lemma SettledIsSteady(w: World, d: Disk, s: IsoSetup, since: nat)
    requires Settled(d.nodes, s, since) && Faultless(w)
    requires ModTime(d.nodes, ArtifactPath(s.iso)).Some? && ModTime(d.nodes, ArtifactPath(s.iso)).value < since
    ensures var r := Reconcile(w, d, s);
            r.failed == None && r.disk.nodes == d.nodes && r.disk.log == d.log
  {
    hide ModTime, Resolve, StatTime, MkdirAll;
    BootDirStands(d.nodes, s);
    MkdirIdle(w, d, BootDir(s.bc));
    DirectFile(d.nodes, s.Kernel());
    DirectFile(d.nodes, s.Initrd());
    var d1 := MkdirAll(w, d, BootDir(s.bc)).disk;
    StatOfFile(w, d1, ArtifactPath(s.iso));
    StatOfFile(w, Next(w, d1), s.Kernel());
    StatOfFile(w, Next(w, Next(w, d1)), s.Initrd());
  }
}

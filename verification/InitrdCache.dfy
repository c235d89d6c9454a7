/**
 * The served initrd as a cache keyed by modification times: over every run of artifact installs,
 * faults, crashes and reconciles with firmware switched on and off, a reconcile that succeeds
 * serves exactly what the artifacts on disk call for.
 */
module InitrdCache {
  import opened Words
  import opened FileTree
  import opened FileOps
  import opened BootDirectory
  import opened ArtifactStore
  import opened Assembly
  import opened CrashSafety

  /** One netboot configuration, its references fixed; firmware may be switched on or off. */
  datatype Setup = Setup(bc: string, kernel: Ref, initrd: Ref, firmware: Ref) {
    function Dst(): Path {
      InitrdDir(bc) + [initrd.file]
    }

    function KernelDst(): Path {
      KernelDir(bc) + [kernel.file]
    }

    function Sources(): seq<Path> {
      [ArtifactPath(kernel), ArtifactPath(initrd), ArtifactPath(firmware)]
    }

    /** Names a directory can hold. */
    predicate Named() {
      bc != ".." && Usable(kernel) && Usable(initrd) && Usable(firmware)
    }

    /** The initrd's name is never drawn for a temporary file. */
    ghost predicate Apart(w: World) {
      Undrawn(w, CONCAT_PREFIX, initrd.file)
    }
  }

  ghost predicate SourcesSound(t: Tree, s: Setup) {
    && StoreSound(t)
    && Plain(t, ArtifactPath(s.kernel)) && Plain(t, ArtifactPath(s.initrd)) && Plain(t, ArtifactPath(s.firmware))
  }

  lemma StoreHoldsSources(t: Tree, s: Setup)
    requires StoreSound(t) && s.Named()
    ensures SourcesSound(t, s)
  {
    hide Plain, StoreSound, Content, ModTime, Resolve;
    StoreReads(t, s.kernel);
    StoreReads(t, s.initrd);
    StoreReads(t, s.firmware);
  }

  lemma SourceIsFile(t: Tree, r: Ref)
    requires StoreSound(t) && Plain(t, ArtifactPath(r))
    ensures NotDirectory(t, ArtifactPath(r))
  {
    assert r.name in ArtifactPath(r) && r.file in ArtifactPath(r);
    StoreReads(t, r);
  }

  /** If n is newer than both sources it holds their concatenation. */
  predicate FreshIfNewer(n: Node, t: Tree, a: Path, b: Path)
    requires n.File?
  {
    ModTime(t, a).Some? && ModTime(t, b).Some? && n.mtime > ModTime(t, a).value && n.mtime > ModTime(t, b).value
    ==> Joined(t, a, b) == Some(n.data)
  }

  /** The invariant: a link to the initrd artifact, or a file that is fresh if it looks fresh. */
  predicate CacheSound(t: Tree, s: Setup) {
    s.Dst() in t ==>
      || t[s.Dst()] == Link(LinkFromModeDir(s.initrd))
      || (t[s.Dst()].File? && FreshIfNewer(t[s.Dst()], t, ArtifactPath(s.initrd), ArtifactPath(s.firmware)))
  }

  ghost predicate Inv(t: Tree, s: Setup, now: nat) {
    SourcesSound(t, s) && CacheSound(t, s) && Stamped(t, s.Dst(), now) && Stamped(t, s.KernelDst(), now)
  }

  lemma InvLater(t: Tree, s: Setup, now: nat, later: nat)
    requires Inv(t, s, now) && now <= later
    ensures Inv(t, s, later)
  {
    hide SourcesSound, CacheSound;
  }

  /** Changes that spare the artifacts and the served name spare the invariant. */
  lemma InvSame(t: Tree, u: Tree, s: Setup, now: nat)
    requires Inv(t, s, now) && SameBelow(t, u, ["artifacts"])
    requires s.Dst() in u ==> s.Dst() in t && u[s.Dst()] == t[s.Dst()]
    requires Stamped(u, s.KernelDst(), now)
    ensures Inv(u, s, now)
  {
    SourcesSame(t, u, s);
  }

  lemma SourcesSame(t: Tree, u: Tree, s: Setup)
    requires SourcesSound(t, s) && SameBelow(t, u, ["artifacts"])
    ensures SourcesSound(u, s)
    ensures forall p | p in s.Sources() :: Content(u, p) == Content(t, p) && ModTime(u, p) == ModTime(t, p)
  {
    hide Plain, Content, ModTime, SameBelow, StoreSound;
    StoreSame(t, u);
    assert forall p | p in s.Sources() :: p[..1] == ["artifacts"] && [p[0]] == ["artifacts"];
    PlainSame(t, u, ArtifactPath(s.kernel));
    PlainSame(t, u, ArtifactPath(s.initrd));
    PlainSame(t, u, ArtifactPath(s.firmware));
  }

  // ---- directories ----

  lemma MadeDirsKeepInv(t: Tree, u: Tree, p: Path, s: Setup, now: nat)
    requires Inv(t, s, now) && MadeDirs(t, u, p) && p != [] && p[0] == "boot" && |p| < 4
    ensures Inv(u, s, now)
  {
    hide CacheSound, SourcesSound;
    MadeBootDirsSpareArtifacts(t, u, p);
    assert s.KernelDst() in u ==> s.KernelDst() in t;
    InvSame(t, u, s, now);
  }

  // ---- the kernel link ----

  function KernelClaim(t: Tree, s: Setup): Claim {
    Claim(t, s.KernelDst(), PointsTo(LinkFromModeDir(s.kernel)), false, true, None)
  }

  function LinkClaim(t: Tree, s: Setup): Claim {
    Claim(t, s.Dst(), PointsTo(LinkFromModeDir(s.initrd)), false, true, None)
  }

  function JoinClaim(t: Tree, s: Setup): Claim {
    Claim(t, s.Dst(), Data(Joined(t, ArtifactPath(s.initrd), ArtifactPath(s.firmware))), false, true, None)
  }

  /** Changes inside boot/bc/kernel or boot/bc/initrd never reach the artifacts. */
  lemma ClaimSparesArtifacts(c: Claim, t: Tree)
    requires Holds(c, t) && |c.dst| == 4 && c.dst[0] == "boot"
    ensures SameBelow(c.before, t, ["artifacts"])
  {
    OutsideIsSame(c.before, t, Parent(c.dst), "artifacts");
  }

  lemma KernelStepKeepsInv(t: Tree, u: Tree, s: Setup, now: nat, later: nat)
    requires Inv(t, s, now) && now <= later && HoldsBy(KernelClaim(t, s), u, later)
    ensures Inv(u, s, later)
  {
    InvLater(t, s, now, later);
    ClaimSparesArtifacts(KernelClaim(t, s), u);
    assert s.Dst()[2] == "initrd" && KernelDir(s.bc)[2] == "kernel" && "initrd"[0] != "kernel"[0];
    assert Parent(KernelClaim(t, s).dst) == KernelDir(s.bc);
    InvSame(t, u, s, later);
  }

  /** Every tree the initrd step can leave, finished or not, keeps the cache sound. */
  lemma InitrdStepKeepsInv(t: Tree, u: Tree, s: Setup, c: Claim, now: nat, later: nat)
    requires Inv(t, s, now) && now <= later && c in {LinkClaim(t, s), JoinClaim(t, s)}
    requires HoldsBy(c, u, later)
    ensures Inv(u, s, later)
  {
    hide Content, ModTime, Plain, StoreSound;
    ClaimSparesArtifacts(c, u);
    SourcesSame(t, u, s);
    assert ArtifactPath(s.initrd) in s.Sources() && ArtifactPath(s.firmware) in s.Sources();
    assert Parent(s.Dst()) == InitrdDir(s.bc);
    assert s.KernelDst()[2] == "kernel" && InitrdDir(s.bc)[2] == "initrd" && "initrd"[0] != "kernel"[0];
    assert !(InitrdDir(s.bc) < s.KernelDst());
  }

  // ---- what success means ----

  function Expected(t: Tree, s: Setup, firmware: bool): Option<Bytes> {
    if firmware then Joined(t, ArtifactPath(s.initrd), ArtifactPath(s.firmware))
    else Content(t, ArtifactPath(s.initrd))
  }

  ghost predicate Serves(t: Tree, s: Setup, firmware: bool) {
    && Content(t, s.KernelDst()) == Content(t, ArtifactPath(s.kernel))
    && Content(t, s.Dst()) == Expected(t, s, firmware)
    && (firmware ==> Expected(t, s, true).Some?)
  }

  lemma ModeDirLink(t: Tree, p: Path, r: Ref)
    requires |p| == 4 && Direct(t, p) && p in t && t[p] == Link(LinkFromModeDir(r)) && Plain(t, ArtifactPath(r))
    ensures Content(t, p) == Content(t, ArtifactPath(r)) && ModTime(t, p) == ModTime(t, ArtifactPath(r))
    ensures Resolve(t, p) == Resolve(t, ArtifactPath(r))
  {
    assert LinkFromModeDir(r) == seq(|p| - 1, _ => "..") + ArtifactPath(r);
    LinkReadsAs(t, p, ArtifactPath(r));
  }

  /** A served name that looks newer than both sources is a file, and fresh. */
  lemma NewerIsFresh(t: Tree, s: Setup, now: nat)
    requires Inv(t, s, now) && Direct(t, s.Dst())
    requires UpToDate(t, s.Dst(), ArtifactPath(s.initrd), ArtifactPath(s.firmware))
    ensures Content(t, s.Dst()) == Joined(t, ArtifactPath(s.initrd), ArtifactPath(s.firmware))
    ensures Content(t, s.Dst()).Some?
  {
    hide Plain;
    var p := s.Dst();
    WalkLast(t, p, MAX_LINKS);
    if t[p].Link? {
      ModeDirLink(t, p, s.initrd);
      assert false;
    } else {
      DirectFile(t, p);
    }
  }

  /** In a sound cache the skip compares the times of files only. */
  lemma SkipsOnFiles(w: World, d: Disk, s: Setup)
    requires Inv(d.nodes, s, d.clock) && Direct(d.nodes, s.Dst())
    ensures Skips(w, d, s.Dst(), ArtifactPath(s.initrd), ArtifactPath(s.firmware)) ==>
              UpToDate(d.nodes, s.Dst(), ArtifactPath(s.initrd), ArtifactPath(s.firmware))
  {
    hide Plain, StoreSound, Skips, UpToDate, ModTime, Resolve;
    SourceIsFile(d.nodes, s.initrd);
    SourceIsFile(d.nodes, s.firmware);
    DstIsFile(d.nodes, s);
    SkipsIff(w, d, s.Dst(), ArtifactPath(s.initrd), ArtifactPath(s.firmware));
  }

  lemma DstIsFile(t: Tree, s: Setup)
    requires SourcesSound(t, s) && CacheSound(t, s) && Direct(t, s.Dst())
    ensures NotDirectory(t, s.Dst())
  {
    hide Plain, StoreSound;
    var p := s.Dst();
    WalkLast(t, p, MAX_LINKS);
    if p in t && t[p].Link? {
      ModeDirLink(t, p, s.initrd);
      SourceIsFile(t, s.initrd);
    }
  }

  /** The served name was put there at `since` or later. */
  predicate JustPlaced(t: Tree, s: Setup, firmware: bool, since: nat) {
    s.Dst() in t &&
    if firmware then t[s.Dst()].File? && t[s.Dst()].mtime >= since else t[s.Dst()] == Link(LinkFromModeDir(s.initrd))
  }

  /** The served name needs no further work once the sources are older than `since`. */
  predicate Placed(t: Tree, s: Setup, firmware: bool, since: nat) {
    || JustPlaced(t, s, firmware, since)
    || (firmware && UpToDate(t, s.Dst(), ArtifactPath(s.initrd), ArtifactPath(s.firmware)))
  }

  lemma InitrdPlaced(w: World, d: Disk, s: Setup, firmware: bool)
    requires s.Named() && s.Apart(w) && Inv(d.nodes, s, d.clock) && Direct(d.nodes, s.Dst())
    ensures var r := PlaceInitrd(w, d, s.bc, s.initrd, if firmware then Some(s.firmware) else None);
            var c := if firmware then JoinClaim(d.nodes, s) else LinkClaim(d.nodes, s);
            && Good(c, d, r.disk)
            && (r.failed == None ==> Content(r.disk.nodes, s.Dst()) == Expected(d.nodes, s, firmware)
                                     && (firmware ==> Expected(d.nodes, s, true).Some?)
                                     && Placed(r.disk.nodes, s, firmware, d.clock))
  {
    hide Plain, ModTime, ConcatenateFiles, EnsureSymlink, UpToDate, Content, Skips, Undrawn, StoreSound;
    var t, p := d.nodes, s.Dst();
    assert Parent(p) == InitrdDir(s.bc) && p[|p| - 1] == s.initrd.file;
    if firmware {
      var c := JoinClaim(t, s);
      ClaimStarts(c, d);
      ConcatSafe(w, c, d, ArtifactPath(s.initrd), ArtifactPath(s.firmware));
      var r := ConcatenateFiles(w, d, p, ArtifactPath(s.initrd), ArtifactPath(s.firmware));
      if r.ok {
        if Skips(w, d, p, ArtifactPath(s.initrd), ArtifactPath(s.firmware)) {
          SkipsOnFiles(w, d, s);
          NewerIsFresh(t, s, d.clock);
        } else {
          GoodHolds(w, c, d, r.disk);
          DirsStay(t, r.disk.nodes, InitrdDir(s.bc), p);
          DirectFile(r.disk.nodes, p);
        }
      }
    } else {
      var c := LinkClaim(t, s);
      ClaimStarts(c, d);
      SymlinkSafe(w, c, d, s.initrd.file, LinkFromModeDir(s.initrd));
      var r := EnsureSymlink(w, d, InitrdDir(s.bc), s.initrd.file, LinkFromModeDir(s.initrd));
      if r.ok {
        GoodHolds(w, c, d, r.disk);
        LinkPlaced(t, r.disk.nodes, c, s.initrd);
      }
    }
  }

  /** A link put below a mode directory reads as the artifact did before. */
  lemma LinkPlaced(t: Tree, u: Tree, c: Claim, r: Ref)
    requires Holds(c, u) && c.before == t && |c.dst| == 4 && c.dst[0] == "boot" && Direct(t, c.dst)
    requires c.dst in u && u[c.dst] == Link(LinkFromModeDir(r)) && Plain(t, ArtifactPath(r))
    ensures Content(u, c.dst) == Content(t, ArtifactPath(r))
    ensures Content(u, ArtifactPath(r)) == Content(t, ArtifactPath(r))
  {
    hide Content, ModTime, Plain;
    ClaimSparesArtifacts(c, u);
    assert [ArtifactPath(r)[0]] == ["artifacts"];
    PlainSame(t, u, ArtifactPath(r));
    DirsStay(t, u, Parent(c.dst), c.dst);
    ModeDirLink(u, c.dst, r);
  }

  // ---- one reconcile ----

  function Reconcile(w: World, d: Disk, s: Setup, firmware: bool): Assembled {
    AssembleNetboot(w, d, s.bc, s.kernel, s.initrd, if firmware then Some(s.firmware) else None)
  }

  /** Every tree between d and e, e's own included, keeps the invariant. */
  ghost predicate InvThrough(d: Disk, e: Disk, s: Setup) {
    && d.clock <= e.clock && d.log <= e.log
    && Inv(e.nodes, s, e.clock)
    && forall k | |d.log| <= k < |e.log| :: Inv(e.log[k], s, e.clock)
  }

  lemma ThroughTransitive(d: Disk, e: Disk, f: Disk, s: Setup)
    requires InvThrough(d, e, s) && InvThrough(e, f, s)
    ensures InvThrough(d, f, s)
  {
    hide Inv;
    forall k | |d.log| <= k < |f.log| ensures Inv(f.log[k], s, f.clock) {
      if k < |e.log| {
        assert f.log[k] == e.log[k];
        InvLater(e.log[k], s, e.clock, f.clock);
      }
    }
  }

  lemma MkdirThrough(w: World, d: Disk, p: Path, s: Setup)
    requires Inv(d.nodes, s, d.clock) && p != [] && p[0] == "boot" && |p| < 4
    ensures InvThrough(d, MkdirAll(w, d, p).disk, s)
  {
    hide Inv, MkdirAll, MadeDirs;
    var e := MkdirAll(w, d, p).disk;
    MkdirEffect(w, d, p);
    MadeDirsKeepInv(d.nodes, e.nodes, p, s, d.clock);
    InvLater(e.nodes, s, d.clock, e.clock);
    forall k | |d.log| <= k < |e.log| ensures Inv(e.log[k], s, e.clock) {
      MadeDirsKeepInv(d.nodes, e.log[k], p, s, d.clock);
      InvLater(e.log[k], s, d.clock, e.clock);
    }
  }

  lemma KernelThrough(w: World, d: Disk, s: Setup, e: Disk)
    requires Inv(d.nodes, s, d.clock) && Good(KernelClaim(d.nodes, s), d, e)
    ensures InvThrough(d, e, s)
  {
    hide Inv, HoldsBy, KernelClaim;
    var c := KernelClaim(d.nodes, s);
    GoodHolds(w, c, d, e);
    GoodClock(c, d, e);
    GoodLog(c, d, e);
    KernelStepKeepsInv(d.nodes, e.nodes, s, d.clock, e.clock);
    forall k | |d.log| <= k < |e.log| ensures Inv(e.log[k], s, e.clock) {
      GoodLogged(c, d, e, k);
      KernelStepKeepsInv(d.nodes, e.log[k], s, d.clock, e.clock);
    }
  }

  lemma InitrdThrough(d: Disk, s: Setup, c: Claim, e: Disk)
    requires Inv(d.nodes, s, d.clock) && c in {LinkClaim(d.nodes, s), JoinClaim(d.nodes, s)} && Good(c, d, e)
    ensures InvThrough(d, e, s)
  {
    hide Inv, HoldsBy, LinkClaim, JoinClaim;
    GoodClock(c, d, e);
    GoodLog(c, d, e);
    InitrdStepKeepsInv(d.nodes, e.nodes, s, c, d.clock, e.clock);
    forall k | |d.log| <= k < |e.log| ensures Inv(e.log[k], s, e.clock) {
      GoodLogged(c, d, e, k);
      InitrdStepKeepsInv(d.nodes, e.log[k], s, c, d.clock, e.clock);
    }
  }

  lemma KernelPlaced(w: World, d: Disk, s: Setup)
    requires Inv(d.nodes, s, d.clock)
    ensures var r := EnsureSymlink(w, d, KernelDir(s.bc), s.kernel.file, LinkFromModeDir(s.kernel));
            && Good(KernelClaim(d.nodes, s), d, r.disk)
            && (r.ok ==>
                  s.KernelDst() in r.disk.nodes && r.disk.nodes[s.KernelDst()] == Link(LinkFromModeDir(s.kernel)))
  {
    hide Plain, EnsureSymlink, CacheSound, SourcesSound;
    var c := KernelClaim(d.nodes, s);
    assert Parent(c.dst) == KernelDir(s.bc);
    ClaimStarts(c, d);
    SymlinkSafe(w, c, d, s.kernel.file, LinkFromModeDir(s.kernel));
  }

  ghost predicate DirsReady(t: Tree, s: Setup) {
    Direct(t, s.KernelDst()) && Direct(t, s.Dst())
  }

  lemma DirsMade(t: Tree, u: Tree, s: Setup)
    requires s.Named() && MadeDirs(t, u, InitrdDir(s.bc))
    requires forall k | 0 <= k <= 3 :: DirAt(t, KernelDir(s.bc)[..k])
    requires forall k | 0 <= k <= 3 :: DirAt(u, InitrdDir(s.bc)[..k])
    ensures DirsReady(u, s)
  {
    assert "boot" != ".." && "kernel" != ".." && "initrd" != ".." by {
      assert |"boot"| == 4 && |"kernel"| == 6 && |"initrd"| == 6 && |".."| == 2;
    }
    assert ".." !in KernelDir(s.bc) && ".." !in InitrdDir(s.bc);
    forall k | 0 <= k <= 3 ensures DirAt(u, KernelDir(s.bc)[..k]) {
      assert DirAt(t, KernelDir(s.bc)[..k]);
    }
    DirectBelow(u, KernelDir(s.bc), s.kernel.file);
    DirectBelow(u, InitrdDir(s.bc), s.initrd.file);
  }

  /** Neither mode directory's contents hold a directory above the other's entry. */
  lemma DirsReadyStays(t: Tree, u: Tree, s: Setup, dir: Path)
    requires DirsReady(t, s) && ChangedOnlyIn(t, u, dir) && dir in {KernelDir(s.bc), InitrdDir(s.bc)}
    ensures DirsReady(u, s)
  {
    assert Parent(s.KernelDst()) == KernelDir(s.bc) && Parent(s.Dst()) == InitrdDir(s.bc);
    assert !(dir < KernelDir(s.bc)) && !(dir < InitrdDir(s.bc));
    DirsStay(t, u, dir, s.KernelDst());
    DirsStay(t, u, dir, s.Dst());
  }

  /** Directories, kernel link and served name are such that another reconcile has nothing to do. */
  ghost predicate Settled(t: Tree, s: Setup, firmware: bool, since: nat) {
    && DirsReady(t, s)
    && s.KernelDst() in t && t[s.KernelDst()] == Link(LinkFromModeDir(s.kernel))
    && Placed(t, s, firmware, since)
  }

  ghost predicate Complete(t: Tree, s: Setup, firmware: bool, since: nat) {
    Serves(t, s, firmware) && Settled(t, s, firmware, since)
  }

  lemma CompleteEarlier(t: Tree, s: Setup, firmware: bool, since: nat, earlier: nat)
    requires Complete(t, s, firmware, since) && earlier <= since
    ensures Complete(t, s, firmware, earlier)
  {
    hide Serves, DirsReady, UpToDate;
  }

  /** From ready directories and a kernel link in place, the initrd step completes the service. */
  lemma LastStep(w: World, d: Disk, s: Setup, firmware: bool)
    requires s.Named() && s.Apart(w) && Inv(d.nodes, s, d.clock) && DirsReady(d.nodes, s)
    requires s.KernelDst() in d.nodes && d.nodes[s.KernelDst()] == Link(LinkFromModeDir(s.kernel))
    ensures var r := PlaceInitrd(w, d, s.bc, s.initrd, if firmware then Some(s.firmware) else None);
            InvThrough(d, r.disk, s) && (r.failed == None ==> Complete(r.disk.nodes, s, firmware, d.clock))
  {
    hide Plain, Content, ModTime, CacheSound, PlaceInitrd, InvThrough, Direct, StoreSound, Undrawn;
    var r := PlaceInitrd(w, d, s.bc, s.initrd, if firmware then Some(s.firmware) else None);
    var c := if firmware then JoinClaim(d.nodes, s) else LinkClaim(d.nodes, s);
    InitrdPlaced(w, d, s, firmware);
    InitrdThrough(d, s, c, r.disk);
    GoodHolds(w, c, d, r.disk);
    assert Parent(c.dst) == InitrdDir(s.bc);
    DirsReadyStays(d.nodes, r.disk.nodes, s, InitrdDir(s.bc));
    ClaimSparesArtifacts(c, r.disk.nodes);
    SourcesSame(d.nodes, r.disk.nodes, s);
    assert s.KernelDst()[2] == "kernel" && InitrdDir(s.bc)[2] == "initrd" && "initrd"[0] != "kernel"[0];
    assert !(InitrdDir(s.bc) < s.KernelDst());
    ModeDirLink(r.disk.nodes, s.KernelDst(), s.kernel);
    assert ArtifactPath(s.initrd) in s.Sources() && ArtifactPath(s.firmware) in s.Sources();
  }

  lemma StartThrough(d: Disk, s: Setup)
    requires Inv(d.nodes, s, d.clock)
    ensures InvThrough(d, d, s)
  {
    hide Inv;
  }

  lemma ThroughEnds(d: Disk, e: Disk, s: Setup)
    requires InvThrough(d, e, s)
    ensures Inv(e.nodes, s, e.clock)
  {
    hide Inv;
  }

  /** One reconcile from a sound cache: sound at every step, and serving what it should if it succeeds. */
  lemma ReconcileSound(w: World, d: Disk, s: Setup, firmware: bool)
    requires s.Named() && s.Apart(w) && Inv(d.nodes, s, d.clock)
    ensures var r := Reconcile(w, d, s, firmware);
            InvThrough(d, r.disk, s) && (r.failed == None ==> Complete(r.disk.nodes, s, firmware, d.clock))
  {
    hide Inv, InvThrough, MkdirAll, EnsureSymlink, PlaceInitrd, Complete, MadeDirs;
    var k := MkdirAll(w, d, KernelDir(s.bc));
    MkdirThrough(w, d, KernelDir(s.bc), s);
    MkdirEffect(w, d, KernelDir(s.bc));
    ThroughEnds(d, k.disk, s);
    if k.ok {
      var i := MkdirAll(w, k.disk, InitrdDir(s.bc));
      MkdirThrough(w, k.disk, InitrdDir(s.bc), s);
      MkdirEffect(w, k.disk, InitrdDir(s.bc));
      ThroughTransitive(d, k.disk, i.disk, s);
      ThroughEnds(d, i.disk, s);
      if i.ok {
        DirsMade(k.disk.nodes, i.disk.nodes, s);
        LinkThenPlace(w, d, i.disk, s, firmware);
      }
    }
  }

  lemma LinkThenPlace(w: World, d: Disk, e: Disk, s: Setup, firmware: bool)
    requires s.Named() && s.Apart(w) && InvThrough(d, e, s) && DirsReady(e.nodes, s)
    ensures var l := EnsureSymlink(w, e, KernelDir(s.bc), s.kernel.file, LinkFromModeDir(s.kernel));
            var r := PlaceInitrd(w, l.disk, s.bc, s.initrd, if firmware then Some(s.firmware) else None);
            && InvThrough(d, l.disk, s)
            && (l.ok ==>
                  && InvThrough(d, r.disk, s)
                  && (r.failed == None ==> Complete(r.disk.nodes, s, firmware, d.clock)))
  {
    hide Inv, InvThrough, EnsureSymlink, PlaceInitrd, Complete, DirsReady;
    ThroughEnds(d, e, s);
    var l := EnsureSymlink(w, e, KernelDir(s.bc), s.kernel.file, LinkFromModeDir(s.kernel));
    var c := KernelClaim(e.nodes, s);
    KernelPlaced(w, e, s);
    KernelThrough(w, e, s, l.disk);
    ThroughTransitive(d, e, l.disk, s);
    ThroughEnds(d, l.disk, s);
    if l.ok {
      GoodHolds(w, c, e, l.disk);
      assert Parent(c.dst) == KernelDir(s.bc);
      DirsReadyStays(e.nodes, l.disk.nodes, s, KernelDir(s.bc));
      LastStep(w, l.disk, s, firmware);
      var r := PlaceInitrd(w, l.disk, s.bc, s.initrd, if firmware then Some(s.firmware) else None);
      ThroughTransitive(d, l.disk, r.disk, s);
      ThroughClock(d, l.disk, s);
      if r.failed == None {
        CompleteEarlier(r.disk.nodes, s, firmware, l.disk.clock, d.clock);
      }
    }
  }

  lemma ThroughClock(d: Disk, e: Disk, s: Setup)
    requires InvThrough(d, e, s)
    ensures d.clock <= e.clock
  {
    hide Inv;
  }

  // ---- doing it again ----

  lemma SymlinkIdle(w: World, d: Disk, dir: Path, name: string, target: Path)
    requires Faultless(w) && dir + [name] in d.nodes && d.nodes[dir + [name]] == Link(target)
    ensures EnsureSymlink(w, d, dir, name, target) == IoResult(Next(w, d), true)
  {
  }

  lemma ConcatIdle(w: World, d: Disk, dst: Path, a: Path, b: Path)
    requires Faultless(w) && UpToDate(d.nodes, dst, a, b)
    ensures var r := ConcatenateFiles(w, d, dst, a, b); r.ok && r.disk.nodes == d.nodes && r.disk.log == d.log
  {
    hide ModTime, Resolve, Rebuild, StatTime;
    StatOfFile(w, d, dst);
    StatOfFile(w, Next(w, d), a);
    StatOfFile(w, Next(w, Next(w, d)), b);
  }

  /** Both sources readable and older than `since`. */
  predicate SourcesOlder(t: Tree, s: Setup, since: nat) {
    && ModTime(t, ArtifactPath(s.initrd)).Some? && ModTime(t, ArtifactPath(s.initrd)).value < since
    && ModTime(t, ArtifactPath(s.firmware)).Some? && ModTime(t, ArtifactPath(s.firmware)).value < since
  }

  /**
   * A settled directory stays as it is: once the clock has passed the sources' times, a further
   * reconcile without faults succeeds and writes nothing, in either mode.
   */
  lemma SettledIsSteady(w: World, d: Disk, s: Setup, firmware: bool, since: nat)
    requires Settled(d.nodes, s, firmware, since) && Faultless(w)
    requires firmware ==> SourcesOlder(d.nodes, s, since)
    ensures var r := Reconcile(w, d, s, firmware);
            r.failed == None && r.disk.nodes == d.nodes && r.disk.log == d.log
  {
    hide ModTime, Plain, MkdirAll, EnsureSymlink, ConcatenateFiles, Faultless;
    var k := MkdirAll(w, d, KernelDir(s.bc));
    ReadyPrefixes(d.nodes, KernelDir(s.bc), s.kernel.file);
    MkdirIdle(w, d, KernelDir(s.bc));
    var i := MkdirAll(w, k.disk, InitrdDir(s.bc));
    if firmware && !UpToDate(d.nodes, s.Dst(), ArtifactPath(s.initrd), ArtifactPath(s.firmware)) {
      DirectFile(d.nodes, s.Dst());
    }
    PlacedIsDir(d.nodes, s, firmware, since);
    ReadyPrefixes(d.nodes, InitrdDir(s.bc), s.initrd.file);
    MkdirIdle(w, k.disk, InitrdDir(s.bc));
    SymlinkIdle(w, i.disk, KernelDir(s.bc), s.kernel.file, LinkFromModeDir(s.kernel));
    var l := Next(w, i.disk);
    if firmware {
      ConcatIdle(w, l, s.Dst(), ArtifactPath(s.initrd), ArtifactPath(s.firmware));
    } else {
      SymlinkIdle(w, l, InitrdDir(s.bc), s.initrd.file, LinkFromModeDir(s.initrd));
    }
  }

  lemma ReadyPrefixes(t: Tree, dir: Path, name: string)
    requires Direct(t, dir + [name])
    ensures forall k | 0 <= k <= |dir| :: DirAt(t, dir[..k])
  {
    forall k | 0 <= k <= |dir| ensures DirAt(t, dir[..k]) {
      assert (dir + [name])[..k] == dir[..k];
    }
  }

  lemma PlacedIsDir(t: Tree, s: Setup, firmware: bool, since: nat)
    requires Settled(t, s, firmware, since)
    ensures Direct(t, InitrdDir(s.bc) + [s.initrd.file]) && Direct(t, KernelDir(s.bc) + [s.kernel.file])
  {
  }
}

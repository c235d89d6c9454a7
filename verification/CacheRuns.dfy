/**
 * Whole runs of a data directory: reconciles of artifacts and of one boot configuration that
 * succeed, fail or crash at any file operation, installs and removals by hand, changes elsewhere
 * and waiting. Both modes' caches stay sound.
 */
module CacheRuns {
  import opened Words
  import opened FileTree
  import opened FileOps
  import opened ArtifactStore
  import opened Assembly
  import opened CrashSafety
  import opened Api
  import AC = BootArtifactController
  import InstallSafety
  import NB = InitrdCache
  import ISO = IsoCache

  /** One boot configuration with its references, URLs and in-image paths fixed. */
  datatype Config = Netboot(nb: NB.Setup) | Iso(iso: ISO.IsoSetup) {
    predicate Named() {
      match this
      case Netboot(s) => s.Named()
      case Iso(s) => s.Named()
    }

    /** No temporary name drawn hits a name that is served. */
    ghost predicate Apart(w: World) {
      match this
      case Netboot(s) => s.Apart(w)
      case Iso(_) => true
    }

    function Name(): string {
      match this
      case Netboot(s) => s.bc
      case Iso(s) => s.bc
    }
  }

  /** firmware says whether the netboot reference to the firmware is set at the time. */
  function Reconcile(w: World, d: Disk, c: Config, firmware: bool): Assembled {
    match c
    case Netboot(s) => NB.Reconcile(w, d, s, firmware)
    case Iso(s) => ISO.Reconcile(w, d, s)
  }

  ghost predicate Inv(t: Tree, c: Config, now: nat) {
    match c
    case Netboot(s) => NB.Inv(t, s, now)
    case Iso(s) => ISO.Inv(t, s, now)
  }

  ghost predicate Serves(t: Tree, c: Config, firmware: bool) {
    match c
    case Netboot(s) => NB.Serves(t, s, firmware)
    case Iso(s) => ISO.Serves(t, s)
  }

  /** The concatenation of two artifacts, when both can be read. */
  function JoinedArtifacts(t: Tree, a: Ref, b: Ref): Option<Bytes> {
    Joined(t, ArtifactPath(a), ArtifactPath(b))
  }

  lemma InvLater(t: Tree, c: Config, now: nat, later: nat)
    requires Inv(t, c, now) && now <= later
    ensures Inv(t, c, later)
  {
    match c
    case Netboot(s) => NB.InvLater(t, s, now, later);
    case Iso(s) => ISO.InvLater(t, s, now, later);
  }

  lemma ReconcileSound(w: World, d: Disk, c: Config, firmware: bool)
    requires c.Named() && c.Apart(w) && Inv(d.nodes, c, d.clock)
    ensures var r := Reconcile(w, d, c, firmware);
            && d.clock <= r.disk.clock && d.log <= r.disk.log && Inv(r.disk.nodes, c, r.disk.clock)
            && (forall k | |d.log| <= k < |r.disk.log| :: Inv(r.disk.log[k], c, r.disk.clock))
            && (r.failed == None ==> Serves(r.disk.nodes, c, firmware))
  {
    hide NB.Inv, ISO.Inv, NB.Serves, ISO.Serves, NB.Reconcile, ISO.Reconcile, NB.Settled, ISO.Settled;
    match c
    case Netboot(s) => NB.ReconcileSound(w, d, s, firmware);
    case Iso(s) => ISO.ReconcileSound(w, d, s);
  }

  // ---- events ----

  datatype Event =
    | Fetch(w: World, s: AC.Setting, a: Artifact)                   // a reconcile of an artifact, successful or not
    | FetchCrash(w: World, s: AC.Setting, a: Artifact, at: nat)     // one stopped after some file operation
    | Install(ref: Ref, data: Bytes, written: nat)                  // an artifact's file put there by hand
    | Drop(ref: Ref)                                                // an artifact's file removed by hand
    | Sync(w: World, firmware: bool)                                // a reconcile of the configuration
    | Crash(w: World, firmware: bool, at: nat)                      // one stopped after some file operation
    | Delete(w: World)                                              // the configuration and its directory deleted
    | Elsewhere(tree: Tree)                                         // changes outside artifacts/ and this directory
    | Wait(ticks: nat)

  function Max(a: nat, b: nat): nat {
    if a < b then b else a
  }

  /** The file put in place, with the directories it needs. */
  function Installed(t: Tree, r: Ref, data: Bytes, written: nat): Tree {
    t[["artifacts"] := Dir][["artifacts", r.name] := Dir][ArtifactPath(r) := File(data, written)]
  }

  function After(d: Disk, c: Config, e: Event): Disk {
    match e
    case Fetch(w, s, a) => AC.Reconcile(w, d, s, Found(a)).disk
    case FetchCrash(w, s, a, at) => StoppedAt(d, AC.Reconcile(w, d, s, Found(a)).disk, at)
    case Install(r, data, written) =>
      d.(nodes := Installed(d.nodes, r, data, written), clock := Max(d.clock, written))
    case Drop(r) => d.(nodes := d.nodes - {ArtifactPath(r)})
    case Sync(w, firmware) => Reconcile(w, d, c, firmware).disk
    case Crash(w, firmware, at) => StoppedAt(d, Reconcile(w, d, c, firmware).disk, at)
    case Delete(w) => RemoveAll(w, d, BootDir(c.Name()))
    case Elsewhere(t) => d.(nodes := t)
    case Wait(n) => d.(clock := d.clock + n)
  }

  /**
   * Bytes put in place by hand carry that time, no temporary name drawn is a served one, and
   * changes elsewhere spare the artifacts and this boot directory.
   */
  ghost predicate Allowed(d: Disk, c: Config, e: Event) {
    match e
    case Install(_, _, written) => written >= d.clock
    case Sync(w, _) => c.Apart(w)
    case Crash(w, _, _) => c.Apart(w)
    case Elsewhere(t) => SameBelow(d.nodes, t, ["artifacts"]) && SameBelow(d.nodes, t, BootDir(c.Name()))
    case _ => true
  }

  function RunEvents(d: Disk, c: Config, es: seq<Event>): Disk
    decreases |es|
  {
    if es == [] then d else RunEvents(After(d, c, es[0]), c, es[1..])
  }

  ghost predicate AllAllowed(d: Disk, c: Config, es: seq<Event>)
    decreases |es|
  {
    es == [] || (Allowed(d, c, es[0]) && AllAllowed(After(d, c, es[0]), c, es[1..]))
  }

  // ---- edits of the artifact store ----

  /** Only the store changed: each artifact is gone, as it was, or written at `since` or later. */
  ghost predicate Edited(t: Tree, u: Tree, since: nat) {
    && StoreSound(u)
    && (forall x: Path | !(["artifacts"] <= x) :: (x in t <==> x in u) && (x in t ==> u[x] == t[x]))
    && (forall r: Ref | ArtifactPath(r) in u ::
          || (ArtifactPath(r) in t && u[ArtifactPath(r)] == t[ArtifactPath(r)])
          || (u[ArtifactPath(r)].File? && u[ArtifactPath(r)].mtime >= since))
  }

  /** What one artifact reads as after an edit. */
  lemma EditedReads(t: Tree, u: Tree, r: Ref, since: nat)
    requires StoreSound(t) && Edited(t, u, since) && Usable(r)
    ensures var p := ArtifactPath(r);
            && Plain(u, p)
            && (ModTime(u, p).Some? && ModTime(u, p).value < since ==>
                  Content(u, p) == Content(t, p) && ModTime(u, p) == ModTime(t, p))
  {
    hide Plain, Content, ModTime, Resolve, StoreSound, Regular;
    StoreReads(t, r);
    StoreReads(u, r);
  }

  lemma BootIsElsewhere(t: Tree, u: Tree, since: nat, p: Path)
    requires Edited(t, u, since) && p != [] && p[0] == "boot"
    ensures (p in u <==> p in t) && (p in t ==> u[p] == t[p])
  {
    assert "boot"[0] != "artifacts"[0];
  }

  /** An edit at `now` or later cannot make a stale output look fresh. */
  lemma EditKeepsNetboot(t: Tree, u: Tree, s: NB.Setup, now: nat, later: nat)
    requires s.Named() && NB.Inv(t, s, now) && now <= later && Edited(t, u, now)
    ensures NB.Inv(u, s, later)
  {
    hide Plain, Content, ModTime, StoreSound, Edited;
    EditedReads(t, u, s.kernel, now);
    EditedReads(t, u, s.initrd, now);
    EditedReads(t, u, s.firmware, now);
    BootIsElsewhere(t, u, now, s.Dst());
    BootIsElsewhere(t, u, now, s.KernelDst());
    assert StoreSound(u) by { EditedSound(t, u, now); }
  }

  lemma EditedSound(t: Tree, u: Tree, since: nat)
    requires Edited(t, u, since)
    ensures StoreSound(u)
  {
  }

  lemma EditKeepsIso(t: Tree, u: Tree, s: ISO.IsoSetup, now: nat, later: nat)
    requires s.Named() && ISO.Inv(t, s, now) && now <= later && Edited(t, u, now)
    ensures ISO.Inv(u, s, later)
  {
    hide Plain, Content, ModTime, StoreSound, Edited;
    EditedReads(t, u, s.iso, now);
    BootIsElsewhere(t, u, now, s.Kernel());
    BootIsElsewhere(t, u, now, s.Initrd());
    assert StoreSound(u) by { EditedSound(t, u, now); }
  }

  lemma InstallKeepsShape(t: Tree, r: Ref, data: Bytes, written: nat)
    requires StoreSound(t)
    ensures StoreSound(Installed(t, r, data, written))
  {
    var p, u := ArtifactPath(r), Installed(t, r, data, written);
    assert Parent(p) == ["artifacts", r.name] && Parent(["artifacts", r.name]) == ["artifacts"];
    forall q: Path | ["artifacts"] <= q && q in u && |q| > 1 ensures Parent(q) in u {
      if q in t && q != p && q != ["artifacts", r.name] {
        assert Parent(q) in t;
      }
    }
  }

  lemma InstallEdits(t: Tree, r: Ref, data: Bytes, written: nat)
    requires StoreSound(t)
    ensures Edited(t, Installed(t, r, data, written), written)
  {
    hide StoreSound;
    InstallKeepsShape(t, r, data, written);
    var p, u := ArtifactPath(r), Installed(t, r, data, written);
    assert ["artifacts"] <= p && ["artifacts"] <= ["artifacts", r.name];
    forall x: Path | !(["artifacts"] <= x) ensures (x in t <==> x in u) && (x in t ==> u[x] == t[x]) {
      assert x != ["artifacts"];
    }
    forall q: Ref | ArtifactPath(q) in u
      ensures || (ArtifactPath(q) in t && u[ArtifactPath(q)] == t[ArtifactPath(q)])
              || (u[ArtifactPath(q)].File? && u[ArtifactPath(q)].mtime >= written)
    {
      assert |ArtifactPath(q)| == 3;
    }
  }

  lemma DropEdits(t: Tree, r: Ref, since: nat)
    requires StoreSound(t)
    ensures Edited(t, t - {ArtifactPath(r)}, since)
  {
    var u := t - {ArtifactPath(r)};
    forall q: Path | ["artifacts"] <= q && q in u && |q| > 1 ensures Parent(q) in u {
      assert |Parent(q)| < 3;
    }
  }

  lemma JobPaths(p: Path, a: Artifact)
    requires p == AC.FilePath(a)
    ensures |p| == 3 && Parent(p) == ["artifacts", a.key.name] && ["artifacts"] <= p
    ensures AC.TempOf(p) == ["artifacts", a.key.name, p[2] + ".tmp"] && AC.TempOf(p) != p
    ensures Parent(AC.TempOf(p)) == Parent(p)
  {
    InstallSafety.TempDiffers(p);
    assert Parent(p) == ["artifacts", a.key.name];
  }

  lemma SoundKeepsShape(j: InstallSafety.Job, a: Artifact, u: Tree)
    requires j.p == AC.FilePath(a) && StoreSound(j.before) && InstallSafety.Sound(j, u)
    ensures StoreSound(u)
  {
    hide AC.FilePath, AC.TempOf;
    JobPaths(j.p, a);
    forall q: Path | ["artifacts"] <= q && q in u
      ensures |q| <= 3 && (|q| < 3 ==> u[q] == Dir) && (|q| == 3 ==> u[q].File?) && (|q| > 1 ==> Parent(q) in u)
    {
      if |q| > 1 {
        assert Parent(q) != [] && |Parent(q)| < |q|;
        if q in j.before {
          assert Parent(q) in j.before;
        }
      }
    }
  }

  /** Every tree of an artifact's reconcile, crash points included, is an edit of the store. */
  lemma SoundIsEdit(j: InstallSafety.Job, a: Artifact, u: Tree)
    requires j.p == AC.FilePath(a) && StoreSound(j.before) && InstallSafety.Sound(j, u)
    ensures Edited(j.before, u, j.since)
  {
    hide StoreSound, AC.FilePath, AC.TempOf;
    SoundKeepsShape(j, a, u);
    JobPaths(j.p, a);
    forall r: Ref | ArtifactPath(r) in u
      ensures || (ArtifactPath(r) in j.before && u[ArtifactPath(r)] == j.before[ArtifactPath(r)])
              || (u[ArtifactPath(r)].File? && u[ArtifactPath(r)].mtime >= j.since)
    {
      assert |ArtifactPath(r)| == |j.p|;
    }
    forall x: Path | !(["artifacts"] <= x)
      ensures (x in j.before <==> x in u) && (x in j.before ==> u[x] == j.before[x])
    {
      assert x < j.p ==> x == [];
    }
  }

  lemma FetchEdits(w: World, d: Disk, s: AC.Setting, a: Artifact)
    requires StoreSound(d.nodes)
    ensures var e := AC.Reconcile(w, d, s, Found(a)).disk;
            && d.log <= e.log && d.clock <= e.clock && Edited(d.nodes, e.nodes, d.clock)
            && forall k | |d.log| <= k < |e.log| :: Edited(d.nodes, e.log[k], d.clock)
  {
    hide AC.Reconcile, InstallSafety.Sound, Edited, StoreSound;
    var e := AC.Reconcile(w, d, s, Found(a)).disk;
    var j := InstallSafety.JobOf(d, s, a);
    InstallSafety.CrashSafeInstall(w, d, s, a);
    SoundIsEdit(j, a, e.nodes);
    forall k | |d.log| <= k < |e.log| ensures Edited(d.nodes, e.log[k], d.clock) {
      SoundIsEdit(j, a, e.log[k]);
    }
  }

  lemma ElsewhereKeepsInv(t: Tree, u: Tree, c: Config, now: nat)
    requires Inv(t, c, now) && SameBelow(t, u, ["artifacts"])
    requires forall p: Path | BootDir(c.Name()) <= p && p in u :: p in t && t[p] == u[p]
    ensures Inv(u, c, now)
  {
    hide Plain, Content, ModTime, StoreSound, SameBelow;
    match c
    case Netboot(s) =>
      assert BootDir(s.bc) <= s.Dst() && BootDir(s.bc) <= s.KernelDst();
      NB.InvSame(t, u, s, now);
    case Iso(s) =>
      assert BootDir(s.bc) <= s.Kernel() && BootDir(s.bc) <= s.Initrd();
      ISO.StepKeepsInv(t, u, s, now, now);
  }

  lemma ArtifactsNotBoot(p: Path, bc: string)
    requires ["artifacts"] <= p
    ensures !(BootDir(bc) <= p)
  {
    assert p[0] == "artifacts" && BootDir(bc)[0] == "boot" && "boot"[0] != "artifacts"[0];
  }

  lemma DeleteKeepsInv(w: World, d: Disk, c: Config)
    requires Inv(d.nodes, c, d.clock)
    ensures var e := RemoveAll(w, d, BootDir(c.Name())); Inv(e.nodes, c, e.clock)
  {
    hide Inv;
    var e := RemoveAll(w, d, BootDir(c.Name()));
    InvLater(d.nodes, c, d.clock, e.clock);
    forall p: Path | ["artifacts"] <= p
      ensures (p in d.nodes <==> p in e.nodes) && (p in d.nodes ==> d.nodes[p] == e.nodes[p])
    {
      ArtifactsNotBoot(p, c.Name());
    }
    ElsewhereKeepsInv(d.nodes, e.nodes, c, e.clock);
  }

  // ---- runs ----

  lemma EditKeepsInv(t: Tree, u: Tree, c: Config, now: nat, later: nat)
    requires c.Named() && Inv(t, c, now) && now <= later && Edited(t, u, now)
    ensures Inv(u, c, later)
  {
    hide Edited, NB.Inv, ISO.Inv;
    match c
    case Netboot(s) => EditKeepsNetboot(t, u, s, now, later);
    case Iso(s) => EditKeepsIso(t, u, s, now, later);
  }

  lemma InvStore(t: Tree, c: Config, now: nat)
    requires Inv(t, c, now)
    ensures StoreSound(t)
  {
  }

  lemma EditedLater(t: Tree, u: Tree, since: nat, earlier: nat)
    requires Edited(t, u, since) && earlier <= since
    ensures Edited(t, u, earlier)
  {
    hide StoreSound;
  }

  lemma StoreEventKeepsInv(d: Disk, c: Config, e: Event)
    requires c.Named() && Inv(d.nodes, c, d.clock) && Allowed(d, c, e)
    requires e.Fetch? || e.FetchCrash? || e.Install? || e.Drop?
    ensures Inv(After(d, c, e).nodes, c, After(d, c, e).clock)
  {
    hide Inv, Edited, StoreSound, Installed, AC.Reconcile;
    InvStore(d.nodes, c, d.clock);
    var u := After(d, c, e);
    match e
    case Fetch(w, s, a) =>
      FetchEdits(w, d, s, a);
      EditKeepsInv(d.nodes, u.nodes, c, d.clock, u.clock);
    case FetchCrash(w, s, a, at) =>
      FetchEdits(w, d, s, a);
      if |d.log| <= at < |AC.Reconcile(w, d, s, Found(a)).disk.log| {
        EditKeepsInv(d.nodes, u.nodes, c, d.clock, u.clock);
      }
    case Install(r, data, written) =>
      InstallEdits(d.nodes, r, data, written);
      EditedLater(d.nodes, u.nodes, written, d.clock);
      EditKeepsInv(d.nodes, u.nodes, c, d.clock, u.clock);
    case Drop(r) =>
      DropEdits(d.nodes, r, d.clock);
      EditKeepsInv(d.nodes, u.nodes, c, d.clock, d.clock);
  }

  lemma EventKeepsInv(d: Disk, c: Config, e: Event)
    requires c.Named() && Inv(d.nodes, c, d.clock) && Allowed(d, c, e)
    ensures Inv(After(d, c, e).nodes, c, After(d, c, e).clock)
  {
    hide Inv, Reconcile, Serves, RemoveAll, Installed, AC.Reconcile;
    match e
    case Sync(w, firmware) => ReconcileSound(w, d, c, firmware);
    case Crash(w, firmware, at) => ReconcileSound(w, d, c, firmware);
    case Delete(w) => DeleteKeepsInv(w, d, c);
    case Elsewhere(t) => ElsewhereKeepsInv(d.nodes, t, c, d.clock);
    case Wait(n) => InvLater(d.nodes, c, d.clock, d.clock + n);
    case _ => StoreEventKeepsInv(d, c, e);
  }

  lemma {:induction false} RunKeepsInv(d: Disk, c: Config, es: seq<Event>)
    requires c.Named() && Inv(d.nodes, c, d.clock) && AllAllowed(d, c, es)
    ensures Inv(RunEvents(d, c, es).nodes, c, RunEvents(d, c, es).clock)
    decreases |es|
  {
    hide Inv, After, Allowed;
    if es == [] {
    } else {
      EventKeepsInv(d, c, es[0]);
      RunKeepsInv(After(d, c, es[0]), c, es[1..]);
    }
  }

  lemma EmptyIsSound(d: Disk, c: Config)
    requires c.Named() && StoreSound(d.nodes) && forall p | p in d.nodes :: !(BootDir(c.Name()) < p)
    ensures Inv(d.nodes, c, d.clock)
  {
    hide Plain, StoreSound;
    match c
    case Netboot(s) =>
      NB.StoreHoldsSources(d.nodes, s);
      assert BootDir(s.bc) < s.Dst() && BootDir(s.bc) < s.KernelDst();
    case Iso(s) =>
      StoreReads(d.nodes, s.iso);
      assert BootDir(s.bc) < s.Kernel() && BootDir(s.bc) < s.Initrd();
  }

  /**
   * Cache soundness: from a data directory that does not hold this configuration yet, the empty one
   * included, after any run of artifact reconciles, configuration reconciles with firmware on or
   * off, crashes in both, installs and removals by hand, deletions, changes elsewhere and waits, a
   * reconcile that succeeds serves what the artifacts on disk at that moment call for: kernel and
   * initrd or initrd ++ firmware, or the image and both its complete entries.
   */
  lemma ServedIsCurrent(d: Disk, c: Config, es: seq<Event>, w: World, firmware: bool)
    requires c.Named() && c.Apart(w) && StoreSound(d.nodes) && AllAllowed(d, c, es)
    requires forall p | p in d.nodes :: !(BootDir(c.Name()) < p)
    ensures var r := Reconcile(w, RunEvents(d, c, es), c, firmware);
            r.failed == None ==> Serves(r.disk.nodes, c, firmware)
  {
    hide Inv, Reconcile, Serves, RunEvents, AllAllowed, StoreSound;
    EmptyIsSound(d, c);
    RunKeepsInv(d, c, es);
    ReconcileSound(w, RunEvents(d, c, es), c, firmware);
  }

  /**
   * Over the same runs, for images of any name: a success serves both extracted entries exactly
   * when the image is named like neither, or reads the same as the entry it hides.
   */
  lemma PairServedIff(d: Disk, s: ISO.IsoSetup, es: seq<Event>, w: World)
    requires s.Named() && StoreSound(d.nodes) && AllAllowed(d, Iso(s), es)
    requires forall p | p in d.nodes :: !(BootDir(s.bc) < p)
    requires Reconcile(w, RunEvents(d, Iso(s), es), Iso(s), false).failed == None
    ensures var t, u := RunEvents(d, Iso(s), es).nodes,
        Reconcile(w, RunEvents(d, Iso(s), es), Iso(s), false).disk.nodes;
            var image := Content(t, ArtifactPath(s.iso));
            && Content(u, s.Kernel()) == ISO.EntryNow(t, s, s.kernelPath)
            && Content(u, s.Initrd()) == ISO.EntryNow(t, s, s.initrdPath)
            <==>
            && (s.iso.file == "vmlinuz" ==> image == ISO.EntryNow(t, s, s.kernelPath))
            && (s.iso.file == "initrd" ==> image == ISO.EntryNow(t, s, s.initrdPath))
  {
    hide Content, ISO.EntryNow, ISO.Inv, ISO.Reconcile, RunEvents, AllAllowed, StoreSound;
    EmptyIsSound(d, Iso(s));
    RunKeepsInv(d, Iso(s), es);
    ISO.KernelServedIff(w, RunEvents(d, Iso(s), es), s);
    ISO.InitrdServedIff(w, RunEvents(d, Iso(s), es), s);
  }

  /** The sources' times have passed. Unlinked netboot modes need no times at all. */
  predicate SourcesOlder(t: Tree, c: Config, firmware: bool, since: nat) {
    match c
    case Netboot(s) => firmware ==> NB.SourcesOlder(t, s, since)
    case Iso(s) => ModTime(t, ArtifactPath(s.iso)).Some? && ModTime(t, ArtifactPath(s.iso)).value < since
  }

  /**
   * Convergence of the files: after a success that started past the sources' times, the next
   * reconcile without faults succeeds again and writes nothing, exactly when no image is named like
   * an output of its own.
   */
  lemma SuccessIsSteady(w: World, again: World, d: Disk, c: Config, firmware: bool)
    requires c.Named() && c.Apart(w) && Inv(d.nodes, c, d.clock) && Faultless(again)
    requires Reconcile(w, d, c, firmware).failed == None
    requires SourcesOlder(Reconcile(w, d, c, firmware).disk.nodes, c, firmware, d.clock)
    ensures var first := Reconcile(w, d, c, firmware);
            var second := Reconcile(again, first.disk, c, firmware);
            && (second.failed == None && second.disk.log == first.disk.log <==> (c.Iso? ==> c.iso.ImageApart()))
            && ((c.Iso? ==> c.iso.ImageApart()) ==> second.disk.nodes == first.disk.nodes)
  {
    hide NB.Inv, ISO.Inv, NB.Reconcile, ISO.Reconcile, NB.Serves, ISO.Serves, NB.Settled, ISO.Settled,
         NB.SourcesOlder, ModTime, ISO.DirsReady;
    match c
    case Netboot(s) =>
      NB.ReconcileSound(w, d, s, firmware);
      NB.SettledIsSteady(again, NB.Reconcile(w, d, s, firmware).disk, s, firmware, d.clock);
    case Iso(s) =>
      ISO.ReconcileSound(w, d, s);
      if s.ImageApart() {
        ISO.SettledIsSteady(again, ISO.Reconcile(w, d, s).disk, s, d.clock);
      } else {
        ISO.ClashNeverSettles(w, d, s, again);
      }
  }
}

/** From what a reconcile decides to what it keeps on disk, and that doing it again changes nothing. */
module Convergence {
  import opened FileTree
  import opened FileOps
  import opened BootDirectory
  import opened ArtifactStore
  import opened Assembly
  import opened Api
  import opened CrashSafety
  import opened BootConfigController
  import NB = InitrdCache
  import ISO = IsoCache
  import CacheRuns
  import Availability

  predicate Builds(plan: Plan) {
    plan.BuildNetboot? || plan.BuildIso?
  }

  /** The cache configuration that a build plan puts on disk. */
  function ConfigOf(bc: string, plan: Plan, read: Reader): CacheRuns.Config
    requires Builds(plan)
  {
    match plan
    case BuildNetboot(k, i, f) => CacheRuns.Netboot(NB.Setup(bc, k, i, if f.Some? then f.value else i))
    case BuildIso(iso, k, i) => CacheRuns.Iso(ISO.IsoSetup(bc, iso, k, i, read))
  }

  function Firmware(plan: Plan): bool {
    plan.BuildNetboot? && plan.firmware.Some?
  }

  /** Reconciling a build plan is one reconcile of its cache configuration, and a status. */
  lemma ReconcileBuilds(w: World, d: Disk, read: Reader, get: Artifacts, c: BootConfig, accepted: bool)
    requires Builds(Decide(get, c))
    ensures var plan := Decide(get, c);
            var r := CacheRuns.Reconcile(w, d, ConfigOf(c.key.name, plan, read), Firmware(plan));
            Reconcile(w, d, read, get, c, accepted) == Conclude(r, c.status, accepted)
  {
    hide AssembleNetboot, AssembleIso, Decide;
  }

  lemma ConcludeDone(r: Assembled, st: ConfigStatus, accepted: bool)
    requires Conclude(r, st, accepted).result == Done
    ensures r.failed == None && Conclude(r, st, accepted).disk == r.disk
        && Conclude(r, st, accepted).status.phase == Ready
  {
  }

  /** What the next assembly's temporary names need: none of them served, none of them taken. */
  ghost predicate NamesFree(again: World, t: Tree, cfg: CacheRuns.Config) {
    cfg.Apart(again) && (cfg.Iso? ==> Availability.DrawsFree(again, t, cfg.Name()))
  }

  /**
   * After any success, whatever the times are and whatever an image is called: reconciling again on
   * the same store without faults succeeds and sends no status update.
   */
  lemma SuccessRepeats(w: World, d: Disk, again: World, read: Reader, get: Artifacts, c: BootConfig,
                       accepted: bool, accepted2: bool)
    requires Builds(Decide(get, c)) && Reconcile(w, d, read, get, c, accepted).result == Done
    requires Faultless(again) && NoRemovalFails(again)
    requires var cfg := ConfigOf(c.key.name, Decide(get, c), read);
             && cfg.Named() && cfg.Apart(w) && CacheRuns.Inv(d.nodes, cfg, d.clock)
             && NamesFree(again, Reconcile(w, d, read, get, c, accepted).disk.nodes, cfg)
    ensures var first := Reconcile(w, d, read, get, c, accepted);
            var second := Reconcile(again, first.disk, read, get, c.(status := first.status), accepted2);
            second.result == Done && !second.wrote && second.status == first.status
  {
    hide Reconcile, NB.Inv, ISO.Inv, NB.Reconcile, ISO.Reconcile, PlanNetboot, PlanIso, Availability.DrawsFree, Undrawn;
    var plan := Decide(get, c);
    var cfg := ConfigOf(c.key.name, plan, read);
    ReconcileBuilds(w, d, read, get, c, accepted);
    var r := CacheRuns.Reconcile(w, d, cfg, Firmware(plan));
    ConcludeDone(r, c.status, accepted);
    var first := Reconcile(w, d, read, get, c, accepted);
    var c2 := c.(status := first.status);
    assert Decide(get, c2) == plan;
    ReconcileBuilds(again, first.disk, read, get, c2, accepted2);
    match cfg
    case Netboot(s) => Availability.NetbootRepeats(w, d, s, Firmware(plan), again);
    case Iso(s) => Availability.IsoRepeats(w, d, s, again);
  }

  /** The same at any point of any run of the data directory. */
  lemma RunsRepeat(start: Disk, es: seq<CacheRuns.Event>, w: World, again: World, read: Reader, get: Artifacts,
                   c: BootConfig, accepted: bool, accepted2: bool)
    requires Builds(Decide(get, c)) && Faultless(again) && NoRemovalFails(again)
    requires var cfg := ConfigOf(c.key.name, Decide(get, c), read);
             var d := CacheRuns.RunEvents(start, cfg, es);
             && cfg.Named() && cfg.Apart(w) && StoreSound(start.nodes)
             && (forall p | p in start.nodes :: !(BootDir(cfg.Name()) < p))
             && CacheRuns.AllAllowed(start, cfg, es)
             && Reconcile(w, d, read, get, c, accepted).result == Done
             && NamesFree(again, Reconcile(w, d, read, get, c, accepted).disk.nodes, cfg)
    ensures var d := CacheRuns.RunEvents(start, ConfigOf(c.key.name, Decide(get, c), read), es);
            var first := Reconcile(w, d, read, get, c, accepted);
            var second := Reconcile(again, first.disk, read, get, c.(status := first.status), accepted2);
            second.result == Done && !second.wrote && second.status == first.status
  {
    hide Reconcile, Decide, CacheRuns.Inv, NamesFree, CacheRuns.RunEvents, CacheRuns.AllAllowed, StoreSound;
    var cfg := ConfigOf(c.key.name, Decide(get, c), read);
    CacheRuns.EmptyIsSound(start, cfg);
    CacheRuns.RunKeepsInv(start, cfg, es);
    SuccessRepeats(w, CacheRuns.RunEvents(start, cfg, es), again, read, get, c, accepted, accepted2);
  }

  /**
   * After a success that started past the sources' times, reconciling again on the same store
   * without faults succeeds, sends no status update and leaves the disk alone.
   */
  lemma SuccessConverges(w: World, d: Disk, again: World, read: Reader, get: Artifacts, c: BootConfig,
                         accepted: bool, accepted2: bool)
    requires Builds(Decide(get, c)) && Reconcile(w, d, read, get, c, accepted).result == Done && Faultless(again)
    requires var plan := Decide(get, c);
             var cfg := ConfigOf(c.key.name, plan, read);
             && cfg.Named() && cfg.Apart(w) && CacheRuns.Inv(d.nodes, cfg, d.clock)
             && (cfg.Iso? ==> cfg.iso.ImageApart())
             && CacheRuns.SourcesOlder(Reconcile(w, d, read, get, c, accepted).disk.nodes, cfg, Firmware(plan), d.clock)
    ensures var first := Reconcile(w, d, read, get, c, accepted);
            var second := Reconcile(again, first.disk, read, get, c.(status := first.status), accepted2);
            && second.result == Done && !second.wrote && second.status == first.status
            && second.disk.nodes == first.disk.nodes && second.disk.log == first.disk.log
  {
    hide Reconcile, CacheRuns.Inv, CacheRuns.SourcesOlder, CacheRuns.Reconcile, PlanNetboot, PlanIso;
    var plan := Decide(get, c);
    var cfg := ConfigOf(c.key.name, plan, read);
    ReconcileBuilds(w, d, read, get, c, accepted);
    var r := CacheRuns.Reconcile(w, d, cfg, Firmware(plan));
    ConcludeDone(r, c.status, accepted);
    var first := Reconcile(w, d, read, get, c, accepted);
    var c2 := c.(status := first.status);
    assert Decide(get, c2) == plan;
    ReconcileBuilds(again, first.disk, read, get, c2, accepted2);
    CacheRuns.SuccessIsSteady(w, again, d, cfg, Firmware(plan));
  }

  /** The same at any point of any run of the data directory. */
  lemma RunsConverge(start: Disk, es: seq<CacheRuns.Event>, w: World, again: World, read: Reader, get: Artifacts,
                     c: BootConfig, accepted: bool, accepted2: bool)
    requires Builds(Decide(get, c)) && Faultless(again)
    requires var plan := Decide(get, c);
             var cfg := ConfigOf(c.key.name, plan, read);
             var d := CacheRuns.RunEvents(start, cfg, es);
             && cfg.Named() && cfg.Apart(w) && (cfg.Iso? ==> cfg.iso.ImageApart())
             && StoreSound(start.nodes) && (forall p | p in start.nodes :: !(BootDir(cfg.Name()) < p))
             && CacheRuns.AllAllowed(start, cfg, es)
             && Reconcile(w, d, read, get, c, accepted).result == Done
             && CacheRuns.SourcesOlder(Reconcile(w, d, read, get, c, accepted).disk.nodes, cfg, Firmware(plan), d.clock)
    ensures var d := CacheRuns.RunEvents(start, ConfigOf(c.key.name, Decide(get, c), read), es);
            var first := Reconcile(w, d, read, get, c, accepted);
            var second := Reconcile(again, first.disk, read, get, c.(status := first.status), accepted2);
            && second.result == Done && !second.wrote && second.status == first.status
            && second.disk.nodes == first.disk.nodes && second.disk.log == first.disk.log
  {
    hide Reconcile, Decide, CacheRuns.Inv, CacheRuns.SourcesOlder, CacheRuns.RunEvents, CacheRuns.AllAllowed,
         StoreSound;
    var cfg := ConfigOf(c.key.name, Decide(get, c), read);
    CacheRuns.EmptyIsSound(start, cfg);
    CacheRuns.RunKeepsInv(start, cfg, es);
    SuccessConverges(w, CacheRuns.RunEvents(start, cfg, es), again, read, get, c, accepted, accepted2);
  }
}

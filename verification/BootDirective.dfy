/**
 * The HTTP side: which provision a MAC address boots, which paths it is told to fetch, and that
 * those paths are exactly where the controllers put the bytes.
 */
module BootDirective {
  import opened Words
  import opened FileTree
  import opened UrlUtil
  import opened FileOps
  import opened BootDirectory
  import opened ArtifactStore
  import opened Assembly
  import opened CrashSafety
  import opened Api
  import opened BootConfigController
  import NB = InitrdCache
  import ISO = IsoCache
  import CacheRuns
  import opened Convergence
  import ProvisionPhases

  datatype Machine = Machine(key: Key, mac: string)

  datatype ProvisionObject = ProvisionObject(
    key: Key, machineRef: string, bootConfigRef: string, phase: ProvisionPhases.Phase)

  // ---- the pending provision ----

  /** The field index holds no empty values, so an empty query finds nothing. */
  predicate HasMac(m: Machine, ns: string, mac: string) {
    m.key.namespace == ns && m.mac == mac && mac != ""
  }

  predicate IsPendingFor(p: ProvisionObject, ns: string, machine: string) {
    p.key.namespace == ns && p.machineRef == machine && machine != "" && p.phase == ProvisionPhases.Pending
  }

  function MachinesFor(ms: seq<Machine>, ns: string, mac: string): (r: seq<Machine>)
    ensures forall m :: m in r <==> m in ms && HasMac(m, ns, mac)
  {
    if ms == [] then [] else (if HasMac(ms[0], ns, mac) then [ms[0]] else []) + MachinesFor(ms[1..], ns, mac)
  }

  function PendingFor(ps: seq<ProvisionObject>, ns: string, machine: string): (r: seq<ProvisionObject>)
    ensures forall p :: p in r <==> p in ps && IsPendingFor(p, ns, machine)
  {
    if ps == [] then []
    else (if IsPendingFor(ps[0], ns, machine) then [ps[0]] else []) + PendingFor(ps[1..], ns, machine)
  }

  /** Positions in a list. */
  function Count<T>(xs: seq<T>, p: T -> bool): nat {
    if xs == [] then 0 else (if p(xs[0]) then 1 else 0) + Count(xs[1..], p)
  }

  datatype Pick = Picked(provision: ProvisionObject) | Nobody | MultipleMachines | MultipleProvisions

  function PendingProvisionForMac(ms: seq<Machine>, ps: seq<ProvisionObject>, ns: string, mac: string): Pick {
    var found := MachinesFor(ms, ns, mac);
    if |found| == 0 then Nobody
    else if |found| > 1 then MultipleMachines
    else
      var pending := PendingFor(ps, ns, found[0].key.name);
      if |pending| == 0 then Nobody else if |pending| > 1 then MultipleProvisions else Picked(pending[0])
  }

  /** A provision is picked only when it is the one pending provision of the one machine with the MAC. */
  lemma PickedIsTheOnlyOne(ms: seq<Machine>, ps: seq<ProvisionObject>, ns: string, mac: string)
    requires PendingProvisionForMac(ms, ps, ns, mac).Picked?
    ensures var p := PendingProvisionForMac(ms, ps, ns, mac).provision;
            exists m :: m in ms && HasMac(m, ns, mac) && p in ps && IsPendingFor(p, ns, m.key.name)
                        && (forall m2 | m2 in ms && HasMac(m2, ns, mac) :: m2 == m)
                        && (forall q | q in ps && IsPendingFor(q, ns, m.key.name) :: q == p)
  {
    hide HasMac, IsPendingFor;
    var found := MachinesFor(ms, ns, mac);
    var pending := PendingFor(ps, ns, found[0].key.name);
    assert found == [found[0]] && found[0] in found;
    assert pending == [pending[0]] && pending[0] in pending;
  }

  lemma {:induction false} MachinesCounted(ms: seq<Machine>, ns: string, mac: string)
    ensures |MachinesFor(ms, ns, mac)| == Count(ms, (m: Machine) => m.key.namespace == ns && m.mac == mac && mac != "")
  {
    if ms != [] {
      MachinesCounted(ms[1..], ns, mac);
    }
  }

  lemma {:induction false} ProvisionsCounted(ps: seq<ProvisionObject>, ns: string, machine: string)
    ensures |PendingFor(ps, ns, machine)| ==
            Count(ps, (p: ProvisionObject) => p.key.namespace == ns && p.machineRef == machine && machine != ""
                                              && p.phase == ProvisionPhases.Pending)
  {
    if ps != [] {
      ProvisionsCounted(ps[1..], ns, machine);
    }
  }

  /** The namespace's machines with that address, and its pending provisions for a machine. */
  function MachineCount(ms: seq<Machine>, ns: string, mac: string): nat {
    Count(ms, (m: Machine) => m.key.namespace == ns && m.mac == mac && mac != "")
  }

  function PendingCount(ps: seq<ProvisionObject>, ns: string, machine: string): nat {
    Count(ps, (p: ProvisionObject) => p.key.namespace == ns && p.machineRef == machine && machine != ""
                                      && p.phase == ProvisionPhases.Pending)
  }

  /**
   * Picking tells none, one and several apart: no machine or nothing pending for it is nobody, more
   * than one machine or more than one pending provision is an error, and otherwise the one is picked.
   */
  lemma PickedIff(ms: seq<Machine>, ps: seq<ProvisionObject>, ns: string, mac: string)
    ensures var pick, n := PendingProvisionForMac(ms, ps, ns, mac), MachineCount(ms, ns, mac);
            && (n == 0 ==> pick == Nobody)
            && (pick == MultipleMachines <==> n > 1)
            && (n == 1 ==>
                  exists m :: m in ms && m.key.namespace == ns && m.mac == mac &&
                    match PendingCount(ps, ns, m.key.name)
                    case 0 => pick == Nobody
                    case 1 => pick.Picked? && pick.provision in ps && pick.provision.key.namespace == ns
                              && pick.provision.machineRef == m.key.name
                              && pick.provision.phase == ProvisionPhases.Pending
                    case _ => pick == MultipleProvisions)
  {
    MachinesCounted(ms, ns, mac);
    var found := MachinesFor(ms, ns, mac);
    if |found| == 1 {
      var m := found[0];
      assert m in found;
      ProvisionsCounted(ps, ns, m.key.name);
      var pending := PendingFor(ps, ns, m.key.name);
      if |pending| == 1 {
        assert pending[0] in pending;
      }
    }
  }

  // ---- the directive ----

  datatype Directive = Directive(
    kernelPath: string, kernelArgs: string, initrdPath: string, isoPath: string, provisionName: string)

  datatype DirectiveResult = NoDirective | DirectiveError | Boot(directive: Directive)

  function DirectiveFor(c: BootConfig, get: Artifacts, provisionName: string): DirectiveResult {
    var ns, name := c.key.namespace, c.key.name;
    if c.spec.iso.Some? then
      match get(Key(ns, c.spec.iso.value.artifactRef))
      case Found(iso) =>
        Boot(Directive(Join([name, "vmlinuz"]), c.spec.kernelArgs, Join([name, "initrd"]),
                       Join([name, FilenameFromURL(iso.spec.url)]), provisionName))
      case _ => DirectiveError
    else if c.spec.netboot == None then DirectiveError
    else
      match get(Key(ns, c.spec.netboot.value.kernelRef))
      case Found(kernel) => (
        match get(Key(ns, c.spec.netboot.value.initrdRef))
        case Found(initrd) =>
          Boot(Directive(Join([name, "kernel", FilenameFromURL(kernel.spec.url)]), c.spec.kernelArgs,
                         Join([name, "initrd", FilenameFromURL(initrd.spec.url)]), "", provisionName))
        case _ => DirectiveError)
      case _ => DirectiveError
  }

  type Configs = Key -> Lookup<BootConfig>

  function BootDirectiveForMac(ms: seq<Machine>, ps: seq<ProvisionObject>, configs: Configs, get: Artifacts,
                               ns: string, mac: string): DirectiveResult {
    match PendingProvisionForMac(ms, ps, ns, mac)
    case Nobody => NoDirective
    case Picked(p) =>
      (match configs(Key(ns, p.bootConfigRef))
       case Found(c) => DirectiveFor(c, get, p.key.name)
       case _ => DirectiveError)
    case _ => DirectiveError
  }

  // ---- agreement with what the controllers lay out ----

  /** The bytes behind a path the directive names, placed under boot/. */
  function ServedBytes(t: Tree, path: string): Option<Bytes> {
    Content(t, ["boot"] + Split(path))
  }

  lemma PathSplits(segs: seq<string>)
    requires segs != [] && forall x | x in segs :: Sepless(x)
    ensures ["boot"] + Split(Join(segs)) == ["boot"] + segs
  {
    SplitJoin(segs);
  }

  lemma NetbootPlan(get: Artifacts, c: BootConfig)
    requires Decide(get, c).BuildNetboot?
    ensures c.spec.iso == None && c.spec.netboot.Some?
    ensures var nb, ns := c.spec.netboot.value, c.key.namespace;
            var kernel, initrd := get(Key(ns, nb.kernelRef)), get(Key(ns, nb.initrdRef));
            kernel.Found? && initrd.Found?
            && Decide(get, c).kernel.file == FilenameFromURL(kernel.value.spec.url)
            && Decide(get, c).initrd.file == FilenameFromURL(initrd.value.spec.url)
  {
    hide FilenameFromURL, IsSafeIsoPath;
  }

  lemma IsoPlan(get: Artifacts, c: BootConfig)
    requires Decide(get, c).BuildIso?
    ensures c.spec.iso.Some?
    ensures var iso := get(Key(c.key.namespace, c.spec.iso.value.artifactRef));
            iso.Found? && Decide(get, c).iso.file == FilenameFromURL(iso.value.spec.url)
  {
    hide FilenameFromURL, IsSafeIsoPath;
  }

  /**
   * What a directive's paths must read as: kernel and initrd artifacts (initrd ++ firmware when the
   * plan has firmware), or the two image entries, unless the image's own name hides one, and the image.
   */
  ghost predicate PathsServe(t: Tree, read: Reader, bc: string, plan: Plan, dir: Directive)
    requires Builds(plan)
  {
    match plan
    case BuildNetboot(k, i, f) =>
      && ServedBytes(t, dir.kernelPath) == Content(t, ArtifactPath(k))
      && ServedBytes(t, dir.initrdPath) ==
         (match f
          case None => Content(t, ArtifactPath(i))
          case Some(fw) => CacheRuns.JoinedArtifacts(t, i, fw))
      && dir.isoPath == ""
    case BuildIso(iso, k, i) =>
      var s := ISO.IsoSetup(bc, iso, k, i, read);
      && ISO.EntryNow(t, s, k).Some? && ISO.EntryNow(t, s, i).Some?
      && ServedBytes(t, dir.kernelPath) == ISO.Expected(t, s, "vmlinuz", k)
      && ServedBytes(t, dir.initrdPath) == ISO.Expected(t, s, "initrd", i)
      && ServedBytes(t, dir.isoPath) == Content(t, ArtifactPath(iso))
  }

  lemma NetbootPathsServe(t: Tree, read: Reader, get: Artifacts, c: BootConfig, dir: Directive, p: string)
    requires SafeSegment(c.key.name) && Decide(get, c).BuildNetboot?
    requires DirectiveFor(c, get, p) == Boot(dir)
    requires CacheRuns.Serves(t, ConfigOf(c.key.name, Decide(get, c), read), Decide(get, c).firmware.Some?)
    ensures PathsServe(t, read, c.key.name, Decide(get, c), dir)
  {
    hide Content, FilenameFromURL, Decide, Split, Join;
    NetbootPlan(get, c);
    var plan, bc := Decide(get, c), c.key.name;
    assert Sepless("kernel") && Sepless("initrd");
    assert SafeSegment(plan.kernel.file) && SafeSegment(plan.initrd.file);
    PathSplits([bc, "kernel", plan.kernel.file]);
    PathSplits([bc, "initrd", plan.initrd.file]);
    var s := ConfigOf(bc, plan, read).nb;
    assert ["boot"] + [bc, "kernel", plan.kernel.file] == s.KernelDst();
    assert ["boot"] + [bc, "initrd", plan.initrd.file] == s.Dst();
  }

  lemma IsoPathsServe(t: Tree, read: Reader, get: Artifacts, c: BootConfig, dir: Directive, p: string)
    requires SafeSegment(c.key.name) && Decide(get, c).BuildIso?
    requires DirectiveFor(c, get, p) == Boot(dir)
    requires CacheRuns.Serves(t, ConfigOf(c.key.name, Decide(get, c), read), false)
    ensures PathsServe(t, read, c.key.name, Decide(get, c), dir)
  {
    hide Content, FilenameFromURL, Decide, Split, Join, ISO.EntryNow, ISO.Expected;
    IsoPlan(get, c);
    var plan, bc := Decide(get, c), c.key.name;
    assert Sepless("vmlinuz") && Sepless("initrd");
    PathSplits([bc, "vmlinuz"]);
    PathSplits([bc, "initrd"]);
    PathSplits([bc, plan.iso.file]);
    var s := ConfigOf(bc, plan, read).iso;
    assert ["boot"] + [bc, "vmlinuz"] == s.Kernel() && ["boot"] + [bc, "initrd"] == s.Initrd();
    assert ["boot"] + [bc, plan.iso.file] == s.Image();
  }

  /** The configuration a MAC address boots, if its provision names a stored one. */
  function DirectedConfig(ms: seq<Machine>, ps: seq<ProvisionObject>, configs: Configs, ns: string,
      mac: string): Option<BootConfig> {
    match PendingProvisionForMac(ms, ps, ns, mac)
    case Picked(p) => (match configs(Key(ns, p.bootConfigRef)) case Found(c) => Some(c) case _ => None)
    case _ => None
  }

  /** A directive is the picked provision's: its name, and the paths and arguments of the configuration it refers to. */
  lemma DirectiveIsPicked(ms: seq<Machine>, ps: seq<ProvisionObject>, configs: Configs, get: Artifacts, ns: string,
      mac: string)
    requires forall k :: configs(k).Found? ==> configs(k).value.key == k
    requires BootDirectiveForMac(ms, ps, configs, get, ns, mac).Boot?
    ensures PendingProvisionForMac(ms, ps, ns, mac).Picked? && DirectedConfig(ms, ps, configs, ns, mac).Some?
    ensures var p := PendingProvisionForMac(ms, ps, ns, mac).provision;
            var c := DirectedConfig(ms, ps, configs, ns, mac).value;
            var dir := BootDirectiveForMac(ms, ps, configs, get, ns, mac).directive;
            && c.key == Key(ns, p.bootConfigRef) && HasMode(c) && dir.provisionName == p.key.name
            && dir.kernelArgs == c.spec.kernelArgs
            && DirectiveFor(c, get, p.key.name) == Boot(dir)
  {
    hide PendingProvisionForMac, FilenameFromURL, Join;
  }

  /**
   * A directive is handed out exactly when a provision is picked, its configuration is found and has
   * a mode, and the objects whose file names the paths need are found; none at all when nobody is pending.
   */
  lemma DirectiveIff(ms: seq<Machine>, ps: seq<ProvisionObject>, configs: Configs, get: Artifacts, ns: string,
      mac: string)
    requires forall k :: configs(k).Found? ==> configs(k).value.key == k
    ensures BootDirectiveForMac(ms, ps, configs, get, ns, mac) == NoDirective <==>
            PendingProvisionForMac(ms, ps, ns, mac) == Nobody
    ensures BootDirectiveForMac(ms, ps, configs, get, ns, mac).Boot? <==>
            && PendingProvisionForMac(ms, ps, ns, mac).Picked?
            && var p := PendingProvisionForMac(ms, ps, ns, mac).provision;
               configs(Key(ns, p.bootConfigRef)).Found?
               && var c := configs(Key(ns, p.bootConfigRef)).value;
                  if c.spec.iso.Some? then FoundAt(get, ns, c.spec.iso.value.artifactRef)
                  else c.spec.netboot.Some? && FoundAt(get, ns, c.spec.netboot.value.kernelRef)
                       && FoundAt(get, ns, c.spec.netboot.value.initrdRef)
  {
    hide PendingProvisionForMac, FilenameFromURL, Join;
  }

  // ---- what is served, from the specification ----

  /** The entry an image holds under an in-image path, absolute or not, of at most 1 GiB. */
  function ImageEntry(files: map<string, Bytes>, path: string): Option<Bytes> {
    var key := if path != "" && path[0] == '/' then path else "/" + path;
    if key in files && |files[key]| <= 0x4000_0000 then Some(files[key]) else None
  }

  /** What the installed file of the object called `name` reads as. */
  function InstalledFile(t: Tree, get: Artifacts, ns: string, name: string): Option<Bytes> {
    if FoundAt(get, ns, name)
    then Content(t, ["artifacts", name, FilenameFromURL(get(Key(ns, name)).value.spec.url)]) else None
  }

  /** The image file is read as an image that holds the entry. */
  function HeldEntry(image: Option<Bytes>, read: Reader, path: string): Option<Bytes> {
    match image
    case None => None
    case Some(bytes) => match read(bytes) case None => None case Some(files) => ImageEntry(files, path)
  }

  /** ISO: kernel and initrd are the image's entries, unless the image's own name hides one; the image is itself. */
  ghost predicate IsoServed(t: Tree, read: Reader, get: Artifacts, c: BootConfig, dir: Directive)
    requires c.spec.iso.Some?
  {
    var i, ns := c.spec.iso.value, c.key.namespace;
    var image := InstalledFile(t, get, ns, i.artifactRef);
    var k, n := HeldEntry(image, read, i.kernelPath), HeldEntry(image, read, i.initrdPath);
    && FoundAt(get, ns, i.artifactRef) && image.Some? && k.Some? && n.Some?
    && var file := FilenameFromURL(get(Key(ns, i.artifactRef)).value.spec.url);
       && ServedBytes(t, dir.kernelPath) == (if file == "vmlinuz" then image else k)
       && ServedBytes(t, dir.initrdPath) == (if file == "initrd" then image else n)
       && ServedBytes(t, dir.isoPath) == image
  }

  /** Netboot: the kernel's file, and the initrd's, followed by the firmware's exactly when one is set. */
  ghost predicate NetbootServed(t: Tree, get: Artifacts, c: BootConfig, dir: Directive)
    requires c.spec.netboot.Some?
  {
    var n, ns := c.spec.netboot.value, c.key.namespace;
    var i, f := InstalledFile(t, get, ns, n.initrdRef), InstalledFile(t, get, ns, n.firmwareRef);
    && dir.isoPath == ""
    && ServedBytes(t, dir.kernelPath) == InstalledFile(t, get, ns, n.kernelRef)
    && (n.firmwareRef == "" ==> ServedBytes(t, dir.initrdPath) == i)
    && (n.firmwareRef != "" ==> i.Some? && f.Some? && ServedBytes(t, dir.initrdPath) == Some(i.value + f.value))
  }

  ghost predicate SpecServed(t: Tree, read: Reader, get: Artifacts, c: BootConfig, dir: Directive) {
    if c.spec.iso.Some? then IsoServed(t, read, get, c, dir)
    else c.spec.netboot.Some? && NetbootServed(t, get, c, dir)
  }

  lemma EntryView(files: map<string, Bytes>, path: string)
    ensures Entry(files, path) == ImageEntry(files, path)
  {
  }

  lemma PlanServesSpec(t: Tree, read: Reader, get: Artifacts, c: BootConfig, dir: Directive)
    requires OwnKeys(get) && Builds(Decide(get, c)) && PathsServe(t, read, c.key.name, Decide(get, c), dir)
    requires Decide(get, c).BuildNetboot? && Decide(get, c).firmware.Some? ==>
               CacheRuns.JoinedArtifacts(t, Decide(get, c).initrd, Decide(get, c).firmware.value).Some?
    requires Decide(get, c).BuildIso? ==> Content(t, ArtifactPath(Decide(get, c).iso)).Some?
    ensures SpecServed(t, read, get, c, dir)
  {
    hide Decide, Content, ServedBytes, FilenameFromURL, Entry, ImageEntry, Climbs;
    BuildsIff(get, c);
    forall files: map<string, Bytes>, path: string ensures Entry(files, path) == ImageEntry(files, path) {
      EntryView(files, path);
    }
  }

  /**
   * Layout agreement: in every run of the data directory with the configuration's artifacts fixed,
   * once a reconcile of the configuration a MAC address boots has succeeded, every path in the
   * directive handed out for that address reads as exactly what the specification names, links
   * followed, in netboot, netboot with firmware and ISO mode.
   */
  lemma DirectivePathsAreServed(ms: seq<Machine>, ps: seq<ProvisionObject>, configs: Configs, get: Artifacts,
      ns: string, mac: string, c: BootConfig, dir: Directive, d: Disk, es: seq<CacheRuns.Event>, w: World,
      read: Reader, accepted: bool)
    requires forall k :: configs(k).Found? ==> configs(k).value.key == k
    requires BootDirectiveForMac(ms, ps, configs, get, ns, mac) == Boot(dir)
    requires DirectedConfig(ms, ps, configs, ns, mac) == Some(c)
    requires SafeSegment(c.key.name) && Builds(Decide(get, c)) && OwnKeys(get)
    requires var cfg := ConfigOf(c.key.name, Decide(get, c), read);
             && cfg.Named() && cfg.Apart(w) && StoreSound(d.nodes) && CacheRuns.AllAllowed(d, cfg, es)
             && (forall p | p in d.nodes :: !(BootDir(cfg.Name()) < p))
             && Reconcile(w, CacheRuns.RunEvents(d, cfg, es), read, get, c, accepted).result == Done
    ensures var cfg := ConfigOf(c.key.name, Decide(get, c), read);
            var t := Reconcile(w, CacheRuns.RunEvents(d, cfg, es), read, get, c, accepted).disk.nodes;
            PathsServe(t, read, c.key.name, Decide(get, c), dir) && SpecServed(t, read, get, c, dir)
  {
    hide Decide, Reconcile, CacheRuns.RunEvents, CacheRuns.AllAllowed, CacheRuns.Reconcile,
         PathsServe, SpecServed, FilenameFromURL, Join, StoreSound, PendingProvisionForMac, Content, ISO.EntryNow,
         ISO.Expected;
    var plan, bc := Decide(get, c), c.key.name;
    var cfg := ConfigOf(bc, plan, read);
    DirectiveIsPicked(ms, ps, configs, get, ns, mac);
    var p := PendingProvisionForMac(ms, ps, ns, mac).provision;
    var e := CacheRuns.RunEvents(d, cfg, es);
    ReconcileBuilds(w, e, read, get, c, accepted);
    var r := CacheRuns.Reconcile(w, e, cfg, Firmware(plan));
    ConcludeDone(r, c.status, accepted);
    CacheRuns.ServedIsCurrent(d, cfg, es, w, Firmware(plan));
    if plan.BuildNetboot? {
      NetbootPathsServe(r.disk.nodes, read, get, c, dir, p.key.name);
    } else {
      IsoPathsServe(r.disk.nodes, read, get, c, dir, p.key.name);
      EntryNeedsContent(r.disk.nodes, cfg.iso);
    }
    PlanServesSpec(r.disk.nodes, read, get, c, dir);
  }

  lemma EntryNeedsContent(t: Tree, s: ISO.IsoSetup)
    requires ISO.EntryNow(t, s, s.kernelPath).Some?
    ensures Content(t, ArtifactPath(s.iso)).Some?
  {
    hide Content;
  }
}

/** The BootConfig reconciler: what it decides, what it writes, and which artifacts wake it. */
module BootConfigController {
  import opened FileTree
  import opened UrlUtil
  import opened FileOps
  import opened BootDirectory
  import opened ArtifactStore
  import opened Assembly
  import opened Api

  // ---- the decision ----

  datatype Plan =
    | NoMode
    | ApiError
    | Refuse(message: Message)
    | Await(message: Message)
    | BuildNetboot(kernel: Ref, initrd: Ref, firmware: Option<Ref>)
    | BuildIso(iso: Ref, kernelPath: string, initrdPath: string)

  /** An artifact that was read, or the plan its absence leads to. */
  datatype Fetched = Got(artifact: Artifact) | Stop(plan: Plan)

  function Fetch(get: Artifacts, ns: string, role: Role, name: string): Fetched {
    match get(Key(ns, name))
    case Found(a) => Got(a)
    case Missing => Stop(Refuse(NotFound(role, name)))
    case Unavailable => Stop(ApiError)
  }

  predicate IsReady(a: Artifact) {
    a.status.phase == ReadyArtifact
  }

  function PlanNetboot(get: Artifacts, ns: string, nb: NetbootSpec): Plan {
    match Fetch(get, ns, KernelRole, nb.kernelRef)
    case Stop(p) => p
    case Got(kernel) =>
      match Fetch(get, ns, InitrdRole, nb.initrdRef)
      case Stop(p) => p
      case Got(initrd) =>
        if !IsReady(kernel) then Await(WaitingFor(KernelRole, nb.kernelRef))
        else if !IsReady(initrd) then Await(WaitingFor(InitrdRole, nb.initrdRef))
        else if nb.firmwareRef == "" then BuildNetboot(RefOf(kernel), RefOf(initrd), None)
        else
          match Fetch(get, ns, FirmwareRole, nb.firmwareRef)
          case Stop(p) => p
          case Got(firmware) =>
            if !IsReady(firmware) then Await(WaitingFor(FirmwareRole, nb.firmwareRef))
            else BuildNetboot(RefOf(kernel), RefOf(initrd), Some(RefOf(firmware)))
  }

  function PlanIso(get: Artifacts, ns: string, iso: IsoSpec): Plan {
    if !IsSafeIsoPath(iso.kernelPath) then Refuse(BadPath(KernelRole, iso.kernelPath))
    else if !IsSafeIsoPath(iso.initrdPath) then Refuse(BadPath(InitrdRole, iso.initrdPath))
    else
      match Fetch(get, ns, IsoRole, iso.artifactRef)
      case Stop(p) => p
      case Got(a) =>
        if !IsReady(a) then Await(WaitingFor(IsoRole, iso.artifactRef))
        else BuildIso(RefOf(a), iso.kernelPath, iso.initrdPath)
  }

  function Decide(get: Artifacts, c: BootConfig): Plan {
    if c.spec.iso.Some? then PlanIso(get, c.key.namespace, c.spec.iso.value)
    else if c.spec.netboot.Some? then PlanNetboot(get, c.key.namespace, c.spec.netboot.value)
    else NoMode
  }

  // ---- one reconcile ----

  datatype Result = Done | Requeue(seconds: nat) | Failed

  /** status is what the API server holds afterwards; wrote says whether an update was sent. */
  datatype Outcome = Outcome(disk: Disk, status: ConfigStatus, wrote: bool, result: Result)

  /** Status writes are skipped when nothing would change; a failed write is an error. */
  function SetStatus(d: Disk, old': ConfigStatus, new': ConfigStatus, same: bool, accepted: bool,
      result: Result): Outcome {
    if same then Outcome(d, old', false, result)
    else if accepted then Outcome(d, new', true, result)
    else Outcome(d, old', true, Failed)
  }

  function SetReady(d: Disk, st: ConfigStatus, accepted: bool): Outcome {
    SetStatus(d, st, ConfigStatus(Ready, NoMessage), st.phase == Ready, accepted, Done)
  }

  function SetPending(d: Disk, st: ConfigStatus, m: Message, accepted: bool): Outcome {
    SetStatus(d, st, ConfigStatus(Pending, m), st == ConfigStatus(Pending, m), accepted, Requeue(5))
  }

  function SetError(d: Disk, st: ConfigStatus, m: Message, accepted: bool): Outcome {
    SetStatus(d, st, ConfigStatus(Error, m), st == ConfigStatus(Error, m), accepted, Requeue(10))
  }

  function Conclude(r: Assembled, st: ConfigStatus, accepted: bool): Outcome {
    match r.failed
    case None => SetReady(r.disk, st, accepted)
    case Some(stage) => SetError(r.disk, st, StageFailed(stage), accepted)
  }

  function Execute(w: World, d: Disk, read: Reader, bc: string, plan: Plan, st: ConfigStatus, accepted: bool): Outcome {
    match plan
    case NoMode => Outcome(d, st, false, Done)
    case ApiError => Outcome(d, st, false, Failed)
    case Refuse(m) => SetError(d, st, m, accepted)
    case Await(m) => SetPending(d, st, m, accepted)
    case BuildNetboot(k, i, f) => Conclude(AssembleNetboot(w, d, bc, k, i, f), st, accepted)
    case BuildIso(iso, k, i) => Conclude(AssembleIso(w, d, read, bc, iso, k, i), st, accepted)
  }

  function Reconcile(w: World, d: Disk, read: Reader, get: Artifacts, c: BootConfig, accepted: bool): Outcome {
    Execute(w, d, read, c.key.name, Decide(get, c), c.status, accepted)
  }

  // ---- the reconciler, step by step ----

  /** A BootConfig in the reconciler's hands: its status fields are assigned, then sent. */
  class ConfigObject {
    const key: Key
    const spec: ConfigSpec
    var phase: ConfigPhase
    var message: Message
    var stored: ConfigStatus  // what the API server holds

    constructor (c: BootConfig)
      ensures key == c.key && spec == c.spec && Status() == c.status && stored == c.status
    {
      key, spec := c.key, c.spec;
      phase, message, stored := c.status.phase, c.status.message, c.status;
    }

    function Status(): ConfigStatus
      reads this
    {
      ConfigStatus(phase, message)
    }

    method Update(accepted: bool) returns (ok: bool)
      modifies this`stored
      ensures ok == accepted && stored == (if accepted then Status() else old(stored))
    {
      if accepted {
        stored := ConfigStatus(phase, message);
      }
      ok := accepted;
    }

    method MarkReady(accepted: bool) returns (wrote: bool, result: Result)
      requires stored == Status()
      modifies this
      ensures forall d :: Outcome(d, stored, wrote, result) == SetReady(d, old(stored), accepted)
    {
      if phase == Ready {
        return false, Done;
      }
      phase, message := Ready, NoMessage;
      var ok := Update(accepted);
      wrote, result := true, if ok then Done else Failed;
    }

    method MarkPending(m: Message, accepted: bool) returns (wrote: bool, result: Result)
      requires stored == Status()
      modifies this
      ensures forall d :: Outcome(d, stored, wrote, result) == SetPending(d, old(stored), m, accepted)
    {
      if phase == Pending && message == m {
        return false, Requeue(5);
      }
      phase, message := Pending, m;
      var ok := Update(accepted);
      wrote, result := true, if ok then Requeue(5) else Failed;
    }

    method MarkError(m: Message, accepted: bool) returns (wrote: bool, result: Result)
      requires stored == Status()
      modifies this
      ensures forall d :: Outcome(d, stored, wrote, result) == SetError(d, old(stored), m, accepted)
    {
      if phase == Error && message == m {
        return false, Requeue(10);
      }
      phase, message := Error, m;
      var ok := Update(accepted);
      wrote, result := true, if ok then Requeue(10) else Failed;
    }
  }

  method ReconcileObject(v: Volume, c: ConfigObject, read: Reader, get: Artifacts, accepted: bool)
    returns (wrote: bool, result: Result)
    requires c.stored == c.Status()
    modifies v, c
    ensures Outcome(v.disk, c.stored, wrote, result) ==
            Reconcile(v.w, old(v.disk), read, get, BootConfig(c.key, c.spec, old(c.stored)), accepted)
  {
    hide AssembleNetboot, AssembleIso, SetReady, SetPending, SetError, PlanNetboot, PlanIso;
    var plan := Decide(get, BootConfig(c.key, c.spec, c.Status()));
    match plan {
      case NoMode =>
        wrote, result := false, Done;
      case ApiError =>
        wrote, result := false, Failed;
      case Refuse(m) =>
        wrote, result := c.MarkError(m, accepted);
      case Await(m) =>
        wrote, result := c.MarkPending(m, accepted);
      case BuildNetboot(k, i, f) =>
        var failed := Assembly.BuildNetboot(v, c.key.name, k, i, f);
        if failed.Some? {
          wrote, result := c.MarkError(StageFailed(failed.value), accepted);
        } else {
          wrote, result := c.MarkReady(accepted);
        }
      case BuildIso(iso, k, i) =>
        var failed := Assembly.BuildIso(v, read, c.key.name, iso, k, i);
        if failed.Some? {
          wrote, result := c.MarkError(StageFailed(failed.value), accepted);
        } else {
          wrote, result := c.MarkReady(accepted);
        }
    }
  }

  /** The configuration is gone: its boot directory goes too, whatever the removal's outcome. */
  method ReconcileDeleted(v: Volume, name: string)
    modifies v
    ensures v.disk == RemoveAll(v.w, old(v.disk), BootDir(name))
  {
    v.RemoveTree(BootDir(name));
  }

  // ---- what is decided, from the specification and the artifacts ----

  /** Empty, or with ".." somewhere between slashes or ends. */
  predicate Climbs(path: string) {
    path == "" || exists i | 0 <= i <= |path| :: PieceAt(path, i, "..")
  }

  lemma ClimbsIff(path: string)
    ensures IsSafeIsoPath(path) <==> !Climbs(path)
  {
    hide PieceAt;
    SafePathIff(path);
    if path != "" && !Climbs(path) {
      forall i: nat ensures !PieceAt(path, i, "..") {
        if i > |path| {
          BeyondEnd(path, i);
        }
      }
    }
  }

  lemma BeyondEnd(p: string, i: nat)
    requires i > |p|
    ensures !PieceAt(p, i, "..")
  {
  }

  predicate ReadyAt(get: Artifacts, ns: string, name: string) {
    get(Key(ns, name)).Found? && get(Key(ns, name)).value.status.phase == ReadyArtifact
  }

  predicate FoundAt(get: Artifacts, ns: string, name: string) {
    get(Key(ns, name)).Found?
  }

  /** Everything an ISO configuration needs before anything is built. */
  predicate IsoGo(get: Artifacts, c: BootConfig) {
    c.spec.iso.Some?
    && var i := c.spec.iso.value;
       !Climbs(i.kernelPath) && !Climbs(i.initrdPath) && ReadyAt(get, c.key.namespace, i.artifactRef)
  }

  /** Everything a netboot configuration needs. */
  predicate NetbootGo(get: Artifacts, c: BootConfig) {
    c.spec.iso == None && c.spec.netboot.Some?
    && var n, ns := c.spec.netboot.value, c.key.namespace;
       && ReadyAt(get, ns, n.kernelRef) && ReadyAt(get, ns, n.initrdRef)
       && (n.firmwareRef != "" ==> ReadyAt(get, ns, n.firmwareRef))
  }

  /** The artifact file of the object called `name`. */
  function FileOf(get: Artifacts, ns: string, name: string): Ref
    requires FoundAt(get, ns, name)
  {
    Ref(name, FilenameFromURL(get(Key(ns, name)).value.spec.url))
  }

  ghost predicate OwnKeys(get: Artifacts) {
    forall k: Key :: get(k).Found? ==> get(k).value.key == k
  }

  /**
   * A reconcile builds if and only if every object referred to is found and Ready and both in-image
   * paths are safe; and then it builds from exactly those objects' files and those paths.
   */
  lemma BuildsIff(get: Artifacts, c: BootConfig)
    requires OwnKeys(get)
    ensures Decide(get, c).BuildIso? <==> IsoGo(get, c)
    ensures Decide(get, c).BuildNetboot? <==> NetbootGo(get, c)
    ensures var ns := c.key.namespace;
            IsoGo(get, c) ==>
              var i := c.spec.iso.value;
              Decide(get, c) == BuildIso(FileOf(get, ns, i.artifactRef), i.kernelPath, i.initrdPath)
    ensures var ns := c.key.namespace;
            NetbootGo(get, c) ==>
              var n := c.spec.netboot.value;
              Decide(get, c) == BuildNetboot(FileOf(get, ns, n.kernelRef), FileOf(get, ns, n.initrdRef),
                                             if n.firmwareRef == "" then None else Some(FileOf(get, ns, n.firmwareRef)))
  {
    hide Climbs, IsSafeIsoPath, FilenameFromURL;
    if c.spec.iso.Some? {
      ClimbsIff(c.spec.iso.value.kernelPath);
      ClimbsIff(c.spec.iso.value.initrdPath);
    }
  }

  /** The reconcile ends with this phase and message recorded, unless the update is refused, and comes back. */
  predicate Reports(o: Outcome, st: ConfigStatus, d: Disk, accepted: bool, phase: ConfigPhase, m: Message,
      seconds: nat) {
    var wanted := ConfigStatus(phase, m);
    o == if st == wanted then Outcome(d, st, false, Requeue(seconds))
         else if accepted then Outcome(d, wanted, true, Requeue(seconds))
         else Outcome(d, st, true, Failed)
  }

  predicate GivesUp(o: Outcome, st: ConfigStatus, d: Disk) {
    o == Outcome(d, st, false, Failed)
  }

  predicate ReadFails(get: Artifacts, ns: string, name: string) {
    get(Key(ns, name)) == Unavailable
  }

  predicate IsMissing(get: Artifacts, ns: string, name: string) {
    get(Key(ns, name)) == Missing
  }

  /** An ISO configuration that is not built: bad paths first, then the image's object, looked up once. */
  lemma IsoVerdict(w: World, d: Disk, read: Reader, get: Artifacts, c: BootConfig, accepted: bool)
    requires c.spec.iso.Some?
    ensures var o, st, ns, i := Reconcile(w, d, read, get, c, accepted), c.status, c.key.namespace, c.spec.iso.value;
            && (Climbs(i.kernelPath) ==> Reports(o, st, d, accepted, Error, BadPath(KernelRole, i.kernelPath), 10))
            && (!Climbs(i.kernelPath) && Climbs(i.initrdPath) ==>
                  Reports(o, st, d, accepted, Error, BadPath(InitrdRole, i.initrdPath), 10))
            && (!Climbs(i.kernelPath) && !Climbs(i.initrdPath) ==>
                  && (ReadFails(get, ns, i.artifactRef) ==> GivesUp(o, st, d))
                  && (IsMissing(get, ns, i.artifactRef) ==>
                        Reports(o, st, d, accepted, Error, NotFound(IsoRole, i.artifactRef), 10))
                  && (FoundAt(get, ns, i.artifactRef) && !ReadyAt(get, ns, i.artifactRef) ==>
                        Reports(o, st, d, accepted, Pending, WaitingFor(IsoRole, i.artifactRef), 5)))
  {
    hide AssembleNetboot, AssembleIso, Climbs, IsSafeIsoPath, RefOf;
    ClimbsIff(c.spec.iso.value.kernelPath);
    ClimbsIff(c.spec.iso.value.initrdPath);
  }

  /** A netboot configuration that is not built: kernel and initrd objects, their phases, then the firmware's. */
  lemma NetbootVerdict(w: World, d: Disk, read: Reader, get: Artifacts, c: BootConfig, accepted: bool)
    requires c.spec.iso == None && c.spec.netboot.Some?
    ensures var o, st, ns, n := Reconcile(w, d, read, get, c, accepted), c.status, c.key.namespace,
        c.spec.netboot.value;
            var k, i, f := n.kernelRef, n.initrdRef, n.firmwareRef;
            && (ReadFails(get, ns, k) || (FoundAt(get, ns, k) && ReadFails(get, ns, i)) ==> GivesUp(o, st, d))
            && (IsMissing(get, ns, k) ==> Reports(o, st, d, accepted, Error, NotFound(KernelRole, k), 10))
            && (FoundAt(get, ns, k) && IsMissing(get, ns, i) ==>
                  Reports(o, st, d, accepted, Error, NotFound(InitrdRole, i), 10))
            && (FoundAt(get, ns, k) && FoundAt(get, ns, i) && !ReadyAt(get, ns, k) ==>
                  Reports(o, st, d, accepted, Pending, WaitingFor(KernelRole, k), 5))
            && (ReadyAt(get, ns, k) && FoundAt(get, ns, i) && !ReadyAt(get, ns, i) ==>
                  Reports(o, st, d, accepted, Pending, WaitingFor(InitrdRole, i), 5))
            && (ReadyAt(get, ns, k) && ReadyAt(get, ns, i) && f != "" ==>
                  && (ReadFails(get, ns, f) ==> GivesUp(o, st, d))
                  && (IsMissing(get, ns, f) ==> Reports(o, st, d, accepted, Error, NotFound(FirmwareRole, f), 10))
                  && (FoundAt(get, ns, f) && !ReadyAt(get, ns, f) ==>
                        Reports(o, st, d, accepted, Pending, WaitingFor(FirmwareRole, f), 5)))
  {
    hide AssembleNetboot, AssembleIso, RefOf;
  }

  /** A failed build is an error, tried again in ten seconds; one that works makes the object Ready. */
  lemma BuildVerdict(w: World, d: Disk, read: Reader, get: Artifacts, c: BootConfig, accepted: bool)
    requires Decide(get, c).BuildNetboot? || Decide(get, c).BuildIso?
    ensures var o, p, bc := Reconcile(w, d, read, get, c, accepted), Decide(get, c), c.key.name;
            var r := if p.BuildIso? then AssembleIso(w, d, read, bc, p.iso, p.kernelPath, p.initrdPath)
                     else AssembleNetboot(w, d, bc, p.kernel, p.initrd, p.firmware);
            if r.failed.Some? then Reports(o, c.status, r.disk, accepted, Error, StageFailed(r.failed.value), 10)
            else o == if c.status.phase == Ready then Outcome(r.disk, c.status, false, Done)
                      else if accepted then Outcome(r.disk, ConfigStatus(Ready, NoMessage), true, Done)
                      else Outcome(r.disk, c.status, true, Failed)
  {
    hide AssembleNetboot, AssembleIso, Decide;
  }

  /** Without a mode nothing is done at all. */
  lemma NoModeVerdict(w: World, d: Disk, read: Reader, get: Artifacts, c: BootConfig, accepted: bool)
    requires c.spec.iso == None && c.spec.netboot == None
    ensures Reconcile(w, d, read, get, c, accepted) == Outcome(d, c.status, false, Done)
  {
  }

  // ---- no lost wake-ups ----

  predicate HasMode(c: BootConfig) {
    c.spec.iso.Some? || c.spec.netboot.Some?
  }

  /**
   * Every reconcile of a configuration with a mode ends Ready, returns an error (and is retried),
   * or asks to be called again after a positive delay.
   */
  lemma NeverStalls(w: World, d: Disk, read: Reader, get: Artifacts, c: BootConfig, accepted: bool)
    requires HasMode(c)
    ensures var o := Reconcile(w, d, read, get, c, accepted);
            match o.result
            case Done => o.status.phase == Ready
            case Requeue(n) => n > 0 && o.status.phase in {Pending, Error}
            case Failed => true
  {
    hide PlanNetboot, PlanIso, Execute;
    DecideHasMode(get, c);
    ExecuteEnds(w, d, read, c.key.name, Decide(get, c), c.status, accepted);
  }

  lemma DecideHasMode(get: Artifacts, c: BootConfig)
    requires HasMode(c)
    ensures Decide(get, c) != NoMode
  {
  }

  lemma ExecuteEnds(w: World, d: Disk, read: Reader, bc: string, plan: Plan, st: ConfigStatus, accepted: bool)
    requires plan != NoMode
    ensures var o := Execute(w, d, read, bc, plan, st, accepted);
            match o.result
            case Done => o.status.phase == Ready
            case Requeue(n) => n > 0 && o.status.phase in {Pending, Error}
            case Failed => true
  {
    hide AssembleNetboot, AssembleIso;
  }

  /** Decided by lookups alone: no file operation is involved. */
  predicate LookupDecided(p: Plan) {
    p.Refuse? || p.Await?
  }

  /**
   * After an outcome decided by lookups alone, a second reconcile on the same store comes to the
   * same end on any disk and sends no status update. Convergence.dfy has the same after a success.
   */
  lemma SecondReconcileWritesNothing(w: World, d: Disk, w2: World, d2: Disk, read: Reader, get: Artifacts,
                                     c: BootConfig, accepted: bool, accepted2: bool)
    requires LookupDecided(Decide(get, c)) && Reconcile(w, d, read, get, c, accepted).result != Failed
    ensures var o := Reconcile(w, d, read, get, c, accepted);
            var o2 := Reconcile(w2, d2, read, get, c.(status := o.status), accepted2);
            !o2.wrote && o2.status == o.status && o2.result == o.result && o2.disk == d2
  {
    hide AssembleNetboot, AssembleIso, PlanNetboot, PlanIso;
    var c2 := c.(status := Reconcile(w, d, read, get, c, accepted).status);
    assert Decide(get, c2) == Decide(get, c);
  }

  // ---- the watch map ----

  predicate Refers(c: BootConfig, name: string) {
    || (c.spec.netboot.Some? && (c.spec.netboot.value.kernelRef == name || c.spec.netboot.value.initrdRef == name
                                 || c.spec.netboot.value.firmwareRef == name))
    || (c.spec.iso.Some? && c.spec.iso.value.artifactRef == name)
  }

  /** The configurations a list call in the namespace returns, in order. */
  function InNamespace(cs: seq<BootConfig>, ns: string): seq<BootConfig> {
    if cs == [] then []
    else (if cs[0].key.namespace == ns then [cs[0]] else []) + InNamespace(cs[1..], ns)
  }

  function Requests(cs: seq<BootConfig>, name: string): seq<Key> {
    if cs == [] then []
    else
      var last := cs[|cs| - 1];
      Requests(cs[..|cs| - 1], name) + (if Refers(last, name) then [last.key] else [])
  }

  function FindBootConfigs(all: seq<BootConfig>, artifact: Key): seq<Key> {
    Requests(InNamespace(all, artifact.namespace), artifact.name)
  }

  method CollectRequests(items: seq<BootConfig>, name: string) returns (requests: seq<Key>)
    ensures requests == Requests(items, name)
  {
    requests := [];
    for i := 0 to |items|
      invariant requests == Requests(items[..i], name)
    {
      assert items[..i + 1][..i] == items[..i];
      if Refers(items[i], name) {
        requests := requests + [items[i].key];
      }
    }
    assert items[..|items|] == items;
  }

  lemma {:induction false} InNamespaceIff(cs: seq<BootConfig>, ns: string, c: BootConfig)
    ensures c in InNamespace(cs, ns) <==> c in cs && c.key.namespace == ns
  {
    if cs != [] {
      InNamespaceIff(cs[1..], ns, c);
    }
  }

  lemma {:induction false} RequestsIff(cs: seq<BootConfig>, name: string, k: Key)
    ensures k in Requests(cs, name) <==> exists c :: c in cs && c.key == k && Refers(c, name)
    decreases |cs|
  {
    if cs == [] {
    } else {
      var init, last := cs[..|cs| - 1], cs[|cs| - 1];
      RequestsIff(init, name, k);
      assert cs == init + [last];
      if k in Requests(cs, name) {
        if k in Requests(init, name) {
          var c :| c in init && c.key == k && Refers(c, name);
          assert c in cs;
        } else {
          assert last in cs;
        }
      }
    }
  }

  /** Two views of the artifacts that differ at most at one object. */
  ghost predicate SameButFor(get: Artifacts, other: Artifacts, x: Key) {
    forall k: Key :: k != x ==> get(k) == other(k)
  }

  /** A configuration that does not refer to x decides the same whatever becomes of x. */
  lemma UnreferencedDecidesSame(get: Artifacts, other: Artifacts, c: BootConfig, x: Key)
    requires SameButFor(get, other, x) && (c.key.namespace != x.namespace || !Refers(c, x.name))
    ensures Decide(get, c) == Decide(other, c)
  {
    hide IsSafeIsoPath, RefOf;
    var ns := c.key.namespace;
    if c.spec.iso.Some? {
      assert Key(ns, c.spec.iso.value.artifactRef) != x;
    } else if c.spec.netboot.Some? {
      var nb := c.spec.netboot.value;
      assert Key(ns, nb.kernelRef) != x && Key(ns, nb.initrdRef) != x && Key(ns, nb.firmwareRef) != x;
    }
  }

  /**
   * The watch map misses nothing: a configuration it does not name for artifact x reconciles to
   * the same outcome, files, status and all, however x is changed, created or deleted.
   */
  lemma WatchMapComplete(all: seq<BootConfig>, c: BootConfig, x: Key, get: Artifacts, other: Artifacts,
                         w: World, d: Disk, read: Reader, accepted: bool)
    requires c in all && c.key !in FindBootConfigs(all, x) && SameButFor(get, other, x)
    ensures Reconcile(w, d, read, get, c, accepted) == Reconcile(w, d, read, other, c, accepted)
  {
    hide Execute, Decide, Refers;
    InNamespaceIff(all, x.namespace, c);
    RequestsIff(InNamespace(all, x.namespace), x.name, c.key);
    UnreferencedDecidesSame(get, other, c, x);
  }

  /** The object is one of those the specification mentions, whichever mode is in force. */
  predicate Names(c: BootConfig, name: string) {
    || (c.spec.iso.Some? && c.spec.iso.value.artifactRef == name)
    || (c.spec.netboot.Some?
        && name in {c.spec.netboot.value.kernelRef, c.spec.netboot.value.initrdRef, c.spec.netboot.value.firmwareRef})
  }

  /** And it is exact: it names the namespace's configurations that refer to x, no others. */
  lemma WatchMapExact(all: seq<BootConfig>, x: Key, k: Key)
    ensures k in FindBootConfigs(all, x) <==>
            exists c :: c in all && c.key == k && k.namespace == x.namespace && Names(c, x.name)
  {
    forall c: BootConfig ensures Refers(c, x.name) == Names(c, x.name) {
    }
    hide Refers, Names;
    var listed := InNamespace(all, x.namespace);
    RequestsIff(listed, x.name, k);
    if k in FindBootConfigs(all, x) {
      var c :| c in listed && c.key == k && Refers(c, x.name);
      InNamespaceIff(all, x.namespace, c);
    }
    if c :| c in all && c.key == k && k.namespace == x.namespace && Names(c, x.name) {
      InNamespaceIff(all, x.namespace, c);
    }
  }

  lemma {:induction false} RequestsInOrder(cs: seq<BootConfig>, name: string, i: nat)
    requires i < |cs| && Refers(cs[i], name)
    ensures var at := |Requests(cs[..i], name)|;
            && at < |Requests(cs, name)| && Requests(cs, name)[at] == cs[i].key
            && Requests(cs, name)[..at] == Requests(cs[..i], name)
    decreases |cs| - i
  {
    if i == |cs| - 1 {
    } else {
      PrefixRequests(cs, name, i + 1);
      assert cs[..i + 1][..i] == cs[..i];
    }
  }

  lemma {:induction false} PrefixRequests(cs: seq<BootConfig>, name: string, n: nat)
    requires n <= |cs|
    ensures Requests(cs[..n], name) <= Requests(cs, name)
    decreases |cs|
  {
    if n == |cs| {
      assert cs[..n] == cs;
    } else {
      var init := cs[..|cs| - 1];
      PrefixRequests(init, name, n);
      assert init[..n] == cs[..n];
    }
  }

  lemma {:induction false} InNamespaceJoins(a: seq<BootConfig>, b: seq<BootConfig>, ns: string)
    ensures InNamespace(a + b, ns) == InNamespace(a, ns) + InNamespace(b, ns)
  {
    if a == [] {
      assert a + b == b;
    } else {
      InNamespaceJoins(a[1..], b, ns);
      assert (a + b)[1..] == a[1..] + b && (a + b)[0] == a[0];
      var first := if a[0].key.namespace == ns then [a[0]] else [];
      assert InNamespace(a + b, ns) == first + (InNamespace(a[1..], ns) + InNamespace(b, ns));
    }
  }

  /** Each dependent in the store is enqueued in order: right after the requests of those before it. */
  lemma EnqueuedInOrder(all: seq<BootConfig>, x: Key, i: nat)
    requires i < |all| && all[i].key.namespace == x.namespace && Refers(all[i], x.name)
    ensures var requests, before := FindBootConfigs(all, x), FindBootConfigs(all[..i], x);
            |before| < |requests| && requests[|before|] == all[i].key && requests[..|before|] == before
  {
    hide Refers, Requests;
    var ns := x.namespace;
    var front, back := InNamespace(all[..i], ns), InNamespace(all[i + 1..], ns);
    assert all == all[..i] + ([all[i]] + all[i + 1..]);
    InNamespaceJoins(all[..i], [all[i]] + all[i + 1..], ns);
    InNamespaceJoins([all[i]], all[i + 1..], ns);
    var listed := InNamespace(all, ns);
    assert InNamespace([all[i]], ns) == [all[i]];
    assert listed == front + ([all[i]] + back);
    assert listed[..|front|] == front && listed[|front|] == all[i];
    RequestsInOrder(listed, x.name, |front|);
  }

  predicate DistinctKeys(cs: seq<BootConfig>) {
    forall i, j :: 0 <= i < j < |cs| ==> cs[i].key != cs[j].key
  }

  lemma {:induction false} InNamespaceDistinct(cs: seq<BootConfig>, ns: string)
    requires DistinctKeys(cs)
    ensures DistinctKeys(InNamespace(cs, ns))
  {
    if cs != [] {
      InNamespaceDistinct(cs[1..], ns);
      var rest := InNamespace(cs[1..], ns);
      forall i | 0 <= i < |rest| ensures rest[i].key != cs[0].key {
        InNamespaceIff(cs[1..], ns, rest[i]);
        var k :| 0 <= k < |cs[1..]| && cs[1..][k] == rest[i];
        assert cs[k + 1] == rest[i];
      }
    }
  }

  lemma {:induction false} RequestsOnce(cs: seq<BootConfig>, name: string)
    requires DistinctKeys(cs)
    ensures forall i, j :: 0 <= i < j < |Requests(cs, name)| ==> Requests(cs, name)[i] != Requests(cs, name)[j]
    decreases |cs|
  {
    hide Refers;
    if cs != [] {
      var init, last := cs[..|cs| - 1], cs[|cs| - 1];
      RequestsOnce(init, name);
      RequestsIff(init, name, last.key);
      assert forall c :: c in init ==> c.key != last.key;
    }
  }

  /** Keys being unique in the store, no configuration is enqueued twice. */
  lemma EnqueuedOnce(all: seq<BootConfig>, x: Key)
    requires DistinctKeys(all)
    ensures var requests := FindBootConfigs(all, x);
            forall i, j :: 0 <= i < j < |requests| ==> requests[i] != requests[j]
  {
    hide DistinctKeys, Requests, InNamespace;
    InNamespaceDistinct(all, x.namespace);
    RequestsOnce(InNamespace(all, x.namespace), x.name);
  }
}

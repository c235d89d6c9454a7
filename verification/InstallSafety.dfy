/**
 * Installing an artifact is safe at every crash point, and Ready means that the file is there:
 * exactly when the specification still names the same file as at the start of the reconcile.
 */
module InstallSafety {
  import opened Words
  import opened FileTree
  import opened UrlUtil
  import opened FileOps
  import opened CrashSafety
  import opened ArtifactStore
  import opened Api
  import opened BootArtifactController

  /** The file itself is at p and has the digest asked for. */
  predicate InstalledAt(digest: Digest, spec: ArtifactSpec, t: Tree, p: Path) {
    p in t && t[p].File? && Matches(digest, spec, t[p].data)
  }

  /** Reading p yields bytes with the digest asked for. */
  predicate ServedAt(digest: Digest, spec: ArtifactSpec, t: Tree, p: Path) {
    Content(t, p).Some? && Matches(digest, spec, Content(t, p).value)
  }

  // ---- every intermediate tree ----

  /** One reconcile: the tree and time it starts from, the final path and the specification read last. */
  datatype Job = Job(before: Tree, since: nat, p: Path, digest: Digest, spec: Option<ArtifactSpec>)

  function JobOf(d: Disk, s: Setting, a: Artifact): Job {
    Job(d.nodes, d.clock, FilePath(a), s.digest,
        if s.refetched.Found? then Some(s.refetched.value.spec) else None)
  }

  /** The final path is absent, as before, or holds a verified file written since the start. */
  predicate FinalSound(j: Job, t: Tree) {
    j.p in t ==>
      || (j.p in j.before && t[j.p] == j.before[j.p])
      || (j.spec.Some? && InstalledAt(j.digest, j.spec.value, t, j.p) && j.since <= t[j.p].mtime
          && DirAt(t, Parent(j.p)))
  }

  /** The temporary path is absent, as before, or holds a file written since the start. */
  predicate TempSound(j: Job, t: Tree)
    requires j.p != []
  {
    TempOf(j.p) in t ==>
      || (TempOf(j.p) in j.before && t[TempOf(j.p)] == j.before[TempOf(j.p)])
      || (t[TempOf(j.p)].File? && j.since <= t[TempOf(j.p)].mtime && DirAt(t, Parent(j.p)))
  }

  /** Apart from the final and the temporary file, only missing directories above them appear. */
  ghost predicate OthersSound(j: Job, t: Tree)
    requires j.p != []
  {
    forall q: Path | q != j.p && q != TempOf(j.p) ::
      && (q in j.before ==> q in t && t[q] == j.before[q])
      && (q in t && q !in j.before ==> q != [] && q < j.p && t[q] == Dir && DirAt(t, Parent(q)))
  }

  ghost predicate Sound(j: Job, t: Tree) {
    j.p != [] && FinalSound(j, t) && TempSound(j, t) && OthersSound(j, t)
  }

  /** d was reached from a disk with the log `earlier` through sound trees only. */
  ghost predicate Traced(j: Job, earlier: seq<Tree>, d: Disk) {
    && earlier <= d.log && j.since <= d.clock && Sound(j, d.nodes)
    && forall k | |earlier| <= k < |d.log| :: Sound(j, d.log[k])
  }

  lemma TracedPut(w: World, j: Job, earlier: seq<Tree>, d: Disk, t: Tree)
    requires Traced(j, earlier, d) && Sound(j, t)
    ensures Traced(j, earlier, Put(w, d, t))
  {
    hide Sound;
  }

  lemma TracedNext(w: World, j: Job, earlier: seq<Tree>, d: Disk)
    requires Traced(j, earlier, d)
    ensures Traced(j, earlier, Next(w, d))
  {
    hide Sound;
  }

  lemma TempDiffers(p: Path)
    requires p != []
    ensures TempOf(p) != p && Parent(TempOf(p)) == Parent(p) && |TempOf(p)| == |p|
  {
    assert TempOf(p)[|p| - 1] == p[|p| - 1] + ".tmp";
    assert |p[|p| - 1] + ".tmp"| > |p[|p| - 1]|;
    assert TempOf(p)[..|p| - 1] == Parent(p);
  }

  lemma SoundWithout(j: Job, t: Tree, q: Path)
    requires Sound(j, t) && (q == j.p || q == TempOf(j.p))
    ensures Sound(j, t - {q})
  {
    TempDiffers(j.p);
  }

  lemma SoundTemp(j: Job, t: Tree, n: Node)
    requires Sound(j, t) && n.File? && j.since <= n.mtime && DirAt(t, Parent(j.p))
    ensures Sound(j, t[TempOf(j.p) := n])
  {
    TempDiffers(j.p);
  }

  lemma SoundInstall(j: Job, t: Tree)
    requires Sound(j, t) && j.spec.Some? && InstalledAt(j.digest, j.spec.value, t, TempOf(j.p))
    requires j.since <= t[TempOf(j.p)].mtime && DirAt(t, Parent(j.p))
    ensures Sound(j, (t - {TempOf(j.p)})[j.p := t[TempOf(j.p)]])
  {
    hide TempOf, Verified, Matches;
    TempDiffers(j.p);
    var u := (t - {TempOf(j.p)})[j.p := t[TempOf(j.p)]];
    assert |Parent(j.p)| < |j.p|;
    forall q: Path | q != j.p && q != TempOf(j.p) && q in u && q !in j.before ensures DirAt(u, Parent(q)) {
      assert |Parent(q)| < |j.p|;
    }
  }

  lemma SoundMade(j: Job, t: Tree, u: Tree)
    requires Sound(j, t) && MadeDirs(t, u, Parent(j.p))
    ensures Sound(j, u)
  {
    TempDiffers(j.p);
    forall q | q in u && q !in t ensures q < j.p {
      assert q <= Parent(j.p) && Parent(j.p) < j.p;
    }
  }

  lemma TracedMade(w: World, j: Job, earlier: seq<Tree>, d: Disk)
    requires Traced(j, earlier, d)
    ensures Traced(j, earlier, MkdirAll(w, d, Parent(j.p)).disk)
  {
    hide Sound, MadeDirs, MkdirAll;
    var r := MkdirAll(w, d, Parent(j.p));
    assert j.p != [] by { assert Sound(j, d.nodes); SoundNonEmpty(j, d.nodes); }
    MkdirEffect(w, d, Parent(j.p));
    SoundMade(j, d.nodes, r.disk.nodes);
    forall k | |earlier| <= k < |r.disk.log| ensures Sound(j, r.disk.log[k]) {
      if k < |d.log| {
        assert r.disk.log[k] == d.log[k];
      } else {
        SoundMade(j, d.nodes, r.disk.log[k]);
      }
    }
  }

  lemma SoundNonEmpty(j: Job, t: Tree)
    requires Sound(j, t)
    ensures j.p != []
  {
  }

  lemma TracedRemove(w: World, j: Job, earlier: seq<Tree>, d: Disk, q: Path)
    requires Traced(j, earlier, d) && j.p != [] && (q == j.p || q == TempOf(j.p))
    ensures Traced(j, earlier, Remove(w, d, q))
  {
    hide Sound;
    SoundWithout(j, d.nodes, q);
    TracedNext(w, j, earlier, d);
    TracedPut(w, j, earlier, d, d.nodes - {q});
  }

  lemma TracedCreate(w: World, j: Job, earlier: seq<Tree>, d: Disk)
    requires Traced(j, earlier, d) && j.p != []
    ensures var made := CreateFile(w, d, TempOf(j.p));
            && Traced(j, earlier, made.disk)
            && (made.ok ==> DirAt(made.disk.nodes, Parent(j.p)) && j.since <= made.disk.nodes[TempOf(j.p)].mtime
                            && made.disk.nodes[TempOf(j.p)].data == [])
  {
    hide Sound;
    var tmp := TempOf(j.p);
    var made := CreateFile(w, d, tmp);
    TracedNext(w, j, earlier, d);
    TempDiffers(j.p);
    assert |Parent(j.p)| < |tmp|;
    if made.ok {
      SoundTemp(j, d.nodes, made.disk.nodes[tmp]);
      TracedPut(w, j, earlier, d, made.disk.nodes);
    }
  }

  /** Filling the temporary file; a copy without error leaves all the bytes there. */
  lemma TracedCopy(w: World, j: Job, earlier: seq<Tree>, d: Disk, body: Bytes)
    requires Traced(j, earlier, d) && j.p != [] && IsFile(d, TempOf(j.p)) && DirAt(d.nodes, Parent(j.p))
    requires d.nodes[TempOf(j.p)].data == [] && j.since <= d.nodes[TempOf(j.p)].mtime
    ensures var copied := Append(w, d, TempOf(j.p), body);
            && Traced(j, earlier, copied.disk) && IsFile(copied.disk, TempOf(j.p))
            && j.since <= copied.disk.nodes[TempOf(j.p)].mtime
            && (copied.ok ==> copied.disk.nodes[TempOf(j.p)].data == body)
  {
    hide Sound;
    var tmp := TempOf(j.p);
    var copied := Append(w, d, tmp, body);
    SoundTemp(j, d.nodes, copied.disk.nodes[tmp]);
    TracedPut(w, j, earlier, d, copied.disk.nodes);
    assert body[..|body|] == body;
  }

  lemma TracedInstall(w: World, j: Job, earlier: seq<Tree>, d: Disk)
    requires Traced(j, earlier, d) && j.p != [] && j.spec.Some?
    requires InstalledAt(j.digest, j.spec.value, d.nodes, TempOf(j.p)) && j.since <= d.nodes[TempOf(j.p)].mtime
    ensures Traced(j, earlier, Rename(w, d, TempOf(j.p), j.p).disk)
  {
    hide Sound;
    TracedNext(w, j, earlier, d);
    if DirAt(d.nodes, Parent(j.p)) {
      SoundInstall(j, d.nodes);
      TracedPut(w, j, earlier, d, (d.nodes - {TempOf(j.p)})[j.p := d.nodes[TempOf(j.p)]]);
    }
  }

  lemma ReceiveTraced(w: World, j: Job, earlier: seq<Tree>, d: Disk, s: Setting, a: Artifact)
    requires Traced(j, earlier, d) && j.p != [] && j.spec == Some(a.spec) && j.digest == s.digest
    ensures Traced(j, earlier, Receive(w, d, s, a, j.p).disk)
  {
    hide Sound, Traced, CreateFile, Append, Rename, Verified, Matches;
    if s.response.Answer? {
      var body := s.response.body;
      TracedCreate(w, j, earlier, d);
      var made := CreateFile(w, d, TempOf(j.p));
      if made.ok {
        TracedCopy(w, j, earlier, made.disk, body);
        var copied := Append(w, made.disk, TempOf(j.p), body);
        if copied.ok {
          InstallTraced(w, j, earlier, copied.disk, s, a, body);
        }
      }
    }
  }

  lemma InstallTraced(w: World, j: Job, earlier: seq<Tree>, d: Disk, s: Setting, a: Artifact, body: Bytes)
    requires Traced(j, earlier, d) && j.p != [] && j.spec == Some(a.spec) && j.digest == s.digest
    requires IsFile(d, TempOf(j.p)) && d.nodes[TempOf(j.p)].data == body && j.since <= d.nodes[TempOf(j.p)].mtime
    ensures Traced(j, earlier, VerifyAndInstall(w, d, s, a, j.p, body).disk)
  {
    hide Sound, Traced, Rename, Verified, Matches, Next;
    NextKeepsTree(w, d);
    TracedNext(w, j, earlier, d);
    var d1 := Next(w, d);
    NextKeepsTree(w, d1);
    TracedNext(w, j, earlier, d1);
    var d2 := Next(w, d1);
    if Matches(s.digest, a.spec, body) {
      TracedInstall(w, j, earlier, d2);
      TracedNext(w, j, earlier, Rename(w, d2, TempOf(j.p), j.p).disk);
    }
  }

  lemma NextKeepsTree(w: World, d: Disk)
    ensures Next(w, d).nodes == d.nodes && Next(w, d).log == d.log
  {
  }

  lemma DownloadTraced(w: World, j: Job, earlier: seq<Tree>, d: Disk, s: Setting, a: Artifact)
    requires Traced(j, earlier, d) && j.p != [] && j.digest == s.digest
    requires s.refetched.Found? ==> j.spec == Some(s.refetched.value.spec)
    ensures Traced(j, earlier, Download(w, d, s, a, j.p).disk)
  {
    hide Sound, Traced, Receive, Remove, MkdirAll;
    if s.acceptStart && s.refetched.Found? {
      TracedMade(w, j, earlier, d);
      var dirs := MkdirAll(w, d, Parent(j.p));
      if dirs.ok {
        ReceiveTraced(w, j, earlier, dirs.disk, s, s.refetched.value);
        TracedRemove(w, j, earlier, Receive(w, dirs.disk, s, s.refetched.value, j.p).disk, TempOf(j.p));
      }
    }
  }

  /**
   * Whatever fails and wherever a crash strikes: the artifact's path is absent, as it was, or
   * holds a file with the digest the re-read specification asks for, and nothing else is touched.
   */
  lemma CrashSafeInstall(w: World, d: Disk, s: Setting, a: Artifact)
    ensures Traced(JobOf(d, s, a), d.log, Reconcile(w, d, s, Found(a)).disk)
  {
    hide Sound, Traced, Download, Remove, Verified, Matches, Exists, Next;
    var j := JobOf(d, s, a);
    assert Traced(j, d.log, d) by { TracedStart(j, d); }
    TracedNext(w, j, d.log, d);
    NextKeepsTree(w, d);
    var d1 := Next(w, d);
    if w.fault(d.step) {
    } else if !Exists(d.nodes, j.p) {
      DownloadTraced(w, j, d.log, d1, s, a);
    } else if s.vanishes {
      VanishTraced(w, j, d.log, d1);
      DownloadTraced(w, j, d.log, Put(w, d1, d1.nodes - {j.p}), s, a);
    } else {
      TracedNext(w, j, d.log, d1);
      TracedRemove(w, j, d.log, Next(w, d1), j.p);
      DownloadTraced(w, j, d.log, Remove(w, Next(w, d1), j.p), s, a);
    }
  }

  lemma TracedStart(j: Job, d: Disk)
    requires j.before == d.nodes && j.since <= d.clock && j.p != []
    ensures Traced(j, d.log, d)
  {
  }

  lemma VanishTraced(w: World, j: Job, earlier: seq<Tree>, d: Disk)
    requires Traced(j, earlier, d) && j.p != []
    ensures Traced(j, earlier, Put(w, d, d.nodes - {j.p}))
  {
    SoundWithout(j, d.nodes, j.p);
    TracedPut(w, j, earlier, d, d.nodes - {j.p});
  }

  /** A file that verifies is never written, removed or downloaded again. */
  lemma VerifiedFileIsLeftAlone(w: World, d: Disk, s: Setting, a: Artifact)
    requires ServedAt(s.digest, a.spec, d.nodes, FilePath(a)) && !s.vanishes
    ensures var o := Reconcile(w, d, s, Found(a));
            && o.disk.nodes == d.nodes && o.disk.log == d.log
            && (forall c | c in o.commits :: c.status.phase != Downloading)
  {
    hide Verified, Matches, Download, Resolve;
  }

  /** A file that could be read and does not verify is gone afterwards, or replaced by one that does. */
  lemma BadFileIsNotKept(w: World, d: Disk, s: Setting, a: Artifact)
    requires Regular(d.nodes, FilePath(a)) && !Matches(s.digest, a.spec, d.nodes[FilePath(a)].data)
    requires NoRemovalFails(w) && !w.fault(d.step) && !w.fault(d.step + 1)
    ensures var p, t := FilePath(a), Reconcile(w, d, s, Found(a)).disk.nodes;
            p in t ==> s.refetched.Found? && InstalledAt(s.digest, s.refetched.value.spec, t, p)
  {
    hide Verified, Matches, Download, Content, Resolve, Regular, Sound;
    var p := FilePath(a);
    RegularContent(d.nodes, p);
    var d1 := Next(w, d);
    var removed := if s.vanishes then Put(w, d1, d1.nodes - {p}) else Remove(w, Next(w, d1), p);
    assert removed.nodes == d.nodes - {p} by { IsRegularFile(d.nodes, p); }
    var j := JobOf(d, s, a).(before := removed.nodes);
    TracedStart(j, removed);
    DownloadTraced(w, j, removed.log, removed, s, a);
    TracedSound(j, removed.log, Download(w, removed, s, a, p).disk);
    SoundFinal(j, Download(w, removed, s, a, p).disk.nodes);
  }

  lemma IsRegularFile(t: Tree, p: Path)
    requires Regular(t, p)
    ensures p in t && t[p].File?
  {
  }

  lemma SoundFinal(j: Job, t: Tree)
    requires Sound(j, t)
    ensures FinalSound(j, t)
  {
  }

  // ---- the temporary file ----

  /** What stands at the temporary path, if anything, is a file. */
  predicate TempIsFile(t: Tree, p: Path)
    requires p != []
  {
    TempOf(p) in t ==> t[TempOf(p)].File?
  }

  lemma ReceiveTemp(w: World, d: Disk, s: Setting, a: Artifact, p: Path)
    requires p != [] && TempIsFile(d.nodes, p)
    ensures TempIsFile(Receive(w, d, s, a, p).disk.nodes, p)
  {
    hide SetFailure, Verified, Matches, VerifyAndInstall, Append, TempOf;
    if s.response.Answer? {
      var made := CreateFile(w, d, TempOf(p));
      if made.ok {
        InstallTemp(w, Append(w, made.disk, TempOf(p), s.response.body).disk, s, a, p, s.response.body);
      }
    }
  }

  lemma InstallTemp(w: World, d: Disk, s: Setting, a: Artifact, p: Path, body: Bytes)
    requires p != [] && TempIsFile(d.nodes, p)
    ensures TempIsFile(VerifyAndInstall(w, d, s, a, p, body).disk.nodes, p)
  {
    hide SetReady, SetFailure, Verified, Matches;
    TempDiffers(p);
  }

  /** When removals work a reconcile leaves no temporary file behind, however it ends. */
  lemma NoTempLeft(w: World, d: Disk, s: Setting, a: Artifact)
    requires NoRemovalFails(w) && TempOf(FilePath(a)) !in d.nodes
    ensures TempOf(FilePath(a)) !in Reconcile(w, d, s, Found(a)).disk.nodes
  {
    hide Download, SetFailure, SetReady, Verified, Matches, Exists, OpenRead;
    var p := FilePath(a);
    forall e: Disk | TempOf(p) !in e.nodes ensures TempOf(p) !in Download(w, e, s, a, p).disk.nodes {
      DownloadTemp(w, e, s, a, p);
    }
  }

  lemma DownloadTemp(w: World, d: Disk, s: Setting, a: Artifact, p: Path)
    requires p != [] && NoRemovalFails(w) && TempOf(p) !in d.nodes
    ensures TempOf(p) !in Download(w, d, s, a, p).disk.nodes
  {
    hide Receive, SetFailure, MkdirAll, MadeDirs;
    if s.refetched.Found? {
      var dirs := MkdirAll(w, d, Parent(p));
      MkdirEffect(w, d, Parent(p));
      MadeSparesTemp(d.nodes, dirs.disk.nodes, p);
      ReceiveTemp(w, dirs.disk, s, s.refetched.value, p);
    }
  }

  lemma MadeSparesTemp(t: Tree, u: Tree, p: Path)
    requires p != [] && MadeDirs(t, u, Parent(p)) && TempOf(p) !in t
    ensures TempOf(p) !in u
  {
    TempDiffers(p);
  }

  // ---- modification times ----

  /** From d to e, p was left alone, removed, or became a file stamped in between. */
  predicate Stamps(d: Disk, e: Disk, p: Path) {
    d.clock <= e.clock &&
    (p in e.nodes ==>
       || (p in d.nodes && e.nodes[p] == d.nodes[p])
       || (e.nodes[p].File? && d.clock <= e.nodes[p].mtime <= e.clock))
  }

  lemma InstallStamps(w: World, d0: Disk, d: Disk, s: Setting, a: Artifact, p: Path, body: Bytes)
    requires p != [] && Stamps(d0, d, p)
    requires IsFile(d, TempOf(p)) && d0.clock <= d.nodes[TempOf(p)].mtime <= d.clock
    ensures Stamps(d0, VerifyAndInstall(w, d, s, a, p, body).disk, p)
  {
    hide SetReady, SetFailure, Verified, Matches, TempOf;
  }

  lemma ReceiveStamps(w: World, d: Disk, s: Setting, a: Artifact, p: Path)
    requires p != []
    ensures Stamps(d, Receive(w, d, s, a, p).disk, p)
  {
    hide SetFailure, Verified, Matches, VerifyAndInstall, TempOf;
    assert TempOf(p) != p by { TempDiffers(p); }
    if s.response.Answer? {
      var made := CreateFile(w, d, TempOf(p));
      if made.ok {
        var copied := Append(w, made.disk, TempOf(p), s.response.body);
        InstallStamps(w, d, copied.disk, s, a, p, s.response.body);
      }
    }
  }

  lemma DownloadStamps(w: World, d: Disk, s: Setting, a: Artifact, p: Path)
    requires p != []
    ensures Stamps(d, Download(w, d, s, a, p).disk, p)
  {
    hide Receive, SetFailure, MkdirAll, MadeDirs;
    if s.refetched.Found? {
      var dirs := MkdirAll(w, d, Parent(p));
      MkdirEffect(w, d, Parent(p));
      MadeSparesFinal(d.nodes, dirs.disk.nodes, p);
      ReceiveStamps(w, dirs.disk, s, s.refetched.value, p);
    }
  }

  lemma MadeSparesFinal(t: Tree, u: Tree, p: Path)
    requires p != [] && MadeDirs(t, u, Parent(p))
    ensures (p in u <==> p in t) && (p in t ==> u[p] == t[p])
  {
  }

  /** A reconcile leaves the artifact's path alone, removes it, or puts a file there stamped while it ran. */
  lemma InstalledDuringReconcile(w: World, d: Disk, s: Setting, a: Artifact)
    ensures Stamps(d, Reconcile(w, d, s, Found(a)).disk, FilePath(a))
  {
    hide Download, SetFailure, SetReady, Verified, Matches, Exists, OpenRead;
    var p := FilePath(a);
    forall e: Disk ensures Stamps(e, Download(w, e, s, a, p).disk, p) {
      DownloadStamps(w, e, s, a, p);
    }
  }

  // ---- Ready ----

  predicate ReadyIn(commits: seq<StatusCommit>) {
    exists c | c in commits :: c.status.phase == ReadyArtifact
  }

  lemma FailureNotReady(d: Disk, a: Artifact, accepted: bool)
    ensures !ReadyIn(SetFailure(d, a, accepted).commits) && SetFailure(d, a, accepted).result != Done
  {
  }

  lemma ReadyOutcome(d: Disk, a: Artifact, accepted: bool)
    ensures var o := SetReady(d, a, accepted);
            && (forall c | c in o.commits :: c.spec == a.spec)
            && (o.result == Done ==> ReadyIn(o.commits))
  {
    var c := StatusCommit(a.spec, ReadyStatus(a.status, d.clock));
    assert c in [c];
  }

  /** What stands when a download has made its artifact Ready. */
  ghost predicate Landed(s: Setting, a: Artifact, o: Outcome, p: Path)
    requires p != []
  {
    && InstalledAt(s.digest, a.spec, o.disk.nodes, p) && TempOf(p) !in o.disk.nodes
    && (forall k | 0 <= k < |p| :: DirAt(o.disk.nodes, p[..k]))
    && (forall c | c in o.commits && c.status.phase == ReadyArtifact :: c.spec == a.spec)
  }

  lemma ReceiveLands(w: World, d: Disk, s: Setting, a: Artifact, p: Path)
    requires p != [] && DirsAbove(d.nodes, p)
    ensures var o := Receive(w, d, s, a, p);
            ReadyIn(o.commits) || o.result == Done ==> ReadyIn(o.commits) && Landed(s, a, o, p)
  {
    hide SetReady, SetFailure, Verified, Matches, CreateFile, Append, Rename, Landed, ReadyIn;
    forall e: Disk
      ensures !ReadyIn(SetFailure(e, a, s.acceptEnd).commits) && SetFailure(e, a, s.acceptEnd).result != Done
    {
      FailureNotReady(e, a, s.acceptEnd);
    }
    if s.response.Answer? {
      var body := s.response.body;
      var made := CreateFile(w, d, TempOf(p));
      if made.ok {
        var copied := Append(w, made.disk, TempOf(p), body);
        if copied.ok {
          CopyKeepsDirs(w, d, p, body);
          InstallLands(w, copied.disk, s, a, p, body);
        }
      }
    }
  }

  lemma CopyKeepsDirs(w: World, d: Disk, p: Path, body: Bytes)
    requires p != [] && DirsAbove(d.nodes, p)
    requires CreateFile(w, d, TempOf(p)).ok && Append(w, CreateFile(w, d, TempOf(p)).disk, TempOf(p), body).ok
    ensures var t := Append(w, CreateFile(w, d, TempOf(p)).disk, TempOf(p), body).disk.nodes;
            DirsAbove(t, p) && TempOf(p) in t && t[TempOf(p)].File? && t[TempOf(p)].data == body
  {
    TempDiffers(p);
    assert body[..|body|] == body;
    var t := Append(w, CreateFile(w, d, TempOf(p)).disk, TempOf(p), body).disk.nodes;
    forall k | 0 <= k < |p| ensures DirAt(t, p[..k]) {
      assert DirAt(d.nodes, p[..k]);
      assert |p[..k]| < |TempOf(p)|;
    }
  }

  lemma InstallLands(w: World, d: Disk, s: Setting, a: Artifact, p: Path, body: Bytes)
    requires p != [] && DirsAbove(d.nodes, p) && IsFile(d, TempOf(p)) && d.nodes[TempOf(p)].data == body
    ensures var o := VerifyAndInstall(w, d, s, a, p, body);
            ReadyIn(o.commits) || o.result == Done ==> ReadyIn(o.commits) && Landed(s, a, o, p)
  {
    hide SetReady, SetFailure, Verified, Matches, ReadyIn;
    forall e: Disk
      ensures !ReadyIn(SetFailure(e, a, s.acceptEnd).commits) && SetFailure(e, a, s.acceptEnd).result != Done
    {
      FailureNotReady(e, a, s.acceptEnd);
    }
    TempDiffers(p);
    var o := VerifyAndInstall(w, d, s, a, p, body);
    var t := (d.nodes - {TempOf(p)})[p := d.nodes[TempOf(p)]];
    forall k | 0 <= k < |p| ensures DirAt(t, p[..k]) {
      assert DirAt(d.nodes, p[..k]);
      assert |p[..k]| < |p|;
    }
    ReadyOutcome(o.disk, a, s.acceptEnd);
    if ReadyIn(o.commits) || o.result == Done {
      assert o == SetReady(o.disk, a, s.acceptEnd);
      assert o.disk.nodes == t;
      NotReadyNotDone(o.disk, a, s.acceptEnd);
    }
  }

  lemma NotReadyNotDone(d: Disk, a: Artifact, accepted: bool)
    ensures SetReady(d, a, accepted).result == Done <==> ReadyIn(SetReady(d, a, accepted).commits)
  {
    ReadyOutcome(d, a, accepted);
  }

  lemma DownloadLands(w: World, d: Disk, s: Setting, a: Artifact, p: Path)
    requires p != []
    ensures var o := Download(w, d, s, a, p);
            ReadyIn(o.commits) || o.result == Done ==>
              ReadyIn(o.commits) && s.refetched.Found? && Landed(s, s.refetched.value, o, p)
  {
    hide Receive, SetFailure, MkdirAll, Verified, Matches, MadeDirs;
    var o := Download(w, d, s, a, p);
    if s.acceptStart && s.refetched.Found? {
      var b := s.refetched.value;
      var dirs := MkdirAll(w, d, Parent(p));
      FailureNotReady(dirs.disk, b, s.acceptEnd);
      if dirs.ok {
        MkdirEffect(w, d, Parent(p));
        forall k | 0 <= k < |p| ensures DirAt(dirs.disk.nodes, p[..k]) {
          assert p[..k] == Parent(p)[..k];
        }
        ReceiveLands(w, dirs.disk, s, b, p);
        var r := Receive(w, dirs.disk, s, b, p);
        assert o.commits == [o.commits[0]] + r.commits;
        TempDiffers(p);
      }
    }
  }

  /** Success without a download: what stands at the path verifies under the specification at hand. */
  ghost predicate FoundGood(s: Setting, a: Artifact, o: Outcome) {
    && ServedAt(s.digest, a.spec, o.disk.nodes, FilePath(a))
    && (forall c | c in o.commits :: c.spec == a.spec)
  }

  lemma ReconcileLands(w: World, d: Disk, s: Setting, a: Artifact)
    ensures var o := Reconcile(w, d, s, Found(a));
            ReadyIn(o.commits) || o.result == Done ==>
              || FoundGood(s, a, o)
              || (s.refetched.Found? && Landed(s, s.refetched.value, o, FilePath(a)))
  {
    hide Download, SetFailure, Verified, Matches, Landed, Exists, Resolve, ReadyIn;
    var p := FilePath(a);
    var d1 := Next(w, d);
    FailureNotReady(d1, a, s.acceptEnd);
    assert !ReadyIn([]) by { NothingReady(); }
    DownloadLands(w, d1, s, a, p);
    DownloadLands(w, Put(w, d1, d1.nodes - {p}), s, a, p);
    var d2 := Next(w, d1);
    DownloadLands(w, Remove(w, d2, p), s, a, p);
    ReadyOutcome(d2, a, s.acceptEnd);
  }

  lemma NothingReady()
    ensures !ReadyIn([])
  {
  }

  lemma LandedIsServed(s: Setting, a: Artifact, o: Outcome, p: Path)
    requires p != [] && !Upward(p) && Landed(s, a, o, p)
    ensures Direct(o.disk.nodes, p) && ServedAt(s.digest, a.spec, o.disk.nodes, p)
  {
    RegularContent(o.disk.nodes, p);
  }

  /** No success without a file: reconciling ends well only with verified bytes at the path first computed. */
  lemma SuccessMeansVerified(w: World, d: Disk, s: Setting, a: Artifact)
    requires a.key.name != ".."
    ensures var o := Reconcile(w, d, s, Found(a));
            ReadyIn(o.commits) || o.result == Done ==>
              || ServedAt(s.digest, a.spec, o.disk.nodes, FilePath(a))
              || (s.refetched.Found? && ServedAt(s.digest, s.refetched.value.spec, o.disk.nodes, FilePath(a)))
  {
    hide Reconcile, Landed, Verified, Matches, Content, ReadyIn;
    var o := Reconcile(w, d, s, Found(a));
    ReconcileLands(w, d, s, a);
    if s.refetched.Found? && Landed(s, s.refetched.value, o, FilePath(a)) {
      LandedIsServed(s, s.refetched.value, o, FilePath(a));
    }
  }

  function PathUnder(a: Artifact, spec: ArtifactSpec): Path {
    FilePath(a.(spec := spec))
  }

  /**
   * Ready is committed with the file of the committed specification in place exactly when that
   * specification names the file computed at the start, or one that was good already and is not
   * the temporary file.
   */
  lemma ReadyServedIff(w: World, d: Disk, s: Setting, a: Artifact, c: StatusCommit)
    requires c in Reconcile(w, d, s, Found(a)).commits && c.status.phase == ReadyArtifact
    requires a.key.name != ".."
    requires var q := PathUnder(a, c.spec); q in d.nodes ==> !d.nodes[q].Link?
    ensures var o := Reconcile(w, d, s, Found(a));
            var p, q := FilePath(a), PathUnder(a, c.spec);
            && ServedAt(s.digest, c.spec, o.disk.nodes, p)
            && (ServedAt(s.digest, c.spec, o.disk.nodes, q) <==>
                  p == q || (q != TempOf(p) && InstalledAt(s.digest, c.spec, d.nodes, q)))
  {
    hide Reconcile, Verified, Matches, Content, Traced;
    var o := Reconcile(w, d, s, Found(a));
    var p, q := FilePath(a), PathUnder(a, c.spec);
    ReconcileLands(w, d, s, a);
    assert ReadyIn(o.commits);
    if FoundGood(s, a, o) {
      assert c.spec == a.spec;
    } else {
      LandedIsServed(s, s.refetched.value, o, p);
      if q != p {
        CrashSafeInstall(w, d, s, a);
        TracedSound(JobOf(d, s, a), d.log, o.disk);
        SiblingServed(JobOf(d, s, a), c.spec, o.disk.nodes, q);
      }
    }
  }

  lemma TracedSound(j: Job, earlier: seq<Tree>, d: Disk)
    requires Traced(j, earlier, d)
    ensures Sound(j, d.nodes)
  {
  }

  /** A sibling of the final path reads well afterwards exactly when it was good before. */
  lemma SiblingServed(j: Job, spec: ArtifactSpec, t: Tree, q: Path)
    requires Sound(j, t) && Direct(t, j.p) && TempOf(j.p) !in t
    requires q != j.p && |q| == |j.p| && Parent(q) == Parent(j.p) && !Upward(q)
    requires q in j.before ==> !j.before[q].Link?
    ensures ServedAt(j.digest, spec, t, q) <==> q != TempOf(j.p) && InstalledAt(j.digest, spec, j.before, q)
  {
    hide Verified, Matches, FinalSound, TempSound, TempOf;
    assert forall k | 0 <= k < |j.p| :: DirAt(t, j.p[..k]);
    forall k | 0 <= k < |q| ensures DirAt(t, q[..k]) {
      assert q[..k] == Parent(q)[..k] == Parent(j.p)[..k] == j.p[..k];
      assert DirAt(t, j.p[..k]);
    }
    assert Direct(t, q);
    WalkLast(t, q, MAX_LINKS);
    assert !(q < j.p);
  }

  // ---- when nothing goes wrong ----

  /** Nothing but files and directories in their places on the way; a left temporary file does no harm. */
  predicate Installable(t: Tree, p: Path)
    requires p != []
  {
    && (forall k | 0 < k < |p| :: p[..k] in t ==> t[p[..k]].Dir?)
    && (p in t ==> !t[p].Dir?) && TempIsFile(t, p)
  }

  lemma StoreInstallable(t: Tree, a: Artifact)
    requires StoreSound(t)
    ensures Installable(t, FilePath(a))
  {
    var p := FilePath(a);
    InstallStays(t, p);
    assert ["artifacts"] <= p && ["artifacts"] <= TempOf(p);
    forall k | 0 < k < |p| && p[..k] in t ensures t[p[..k]].Dir? {
      assert ["artifacts"] <= p[..k];
    }
  }

  lemma InstallStays(t: Tree, p: Path)
    requires |p| == 3
    ensures |TempOf(p)| == 3 && TempOf(p)[0] == p[0]
  {
    TempDiffers(p);
    assert Parent(p)[0] == p[0] && Parent(TempOf(p))[0] == TempOf(p)[0];
  }

  /** The server answers with the whole file the re-read specification asks for, and both updates are accepted. */
  predicate Fetchable(s: Setting) {
    && s.acceptStart && s.acceptEnd && s.refetched.Found? && s.response.Answer?
    && (s.response.declared.Some? ==> s.response.declared.value == |s.response.body|)
    && Matches(s.digest, s.refetched.value.spec, s.response.body)
  }

  /** The two updates of a download that ends well. */
  predicate BothCommitted(s: Setting, a: Artifact, o: Outcome) {
    && |o.commits| == 2 && s.refetched.Found?
    && o.commits[0] == StatusCommit(a.spec, DownloadingStatus(a.status))
    && o.commits[1].spec == s.refetched.value.spec && o.commits[1].status.phase == ReadyArtifact
  }

  lemma DownloadSucceedsIff(w: World, d: Disk, s: Setting, a: Artifact, p: Path)
    requires p != [] && Faultless(w) && Installable(d.nodes, p)
    ensures var o := Download(w, d, s, a, p);
            (o.result == Done <==> Fetchable(s)) && (o.result == Done ==> BothCommitted(s, a, o))
  {
    hide Verified, Matches, MkdirAll, MadeDirs, Receive, SetFailure;
    if s.acceptStart && s.refetched.Found? {
      var b := s.refetched.value;
      var dirs := MkdirAll(w, d, Parent(p));
      forall k | 0 < k <= |Parent(p)| ensures Parent(p)[..k] == p[..k] {
      }
      MkdirSucceeds(w, d, Parent(p));
      MkdirEffect(w, d, Parent(p));
      assert Parent(p)[..|Parent(p)|] == Parent(p);
      MadeInstallable(d.nodes, dirs.disk.nodes, p);
      ReceiveSucceedsIff(w, dirs.disk, s, b, p);
    }
  }

  lemma MadeInstallable(t: Tree, u: Tree, p: Path)
    requires p != [] && MadeDirs(t, u, Parent(p)) && Installable(t, p)
    ensures Installable(u, p)
  {
    TempDiffers(p);
  }

  lemma ReceiveSucceedsIff(w: World, d: Disk, s: Setting, b: Artifact, p: Path)
    requires p != [] && Faultless(w) && DirAt(d.nodes, Parent(p)) && Installable(d.nodes, p)
    requires s.acceptStart && s.refetched == Found(b)
    ensures var o := Receive(w, d, s, b, p);
            && (o.result == Done <==> Fetchable(s))
            && (o.result == Done ==>
                  |o.commits| == 1 && o.commits[0].spec == b.spec && o.commits[0].status.phase == ReadyArtifact)
  {
    hide Verified, Matches, VerifyAndInstall, Append, CreateFile, TempOf, SetFailure;
    forall e: Disk ensures SetFailure(e, b, s.acceptEnd).result != Done {
      FailureNotReady(e, b, s.acceptEnd);
    }
    if s.response.Answer? {
      var made := CreateFile(w, d, TempOf(p));
      CreateSucceeds(w, d, p);
      var copied := Append(w, made.disk, TempOf(p), s.response.body);
      AppendOther(w, made.disk, TempOf(p), s.response.body);
      InstallCompletesIff(w, copied.disk, s, b, p, s.response.body);
    }
  }

  /** An earlier temporary file is truncated. */
  lemma CreateSucceeds(w: World, d: Disk, p: Path)
    requires p != [] && Faultless(w) && DirAt(d.nodes, Parent(p)) && (p in d.nodes ==> !d.nodes[p].Dir?)
    requires TempIsFile(d.nodes, p)
    ensures var made := CreateFile(w, d, TempOf(p));
            && made.ok && IsFile(made.disk, TempOf(p)) && TempOf(p) != p && Parent(p) != TempOf(p)
            && DirAt(made.disk.nodes, Parent(p)) && (p in made.disk.nodes ==> !made.disk.nodes[p].Dir?)
  {
    TempDiffers(p);
    assert |Parent(p)| < |p|;
  }

  lemma AppendOther(w: World, d: Disk, p: Path, body: Bytes)
    requires IsFile(d, p) && Faultless(w)
    ensures var r := Append(w, d, p, body);
            && r.ok && IsFile(r.disk, p)
            && forall q | q != p :: (q in r.disk.nodes <==> q in d.nodes)
                && (q in d.nodes ==> r.disk.nodes[q] == d.nodes[q])
  {
  }

  lemma InstallCompletesIff(w: World, d: Disk, s: Setting, b: Artifact, p: Path, body: Bytes)
    requires p != [] && Faultless(w)
    requires IsFile(d, TempOf(p)) && (p in d.nodes ==> !d.nodes[p].Dir?) && DirAt(d.nodes, Parent(p))
    ensures var o := VerifyAndInstall(w, d, s, b, p, body);
            && (o.result == Done <==> s.acceptEnd && Matches(s.digest, b.spec, body))
            && (o.result == Done ==> o.commits == [StatusCommit(b.spec, ReadyStatus(b.status, o.disk.clock))])
  {
    hide Verified, Matches, TempOf;
  }

  /** The bytes a reconcile finds at the artifact's path, when it looks at them. */
  function Standing(d: Disk, s: Setting, a: Artifact): Option<Option<Bytes>> {
    if Exists(d.nodes, FilePath(a)) && !s.vanishes then Some(Content(d.nodes, FilePath(a))) else None
  }

  /**
   * A reconcile without faults, from a store of the right shape, succeeds exactly when good bytes
   * stand there and no update is needed or it is accepted, or when they are bad or absent and can be
   * fetched: whatever a crash in mid-download left behind.
   */
  lemma ReconcileSucceedsIff(w: World, d: Disk, s: Setting, a: Artifact)
    requires Faultless(w) && Installable(d.nodes, FilePath(a))
    ensures Reconcile(w, d, s, Found(a)).result == Done <==>
            match Standing(d, s, a)
            case None => Fetchable(s)
            case Some(None) => false
            case Some(Some(data)) =>
              if Matches(s.digest, a.spec, data) then a.status.phase == ReadyArtifact || s.acceptEnd else Fetchable(s)
  {
    hide Verified, Matches, Exists, Download, Content, SetFailure, Fetchable, TempOf;
    var p := FilePath(a);
    var d1 := Next(w, d);
    WithoutInstallable(d.nodes, p);
    DownloadSucceedsIff(w, d1, s, a, p);
    DownloadSucceedsIff(w, Put(w, d1, d1.nodes - {p}), s, a, p);
    DownloadSucceedsIff(w, Remove(w, Next(w, d1), p), s, a, p);
  }

  lemma WithoutInstallable(t: Tree, p: Path)
    requires p != [] && Installable(t, p)
    ensures Installable(t - {p}, p)
  {
  }

  /** In particular an absent artifact that can be fetched is installed, Downloading and Ready both committed. */
  lemma InstallSucceeds(w: World, d: Disk, s: Setting, a: Artifact)
    requires Faultless(w) && Fetchable(s) && Installable(d.nodes, FilePath(a)) && !Exists(d.nodes, FilePath(a))
    ensures var o := Reconcile(w, d, s, Found(a)); o.result == Done && BothCommitted(s, a, o)
  {
    hide Fetchable, Installable, Exists, Download, BothCommitted, SetFailure;
    DownloadSucceedsIff(w, Next(w, d), s, a, FilePath(a));
  }

  /** Any change of the file name between the two reads, on an empty disk, has that outcome. */
  lemma ChangeLeavesReadyWithoutFile(w: World, d: Disk, s: Setting, a: Artifact, b: Artifact)
    requires Faultless(w) && d.nodes == map[] && a.key.name != ".." && b.key == a.key
    requires s.acceptStart && s.acceptEnd && s.refetched == Found(b) && s.response == Answer([], None)
    requires (forall data :: Matches(s.digest, b.spec, data)) && FilePath(a) != FilePath(b)
    ensures var o := Reconcile(w, d, s, Found(a));
            && |o.commits| == 2 && o.commits[1].spec == b.spec && o.commits[1].status.phase == ReadyArtifact
            && Content(o.disk.nodes, PathUnder(a, b.spec)) == None
  {
    hide Reconcile, FilenameFromURL, TempOf, Content, ServedAt, Exists, Resolve, Verified, Matches;
    assert !Exists(d.nodes, FilePath(a)) by { PlainAbsent(d.nodes, FilePath(a)); }
    InstallSucceeds(w, d, s, a);
    var o := Reconcile(w, d, s, Found(a));
    ReadyServedIff(w, d, s, a, o.commits[1]);
    assert PathUnder(a, b.spec) == FilePath(b);
    NotServedNoContent(s, b.spec, o.disk.nodes, FilePath(b));
  }

  /**
   * The other side of ReadyServedIff: the URL changes between the first read and the second, and
   * Ready is committed for a specification whose file does not exist.
   */
  lemma UrlChangeLeavesReadyWithoutFile()
    ensures exists w: World, d: Disk, s: Setting, a: Artifact, c: StatusCommit ::
              && Admitted(a.spec) && Admitted(c.spec)
              && c in Reconcile(w, d, s, Found(a)).commits && c.status.phase == ReadyArtifact
              && s.refetched == Found(a.(spec := c.spec))
              && Content(Reconcile(w, d, s, Found(a)).disk.nodes, PathUnder(a, c.spec)) == None
  {
    hide Reconcile, FilenameFromURL, TempOf, Content, Admitted;
    var w := World(_ => false, _ => false, _ => 0, _ => 0, _ => "", _ => 0);
    var d := Disk(map[], 0, 0, []);
    var hash := seq(64, _ => '0');
    var spec := ArtifactSpec(Url("https://h/a", Some("/a")), Some(hash), None);
    var a := Artifact(Key("default", "x"), 0, spec, ArtifactStatus(NoPhase, 0, None, None));
    var b := a.(spec := spec.(url := Url("https://h/b", Some("/b"))));
    var s := Setting((_, _) => hash, false, true, Found(b), Answer([], None), true);
    ShortUrlAdmitted(a.spec, 'a', hash);
    ShortUrlAdmitted(b.spec, 'b', hash);
    assert FilePath(a)[2] == "a" && FilePath(b)[2] == "b" by {
      OneCharacterName("https://h/a", 'a');
      OneCharacterName("https://h/b", 'b');
    }
    assert |"x"| == 1 && |".."| == 2 && "a"[0] != "b"[0];
    ChangeLeavesReadyWithoutFile(w, d, s, a, b);
    assert Admitted(Reconcile(w, d, s, Found(a)).commits[1].spec);
  }

  lemma ShortUrlAdmitted(spec: ArtifactSpec, c: char, hash: string)
    requires spec.url.raw == "https://h/" + [c] && c != '.' && HexDigits(hash, 64)
    requires spec.sha256 == Some(hash) && spec.sha512 == None
    ensures Admitted(spec)
  {
    var raw := spec.url.raw;
    forall i | 0 <= i < |raw| ensures !ClimbsAt(raw, i) {
      if i + 3 <= |raw| {
        assert raw[i..i + 3][1] == raw[i + 1] && "/.."[1] == '.';
        assert '.' !in raw;
      }
    }
  }

  lemma PlainAbsent(t: Tree, p: Path)
    requires t == map[] && p != [] && !Upward(p)
    ensures !Exists(t, p)
  {
    PlainResolve(t, p);
  }

  /** Where every digest verifies, what is not served has no content. */
  lemma NotServedNoContent(s: Setting, spec: ArtifactSpec, t: Tree, q: Path)
    requires !ServedAt(s.digest, spec, t, q) && forall data :: Matches(s.digest, spec, data)
    ensures Content(t, q) == None
  {
  }

  // ---- half-way through a download ----

  lemma TailExtendsLog(w: World, d: Disk, s: Setting, a: Artifact, p: Path, body: Bytes)
    requires p != []
    ensures d.log <= VerifyAndInstall(w, d, s, a, p, body).disk.log
  {
    hide SetReady, SetFailure, Verified, Matches, TempOf;
  }

  /** A finished tail has moved the temporary file, time and all, over the final path. */
  lemma TailInstalls(w: World, d: Disk, s: Setting, a: Artifact, p: Path, body: Bytes)
    requires p != [] && IsFile(d, TempOf(p)) && VerifyAndInstall(w, d, s, a, p, body).result == Done
    ensures var o := VerifyAndInstall(w, d, s, a, p, body);
            o.disk.nodes == (d.nodes - {TempOf(p)})[p := d.nodes[TempOf(p)]] && d.clock <= o.disk.clock
  {
    hide SetReady, Verified, Matches, TempOf;
  }

  /**
   * A bad file that cannot be removed stays while its replacement is downloaded beside it: the tree
   * after the copy is the old one and the temporary file.
   */
  lemma HalfDownloaded(w: World, d: Disk, s: Setting, a: Artifact, b: Artifact)
    requires Faultless(w) && (forall n: nat :: w.removeFault(n)) && !s.vanishes && s.acceptStart
    requires s.refetched == Found(b) && s.response.Answer?
    requires Regular(d.nodes, FilePath(a)) && TempOf(FilePath(a)) !in d.nodes
    requires !Matches(s.digest, a.spec, d.nodes[FilePath(a)].data)
    ensures var log := Reconcile(w, d, s, Found(a)).disk.log;
            && |d.log| + 1 < |log|
            && exists m :: log[|d.log| + 1] == d.nodes[TempOf(FilePath(a)) := File(s.response.body, m)]
  {
    hide Verified, Matches, Resolve, Content, MkdirAll, VerifyAndInstall, TempOf, SetFailure, Regular;
    var p, body := FilePath(a), s.response.body;
    RegularContent(d.nodes, p);
    var d3 := Next(w, Next(w, Next(w, d)));
    RegularDirs(d.nodes, p);
    MkdirIdle(w, d3, Parent(p));
    var made := CreateFile(w, MkdirAll(w, d3, Parent(p)).disk, TempOf(p));
    TempDiffers(p);
    assert made.ok && made.disk.log == d.log + [made.disk.nodes];
    var copied := Append(w, made.disk, TempOf(p), body);
    CopyComplete(w, made.disk, TempOf(p), body);
    TailExtendsLog(w, copied.disk, s, b, p, body);
  }

  lemma CopyComplete(w: World, d: Disk, p: Path, body: Bytes)
    requires IsFile(d, p) && d.nodes[p].data == [] && Faultless(w)
    ensures var r := Append(w, d, p, body);
            && r.ok && r.disk.log == d.log + [r.disk.nodes]
            && r.disk.nodes == d.nodes[p := File(body, r.disk.nodes[p].mtime)]
  {
    assert [] + body[..|body|] == body;
  }

  lemma RegularDirs(t: Tree, p: Path)
    requires Regular(t, p)
    ensures forall k | 0 <= k <= |Parent(p)| :: DirAt(t, Parent(p)[..k])
    ensures DirAt(t, Parent(p))
  {
    forall k | 0 <= k <= |Parent(p)| ensures DirAt(t, Parent(p)[..k]) {
      assert Parent(p)[..k] == p[..k];
    }
    assert Parent(p)[..|Parent(p)|] == Parent(p);
  }
}

/** What one BootArtifact reconcile writes to the status, field by field, and what a finished download has behind it. */
module StatusUpdates {
  import opened Words
  import opened FileTree
  import opened FileOps
  import opened CrashSafety
  import opened Api
  import opened BootArtifactController
  import opened InstallSafety
  import FailureStreak

  /** One failure more, as an int32. */
  function OneMore(n: int): int {
    (n + 0x8000_0001) % 0x1_0000_0000 - 0x8000_0000
  }

  predicate Within(t: Option<nat>, since: nat, until: nat) {
    t.Some? && since <= t.value <= until
  }

  predicate IsInt32(n: int) {
    -0x8000_0000 <= n <= 0x7fff_ffff
  }

  /** The update that announces a download: the phase and nothing else. */
  predicate Announces(c: StatusCommit, a: Artifact) {
    c == StatusCommit(a.spec,
                      ArtifactStatus(Downloading, a.status.failureCount, a.status.lastFailureTime,
                                     a.status.lastChecked))
  }

  /** Success clears count and time of failure and stamps the check; failure counts and stamps itself. */
  predicate Concludes(c: StatusCommit, a: Artifact, since: nat, until: nat) {
    && c.spec == a.spec
    && if c.status.phase == ReadyArtifact then
         && c.status.failureCount == 0 && c.status.lastFailureTime == None
         && Within(c.status.lastChecked, since, until)
       else
         && c.status.phase == ErrorArtifact && c.status.lastChecked == a.status.lastChecked
         && Within(c.status.lastFailureTime, since, until)
         && (IsInt32(a.status.failureCount) ==> c.status.failureCount == OneMore(a.status.failureCount))
  }

  /** How a reconcile answers the queue once its last update is accepted. */
  predicate Answers(status: ArtifactStatus, r: Result) {
    if status.phase == ReadyArtifact then r == Done
    else if status.failureCount < 0 then r == Panic
    else r == Requeue(5 * Pow2(if status.failureCount < 6 then status.failureCount else 6))
  }

  /** At most one conclusion, based on a; none when the update was refused. */
  predicate Concluded(o: Outcome, commits: seq<StatusCommit>, a: Artifact, accepted: bool, since: nat) {
    if accepted then
      |commits| == 1 && Concludes(commits[0], a, since, o.disk.clock) && Answers(commits[0].status, o.result)
    else commits == [] && o.result == ErrorReturned
  }

  lemma EndConcludes(d: Disk, a: Artifact, accepted: bool, since: nat)
    requires since <= d.clock
    ensures var o := SetReady(d, a, accepted); Concluded(o, o.commits, a, accepted, since)
    ensures var o := SetFailure(d, a, accepted); Concluded(o, o.commits, a, accepted, since)
  {
    hide Pow2;
  }

  /** Time passes. */
  lemma LaterConcluded(o: Outcome, p: Outcome, a: Artifact, accepted: bool, since: nat)
    requires Concluded(o, o.commits, a, accepted, since)
    requires o.result == p.result && o.disk.clock <= p.disk.clock
    ensures Concluded(p, o.commits, a, accepted, since)
  {
    hide Answers, OneMore;
  }

  lemma ReceiveConcludes(w: World, d: Disk, s: Setting, a: Artifact, p: Path, since: nat)
    requires p != [] && since <= d.clock
    ensures var o := Receive(w, d, s, a, p);
            Concluded(o, o.commits, a, s.acceptEnd, since) && d.clock <= o.disk.clock
  {
    hide SetFailure, Concluded, VerifyAndInstall, TempOf;
    EndConcludes(d, a, s.acceptEnd, since);
    if s.response.Answer? {
      var made := CreateFile(w, d, TempOf(p));
      EndConcludes(made.disk, a, s.acceptEnd, since);
      if made.ok {
        var copied := Append(w, made.disk, TempOf(p), s.response.body);
        EndConcludes(copied.disk, a, s.acceptEnd, since);
        InstallConcludes(w, copied.disk, s, a, p, s.response.body, since);
      }
    }
  }

  lemma InstallConcludes(w: World, d: Disk, s: Setting, a: Artifact, p: Path, body: Bytes, since: nat)
    requires p != [] && since <= d.clock
    ensures var o := VerifyAndInstall(w, d, s, a, p, body);
            Concluded(o, o.commits, a, s.acceptEnd, since) && d.clock <= o.disk.clock
  {
    hide SetReady, SetFailure, Concluded, Verified, Matches, TempOf;
    forall e: Disk | since <= e.clock
      ensures var o := SetReady(e, a, s.acceptEnd); Concluded(o, o.commits, a, s.acceptEnd, since)
      ensures var o := SetFailure(e, a, s.acceptEnd); Concluded(o, o.commits, a, s.acceptEnd, since)
    {
      EndConcludes(e, a, s.acceptEnd, since);
    }
  }

  /** Announced, read again, concluded on what was read. */
  predicate Downloaded(o: Outcome, s: Setting, a: Artifact, since: nat) {
    if !s.acceptStart then o.commits == [] && o.result == ErrorReturned
    else
      && o.commits != [] && Announces(o.commits[0], a)
      && if s.refetched.Found? then Concluded(o, o.commits[1..], s.refetched.value, s.acceptEnd, since)
         else |o.commits| == 1 && o.result == ErrorReturned
  }

  lemma DownloadConcludes(w: World, d: Disk, s: Setting, a: Artifact, p: Path, since: nat)
    requires p != [] && since <= d.clock
    ensures Downloaded(Download(w, d, s, a, p), s, a, since)
  {
    hide SetFailure, Receive, MkdirAll, Concluded, MadeDirs;
    if s.acceptStart && s.refetched.Found? {
      var b := s.refetched.value;
      MkdirEffect(w, d, Parent(p));
      var dirs := MkdirAll(w, d, Parent(p));
      EndConcludes(dirs.disk, b, s.acceptEnd, since);
      ReceiveConcludes(w, dirs.disk, s, b, p, since);
      var end := if dirs.ok then Receive(w, dirs.disk, s, b, p) else SetFailure(dirs.disk, b, s.acceptEnd);
      var o := Download(w, d, s, a, p);
      assert o.commits[1..] == end.commits;
      LaterConcluded(end, o, b, s.acceptEnd, since);
    }
  }

  /**
   * All a reconcile writes: a failed look or a standing file is concluded at once, and silently when
   * the file is good and already Ready; otherwise a download is announced, the object read again and
   * the outcome written to what was read.
   */
  lemma StatusesWritten(w: World, d: Disk, s: Setting, a: Artifact)
    ensures var o := Reconcile(w, d, s, Found(a));
            if FailureStreak.Downloads(w, d, s, a) then Downloaded(o, s, a, d.clock)
            else if o.commits == [] && o.result == Done then a.status.phase == ReadyArtifact
            else Concluded(o, o.commits, a, s.acceptEnd, d.clock) || (o.commits == [] && o.result == ErrorReturned)
  {
    hide SetReady, SetFailure, Concludes, Answers, Download, Downloaded, Verified, Matches, Exists, Content;
    var p := FilePath(a);
    var d1 := Next(w, d);
    var d2 := Next(w, d1);
    EndConcludes(d1, a, s.acceptEnd, d.clock);
    EndConcludes(d2, a, s.acceptEnd, d.clock);
    forall e: Disk | d.clock <= e.clock ensures Downloaded(Download(w, e, s, a, p), s, a, d.clock) {
      DownloadConcludes(w, e, s, a, p, d.clock);
    }
  }

  /** A good file that is already Ready costs two looks and no update; one that is not becomes Ready. */
  lemma GoodFileIsReady(w: World, d: Disk, s: Setting, a: Artifact)
    requires ServedAt(s.digest, a.spec, d.nodes, FilePath(a)) && !s.vanishes
    requires !w.fault(d.step) && !w.fault(d.step + 1)
    ensures var o := Reconcile(w, d, s, Found(a));
            && o.disk.step == d.step + 2
            && if a.status.phase == ReadyArtifact then o.commits == [] && o.result == Done
               else Concluded(o, o.commits, a, s.acceptEnd, d.clock) && (s.acceptEnd ==> o.result == Done)
  {
    hide SetReady, SetFailure, Concluded, Download, Verified, Matches, Resolve;
    var d2 := Next(w, Next(w, d));
    EndConcludes(d2, a, s.acceptEnd, d.clock);
    assert SetReady(d2, a, s.acceptEnd).result == (if s.acceptEnd then Done else ErrorReturned) by {
      ReadyResult(d2, a, s.acceptEnd);
    }
  }

  lemma ReadyResult(d: Disk, a: Artifact, accepted: bool)
    ensures SetReady(d, a, accepted).result == if accepted then Done else ErrorReturned
  {
  }

  // ---- what is behind a finished download ----

  lemma InstallDurable(w: World, d: Disk, s: Setting, a: Artifact, p: Path, body: Bytes)
    requires p != [] && VerifyAndInstall(w, d, s, a, p, body).result == Done
    ensures var e := VerifyAndInstall(w, d, s, a, p, body).disk;
            && e.step == d.step + 4 && (forall k | d.step <= k < e.step :: !w.fault(k))
            && Matches(s.digest, a.spec, body)
  {
    hide SetReady, SetFailure, Verified, Matches, TempOf;
    forall e: Disk ensures SetFailure(e, a, s.acceptEnd).result != Done {
      FailureNotReady(e, a, s.acceptEnd);
    }
  }

  lemma ReceiveDurable(w: World, d: Disk, s: Setting, a: Artifact, p: Path)
    requires p != [] && Receive(w, d, s, a, p).result == Done
    ensures var e := Receive(w, d, s, a, p).disk;
            && e.step == d.step + 6 && (forall k | d.step <= k < e.step :: !w.fault(k))
            && s.response.Answer? && Matches(s.digest, a.spec, s.response.body)
            && (s.response.declared.Some? ==> s.response.declared.value == |s.response.body|)
  {
    hide SetFailure, VerifyAndInstall, Matches, TempOf;
    forall e: Disk ensures SetFailure(e, a, s.acceptEnd).result != Done {
      FailureNotReady(e, a, s.acceptEnd);
    }
    var made := CreateFile(w, d, TempOf(p));
    InstallDurable(w, Append(w, made.disk, TempOf(p), s.response.body).disk, s, a, p, s.response.body);
  }

  /**
   * When a download ends well, its last seven operations are those that create, fill, sync, close,
   * rename and sync the directory, none of them failed, and the removal of the temporary name; the
   * bytes are the whole answer.
   */
  lemma FinishedIsDurable(w: World, d: Disk, s: Setting, a: Artifact)
    requires FailureStreak.Downloads(w, d, s, a) && Reconcile(w, d, s, Found(a)).result == Done
    ensures var e := Reconcile(w, d, s, Found(a)).disk;
            && d.step + 7 < e.step && (forall k | e.step - 7 <= k < e.step - 1 :: !w.fault(k))
            && s.refetched.Found? && s.response.Answer?
            && Matches(s.digest, s.refetched.value.spec, s.response.body)
            && (s.response.declared.Some? ==> s.response.declared.value == |s.response.body|)
  {
    hide SetReady, SetFailure, Download, Verified, Matches, Exists, Content;
    var p := FilePath(a);
    forall e: Disk | Download(w, e, s, a, p).result == Done ensures DurableEnd(w, e, s, Download(w, e, s, a, p).disk) {
      DownloadDurable(w, e, s, a, p);
    }
  }

  lemma {:induction false} MkdirSteps(w: World, d: Disk, p: Path)
    ensures d.step <= MkdirAll(w, d, p).disk.step
    decreases |p|
  {
    if p != [] {
      MkdirSteps(w, d, Parent(p));
    }
  }

  predicate DurableEnd(w: World, d: Disk, s: Setting, e: Disk) {
    && d.step + 7 <= e.step && (forall k | e.step - 7 <= k < e.step - 1 :: !w.fault(k))
    && s.refetched.Found? && s.response.Answer?
    && Matches(s.digest, s.refetched.value.spec, s.response.body)
    && (s.response.declared.Some? ==> s.response.declared.value == |s.response.body|)
  }

  lemma DownloadDurable(w: World, d: Disk, s: Setting, a: Artifact, p: Path)
    requires p != [] && Download(w, d, s, a, p).result == Done
    ensures DurableEnd(w, d, s, Download(w, d, s, a, p).disk)
  {
    hide SetFailure, Receive, MkdirAll, Matches;
    var b := s.refetched.value;
    var dirs := MkdirAll(w, d, Parent(p));
    FailureNotReady(dirs.disk, b, s.acceptEnd);
    MkdirSteps(w, d, Parent(p));
    ReceiveDurable(w, dirs.disk, s, b, p);
  }
}

/**
 * The failure count of one BootArtifact under any number of reconciles that read possibly stale
 * versions and write by compare-and-swap: it is the number of failures since the last success,
 * as an int32, and the delays asked for add up accordingly.
 */
module FailureStreak {
  import opened FileTree
  import opened FileOps
  import opened Api
  import opened BootArtifactController

  datatype Change = Start | Succeed(now: nat) | Fail(now: nat)

  function Apply(ch: Change, st: ArtifactStatus): ArtifactStatus {
    match ch
    case Start => DownloadingStatus(st)
    case Succeed(now) => ReadyStatus(st, now)
    case Fail(now) => FailedStatus(st, now)
  }

  /**
   * All stored versions, the accepted updates, what each reconcile holds, and the seconds asked for
   * since the last success.
   */
  datatype System = System(history: seq<Artifact>, accepted: seq<Change>, handlers: map<nat, Artifact>, waited: nat)

  datatype Action =
    | Read(h: nat, at: nat)       // the cache may return any version stored so far
    | Update(h: nat, ch: Change)
    | EditSpec(spec: ArtifactSpec)

  function Current(s: System): Artifact
    requires s.history != []
  {
    s.history[|s.history| - 1]
  }

  function Seconds(r: Result): nat {
    if r.Requeue? then r.seconds else 0
  }

  /** The seconds asked for once the update is accepted. */
  function WaitedAfter(waited: nat, ch: Change, st: ArtifactStatus): nat {
    match ch
    case Start => waited
    case Succeed(_) => 0
    case Fail(now) => waited + Seconds(FailureResult(Increment(st.failureCount)))
  }

  /** The status of the object at hand replaces the stored one, if the versions agree. */
  function Send(s: System, h: nat, a: Artifact, ch: Change): (r: System)
    requires s.history != []
    ensures r.history != []
  {
    var c := Current(s);
    if a.version != c.version then s.(handlers := s.handlers - {h})
    else
      var stored := c.(version := c.version + 1, status := Apply(ch, a.status));
      System(s.history + [stored], s.accepted + [ch], s.handlers[h := stored], WaitedAfter(s.waited, ch, a.status))
  }

  /** An action that is not possible changes nothing. */
  function Step(s: System, act: Action): (r: System)
    requires s.history != []
    ensures r.history != []
  {
    match act
    case Read(h, at) => if at < |s.history| then s.(handlers := s.handlers[h := s.history[at]]) else s
    case Update(h, ch) => if h in s.handlers then Send(s, h, s.handlers[h], ch) else s
    case EditSpec(spec) =>
      var c := Current(s);
      s.(history := s.history + [c.(version := c.version + 1, spec := spec)])
  }

  function Run(s: System, acts: seq<Action>): (r: System)
    requires s.history != []
    ensures r.history != []
    decreases |acts|
  {
    if acts == [] then s else Run(Step(s, acts[0]), acts[1..])
  }

  function Created(key: Key, spec: ArtifactSpec): System {
    System([Artifact(key, 0, spec, ArtifactStatus(NoPhase, 0, None, None))], [], map[], 0)
  }

  // ---- the streak ----

  /** Failures since the last success. */
  function Streak(changes: seq<Change>): nat {
    if changes == [] then 0
    else
      var before := Streak(changes[..|changes| - 1]);
      match changes[|changes| - 1]
      case Start => before
      case Succeed(_) => 0
      case Fail(_) => before + 1
  }

  /** When the last failure of the streak happened. */
  function LastFailure(changes: seq<Change>): Option<nat> {
    if changes == [] then None
    else
      match changes[|changes| - 1]
      case Start => LastFailure(changes[..|changes| - 1])
      case Succeed(_) => None
      case Fail(now) => Some(now)
  }

  function PhaseAfter(changes: seq<Change>): ArtifactPhase {
    if changes == [] then NoPhase
    else
      match changes[|changes| - 1]
      case Start => Downloading
      case Succeed(_) => ReadyArtifact
      case Fail(_) => ErrorArtifact
  }

  /** The int32 with the low 32 bits of n. */
  function Int32(n: int): int {
    (n + 0x8000_0000) % 0x1_0000_0000 - 0x8000_0000
  }

  lemma Int32Facts(n: nat)
    ensures Increment(Int32(n)) == Int32(n + 1)
    ensures Int32(n) == n <==> n < 0x8000_0000
    ensures Int32(n) < 0 <==> 0x8000_0000 <= n % 0x1_0000_0000
  {
  }

  // ---- delays ----

  /** What n failures in a row ask for in total. */
  function TotalWait(n: nat): nat {
    if n == 0 then 0 else TotalWait(n - 1) + Backoff(n)
  }

  lemma SmallPowers()
    ensures Pow2(0) == 1 && Pow2(1) == 2 && Pow2(2) == 4 && Pow2(3) == 8 && Pow2(4) == 16 && Pow2(5) == 32
        && Pow2(6) == 64
  {
    assert Pow2(1) == 2 * Pow2(0);
    assert Pow2(2) == 2 * Pow2(1);
    assert Pow2(3) == 2 * Pow2(2);
    assert Pow2(4) == 2 * Pow2(3);
    assert Pow2(5) == 2 * Pow2(4);
    assert Pow2(6) == 2 * Pow2(5);
  }

  /** From 10 to 320 seconds, never shorter after more failures, doubling until the sixth. */
  lemma DelayBounds(m: nat, n: nat)
    requires 1 <= m <= n
    ensures 10 <= Backoff(m) <= Backoff(n) <= 320
    ensures n == m + 1 ==> Backoff(n) == if m < 6 then 2 * Backoff(m) else Backoff(m)
    ensures Backoff(n) * 1_000_000_000 < 0x8000_0000_0000_0000
  {
    hide Pow2;
    SmallPowers();
  }

  /** 10, 30, 70, 150, 310, 630 seconds and then 320 more for each further failure. */
  lemma {:induction false} TotalWaitClosed(n: nat)
    ensures TotalWait(n) == if n <= 6 then 10 * (Pow2(n) - 1) else 630 + 320 * (n - 6)
  {
    hide Pow2;
    SmallPowers();
    if n > 0 {
      TotalWaitClosed(n - 1);
    }
  }

  // ---- the invariant ----

  predicate StatusMatches(st: ArtifactStatus, changes: seq<Change>) {
    && st.phase == PhaseAfter(changes)
    && st.failureCount == Int32(Streak(changes))
    && st.lastFailureTime == LastFailure(changes)
  }

  ghost predicate Inv(s: System) {
    && s.history != []
    && (forall i | 0 <= i < |s.history| :: s.history[i].version == i)
    && (forall h | h in s.handlers :: s.handlers[h] in s.history)
    && StatusMatches(Current(s).status, s.accepted)
    && (Streak(s.accepted) < 0x8000_0000 ==> s.waited == TotalWait(Streak(s.accepted)))
  }

  lemma ApplyMatches(st: ArtifactStatus, changes: seq<Change>, ch: Change)
    requires StatusMatches(st, changes)
    ensures StatusMatches(Apply(ch, st), changes + [ch])
  {
    hide Int32;
    var all := changes + [ch];
    assert all[..|all| - 1] == changes;
    Int32Facts(Streak(changes));
    Int32Facts(0);
  }

  lemma WaitMatches(st: ArtifactStatus, changes: seq<Change>, ch: Change, waited: nat)
    requires StatusMatches(st, changes) && (Streak(changes) < 0x8000_0000 ==> waited == TotalWait(Streak(changes)))
    ensures Streak(changes + [ch]) < 0x8000_0000 ==> WaitedAfter(waited, ch, st) == TotalWait(Streak(changes + [ch]))
  {
    hide Int32, Backoff;
    var all := changes + [ch];
    assert all[..|all| - 1] == changes;
    Int32Facts(Streak(changes));
    Int32Facts(Streak(changes) + 1);
  }

  lemma SendKeepsInv(s: System, h: nat, a: Artifact, ch: Change)
    requires Inv(s) && a in s.history
    ensures Inv(Send(s, h, a, ch))
  {
    hide StatusMatches, Apply, WaitedAfter, Streak;
    var c := Current(s);
    if a.version == c.version {
      assert a == c;
      ApplyMatches(c.status, s.accepted, ch);
      WaitMatches(c.status, s.accepted, ch, s.waited);
    }
  }

  lemma StepKeepsInv(s: System, act: Action)
    requires Inv(s)
    ensures Inv(Step(s, act))
  {
    hide StatusMatches, Send, Streak;
    match act
    case Read(h, at) =>
    case Update(h, ch) => if h in s.handlers { SendKeepsInv(s, h, s.handlers[h], ch); }
    case EditSpec(spec) =>
      var t := Step(s, act);
      forall h | h in t.handlers ensures t.handlers[h] in t.history {
        assert s.handlers[h] in s.history;
      }
  }

  lemma {:induction false} RunKeepsInv(s: System, acts: seq<Action>)
    requires Inv(s)
    ensures Inv(Run(s, acts))
    decreases |acts|
  {
    hide Step;
    if acts != [] {
      StepKeepsInv(s, acts[0]);
      RunKeepsInv(Step(s, acts[0]), acts[1..]);
    }
  }

  /**
   * In every interleaving the stored count is the streak as an int32: the streak itself exactly
   * while that is below 2^31. Ready clears count and time; Error stands for a streak that is not empty.
   */
  lemma CountIsStreak(key: Key, spec: ArtifactSpec, acts: seq<Action>)
    ensures var s := Run(Created(key, spec), acts);
            var st, n := Current(s).status, Streak(s.accepted);
            && st.failureCount == Int32(n)
            && (st.failureCount == n <==> n < 0x8000_0000)
            && (st.phase == ReadyArtifact ==> n == 0 && st.failureCount == 0 && st.lastFailureTime == None)
            && (st.phase == ErrorArtifact ==> n >= 1 && st.lastFailureTime.Some?)
            && (n == 0 <==> st.lastFailureTime == None)
  {
    hide Run, Int32;
    var s0 := Created(key, spec);
    Int32Facts(0);
    RunKeepsInv(s0, acts);
    var s := Run(s0, acts);
    Int32Facts(Streak(s.accepted));
    StreakHasTime(s.accepted);
  }

  lemma {:induction false} StreakHasTime(changes: seq<Change>)
    ensures Streak(changes) == 0 <==> LastFailure(changes) == None
    decreases |changes|
  {
    if changes != [] {
      StreakHasTime(changes[..|changes| - 1]);
    }
  }

  /** The delays asked for since the last success add up to the closed form. */
  lemma DelaysAddUp(key: Key, spec: ArtifactSpec, acts: seq<Action>)
    requires Streak(Run(Created(key, spec), acts).accepted) < 0x8000_0000
    ensures var s := Run(Created(key, spec), acts);
            var n := Streak(s.accepted);
            s.waited == if n <= 6 then 10 * (Pow2(n) - 1) else 630 + 320 * (n - 6)
  {
    hide Run, Pow2, TotalWait;
    var s0 := Created(key, spec);
    assert Inv(s0) by { CreatedInv(key, spec); }
    RunKeepsInv(s0, acts);
    TotalWaitClosed(Streak(Run(s0, acts).accepted));
  }

  lemma CreatedInv(key: Key, spec: ArtifactSpec)
    ensures Inv(Created(key, spec))
  {
  }

  /** The next failure makes the delay computation panic exactly in the upper half of the 32-bit range. */
  lemma NextFailurePanicsIff(key: Key, spec: ArtifactSpec, acts: seq<Action>, d: Disk)
    ensures var s := Run(Created(key, spec), acts);
            SetFailure(d, Current(s), true).result == Panic <==>
              0x8000_0000 <= (Streak(s.accepted) + 1) % 0x1_0000_0000
  {
    hide Run, Int32;
    CreatedInv(key, spec);
    RunKeepsInv(Created(key, spec), acts);
    var n := Streak(Run(Created(key, spec), acts).accepted);
    Int32Facts(n);
    Int32Facts(n + 1);
  }

  // ---- reconciles move only along these changes ----

  ghost predicate EndsWith(commits: seq<StatusCommit>, a: Artifact) {
    commits == [] ||
    exists ch: Change :: !ch.Start? && commits == [StatusCommit(a.spec, Apply(ch, a.status))]
  }

  /** The accepted updates of one reconcile: perhaps a start, then perhaps an end based on the last read. */
  ghost predicate Follows(s: Setting, a: Artifact, commits: seq<StatusCommit>) {
    || EndsWith(commits, a)
    || (s.acceptStart && commits != [] && commits[0] == StatusCommit(a.spec, Apply(Start, a.status))
        && (commits[1..] == [] || (s.refetched.Found? && EndsWith(commits[1..], s.refetched.value))))
  }

  lemma FailureEnds(d: Disk, a: Artifact, accepted: bool)
    ensures EndsWith(SetFailure(d, a, accepted).commits, a) && EndsWith(SetReady(d, a, accepted).commits, a)
  {
    assert FailedStatus(a.status, d.clock) == Apply(Fail(d.clock), a.status);
    assert ReadyStatus(a.status, d.clock) == Apply(Succeed(d.clock), a.status);
  }

  lemma ReceiveEnds(w: World, d: Disk, s: Setting, a: Artifact, p: Path)
    requires p != []
    ensures EndsWith(Receive(w, d, s, a, p).commits, a)
  {
    hide SetFailure, SetReady, EndsWith, CreateFile, Append, Rename, Verified, Matches;
    forall e: Disk
      ensures EndsWith(SetFailure(e, a, s.acceptEnd).commits, a) && EndsWith(SetReady(e, a, s.acceptEnd).commits, a)
    {
      FailureEnds(e, a, s.acceptEnd);
    }
  }

  /** Every reconcile updates the status only by the changes the streak counts. */
  lemma ReconcileFollows(w: World, d: Disk, s: Setting, a: Artifact)
    ensures Follows(s, a, Reconcile(w, d, s, Found(a)).commits)
  {
    hide EndsWith, SetFailure, SetReady, Verified, Matches, Exists, Download;
    var p := FilePath(a);
    forall e: Disk
      ensures EndsWith(SetFailure(e, a, s.acceptEnd).commits, a) && EndsWith(SetReady(e, a, s.acceptEnd).commits, a)
    {
      FailureEnds(e, a, s.acceptEnd);
    }
    forall e: Disk ensures Follows(s, a, Download(w, e, s, a, p).commits) {
      DownloadFollows(w, e, s, a, p);
    }
    assert EndsWith([], a) by { NothingEnds(a); }
  }

  lemma NothingEnds(a: Artifact)
    ensures EndsWith([], a)
  {
  }

  lemma DownloadFollows(w: World, d: Disk, s: Setting, a: Artifact, p: Path)
    requires p != []
    ensures Follows(s, a, Download(w, d, s, a, p).commits)
  {
    hide EndsWith, SetFailure, Receive, MkdirAll;
    NothingEnds(a);
    var o := Download(w, d, s, a, p);
    if s.acceptStart && s.refetched.Found? {
      var b := s.refetched.value;
      var dirs := MkdirAll(w, d, Parent(p));
      FailureEnds(dirs.disk, b, s.acceptEnd);
      ReceiveEnds(w, dirs.disk, s, b, p);
      var end := if dirs.ok then Receive(w, dirs.disk, s, b, p).commits
          else SetFailure(dirs.disk, b, s.acceptEnd).commits;
      assert o.commits[1..] == end;
    }
  }

  // ---- a reconcile as part of a run ----

  /** Handler h holds the version stored last. */
  predicate Fresh(s: System, h: nat)
    requires s.history != []
  {
    h in s.handlers && s.handlers[h].version == Current(s).version
  }

  /** What h's update would store now. */
  function Writes(s: System, h: nat, ch: Change): seq<StatusCommit>
    requires s.history != []
  {
    if Fresh(s, h) then [StatusCommit(s.handlers[h].spec, Apply(ch, s.handlers[h].status))] else []
  }

  /** The update appends exactly that to the history, its change to the accepted ones. */
  lemma UpdateStores(s: System, h: nat, ch: Change)
    requires Inv(s) && h in s.handlers
    ensures var t, ws := Step(s, Update(h, ch)), Writes(s, h, ch);
            && |t.history| == |s.history| + |ws| && s.history <= t.history
            && t.accepted == s.accepted + (if ws == [] then [] else [ch])
            && (ws != [] ==> Current(t).spec == ws[0].spec && Current(t).status == ws[0].status)
  {
    hide Apply, WaitedAfter, StatusMatches;
    assert s.handlers[h] in s.history;
  }

  predicate Spares(acts: seq<Action>, h: nat) {
    forall act | act in acts :: act.EditSpec? || act.h != h
  }

  lemma {:induction false} SparedHandler(s: System, acts: seq<Action>, h: nat)
    requires s.history != [] && Spares(acts, h) && h in s.handlers
    ensures var t := Run(s, acts); h in t.handlers && t.handlers[h] == s.handlers[h]
    decreases |acts|
  {
    hide Apply, WaitedAfter;
    if acts != [] {
      assert acts[0] in acts;
      forall act | act in acts[1..] ensures act in acts {
      }
      SparedHandler(Step(s, acts[0]), acts[1..], h);
    }
  }

  /** The reconcile gets as far as announcing a download. */
  predicate Downloads(w: World, d: Disk, s: Setting, a: Artifact) {
    && !w.fault(d.step)
    && (Exists(d.nodes, FilePath(a)) ==>
          || s.vanishes
          || (OpenRead(w, Next(w, d), FilePath(a)).Some?
              && !Matches(s.digest, a.spec, OpenRead(w, Next(w, d), FilePath(a)).value)))
  }

  /** commits is what this update, no start, stores if it is accepted. */
  predicate EndsBy(commits: seq<StatusCommit>, a: Artifact, accepted: bool, ch: Change) {
    !ch.Start? && commits == if accepted then [StatusCommit(a.spec, Apply(ch, a.status))] else []
  }

  ghost predicate OneEnd(commits: seq<StatusCommit>, a: Artifact, accepted: bool) {
    exists ch: Change :: EndsBy(commits, a, accepted, ch)
  }

  lemma EndSent(d: Disk, a: Artifact, accepted: bool)
    ensures OneEnd(SetFailure(d, a, accepted).commits, a, accepted)
        && OneEnd(SetReady(d, a, accepted).commits, a, accepted)
  {
    assert EndsBy(SetFailure(d, a, accepted).commits, a, accepted, Fail(d.clock));
    assert EndsBy(SetReady(d, a, accepted).commits, a, accepted, Succeed(d.clock));
  }

  lemma ReceiveSends(w: World, d: Disk, s: Setting, a: Artifact, p: Path)
    requires p != []
    ensures OneEnd(Receive(w, d, s, a, p).commits, a, s.acceptEnd)
  {
    hide SetFailure, SetReady, OneEnd, CreateFile, Append, Rename, Verified, Matches;
    forall e: Disk
      ensures OneEnd(SetFailure(e, a, s.acceptEnd).commits, a, s.acceptEnd)
          && OneEnd(SetReady(e, a, s.acceptEnd).commits, a, s.acceptEnd)
    {
      EndSent(e, a, s.acceptEnd);
    }
  }

  lemma DownloadSends(w: World, d: Disk, s: Setting, a: Artifact, p: Path)
    requires p != []
    ensures var commits := Download(w, d, s, a, p).commits;
            var start := StatusCommit(a.spec, Apply(Start, a.status));
            if !s.acceptStart then commits == []
            else if !s.refetched.Found? then commits == [start]
            else commits != [] && commits[0] == start && OneEnd(commits[1..], s.refetched.value, s.acceptEnd)
  {
    hide OneEnd, SetFailure, Receive, MkdirAll;
    if s.acceptStart && s.refetched.Found? {
      var b := s.refetched.value;
      var dirs := MkdirAll(w, d, Parent(p));
      EndSent(dirs.disk, b, s.acceptEnd);
      ReceiveSends(w, dirs.disk, s, b, p);
      var end := if dirs.ok then Receive(w, dirs.disk, s, b, p).commits
          else SetFailure(dirs.disk, b, s.acceptEnd).commits;
      assert Download(w, d, s, a, p).commits[1..] == end;
    }
  }

  lemma ReconcileSends(w: World, d: Disk, s: Setting, a: Artifact)
    ensures var commits := Reconcile(w, d, s, Found(a)).commits;
            if Downloads(w, d, s, a) then exists e: Disk :: commits == Download(w, e, s, a, FilePath(a)).commits
            else commits == [] || OneEnd(commits, a, s.acceptEnd)
  {
    hide OneEnd, SetFailure, SetReady, Verified, Matches, Exists, Download, Content;
    var d1 := Next(w, d);
    EndSent(d1, a, s.acceptEnd);
    EndSent(Next(w, d1), a, s.acceptEnd);
  }

  /** The system when h, which holds the version it read, is about to send its last update. */
  function BeforeEnd(s: System, h: nat, between: seq<Action>, k: nat, later: seq<Action>): (r: System)
    requires s.history != []
    ensures r.history != []
  {
    Run(Step(Run(Step(s, Update(h, Start)), between), Read(h, k)), later)
  }

  /**
   * A reconcile is part of a run: with the answers the compare-and-swap gives to what handler h
   * holds, whatever others do between its start, its second read and its end, its commits are
   * exactly what h's own updates store.
   */
  lemma ReconcileIsRun(s: System, h: nat, between: seq<Action>, k: nat, later: seq<Action>, w: World, d: Disk,
      f: Setting)
    requires Inv(s) && h in s.handlers && Spares(later, h)
    requires var reread := Run(Step(s, Update(h, Start)), between);
             f.refetched.Found? ==> k < |reread.history| && f.refetched.value == reread.history[k]
    requires f.acceptStart == Fresh(s, h)
    requires f.acceptEnd == if Downloads(w, d, f, s.handlers[h]) then Fresh(BeforeEnd(s, h, between, k, later), h)
        else Fresh(s, h)
    ensures var a := s.handlers[h];
            var commits := Reconcile(w, d, f, Found(a)).commits;
            if !Downloads(w, d, f, a) then
              commits == [] || exists ch: Change :: !ch.Start? && commits == Writes(s, h, ch)
            else if !Fresh(s, h) || !f.refetched.Found? then commits == Writes(s, h, Start)
            else exists ch: Change ::
                   !ch.Start? && commits == Writes(s, h, Start) + Writes(BeforeEnd(s, h, between, k, later), h, ch)
  {
    hide Reconcile, Download, Downloads, Apply, Send, Run, StatusMatches;
    var a := s.handlers[h];
    var commits := Reconcile(w, d, f, Found(a)).commits;
    ReconcileSends(w, d, f, a);
    if !Downloads(w, d, f, a) {
      if commits != [] {
        var ch: Change :| EndsBy(commits, a, f.acceptEnd, ch);
        assert commits == Writes(s, h, ch);
      }
    } else {
      var e: Disk :| commits == Download(w, e, f, a, FilePath(a)).commits;
      DownloadSends(w, e, f, a, FilePath(a));
      if Fresh(s, h) && f.refetched.Found? {
        var b := f.refetched.value;
        var reread := Run(Step(s, Update(h, Start)), between);
        SparedHandler(Step(reread, Read(h, k)), later, h);
        var ch: Change :| EndsBy(commits[1..], b, f.acceptEnd, ch);
        assert commits == [commits[0]] + commits[1..];
        assert commits == Writes(s, h, Start) + Writes(BeforeEnd(s, h, between, k, later), h, ch);
      }
    }
  }

  // ---- every streak is reached ----

  /** n failures in a row by one handler that reads before each. */
  function Failures(n: nat): seq<Action> {
    if n == 0 then [] else Failures(n - 1) + [Read(0, n - 1), Update(0, Fail(0))]
  }

  lemma {:induction false} RunJoins(s: System, a: seq<Action>, b: seq<Action>)
    requires s.history != []
    ensures Run(s, a + b) == Run(Run(s, a), b)
    decreases |a|
  {
    hide Step;
    if a == [] {
      assert a + b == b;
    } else {
      RunJoins(Step(s, a[0]), a[1..], b);
      assert (a + b)[1..] == a[1..] + b;
    }
  }

  lemma OneMoreFailure(s: System)
    requires s.history != []
    ensures var t := Step(Step(s, Read(0, |s.history| - 1)), Update(0, Fail(0)));
            t.accepted == s.accepted + [Fail(0)] && |t.history| == |s.history| + 1
  {
    hide Apply, WaitedAfter;
  }

  lemma RunTwo(s: System, a: Action, b: Action)
    requires s.history != []
    ensures Run(s, [a, b]) == Step(Step(s, a), b)
  {
    hide Step;
    assert [a, b][1..] == [b] && [b][1..] == [];
    assert Run(Step(s, a), [b]) == Run(Step(Step(s, a), b), []);
  }

  /** Streaks of every length are reached, those past the range of an int32 included. */
  lemma {:induction false} StreakReached(key: Key, spec: ArtifactSpec, n: nat)
    ensures var s := Run(Created(key, spec), Failures(n)); Streak(s.accepted) == n && |s.history| == n + 1
  {
    hide Step;
    if n > 0 {
      StreakReached(key, spec, n - 1);
      var s := Run(Created(key, spec), Failures(n - 1));
      RunJoins(Created(key, spec), Failures(n - 1), [Read(0, n - 1), Update(0, Fail(0))]);
      RunTwo(s, Read(0, n - 1), Update(0, Fail(0)));
      OneMoreFailure(s);
      assert (s.accepted + [Fail(0)])[..|s.accepted|] == s.accepted;
    }
  }
}

/** The BootArtifact reconciler: verify what is on disk, or download, verify and install by rename. */
module BootArtifactController {
  import opened Words
  import opened FileTree
  import opened FileOps
  import opened ArtifactStore
  import opened Api

  // ---- hashes ----

  /** Hex digest of some bytes, by SHA-256 when the flag is set and SHA-512 otherwise. */
  type Digest = (bool, Bytes) -> string

  function LowerChar(c: char): char {
    if 'A' <= c <= 'Z' then (c as int + 32) as char else c
  }

  function Lower(s: string): string {
    if s == "" then "" else [LowerChar(s[0])] + Lower(s[1..])
  }

  /** Case-insensitive comparison of hex strings. */
  predicate EqualFold(a: string, b: string) {
    Lower(a) == Lower(b)
  }

  function ExpectedHash(spec: ArtifactSpec): string {
    match (spec.sha256, spec.sha512)
    case (Some(h), _) => h
    case (None, Some(h)) => h
    case (None, None) => ""
  }

  /** One character stands for the other: the same, or the two cases of a letter. */
  predicate SameUpToCase(a: char, b: char) {
    || a == b
    || ('A' <= a <= 'Z' && b as int == a as int + 32)
    || ('A' <= b <= 'Z' && a as int == b as int + 32)
  }

  /** Two hex strings say the same, position by position. */
  predicate SameHex(a: string, b: string) {
    |a| == |b| && forall i | 0 <= i < |a| :: SameUpToCase(a[i], b[i])
  }

  /** The bytes have the hash the specification gives: its SHA-256 if it has one, else its SHA-512. */
  predicate Matches(digest: Digest, spec: ArtifactSpec, data: Bytes) {
    if spec.sha256.Some? then SameHex(digest(true, data), spec.sha256.value)
    else if spec.sha512.Some? then SameHex(digest(false, data), spec.sha512.value)
    else digest(false, data) == ""
  }

  lemma {:induction false} LowerAt(s: string)
    ensures |Lower(s)| == |s| && forall i | 0 <= i < |s| :: Lower(s)[i] == LowerChar(s[i])
  {
    if s != "" {
      LowerAt(s[1..]);
    }
  }

  lemma FoldIff(a: string, b: string)
    ensures EqualFold(a, b) <==> SameHex(a, b)
  {
    hide Lower, LowerChar, SameUpToCase;
    LowerAt(a);
    LowerAt(b);
    forall x: char, y: char ensures LowerChar(x) == LowerChar(y) <==> SameUpToCase(x, y) {
      CharsFold(x, y);
    }
    if SameHex(a, b) {
      assert Lower(a) == Lower(b);
    }
  }

  lemma CharsFold(x: char, y: char)
    ensures LowerChar(x) == LowerChar(y) <==> SameUpToCase(x, y)
  {
  }

  /** The bytes have the digest the specification asks for, under the algorithm it chooses. */
  predicate Verified(digest: Digest, spec: ArtifactSpec, data: Bytes): (r: bool)
    ensures r <==> Matches(digest, spec, data)
  {
    hide EqualFold, SameHex;
    FoldIff(digest(spec.sha256.Some?, data), ExpectedHash(spec));
    assert ExpectedHash(spec) == "" ==> SameHex(digest(false, data), "") == (digest(false, data) == "") by {
      OnlyEmpty(digest(false, data));
    }
    EqualFold(digest(spec.sha256.Some?, data), ExpectedHash(spec))
  }

  lemma OnlyEmpty(a: string)
    ensures SameHex(a, "") <==> a == ""
  {
  }

  // ---- paths ----

  function FilePath(a: Artifact): Path {
    ArtifactPath(RefOf(a))
  }

  function TempOf(p: Path): Path
    requires p != []
  {
    Parent(p) + [p[|p| - 1] + ".tmp"]
  }

  // ---- status updates ----

  const MAX_INT32 := 0x7fff_ffff

  /** An int32 increment. */
  function Increment(n: int): int {
    if n == MAX_INT32 then -MAX_INT32 - 1 else n + 1
  }

  function DownloadingStatus(st: ArtifactStatus): ArtifactStatus {
    st.(phase := Downloading)
  }

  function ReadyStatus(st: ArtifactStatus, now: nat): ArtifactStatus {
    ArtifactStatus(ReadyArtifact, 0, None, Some(now))
  }

  function FailedStatus(st: ArtifactStatus, now: nat): ArtifactStatus {
    st.(phase := ErrorArtifact, failureCount := Increment(st.failureCount), lastFailureTime := Some(now))
  }

  function Pow2(n: nat): nat {
    if n == 0 then 1 else 2 * Pow2(n - 1)
  }

  /** Seconds to wait after the count-th failure in a row. */
  function Backoff(count: nat): nat {
    Pow2(if count < 6 then count else 6) * 5
  }

  datatype Result = Done | Requeue(seconds: nat) | ErrorReturned | Panic

  /** An accepted status update, with the specification of the version it was based on. */
  datatype StatusCommit = StatusCommit(spec: ArtifactSpec, status: ArtifactStatus)

  datatype Outcome = Outcome(disk: Disk, commits: seq<StatusCommit>, result: Result)

  function SetReady(d: Disk, a: Artifact, accepted: bool): (o: Outcome)
    ensures o.disk == d
  {
    if accepted then Outcome(d, [StatusCommit(a.spec, ReadyStatus(a.status, d.clock))], Done)
    else Outcome(d, [], ErrorReturned)
  }

  /** A count that wrapped below zero makes the shift that computes the delay panic. */
  function FailureResult(count: int): Result {
    if count < 0 then Panic else Requeue(Backoff(count))
  }

  function SetFailure(d: Disk, a: Artifact, accepted: bool): (o: Outcome)
    ensures o.disk == d
  {
    var st := FailedStatus(a.status, d.clock);
    if !accepted then Outcome(d, [], ErrorReturned)
    else Outcome(d, [StatusCommit(a.spec, st)], FailureResult(st.failureCount))
  }

  // ---- one reconcile ----

  /** The answer to the HTTP request. */
  datatype Response =
    | NoAnswer
    | Status(code: nat)
    | Answer(body: Bytes, declared: Option<nat>)

  /** The choices of the API server, the HTTP server and other processes during one reconcile. */
  datatype Setting = Setting(
    digest: Digest,
    vanishes: bool,              // the file is deleted between being found and being opened
    acceptStart: bool,           // the update to Downloading is accepted
    refetched: Lookup<Artifact>, // the object read again after it
    response: Response,
    acceptEnd: bool)             // the final update is accepted

  predicate Exists(t: Tree, p: Path) {
    Resolve(t, p).Some?
  }

  /** Creating or truncating the temporary file. */
  function CreateFile(w: World, d: Disk, p: Path): (r: IoResult)
    ensures r.ok ==> IsFile(r.disk, p)
  {
    if w.fault(d.step) || (p in d.nodes && !d.nodes[p].File?) || !DirAt(d.nodes, Parent(p)) then Fails(w, d)
    else IoResult(Put(w, d, d.nodes[p := File([], Next(w, d).clock)]), true)
  }

  /** Sync and close, compare the digest, rename, sync the directory. */
  function VerifyAndInstall(w: World, d: Disk, s: Setting, a: Artifact, p: Path, body: Bytes): Outcome
    requires p != []
  {
    var synced := Settle(w, d);
    if !synced.ok then SetFailure(synced.disk, a, s.acceptEnd)
    else
      var closed := Settle(w, synced.disk);
      if !closed.ok then SetFailure(closed.disk, a, s.acceptEnd)
      else if !Verified(s.digest, a.spec, body) then SetFailure(closed.disk, a, s.acceptEnd)
      else
        var renamed := Rename(w, closed.disk, TempOf(p), p);
        if !renamed.ok then SetFailure(renamed.disk, a, s.acceptEnd)
        else
          var durable := Settle(w, renamed.disk);
          if !durable.ok then SetFailure(durable.disk, a, s.acceptEnd) else SetReady(durable.disk, a, s.acceptEnd)
  }

  function Receive(w: World, d: Disk, s: Setting, a: Artifact, p: Path): Outcome
    requires p != []
  {
    match s.response
    case NoAnswer => SetFailure(d, a, s.acceptEnd)
    case Status(code) => SetFailure(d, a, s.acceptEnd)
    case Answer(body, declared) =>
      var made := CreateFile(w, d, TempOf(p));
      if !made.ok then SetFailure(made.disk, a, s.acceptEnd)
      else
        var copied := Append(w, made.disk, TempOf(p), body);
        if !copied.ok || (declared.Some? && declared.value != |body|) then SetFailure(copied.disk, a, s.acceptEnd)
        else VerifyAndInstall(w, copied.disk, s, a, p, body)
  }

  function Download(w: World, d: Disk, s: Setting, a: Artifact, p: Path): Outcome
    requires p != []
  {
    if !s.acceptStart then Outcome(d, [], ErrorReturned)
    else
      var started := StatusCommit(a.spec, DownloadingStatus(a.status));
      match s.refetched
      case Found(b) =>
        var dirs := MkdirAll(w, d, Parent(p));
        if !dirs.ok then
          var o := SetFailure(dirs.disk, b, s.acceptEnd);
          o.(commits := [started] + o.commits)
        else
          var o := Receive(w, dirs.disk, s, b, p);
          Outcome(Remove(w, o.disk, TempOf(p)), [started] + o.commits, o.result)
      case _ => Outcome(d, [started], ErrorReturned)
  }

  /** A file stands at p: verify it, and download over it when its digest is wrong. */
  function CheckExisting(w: World, d: Disk, s: Setting, a: Artifact, p: Path): Outcome
    requires p != []
  {
    if s.vanishes then Download(w, Put(w, d, d.nodes - {p}), s, a, p)
    else
      match OpenRead(w, d, p)
      case None => Outcome(Next(w, d), [], ErrorReturned)
      case Some(data) =>
        var d1 := Next(w, d);
        if !Verified(s.digest, a.spec, data) then Download(w, Remove(w, d1, p), s, a, p)
        else if a.status.phase == ReadyArtifact then Outcome(d1, [], Done)
        else SetReady(d1, a, s.acceptEnd)
  }

  function Reconcile(w: World, d: Disk, s: Setting, found: Lookup<Artifact>): Outcome {
    match found
    case Missing => Outcome(d, [], Done)
    case Unavailable => Outcome(d, [], ErrorReturned)
    case Found(a) =>
      if w.fault(d.step) then SetFailure(Next(w, d), a, s.acceptEnd)
      else if Exists(d.nodes, FilePath(a)) then CheckExisting(w, Next(w, d), s, a, FilePath(a))
      else Download(w, Next(w, d), s, a, FilePath(a))
  }

  // ---- the same, step by step ----

  /** The object in the reconciler's hands, and the status updates the API server accepted. */
  class Session {
    const setting: Setting
    var spec: ArtifactSpec
    var status: ArtifactStatus
    var commits: seq<StatusCommit>

    constructor (s: Setting, a: Artifact)
      ensures setting == s && spec == a.spec && status == a.status && commits == []
    {
      setting, spec, status, commits := s, a.spec, a.status, [];
    }

    method Update(accepted: bool) returns (ok: bool)
      modifies this`commits
      ensures ok == accepted
      ensures commits == old(commits) + (if accepted then [StatusCommit(spec, status)] else [])
    {
      if accepted {
        commits := commits + [StatusCommit(spec, status)];
      }
      ok := accepted;
    }

    method MarkReady(v: Volume, ghost a: Artifact) returns (result: Result)
      requires a.spec == spec && a.status == status
      modifies this
      ensures var o := SetReady(v.disk, a, setting.acceptEnd);
              commits == old(commits) + o.commits && result == o.result
    {
      var now := v.disk.clock;
      status := ArtifactStatus(ReadyArtifact, 0, None, Some(now));
      var ok := Update(setting.acceptEnd);
      result := if ok then Done else ErrorReturned;
    }

    method MarkFailure(v: Volume, ghost a: Artifact) returns (result: Result)
      requires a.spec == spec && a.status == status
      modifies this
      ensures var o := SetFailure(v.disk, a, setting.acceptEnd);
              commits == old(commits) + o.commits && result == o.result
    {
      var now := v.disk.clock;
      status := status.(phase := ErrorArtifact, failureCount := Increment(status.failureCount),
                        lastFailureTime := Some(now));
      var ok := Update(setting.acceptEnd);
      if !ok {
        return ErrorReturned;
      }
      result := FailureResult(status.failureCount);
    }
  }

  method CreateOn(v: Volume, p: Path) returns (ok: bool)
    modifies v
    ensures IoResult(v.disk, ok) == CreateFile(v.w, old(v.disk), p)
  {
    var r := CreateFile(v.w, v.disk, p);
    v.disk, ok := r.disk, r.ok;
  }

  /** From the answer to the request to the final status, without the deferred clean-up. */
  method ReceiveOn(v: Volume, c: Session, a: Artifact, p: Path) returns (result: Result)
    requires p != [] && c.spec == a.spec && c.status == a.status
    modifies v, c
    ensures var o := Receive(v.w, old(v.disk), c.setting, a, p);
            v.disk == o.disk && c.commits == old(c.commits) + o.commits && result == o.result
  {
    hide SetReady, SetFailure, Settle, Rename, Append, CreateFile, Verified;
    var s := c.setting;
    if !s.response.Answer? {
      result := c.MarkFailure(v, a);
      return;
    }
    var ok := CreateOn(v, TempOf(p));
    if !ok {
      result := c.MarkFailure(v, a);
      return;
    }
    ok := v.Write(TempOf(p), s.response.body);
    if !ok || (s.response.declared.Some? && s.response.declared.value != |s.response.body|) {
      result := c.MarkFailure(v, a);
      return;
    }
    ok := v.Finish();
    if !ok {
      result := c.MarkFailure(v, a);
      return;
    }
    ok := v.Finish();
    if !ok || !Verified(s.digest, a.spec, s.response.body) {
      result := c.MarkFailure(v, a);
      return;
    }
    ok := v.RenameTo(TempOf(p), p);
    if !ok {
      result := c.MarkFailure(v, a);
      return;
    }
    ok := v.Finish();
    if !ok {
      result := c.MarkFailure(v, a);
      return;
    }
    result := c.MarkReady(v, a);
  }

  method DownloadOn(v: Volume, c: Session, a: Artifact, p: Path) returns (result: Result)
    requires p != [] && c.spec == a.spec && c.status == a.status
    modifies v, c
    ensures var o := Download(v.w, old(v.disk), c.setting, a, p);
            v.disk == o.disk && c.commits == old(c.commits) + o.commits && result == o.result
  {
    hide SetFailure, Receive, MkdirAll;
    c.status := DownloadingStatus(c.status);
    var ok := c.Update(c.setting.acceptStart);
    if !ok {
      return ErrorReturned;
    }
    if !c.setting.refetched.Found? {
      return ErrorReturned;
    }
    var b := c.setting.refetched.value;
    c.spec, c.status := b.spec, b.status;
    ok := v.MakeDirs(Parent(p));
    if !ok {
      result := c.MarkFailure(v, b);
      return;
    }
    result := ReceiveOn(v, c, b, p);
    v.RemoveFile(TempOf(p));
  }

  method ReconcileOn(v: Volume, c: Session, a: Artifact) returns (result: Result)
    requires c.spec == a.spec && c.status == a.status && c.commits == []
    modifies v, c
    ensures Outcome(v.disk, c.commits, result) == Reconcile(v.w, old(v.disk), c.setting, Found(a))
  {
    hide SetReady, SetFailure, Download, Verified;
    var p := FilePath(a);
    var before := v.disk;
    v.disk := Next(v.w, v.disk);
    if v.w.fault(before.step) {
      result := c.MarkFailure(v, a);
      return;
    }
    if Exists(before.nodes, p) {
      if c.setting.vanishes {
        v.disk := Put(v.w, v.disk, v.disk.nodes - {p});
      } else {
        var data := v.ReadFile(p);
        if data == None {
          return ErrorReturned;
        }
        if Verified(c.setting.digest, a.spec, data.value) {
          if a.status.phase == ReadyArtifact {
            return Done;
          }
          result := c.MarkReady(v, a);
          return;
        }
        v.RemoveFile(p);
      }
    }
    result := DownloadOn(v, c, a, p);
  }
}

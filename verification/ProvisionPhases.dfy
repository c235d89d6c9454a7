/**
 * The phase of one Provision under any number of concurrent writers. Handlers read (possibly an
 * old version), check, and send a compare-and-swap status update; specs are edited in between.
 */
module ProvisionPhases {
  import opened FileTree

  datatype Phase = NoPhase | Pending | WaitingForBootSource | InProgress | Complete | Failed | ConfigError

  /** The phase a target may be entered from; None for targets no call can ask for. */
  function RequiredSource(target: Phase): Option<Phase> {
    match target
    case InProgress => Some(Pending)
    case Complete => Some(InProgress)
    case _ => None
  }

  /** One stored version of the object. */
  datatype Provision = Provision(
    version: nat, edits: nat, phase: Phase, message: string, lastUpdated: Option<nat>)

  /** Calls of the HTTP handler, and reconciles of the Provision controller. */
  datatype Call = Advance(target: Phase, message: string) | Initialise

  datatype Ending = Committed | Conflict | Rejected | NothingToDo

  datatype Handler =
    | Started(call: Call)
    | Holding(call: Call, read: Provision)
    | Sending(call: Call, update: Provision)
    | Finished(call: Call, ending: Ending)

  /** All versions ever stored, who wrote each by a status update, and where each handler stands. */
  datatype System = System(
    history: seq<Provision>, authors: seq<Option<nat>>, clock: nat, handlers: map<nat, Handler>)

  datatype Action =
    | Begin(h: nat, call: Call)
    | Read(h: nat, at: nat)   // the cache may return any version stored so far
    | Check(h: nat)
    | Send(h: nat)
    | EditSpec
    | Tick(n: nat)

  function Current(s: System): Provision
    requires s.history != []
  {
    s.history[|s.history| - 1]
  }

  predicate At(s: System, h: nat) {
    h in s.handlers
  }

  function Move(s: System, h: nat, to: Handler): System {
    s.(handlers := s.handlers[h := to])
  }

  /** What the handler does with the version it read. */
  function Checked(call: Call, read: Provision, now: nat): Handler {
    match call
    case Initialise =>
      if read.phase == NoPhase then Sending(call, read.(phase := Pending)) else Finished(call, NothingToDo)
    case Advance(target, message) =>
      if RequiredSource(target) == Some(read.phase)
      then Sending(call, read.(phase := target, message := message, lastUpdated := Some(now)))
      else Finished(call, Rejected)
  }

  function Commit(s: System, h: nat, call: Call, update: Provision): System
    requires s.history != []
  {
    if update.version == Current(s).version
    then s.(history := s.history + [update.(version := update.version + 1)], authors := s.authors + [Some(h)],
            handlers := s.handlers[h := Finished(call, Committed)])
    else Move(s, h, Finished(call, Conflict))
  }

  /** An action that is not possible where its handler stands changes nothing. */
  function Step(s: System, a: Action): System
    requires s.history != []
  {
    match a
    case Begin(h, call) =>
      if At(s, h) then s
      else if call.Advance? && RequiredSource(call.target) == None then Move(s, h, Finished(call, Rejected))
      else Move(s, h, Started(call))
    case Read(h, at) =>
      if At(s, h) && s.handlers[h].Started? && at < |s.history|
      then Move(s, h, Holding(s.handlers[h].call, s.history[at])) else s
    case Check(h) =>
      if At(s, h) && s.handlers[h].Holding?
      then Move(s, h, Checked(s.handlers[h].call, s.handlers[h].read, s.clock)) else s
    case Send(h) =>
      if At(s, h) && s.handlers[h].Sending?
      then Commit(s, h, s.handlers[h].call, s.handlers[h].update) else s
    case EditSpec =>
      var c := Current(s);
      s.(history := s.history + [c.(version := c.version + 1, edits := c.edits + 1)], authors := s.authors + [None])
    case Tick(n) => s.(clock := s.clock + n)
  }

  function Run(s: System, acts: seq<Action>): (r: System)
    requires s.history != []
    ensures r.history != []
    decreases |acts|
  {
    if acts == [] then s else Run(Step(s, acts[0]), acts[1..])
  }

  /** A freshly created object nobody has touched. */
  function Created(): System {
    System([Provision(0, 0, NoPhase, "", None)], [None], 0, map[])
  }

  // ---- the invariant ----

  function Rank(p: Phase): nat {
    match p
    case NoPhase => 0
    case Pending => 1
    case InProgress => 2
    case Complete => 3
    case _ => 4
  }

  const LADDER := [Pending, InProgress, Complete]

  predicate NotAfter(a: Option<nat>, b: Option<nat>) {
    a.Some? ==> b.Some? && a.value <= b.value
  }

  /** A status write climbs one rung; any other write leaves phase and stamp alone. */
  predicate Follows(p: Provision, q: Provision, author: Option<nat>) {
    && q.version == p.version + 1
    && NotAfter(p.lastUpdated, q.lastUpdated)
    && (author.Some? ==> Rank(q.phase) == Rank(p.phase) + 1 && Rank(q.phase) <= 3)
    && (author == None ==> q.phase == p.phase)
  }

  predicate HistorySound(s: System) {
    && s.history != [] && |s.authors| == |s.history|
    && s.history[0].phase == NoPhase && s.history[0].version == 0 && s.authors[0] == None
    && (forall i | 0 <= i < |s.history| - 1 :: Follows(s.history[i], s.history[i + 1], s.authors[i + 1]))
    && (forall i | 0 <= i < |s.history| ::
          s.history[i].version == i && NotAfter(s.history[i].lastUpdated, Some(s.clock)))
  }

  function TargetOf(call: Call): Phase {
    match call
    case Advance(target, _) => target
    case Initialise => Pending
  }

  ghost predicate HandlerSound(s: System, h: nat, at: Handler) {
    match at
    case Started(call) => h !in Authors(s)
    case Holding(call, read) =>
      h !in Authors(s) && read.version < |s.history| && read == s.history[read.version]
    case Sending(call, update) =>
      && h !in Authors(s) && update.version < |s.history| && update.phase == TargetOf(call)
      && Follows(s.history[update.version], update.(version := update.version + 1), Some(h))
      && NotAfter(update.lastUpdated, Some(s.clock))
    case Finished(call, ending) =>
      if ending == Committed then
        exists i: nat :: WroteAt(s, h, i) && s.history[i].phase == TargetOf(call)
      else h !in Authors(s)
  }

  function Authors(s: System): set<nat> {
    set a | a in s.authors && a.Some? :: a.value
  }

  predicate WroteAt(s: System, h: nat, i: nat) {
    i < |s.authors| && i < |s.history| && s.authors[i] == Some(h)
  }

  ghost predicate Inv(s: System) {
    && HistorySound(s)
    && (forall h | h in s.handlers :: HandlerSound(s, h, s.handlers[h]))
    && (forall h | h in Authors(s) :: h in s.handlers)
    && (forall i, j | 0 <= i < j < |s.authors| && s.authors[i].Some? :: s.authors[i] != s.authors[j])
  }

  lemma CreatedInv()
    ensures Inv(Created())
  {
  }

  lemma MoveKeepsInv(s: System, h: nat, to: Handler)
    requires Inv(s) && HandlerSound(s, h, to)
    ensures Inv(Move(s, h, to))
  {
    var s' := Move(s, h, to);
    assert Authors(s') == Authors(s);
    forall g | g in s'.handlers ensures HandlerSound(s', g, s'.handlers[g]) {
      SameHandler(s, s', g, if g == h then to else s.handlers[g]);
    }
  }

  lemma SameHandler(s: System, s': System, h: nat, at: Handler)
    requires HandlerSound(s, h, at) && s'.history == s.history && s'.authors == s.authors && s'.clock == s.clock
    ensures HandlerSound(s', h, at)
  {
    hide Follows;
    assert Authors(s') == Authors(s);
    if at.Finished? && at.ending == Committed {
      var i: nat :| WroteAt(s, h, i) && s.history[i].phase == TargetOf(at.call);
      assert WroteAt(s', h, i);
    }
  }

  /** Appending a version disturbs no handler but its author. */
  lemma AppendKeepsHandler(s: System, s': System, h: nat, at: Handler, p: Provision, author: Option<nat>)
    requires HandlerSound(s, h, at) && author != Some(h) && HistorySound(s)
    requires s'.history == s.history + [p] && s'.authors == s.authors + [author] && s'.clock == s.clock
    ensures HandlerSound(s', h, at)
  {
    hide Follows;
    if h in Authors(s') {
      assert Some(h) in s'.authors;
      assert Some(h) in s.authors;
    }
    assert h in Authors(s') ==> h in Authors(s);
    if at.Finished? && at.ending == Committed {
      var i: nat :| WroteAt(s, h, i) && s.history[i].phase == TargetOf(at.call);
      assert WroteAt(s', h, i);
    }
  }

  lemma AuthorsAppend(s: System, s': System, author: Option<nat>)
    requires s'.authors == s.authors + [author]
    ensures Authors(s') == Authors(s) + (if author.Some? then {author.value} else {})
  {
    if author.Some? {
      assert author in s'.authors;
    }
    forall h | h in Authors(s) ensures h in Authors(s') {
      assert Some(h) in s'.authors;
    }
    forall h | h in Authors(s') ensures h in Authors(s) || author == Some(h) {
      assert Some(h) in s'.authors;
    }
  }

  lemma AppendKeepsHistory(s: System, p: Provision, author: Option<nat>, handlers: map<nat, Handler>)
    requires HistorySound(s) && Follows(Current(s), p, author) && NotAfter(p.lastUpdated, Some(s.clock))
    ensures HistorySound(System(s.history + [p], s.authors + [author], s.clock, handlers))
  {
    hide NotAfter, Rank;
    var s' := System(s.history + [p], s.authors + [author], s.clock, handlers);
    forall i | 0 <= i < |s'.history| - 1
      ensures Follows(s'.history[i], s'.history[i + 1], s'.authors[i + 1])
    {
      if i < |s.history| - 1 {
        assert Follows(s.history[i], s.history[i + 1], s.authors[i + 1]);
      }
    }
  }

  lemma CheckSound(s: System, h: nat, call: Call, read: Provision)
    requires Inv(s) && HandlerSound(s, h, Holding(call, read))
    ensures HandlerSound(s, h, Checked(call, read, s.clock))
  {
  }

  lemma CommitKeepsInv(s: System, h: nat, call: Call, update: Provision)
    requires Inv(s) && h in s.handlers && s.handlers[h] == Sending(call, update)
    ensures Inv(Commit(s, h, call, update))
  {
    var s' := Commit(s, h, call, update);
    assert HandlerSound(s, h, Sending(call, update));
    if update.version == Current(s).version {
      var p := update.(version := update.version + 1);
      AppendKeepsHistory(s, p, Some(h), s'.handlers);
      AuthorsAppend(s, s', Some(h));
      forall g | g in s'.handlers ensures HandlerSound(s', g, s'.handlers[g]) {
        if g == h {
          assert WroteAt(s', h, |s.history|);
        } else {
          AppendKeepsHandler(s, s', g, s.handlers[g], p, Some(h));
        }
      }
      forall i, j | 0 <= i < j < |s'.authors| && s'.authors[i].Some? ensures s'.authors[i] != s'.authors[j] {
        assert s.authors[i] in s.authors;
        assert s.authors[i].value in Authors(s);
      }
    } else {
      MoveKeepsInv(s, h, Finished(call, Conflict));
    }
  }

  lemma EditKeepsInv(s: System)
    requires Inv(s)
    ensures Inv(Step(s, EditSpec))
  {
    hide HandlerSound, Follows, NotAfter;
    var s', c := Step(s, EditSpec), Current(s);
    var p := c.(version := c.version + 1, edits := c.edits + 1);
    EditFollows(c, p);
    AppendKeepsHistory(s, p, None, s.handlers);
    AuthorsAppend(s, s', None);
    forall g | g in s'.handlers ensures HandlerSound(s', g, s'.handlers[g]) {
      AppendKeepsHandler(s, s', g, s.handlers[g], p, None);
    }
  }

  lemma EditFollows(c: Provision, p: Provision)
    requires p == c.(version := c.version + 1, edits := c.edits + 1)
    ensures Follows(c, p, None)
  {
  }

  lemma TickKeepsInv(s: System, n: nat)
    requires Inv(s)
    ensures Inv(Step(s, Tick(n)))
  {
    var s' := Step(s, Tick(n));
    assert Authors(s') == Authors(s);
    forall g | g in s'.handlers ensures HandlerSound(s', g, s'.handlers[g]) {
      var at := s.handlers[g];
      if at.Finished? && at.ending == Committed {
        var i: nat :| WroteAt(s, g, i) && s.history[i].phase == TargetOf(at.call);
        assert WroteAt(s', g, i);
      }
    }
  }

  lemma StepKeepsInv(s: System, a: Action)
    requires Inv(s)
    ensures Inv(Step(s, a))
  {
    hide Checked, HandlerSound, Commit;
    match a
    case Begin(h, call) =>
      if !At(s, h) {
        NewHandlerSound(s, h, call);
        MoveKeepsInv(s, h, if call.Advance? && RequiredSource(call.target) == None then Finished(call, Rejected)
            else Started(call));
      }
    case Read(h, at) =>
      if At(s, h) && s.handlers[h].Started? && at < |s.history| {
        ReadSound(s, h, s.handlers[h].call, at);
        MoveKeepsInv(s, h, Holding(s.handlers[h].call, s.history[at]));
      }
    case Check(h) =>
      if At(s, h) && s.handlers[h].Holding? {
        CheckSound(s, h, s.handlers[h].call, s.handlers[h].read);
        MoveKeepsInv(s, h, Checked(s.handlers[h].call, s.handlers[h].read, s.clock));
      }
    case Send(h) =>
      if At(s, h) && s.handlers[h].Sending? {
        CommitKeepsInv(s, h, s.handlers[h].call, s.handlers[h].update);
      }
    case EditSpec => EditKeepsInv(s);
    case Tick(n) => TickKeepsInv(s, n);
  }

  lemma NewHandlerSound(s: System, h: nat, call: Call)
    requires Inv(s) && h !in s.handlers
    ensures HandlerSound(s, h, Started(call)) && HandlerSound(s, h, Finished(call, Rejected))
  {
  }

  lemma ReadSound(s: System, h: nat, call: Call, at: nat)
    requires Inv(s) && HandlerSound(s, h, Started(call)) && at < |s.history|
    ensures HandlerSound(s, h, Holding(call, s.history[at]))
  {
  }

  lemma {:induction false} RunKeepsInv(s: System, acts: seq<Action>)
    requires Inv(s)
    ensures Inv(Run(s, acts))
    decreases |acts|
  {
    hide Step;
    if acts == [] {
    } else {
      StepKeepsInv(s, acts[0]);
      RunKeepsInv(Step(s, acts[0]), acts[1..]);
    }
  }

  // ---- what every interleaving guarantees ----

  /** The phases written by status updates, in order. */
  function StatusWrites(history: seq<Provision>, authors: seq<Option<nat>>): seq<Phase>
    requires |history| == |authors|
    decreases |history|
  {
    if history == [] then []
    else
      var n := |history| - 1;
      StatusWrites(history[..n], authors[..n]) + (if authors[n].Some? then [history[n].phase] else [])
  }

  lemma {:induction false} WritesClimb(s: System, n: nat)
    requires HistorySound(s) && 0 < n <= |s.history|
    ensures var r := Rank(s.history[n - 1].phase);
            r <= 3 && StatusWrites(s.history[..n], s.authors[..n]) == LADDER[..r]
    decreases n
  {
    assert s.history[..n][..n - 1] == s.history[..n - 1] && s.authors[..n][..n - 1] == s.authors[..n - 1];
    if n == 1 {
      assert s.history[..0] == [];
    } else {
      WritesClimb(s, n - 1);
      assert Follows(s.history[n - 2], s.history[n - 1], s.authors[n - 1]);
      if s.authors[n - 1].Some? {
        var r := Rank(s.history[n - 1].phase);
        assert LADDER[..r] == LADDER[..r - 1] + [LADDER[r - 1]];
      }
    }
  }

  /**
   * Whatever the interleaving, stale reads and spec edits: the phases committed so far are a prefix
   * of Pending, InProgress, Complete, and the object stands at the last of them.
   */
  lemma CommittedPhasesClimbTheLadder(acts: seq<Action>)
    ensures var s := Run(Created(), acts);
            && |s.history| == |s.authors|
            && StatusWrites(s.history, s.authors) <= LADDER
            && Rank(Current(s).phase) == |StatusWrites(s.history, s.authors)| <= 3
  {
    CreatedInv();
    RunKeepsInv(Created(), acts);
    var s := Run(Created(), acts);
    WritesClimb(s, |s.history|);
    assert s.history[..|s.history|] == s.history && s.authors[..|s.authors|] == s.authors;
  }

  lemma {:induction false} RanksGrow(s: System, i: nat, j: nat)
    requires HistorySound(s) && i < j < |s.history|
    ensures Rank(s.history[i].phase) <= Rank(s.history[j].phase)
    ensures s.authors[j].Some? ==> Rank(s.history[i].phase) < Rank(s.history[j].phase)
    ensures NotAfter(s.history[i].lastUpdated, s.history[j].lastUpdated)
    decreases j - i
  {
    assert Follows(s.history[j - 1], s.history[j], s.authors[j]);
    if i < j - 1 {
      RanksGrow(s, i, j - 1);
    }
  }

  /** At most one call for a given phase ever succeeds, over all handlers and interleavings. */
  lemma EachPhaseEnteredOnce(acts: seq<Action>, g: nat, h: nat)
    requires var s := Run(Created(), acts);
             && g in s.handlers && h in s.handlers
             && s.handlers[g].Finished? && s.handlers[g].ending == Committed
             && s.handlers[h].Finished? && s.handlers[h].ending == Committed
             && TargetOf(s.handlers[g].call) == TargetOf(s.handlers[h].call)
    ensures g == h
  {
    CreatedInv();
    RunKeepsInv(Created(), acts);
    var s := Run(Created(), acts);
    assert HandlerSound(s, g, s.handlers[g]) && HandlerSound(s, h, s.handlers[h]);
    var i: nat :| WroteAt(s, g, i) && s.history[i].phase == TargetOf(s.handlers[g].call);
    var j: nat :| WroteAt(s, h, j) && s.history[j].phase == TargetOf(s.handlers[h].call);
    if i < j {
      RanksGrow(s, i, j);
    } else if j < i {
      RanksGrow(s, j, i);
    }
  }

  lemma {:induction false} EarlierRung(s: System, j: nat, r: nat)
    requires HistorySound(s) && j < |s.history| && 0 < r <= Rank(s.history[j].phase)
    ensures exists i :: 0 < i <= j && s.authors[i].Some? && Rank(s.history[i].phase) == r
    decreases j
  {
    if j > 0 {
      assert Follows(s.history[j - 1], s.history[j], s.authors[j]);
      if r <= Rank(s.history[j - 1].phase) {
        EarlierRung(s, j - 1, r);
      }
    }
  }

  /** Handler h succeeded, entering the phase with version number i. */
  predicate Entered(s: System, h: nat, target: Phase, i: nat) {
    && h in s.handlers && s.handlers[h].Finished? && s.handlers[h].ending == Committed
    && TargetOf(s.handlers[h].call) == target && WroteAt(s, h, i)
  }

  /** A call for Complete succeeds only after some call for InProgress has. */
  lemma CompleteAfterInProgress(acts: seq<Action>, h: nat)
    requires var s := Run(Created(), acts);
             h in s.handlers && s.handlers[h].Finished? && s.handlers[h].ending == Committed
             && TargetOf(s.handlers[h].call) == Complete
    ensures var s := Run(Created(), acts);
            exists g, i: nat, j: nat :: Entered(s, g, InProgress, i) && Entered(s, h, Complete, j) && i < j
  {
    hide Run, Created;
    CreatedInv();
    RunKeepsInv(Created(), acts);
    InProgressBefore(Run(Created(), acts), h);
  }

  lemma InProgressBefore(s: System, h: nat)
    requires Inv(s) && h in s.handlers && s.handlers[h].Finished? && s.handlers[h].ending == Committed
    requires TargetOf(s.handlers[h].call) == Complete
    ensures exists g, i: nat, j: nat :: Entered(s, g, InProgress, i) && Entered(s, h, Complete, j) && i < j
  {
    hide Follows;
    assert HandlerSound(s, h, s.handlers[h]);
    var j: nat :| WroteAt(s, h, j) && s.history[j].phase == TargetOf(s.handlers[h].call);
    EarlierRung(s, j, 2);
    var i :| 0 < i <= j && s.authors[i].Some? && Rank(s.history[i].phase) == 2;
    var g := s.authors[i].value;
    assert WroteAt(s, g, i);
    AuthorCommitted(s, g, i);
    assert Entered(s, g, InProgress, i) && Entered(s, h, Complete, j);
  }

  /** Who wrote a version is a handler that finished successfully with that version's phase. */
  lemma AuthorCommitted(s: System, g: nat, i: nat)
    requires Inv(s) && WroteAt(s, g, i)
    ensures g in s.handlers && s.handlers[g].Finished? && s.handlers[g].ending == Committed
    ensures TargetOf(s.handlers[g].call) == s.history[i].phase
  {
    assert s.authors[i] in s.authors;
    assert g in Authors(s);
    assert HandlerSound(s, g, s.handlers[g]);
    var k: nat :| WroteAt(s, g, k) && s.history[k].phase == TargetOf(s.handlers[g].call);
    assert s.authors[k] == s.authors[i];
  }

  /** The stored time of the last update never goes back. */
  lemma LastUpdatedNeverGoesBack(acts: seq<Action>, i: nat, j: nat)
    requires i < j < |Run(Created(), acts).history|
    ensures var s := Run(Created(), acts); NotAfter(s.history[i].lastUpdated, s.history[j].lastUpdated)
  {
    CreatedInv();
    RunKeepsInv(Created(), acts);
    RanksGrow(Run(Created(), acts), i, j);
  }

  // ---- the two writers as procedures ----

  class Server {
    var state: System

    constructor ()
      ensures state == Created()
    {
      state := Created();
    }

    method Get(at: nat) returns (p: Provision)
      requires at < |state.history|
      ensures p == state.history[at]
    {
      p := state.history[at];
    }

    /** A status update: accepted only when it is based on the version stored last. */
    method UpdateStatus(h: nat, call: Call, update: Provision) returns (ok: bool)
      requires state.history != []
      modifies this
      ensures state == Commit(old(state), h, call, update)
      ensures ok == (update.version == Current(old(state)).version)
    {
      ok := update.version == Current(state).version;
      state := Commit(state, h, call, update);
    }
  }

  /** The moves a call may make: Pending to InProgress, and InProgress to Complete. */
  predicate Allows(current: Phase, target: Phase) {
    (current == Pending && target == InProgress) || (current == InProgress && target == Complete)
  }

  function OneCall(s: System, h: nat, call: Call, at: nat): System
    requires s.history != []
  {
    Run(s, [Begin(h, call), Read(h, at), Check(h), Send(h)])
  }

  /** What one call leaves: a new last version with these contents, or the same history. */
  predicate Appended(s: System, t: System, phase: Phase, message: string, lastUpdated: Option<nat>)
    requires s.history != []
  {
    var c := Current(s);
    t.history == s.history + [Provision(c.version + 1, c.edits, phase, message, lastUpdated)] && t.clock == s.clock
  }

  /** Where the four steps of an uninterrupted call end. */
  lemma CallEnds(s: System, h: nat, call: Call, at: nat)
    requires s.history != [] && h !in s.handlers && at < |s.history|
    ensures OneCall(s, h, call, at) ==
            if call.Advance? && RequiredSource(call.target) == None then Move(s, h, Finished(call, Rejected))
            else
              var next := Checked(call, s.history[at], s.clock);
              if next.Sending? then Commit(s, h, next.call, next.update) else Move(s, h, next)
  {
    hide Run, Checked, RequiredSource, Move, Commit;
    FourSteps(s, Begin(h, call), Read(h, at), Check(h), Send(h));
    forall a: Handler, b: Handler ensures Replaced(s, h, a, b) {
      LastMoveCounts(s, h, a, b);
    }
    CheckedMoves(call, s.history[at], s.clock);
    var out := Finished(call, Rejected);
    assert Replaced(s, h, out, out);
    var next := Checked(call, s.history[at], s.clock);
    assert Replaced(s, h, Started(call), Holding(call, s.history[at]));
    assert Replaced(s, h, Holding(call, s.history[at]), next);
    assert Replaced(s, h, next, next);
  }

  /** Only the last move of a handler counts. */
  predicate Replaced(s: System, h: nat, a: Handler, b: Handler)
    requires s.history != []
  {
    var t := Move(s, h, a);
    && Move(t, h, b) == Move(s, h, b) && t.history == s.history && t.clock == s.clock
    && h in t.handlers && t.handlers[h] == a
    && (a.Sending? ==> Commit(t, h, a.call, a.update) == Commit(s, h, a.call, a.update))
  }

  lemma LastMoveCounts(s: System, h: nat, a: Handler, b: Handler)
    requires s.history != []
    ensures Replaced(s, h, a, b)
  {
  }

  lemma CheckedMoves(call: Call, read: Provision, now: nat)
    ensures var next := Checked(call, read, now); next.Sending? || next.Finished?
  {
  }

  /**
   * A call that nobody interrupts, on version `at`, is committed if and only if it moves Pending to
   * InProgress or InProgress to Complete and that version is the one stored; then phase, message and
   * time are the target, the caller's message and the clock. Otherwise nothing is stored.
   */
  lemma AdvanceIff(s: System, h: nat, target: Phase, message: string, at: nat)
    requires Inv(s) && h !in s.handlers && at < |s.history|
    ensures var t, p := OneCall(s, h, Advance(target, message), at), s.history[at];
            var ok := Allows(p.phase, target) && at == |s.history| - 1;
            && h in t.handlers && t.handlers[h].Finished?
            && (t.handlers[h].ending == Committed <==> ok)
            && (if ok then Appended(s, t, target, message, Some(s.clock)) else t.history == s.history)
            && (t.handlers[h].ending == Conflict <==> Allows(p.phase, target) && at < |s.history| - 1)
  {
    hide OneCall, HandlerSound, Follows;
    CallEnds(s, h, Advance(target, message), at);
    assert s.history[at].version == at && Current(s).version == |s.history| - 1;
  }

  /** The controller's call commits Pending exactly from the empty phase, and changes nothing else. */
  lemma InitialiseIff(s: System, h: nat, at: nat)
    requires Inv(s) && h !in s.handlers && at < |s.history|
    ensures var t, p := OneCall(s, h, Initialise, at), s.history[at];
            var ok := p.phase == NoPhase && at == |s.history| - 1;
            && h in t.handlers && t.handlers[h].Finished?
            && (t.handlers[h].ending == Committed <==> ok)
            && (if ok then Appended(s, t, Pending, p.message, p.lastUpdated) else t.history == s.history)
            && (t.handlers[h].ending == NothingToDo <==> p.phase != NoPhase)
  {
    hide OneCall, HandlerSound, Follows;
    CallEnds(s, h, Initialise, at);
    assert s.history[at].version == at && Current(s).version == |s.history| - 1;
  }

  /** One rung up, nobody else's state touched. */
  lemma RungClimbed(s: System, h: nat, call: Call)
    requires Inv(s) && h !in s.handlers
    requires if call.Advance? then Allows(Current(s).phase, call.target) else Current(s).phase == NoPhase
    ensures var t := OneCall(s, h, call, |s.history| - 1);
            && Inv(t) && |t.history| == |s.history| + 1 && Current(t).phase == TargetOf(call)
            && forall g | g != h :: g in t.handlers <==> g in s.handlers
  {
    hide Run, Inv, Checked, RequiredSource;
    assert s.history != [] by { InvNonEmpty(s); }
    RunKeepsInv(s, [Begin(h, call), Read(h, |s.history| - 1), Check(h), Send(h)]);
    if call.Advance? {
      AdvanceIff(s, h, call.target, call.message, |s.history| - 1);
    } else {
      InitialiseIff(s, h, |s.history| - 1);
    }
    CallEnds(s, h, call, |s.history| - 1);
  }

  lemma InvNonEmpty(s: System)
    requires Inv(s)
    ensures s.history != []
  {
  }

  /** Three uninterrupted calls take a fresh object all the way. */
  lemma LadderIsClimbed(m1: string, m2: string)
    ensures var s1 := OneCall(Created(), 0, Initialise, 0);
            var s2 := OneCall(s1, 1, Advance(InProgress, m1), 1);
            var s3 := OneCall(s2, 2, Advance(Complete, m2), 2);
            |s3.history| == |s3.authors| && StatusWrites(s3.history, s3.authors) == [Pending, InProgress, Complete]
  {
    hide OneCall, Inv, StatusWrites;
    CreatedInv();
    RungClimbed(Created(), 0, Initialise);
    var s1 := OneCall(Created(), 0, Initialise, 0);
    RungClimbed(s1, 1, Advance(InProgress, m1));
    var s2 := OneCall(s1, 1, Advance(InProgress, m1), 1);
    RungClimbed(s2, 2, Advance(Complete, m2));
    TopReached(OneCall(s2, 2, Advance(Complete, m2), 2));
  }

  lemma TopReached(s: System)
    requires Inv(s) && Current(s).phase == Complete
    ensures |s.history| == |s.authors| && StatusWrites(s.history, s.authors) == [Pending, InProgress, Complete]
  {
    hide StatusWrites, HandlerSound, Follows;
    WritesClimb(s, |s.history|);
    assert s.history[..|s.history|] == s.history && s.authors[..|s.authors|] == s.authors;
  }

  /** The HTTP side's procedure, run without interruption by handler h on version `at`. */
  method UpdateProvisionPhase(s: Server, h: nat, target: Phase, message: string, at: nat) returns (ending: Ending)
    requires h !in s.state.handlers && at < |s.state.history|
    modifies s
    ensures s.state == Run(old(s.state), [Begin(h, Advance(target, message)), Read(h, at), Check(h), Send(h)])
    ensures h in s.state.handlers && s.state.handlers[h] == Finished(Advance(target, message), ending)
  {
    hide Run;
    var call := Advance(target, message);
    var s0 := s.state;
    FourSteps(s0, Begin(h, call), Read(h, at), Check(h), Send(h));
    var requiredSource := RequiredSource(target);
    if requiredSource == None {
      s.state := Move(s.state, h, Finished(call, Rejected));
      return Rejected;
    }
    var p := s.Get(at);
    if p.phase != requiredSource.value {
      s.state := Move(s.state, h, Finished(call, Rejected));
      return Rejected;
    }
    var update := p.(phase := target, message := message, lastUpdated := Some(s.state.clock));
    s.state := Move(s.state, h, Sending(call, update));
    var ok := s.UpdateStatus(h, call, update);
    ending := if ok then Committed else Conflict;
  }

  lemma FourSteps(s: System, a: Action, b: Action, c: Action, d: Action)
    requires s.history != []
    ensures Run(s, [a, b, c, d]) == Step(Step(Step(Step(s, a), b), c), d)
  {
    hide Step;
    assert [a, b, c, d][1..] == [b, c, d] && [b, c, d][1..] == [c, d] && [c, d][1..] == [d] && [d][1..] == [];
    StepNonEmpty(s, a);
    StepNonEmpty(Step(s, a), b);
    StepNonEmpty(Step(Step(s, a), b), c);
    RunCons(s, a, [b, c, d]);
    RunCons(Step(s, a), b, [c, d]);
    RunCons(Step(Step(s, a), b), c, [d]);
    RunCons(Step(Step(Step(s, a), b), c), d, []);
  }

  lemma StepNonEmpty(s: System, a: Action)
    requires s.history != []
    ensures Step(s, a).history != []
  {
  }

  lemma RunCons(s: System, a: Action, rest: seq<Action>)
    requires s.history != []
    ensures Run(s, [a] + rest) == Run(Step(s, a), rest)
  {
    hide Step;
    assert ([a] + rest)[1..] == rest;
  }

  /** The Provision controller's reconcile: an empty phase becomes Pending. */
  method ReconcileProvision(s: Server, h: nat, at: nat) returns (ending: Ending)
    requires h !in s.state.handlers && at < |s.state.history|
    modifies s
    ensures s.state == Run(old(s.state), [Begin(h, Initialise), Read(h, at), Check(h), Send(h)])
    ensures h in s.state.handlers && s.state.handlers[h] == Finished(Initialise, ending)
  {
    hide Run;
    FourSteps(s.state, Begin(h, Initialise), Read(h, at), Check(h), Send(h));
    var p := s.Get(at);
    if p.phase == NoPhase {
      var update := p.(phase := Pending);
      s.state := Move(s.state, h, Sending(Initialise, update));
      var ok := s.UpdateStatus(h, Initialise, update);
      ending := if ok then Committed else Conflict;
    } else {
      s.state := Move(s.state, h, Finished(Initialise, NothingToDo));
      ending := NothingToDo;
    }
  }
}

/**
 * The executable hand-off: a parent process stages its state into a freshly spawned child, freezes
 * itself, and passes authority over with a single Commit.
 *
 * The two processes and the adversary take turns. A message is never forged, but it may be lost,
 * repeated or presented out of order; any local operation may fail, any wait may time out, and
 * either process may die, at every point. The runtime behind the protocol is opaque: freezing stops
 * serving, aborting resumes it, activating starts it.
 */
module Handoff {
  import opened Bytes

  const ROUND_LIMIT := 32

  datatype Payload =
    | Hello
    | Bootstrap
    | Prestage(frozen: bool, core: u64, directory: u64)
    | Ready(core: u64, directory: u64)
    | Commit(core: u64, directory: u64, parentEpoch: u64)
    | Committed(childEpoch: u64)
    | Query(expectedEpoch: u64)
    | Status(childEpoch: u64)
    | Error

  datatype ParentPhase =
    | AwaitHello
    | Staging
    | AwaitReady(round: nat, core: u64)
    | Staged(round: nat)            // the child acknowledged the directory and `round` core updates
    | Admitted                      // the child lags little enough to freeze
    | Frozen(core: u64)
    | AwaitFinalReady(core: u64)
    | Acknowledged(core: u64)
    | OutcomePending(core: u64)     // rollback authority consumed, Commit not yet written
    | AwaitCommitted
    | AwaitStatus
    | Succeeded(childEpoch: u64)
    | Uncertain
    | FailClosed
    | Restored
    | Gone

  datatype ChildPhase =
    | Starting
    | AwaitBootstrap
    | AwaitFirstPrestage
    | AwaitPrestage(core: u64, directory: u64)
    | AwaitCommit(core: u64, directory: u64)
    | Booted(core: u64, directory: u64, childEpoch: u64)
    | Active(core: u64, directory: u64, childEpoch: u64)
    | Reported(core: u64, directory: u64, childEpoch: u64, answering: bool)
    | Stopped

  /**
   * Each side's outbound envelopes, numbered from one in the order they were written, and how many
   * inbound envelopes it has accepted: `next_inbound` is always one more than that count.
   */
  datatype State = State(
    epoch: u64, snapshotCore: u64, directory: u64,
    parent: ParentPhase, parentSent: seq<Payload>, parentAccepted: nat,
    child: ChildPhase, childSent: seq<Payload>, childAccepted: nat,
    activated: seq<ChildPhase>)     // what the child held each time it started serving

  function Initial(epoch: u64, snapshotCore: u64, directory: u64): State {
    State(epoch, snapshotCore, directory, AwaitHello, [], 0, Starting, [], 0, [])
  }

  predicate ParentServes(p: ParentPhase) {
    p.AwaitHello? || p.Staging? || p.AwaitReady? || p.Staged? || p.Admitted? || p.Restored?
  }

  predicate ChildServes(c: ChildPhase) { c.Active? || c.Reported? }

  datatype Action =
    | ParentProceed(core: u64, closeEnough: bool, killed: bool)
    | ParentReceive(envelope: nat, killed: bool)  // `envelope` counts what the child wrote
    | ParentTimeout(killed: bool)
    | ParentFail(killed: bool)
    | ParentExit
    | ChildProceed
    | ChildReceive(envelope: nat, succeeds: bool)
    | ChildFail
    | ChildExit

  // ---- The parent ----

  function ParentSend(s: State, payload: Payload, next: ParentPhase): State {
    s.(parentSent := s.parentSent + [payload], parent := next)
  }

  function Kill(s: State, killed: bool): State {
    if killed then s.(child := Stopped) else s
  }

  /** Any error: roll back while that authority is held, give up for good once it is not. */
  function GiveUp(s: State, killed: bool): State {
    if HoldsRollback(s.parent) then Kill(s, killed).(parent := Restored)
    // The status authority was superseded: the parent stays frozen and terminates.
    else if s.parent.Acknowledged? then Kill(s, killed).(parent := FailClosed)
    // Nobody knows whether the Commit got through; one that did is written first and fails next.
    else if s.parent.OutcomePending? || s.parent.AwaitCommitted? || s.parent.AwaitStatus? then s.(parent := Uncertain)
    else if s.parent.Succeeded? then s.(parent := FailClosed)
    else s
  }

  predicate HoldsRollback(p: ParentPhase) {
    p.AwaitHello? || p.Staging? || p.AwaitReady? || p.Staged? || p.Admitted? || p.Frozen? || p.AwaitFinalReady?
  }

  /** What the parent does next of its own accord. */
  function Proceed(s: State, core: u64, closeEnough: bool, killed: bool): State {
    match s.parent
    case Staging =>
      ParentSend(ParentSend(s, Bootstrap, Staging), Prestage(false, s.snapshotCore, s.directory),
                 AwaitReady(0, s.snapshotCore))
    case Staged(round) =>
      if round > 0 && closeEnough then s.(parent := Admitted)
      else if round < ROUND_LIMIT then
        ParentSend(s, Prestage(false, core, s.directory), AwaitReady(round + 1, core))
      else GiveUp(s, killed)
    case Admitted => s.(parent := Frozen(core))
    case Frozen(final) => ParentSend(s, Prestage(true, final, s.directory), AwaitFinalReady(final))
    case Acknowledged(final) =>
      if s.epoch == USIZE_MAX then Kill(s, killed).(parent := Restored) else s.(parent := OutcomePending(final))
    case OutcomePending(final) => ParentSend(s, Commit(final, s.directory, s.epoch), AwaitCommitted)
    case _ => s
  }

  /** What the parent makes of an envelope that passed the sequence check. */
  function Accept(s: State, payload: Payload, killed: bool): State {
    match s.parent
    case AwaitHello => if payload.Hello? then s.(parent := Staging) else GiveUp(s, killed)
    case AwaitReady(round, core) =>
      if payload == Ready(core, s.directory) then s.(parent := Staged(round)) else GiveUp(s, killed)
    case AwaitFinalReady(core) =>
      if payload == Ready(core, s.directory) then s.(parent := Acknowledged(core)) else GiveUp(s, killed)
    case AwaitCommitted =>
      if payload.Committed? && payload.childEpoch as int == s.epoch + 1 then
        s.(parent := Succeeded(payload.childEpoch))
      else GiveUp(s, killed)
    case AwaitStatus =>
      if payload.Status? && payload.childEpoch as int == s.epoch + 1 then
        s.(parent := Succeeded(payload.childEpoch))
      else GiveUp(s, killed)
    case _ => s
  }

  predicate ParentReads(p: ParentPhase) {
    p.AwaitHello? || p.AwaitReady? || p.AwaitFinalReady? || p.AwaitCommitted? || p.AwaitStatus?
  }

  function Receive(s: State, envelope: nat, killed: bool): State {
    if !ParentReads(s.parent) || envelope >= |s.childSent| then s
    else if envelope != s.parentAccepted then GiveUp(s, killed)
    else Accept(s.(parentAccepted := s.parentAccepted + 1), s.childSent[envelope], killed)
  }

  function Timeout(s: State, killed: bool): State {
    match s.parent
    case AwaitCommitted =>
      if s.epoch == USIZE_MAX then s else ParentSend(s, Query(s.epoch + 1), AwaitStatus)
    case AwaitReady(_, _) | AwaitFinalReady(_) | AwaitStatus => GiveUp(s, killed)
    case _ => s
  }

  // ---- The child ----

  function ChildSend(s: State, payload: Payload, next: ChildPhase): State {
    s.(childSent := s.childSent + [payload], child := next)
  }

  function Fail(s: State): State {
    ChildSend(s, Error, Stopped)
  }

  function Import(s: State, p: Payload, current: int, succeeds: bool, initial: bool): State {
    if !p.Prestage? || !succeeds || p.core < current || (initial && p.frozen) then Fail(s)
    else ChildSend(s, Ready(p.core, p.directory),
                   if p.frozen then AwaitCommit(p.core, p.directory) else AwaitPrestage(p.core, p.directory))
  }

  predicate ChildReads(c: ChildPhase) {
    c.AwaitBootstrap? || c.AwaitFirstPrestage? || c.AwaitPrestage? || c.AwaitCommit? || (c.Reported? && c.answering)
  }

  function ChildAccept(s: State, payload: Payload, succeeds: bool): State {
    match s.child
    case AwaitBootstrap =>
      if payload.Bootstrap? && succeeds then s.(child := AwaitFirstPrestage) else Fail(s)
    case AwaitFirstPrestage => Import(s, payload, 0, succeeds, true)
    case AwaitPrestage(core, _) => Import(s, payload, core, succeeds, false)
    case AwaitCommit(core, directory) =>
      if payload.Commit? && succeeds && payload.parentEpoch < USIZE_MAX && payload.core == core
         && payload.directory == directory
      then s.(child := Booted(core, directory, payload.parentEpoch + 1))
      else Fail(s)
    case Reported(_, _, childEpoch, _) =>
      if payload == Query(childEpoch) then ChildSend(s, Status(childEpoch), s.child) else s
    case _ => s
  }

  function ChildReceives(s: State, envelope: nat, succeeds: bool): State {
    if !ChildReads(s.child) || envelope >= |s.parentSent| then s
    else if envelope == s.childAccepted then
      ChildAccept(s.(childAccepted := s.childAccepted + 1), s.parentSent[envelope], succeeds)
    else if s.child.Reported? then s.(child := s.child.(answering := false))
    else Fail(s)
  }

  function ChildProceeds(s: State): State {
    match s.child
    case Starting => ChildSend(s, Hello, AwaitBootstrap)
    case Booted(core, directory, childEpoch) =>
      var active := Active(core, directory, childEpoch);
      s.(child := active, activated := s.activated + [active])
    case Active(core, directory, childEpoch) =>
      ChildSend(s, Committed(childEpoch), Reported(core, directory, childEpoch, true))
    case _ => s
  }

  function Step(s: State, a: Action): State {
    match a
    case ParentProceed(core, closeEnough, killed) => Proceed(s, core, closeEnough, killed)
    case ParentReceive(envelope, killed) => Receive(s, envelope, killed)
    case ParentTimeout(killed) => Timeout(s, killed)
    case ParentFail(killed) => GiveUp(s, killed)
    case ParentExit => s.(parent := Gone)
    case ChildProceed => ChildProceeds(s)
    case ChildReceive(envelope, succeeds) => ChildReceives(s, envelope, succeeds)
    case ChildFail => if s.child.Stopped? || s.child.Starting? || s.child.Reported? then s else Fail(s)
    case ChildExit => s.(child := Stopped)
  }

  function Run(s: State, actions: seq<Action>): State
    decreases |actions|
  {
    if actions == [] then s else Run(Step(s, actions[0]), actions[1..])
  }

  // ---- The invariant ----

  predicate PastRollback(p: ParentPhase) {
    p.AwaitCommitted? || p.AwaitStatus? || p.Succeeded? || p.Uncertain? || p.FailClosed? || p.Gone?
  }

  ghost predicate SentAt(sent: seq<Payload>, i: int, p: Payload) { 0 <= i < |sent| && sent[i] == p }

  /** Where the parent stands in its own log. */
  ghost predicate ParentInv(s: State) { ParentStands(s, |s.parentSent|) }

  ghost predicate ParentStands(s: State, n: nat)
    requires n == |s.parentSent|
  {
    match s.parent
    case AwaitHello => n == 0 && s.parentAccepted == 0
    case Staging => n == 0 && s.parentAccepted == 1
    case AwaitReady(round, core) =>
      round <= ROUND_LIMIT && n == round + 2 && s.parentAccepted == n - 1
    case Staged(round) => round <= ROUND_LIMIT && n == round + 2 && s.parentAccepted == n
    case Admitted | Frozen(_) => n <= ROUND_LIMIT + 2 && s.parentAccepted == n
    case AwaitFinalReady(core) =>
      n <= ROUND_LIMIT + 3 && s.parentAccepted == n - 1 &&
          SentAt(s.parentSent, n - 1, Prestage(true, core, s.directory))
    case Acknowledged(core) =>
      && n <= ROUND_LIMIT + 3 && s.parentAccepted == n && SentAt(s.parentSent, n - 1, Prestage(true, core, s.directory))
      && SentAt(s.childSent, n - 1, Ready(core, s.directory))
    case OutcomePending(core) =>
      && n <= ROUND_LIMIT + 3 && s.parentAccepted == n && SentAt(s.parentSent, n - 1, Prestage(true, core, s.directory))
      && SentAt(s.childSent, n - 1, Ready(core, s.directory)) && s.epoch < USIZE_MAX
    case AwaitCommitted =>
      n <= ROUND_LIMIT + 4 && s.parentAccepted == n - 1 && n > 0 && s.parentSent[n - 1].Commit?
    case AwaitStatus =>
      n <= ROUND_LIMIT + 5 && s.parentAccepted == n - 2 && n > 1 && s.parentSent[n - 2].Commit?
    case Succeeded(e) =>
      n <= ROUND_LIMIT + 5 && e as int == s.epoch + 1 && |s.activated| == 1 && s.activated[0].Active? &&
          s.activated[0].childEpoch == e
    case _ => n <= ROUND_LIMIT + 5
  }

  /** A Commit stands directly after the final update and repeats it, once the child answered that. */
  ghost predicate CommitInv(s: State, i: nat)
    requires i < |s.parentSent|
  {
    s.parentSent[i].Commit? ==>
      && PastRollback(s.parent) && i + 2 >= |s.parentSent|
      && s.parentSent[i].parentEpoch == s.epoch < USIZE_MAX
      && s.parentSent[i].directory == s.directory
      && SentAt(s.parentSent, i - 1, Prestage(true, s.parentSent[i].core, s.directory))
      && SentAt(s.childSent, i - 1, Ready(s.parentSent[i].core, s.directory))
  }

  /** The child answers the parent's i-th envelope with its own i-th. */
  ghost predicate AnswerInv(s: State, i: nat)
    requires i < |s.childSent|
  {
    match s.childSent[i]
    case Ready(core, directory) =>
      && i < s.childAccepted
      && i < |s.parentSent| && s.parentSent[i].Prestage?
      && s.parentSent[i].core == core && s.parentSent[i].directory == directory
    case Committed(e) => ActivatedWith(s, e)
    case Status(e) => ActivatedWith(s, e) && CommitBefore(s, i)
    case _ => true
  }

  ghost predicate ActivatedWith(s: State, e: u64) {
    |s.activated| == 1 && s.activated[0].Active? && s.activated[0].childEpoch == e
  }

  ghost predicate CommitBefore(s: State, i: nat) {
    exists j :: 0 <= j < i && j < |s.parentSent| && s.parentSent[j].Commit?
  }

  /** The child accepted this Commit as its latest envelope. */
  ghost predicate Holds(s: State, core: u64, directory: u64, childEpoch: u64) {
    && 0 < s.childAccepted <= |s.parentSent|
    && childEpoch > 0
    && s.parentSent[s.childAccepted - 1] == Commit(core, directory, childEpoch - 1)
    && |s.childSent| == s.childAccepted - 1
  }

  ghost predicate CommitSent(s: State, core: u64, directory: u64, childEpoch: u64) {
    childEpoch > 0 && Commit(core, directory, childEpoch - 1) in s.parentSent
  }

  ghost predicate ChildInv(s: State) {
    match s.child
    case Starting => s.childAccepted == |s.childSent| == 0
    case AwaitBootstrap => s.childAccepted == 0 && s.childSent == [Hello]
    case AwaitFirstPrestage => s.childAccepted == 1 && s.childSent == [Hello]
    case AwaitPrestage(core, directory) =>
      s.childAccepted == |s.childSent| && SentAt(s.parentSent, s.childAccepted - 1, Prestage(false, core, directory))
    case AwaitCommit(core, directory) =>
      s.childAccepted == |s.childSent| && SentAt(s.parentSent, s.childAccepted - 1, Prestage(true, core, directory))
    case Booted(core, directory, childEpoch) => Holds(s, core, directory, childEpoch) && s.activated == []
    case Active(core, directory, childEpoch) => Holds(s, core, directory, childEpoch) && s.activated == [s.child]
    case Reported(core, directory, childEpoch, _) =>
      && CommitSent(s, core, directory, childEpoch) && s.activated == [Active(core, directory, childEpoch)]
      && CommitBefore(s, |s.childSent|)
    case Stopped => true
  }

  ghost predicate ActivationInv(s: State) {
    && |s.activated| <= 1
    && (s.activated != [] ==>
          && (s.child.Active? || s.child.Reported? || s.child.Stopped?)
          && s.activated[0].Active?
          && CommitSent(s, s.activated[0].core, s.activated[0].directory, s.activated[0].childEpoch))
  }

  ghost predicate Inv(s: State) {
    && s.childAccepted <= |s.parentSent|
    && ParentInv(s) && ChildInv(s) && ActivationInv(s)
    && (forall i :: 0 <= i < |s.parentSent| ==> CommitInv(s, i))
    && (forall i :: 0 <= i < |s.childSent| ==> AnswerInv(s, i))
  }

  // ---- Every step keeps it ----

  ghost predicate Grows(s: State, s': State) {
    && s'.epoch == s.epoch && s'.directory == s.directory
    && s.parentSent <= s'.parentSent && s.childSent <= s'.childSent
    && s.childAccepted <= s'.childAccepted && s.activated <= s'.activated
    && (|s'.activated| == |s.activated| || s.activated == [])
  }

  /** The logs only grow, and past the point of no return the parent adds at most its query. */
  ghost predicate Extends(s: State, s': State) {
    && Grows(s, s')
    && (PastRollback(s.parent) ==>
          && PastRollback(s'.parent)
          && (|s'.parentSent| == |s.parentSent| ||
              (s.parent.AwaitCommitted? && |s'.parentSent| == |s.parentSent| + 1)))
  }

  /** What was true of each envelope when it was written stays true as the logs grow. */
  lemma LogsGrow(s: State, s': State)
    requires Inv(s) && Extends(s, s')
    ensures forall i :: 0 <= i < |s.parentSent| ==> CommitInv(s', i)
    ensures forall i :: 0 <= i < |s.childSent| ==> AnswerInv(s', i)
  {
    forall i | 0 <= i < |s.parentSent| ensures CommitInv(s', i) {
      assert CommitInv(s, i);
      if s.parent.AwaitCommitted? {
        assert CommitInv(s, |s.parentSent| - 1);
      }
    }
    forall i | 0 <= i < |s.childSent| ensures AnswerInv(s', i) {
      assert AnswerInv(s, i);
      if s.childSent[i].Status? {
        CommitStaysBefore(s, s', i);
      }
    }
  }

  lemma CommitStaysBefore(s: State, s': State, i: nat)
    requires s.parentSent <= s'.parentSent && CommitBefore(s, i)
    ensures CommitBefore(s', i)
  {
    var j :| 0 <= j < i && j < |s.parentSent| && s.parentSent[j].Commit?;
    assert s'.parentSent[j].Commit?;
  }

  /** A step of the parent: the child did nothing, though it may have been killed. */
  ghost predicate ParentMoved(s: State, s': State) {
    && (s'.child == s.child || s'.child == Stopped)
    && Extends(s, s') && ParentInv(s')
    && s'.childSent == s.childSent && s'.childAccepted == s.childAccepted && s'.activated == s.activated
    && (forall i :: |s.parentSent| <= i < |s'.parentSent| ==> CommitInv(s', i))
  }

  /** Such a step has only the parent's own part to show, and that of what it wrote. */
  lemma ParentMoves(s: State, s': State)
    requires Inv(s) && ParentMoved(s, s')
    ensures Inv(s')
  {
    LogsGrow(s, s');
    if s.child.Reported? {
      CommitStaysBefore(s, s', |s.childSent|);
    }
  }

  ghost predicate ChildMoved(s: State, s': State) {
    && s'.parent == s.parent
    && Extends(s, s') && ChildInv(s') && ActivationInv(s') && s'.childAccepted <= |s.parentSent|
    && s'.parentSent == s.parentSent && s'.parentAccepted == s.parentAccepted
    && (forall i :: |s.childSent| <= i < |s'.childSent| ==> AnswerInv(s', i))
  }

  lemma ChildMoves(s: State, s': State)
    requires Inv(s) && ChildMoved(s, s')
    ensures Inv(s')
  {
    LogsGrow(s, s');
  }

  /** Giving up is sound wherever in the inbound stream the parent stopped. */
  lemma GiveUpKeeps(s: State, accepted: nat, killed: bool)
    requires Inv(s) && (accepted == s.parentAccepted || ParentReads(s.parent))
    ensures Inv(GiveUp(s.(parentAccepted := accepted), killed))
  {
    GiveUpMoves(s, accepted, killed);
    ParentMoves(s, GiveUp(s.(parentAccepted := accepted), killed));
  }

  lemma GiveUpMoves(s: State, accepted: nat, killed: bool)
    requires ParentInv(s) && (accepted == s.parentAccepted || ParentReads(s.parent))
    ensures ParentMoved(s, GiveUp(s.(parentAccepted := accepted), killed))
  {
  }

  lemma PrestageKeeps(s: State, core: u64, closeEnough: bool, killed: bool)
    requires Inv(s) && (s.parent.Staging? || s.parent.Staged?)
    ensures Inv(Proceed(s, core, closeEnough, killed))
  {
    if s.parent.Staged? && !closeEnough && s.parent.round == ROUND_LIMIT {
      GiveUpKeeps(s, s.parentAccepted, killed);
    } else {
      ParentMoves(s, Proceed(s, core, closeEnough, killed));
    }
  }

  lemma FreezeKeeps(s: State, core: u64, closeEnough: bool, killed: bool)
    requires Inv(s) && (s.parent.Admitted? || s.parent.Frozen?)
    ensures Inv(Proceed(s, core, closeEnough, killed))
  {
    ParentMoves(s, Proceed(s, core, closeEnough, killed));
  }

  lemma CommitKeeps(s: State, core: u64, closeEnough: bool, killed: bool)
    requires Inv(s) && (s.parent.Acknowledged? || s.parent.OutcomePending?)
    ensures Inv(Proceed(s, core, closeEnough, killed))
  {
    ParentMoves(s, Proceed(s, core, closeEnough, killed));
  }

  lemma ProceedKeeps(s: State, core: u64, closeEnough: bool, killed: bool)
    requires Inv(s)
    ensures Inv(Proceed(s, core, closeEnough, killed))
  {
    if s.parent.Staging? || s.parent.Staged? {
      PrestageKeeps(s, core, closeEnough, killed);
    } else if s.parent.Admitted? || s.parent.Frozen? {
      FreezeKeeps(s, core, closeEnough, killed);
    } else if s.parent.Acknowledged? || s.parent.OutcomePending? {
      CommitKeeps(s, core, closeEnough, killed);
    }
  }

  /** A Status never stands where the parent would have to read it. */
  lemma StatusCannotBeNext(s: State)
    requires Inv(s) && s.parent.AwaitStatus? && s.parentAccepted < |s.childSent|
    ensures !s.childSent[s.parentAccepted].Status?
  {
    forall j | 0 <= j < |s.parentSent| && s.parentSent[j].Commit? ensures j >= s.parentAccepted {
      assert CommitInv(s, j);
    }
    assert AnswerInv(s, s.parentAccepted);
  }

  lemma AcceptKeeps(s: State, killed: bool)
    requires Inv(s) && ParentReads(s.parent) && s.parentAccepted < |s.childSent|
    ensures Inv(Accept(s.(parentAccepted := s.parentAccepted + 1), s.childSent[s.parentAccepted], killed))
  {
    var s1 := s.(parentAccepted := s.parentAccepted + 1);
    var payload := s.childSent[s.parentAccepted];
    assert AnswerInv(s, s.parentAccepted);
    if s.parent.AwaitStatus? {
      StatusCannotBeNext(s);
    }
    AcceptMoves(s, payload, killed);
    if Accept(s1, payload, killed) == GiveUp(s1, killed) {
      GiveUpKeeps(s, s1.parentAccepted, killed);
    } else {
      ParentMoves(s, Accept(s1, payload, killed));
    }
  }

  lemma AcceptMoves(s: State, payload: Payload, killed: bool)
    requires ParentInv(s) && ParentReads(s.parent)
    requires s.parentAccepted < |s.childSent| && payload == s.childSent[s.parentAccepted]
    requires AnswerInv(s, s.parentAccepted) && !(s.parent.AwaitStatus? && payload.Status?)
    ensures
      var s1 := s.(parentAccepted := s.parentAccepted + 1);
      Accept(s1, payload, killed) == GiveUp(s1, killed) || ParentMoved(s, Accept(s1, payload, killed))
  {
  }

  lemma ReceiveKeeps(s: State, envelope: nat, killed: bool)
    requires Inv(s)
    ensures Inv(Receive(s, envelope, killed))
  {
    if ParentReads(s.parent) && envelope < |s.childSent| {
      if envelope == s.parentAccepted {
        AcceptKeeps(s, killed);
        assert Receive(s, envelope, killed)
            == Accept(s.(parentAccepted := s.parentAccepted + 1), s.childSent[s.parentAccepted], killed);
      } else {
        GiveUpKeeps(s, s.parentAccepted, killed);
        assert Receive(s, envelope, killed) == GiveUp(s.(parentAccepted := s.parentAccepted), killed);
      }
    }
  }

  lemma TimeoutKeeps(s: State, killed: bool)
    requires Inv(s)
    ensures Inv(Timeout(s, killed))
  {
    if s.parent.AwaitCommitted? {
      if s.epoch < USIZE_MAX {
        ParentMoves(s, ParentSend(s, Query(s.epoch + 1), AwaitStatus));
      }
    } else {
      GiveUpKeeps(s, s.parentAccepted, killed);
      assert s.(parentAccepted := s.parentAccepted) == s;
    }
  }

  /** Failing is sound wherever in the inbound stream the child stopped. */
  lemma FailKeeps(s: State, accepted: nat)
    requires Inv(s) && s.childAccepted <= accepted <= |s.parentSent|
    ensures Inv(Fail(s.(childAccepted := accepted)))
  {
    ChildMoves(s, Fail(s.(childAccepted := accepted)));
  }

  lemma ImportKeeps(s: State, current: int, succeeds: bool, initial: bool)
    requires Inv(s) && s.childAccepted < |s.parentSent| && s.childAccepted == |s.childSent| > 0 && s.activated == []
    ensures Inv(Import(s.(childAccepted := s.childAccepted + 1), s.parentSent[s.childAccepted], current, succeeds,
            initial))
  {
    FailKeeps(s, s.childAccepted + 1);
    ChildMoves(s, Import(s.(childAccepted := s.childAccepted + 1), s.parentSent[s.childAccepted], current, succeeds,
        initial));
  }

  lemma ChildAcceptKeeps(s: State, succeeds: bool)
    requires Inv(s) && ChildReads(s.child) && s.childAccepted < |s.parentSent|
    ensures Inv(ChildAccept(s.(childAccepted := s.childAccepted + 1), s.parentSent[s.childAccepted], succeeds))
  {
    var s1 := s.(childAccepted := s.childAccepted + 1);
    var payload := s.parentSent[s.childAccepted];
    FailKeeps(s, s1.childAccepted);
    match s.child
    case AwaitFirstPrestage => ImportKeeps(s, 0, succeeds, true);
    case AwaitPrestage(core, _) => ImportKeeps(s, core, succeeds, false);
    case Reported(_, _, _, _) => AnswerKeeps(s, succeeds);
    case _ =>
      if ChildAccept(s1, payload, succeeds) != Fail(s1) {
        ChildMoves(s, ChildAccept(s1, payload, succeeds));
      }
  }

  lemma AnswerKeeps(s: State, succeeds: bool)
    requires Inv(s) && s.child.Reported? && s.childAccepted < |s.parentSent|
    ensures Inv(ChildAccept(s.(childAccepted := s.childAccepted + 1), s.parentSent[s.childAccepted], succeeds))
  {
    var s' := ChildAccept(s.(childAccepted := s.childAccepted + 1), s.parentSent[s.childAccepted], succeeds);
    assert CommitBefore(s', |s'.childSent|) by {
      var j :| 0 <= j < |s.childSent| && j < |s.parentSent| && s.parentSent[j].Commit?;
    }
    CommitStaysBefore(s, s', |s.childSent|);
    ChildMoves(s, s');
  }

  lemma OutOfOrderKeeps(s: State, envelope: nat, succeeds: bool)
    requires Inv(s) && ChildReads(s.child) && envelope != s.childAccepted
    ensures Inv(ChildReceives(s, envelope, succeeds))
  {
    FailKeeps(s, s.childAccepted);
    if s.child.Reported? {
      ChildMoves(s, s.(child := s.child.(answering := false)));
    }
  }

  lemma ChildReceivesKeeps(s: State, envelope: nat, succeeds: bool)
    requires Inv(s)
    ensures Inv(ChildReceives(s, envelope, succeeds))
  {
    if ChildReads(s.child) && envelope < |s.parentSent| {
      if envelope == s.childAccepted {
        ChildAcceptKeeps(s, succeeds);
        assert ChildReceives(s, envelope, succeeds)
            == ChildAccept(s.(childAccepted := s.childAccepted + 1), s.parentSent[s.childAccepted], succeeds);
      } else {
        OutOfOrderKeeps(s, envelope, succeeds);
      }
    }
  }

  lemma ReportKeeps(s: State)
    requires Inv(s) && s.child.Active?
    ensures Inv(ChildProceeds(s))
  {
    var s' := ChildProceeds(s);
    assert s'.parentSent[s.childAccepted - 1].Commit?;
    ChildMoves(s, s');
  }

  lemma ChildProceedsKeeps(s: State)
    requires Inv(s)
    ensures Inv(ChildProceeds(s))
  {
    if s.child.Starting? {
      ChildMoves(s, ChildSend(s, Hello, AwaitBootstrap));
    } else if s.child.Active? {
      ReportKeeps(s);
    } else {
      ChildMoves(s, ChildProceeds(s));
    }
  }

  /** Every step of either process, and every fault, keeps the invariant. */
  lemma StepKeeps(s: State, a: Action)
    requires Inv(s)
    ensures Inv(Step(s, a))
  {
    match a
    case ParentProceed(core, closeEnough, killed) => ProceedKeeps(s, core, closeEnough, killed);
    case ParentReceive(envelope, killed) => ReceiveKeeps(s, envelope, killed);
    case ParentTimeout(killed) => TimeoutKeeps(s, killed);
    case ParentFail(killed) => GiveUpKeeps(s, s.parentAccepted, killed);
    case ParentExit => ParentMoves(s, Step(s, a));
    case ChildProceed => ChildProceedsKeeps(s);
    case ChildReceive(envelope, succeeds) => ChildReceivesKeeps(s, envelope, succeeds);
    case ChildFail => FailKeeps(s, s.childAccepted);
    case ChildExit => ChildMoves(s, Step(s, a));
  }

  lemma {:induction false} RunKeeps(s: State, actions: seq<Action>)
    requires Inv(s)
    ensures Inv(Run(s, actions))
    decreases |actions|
  {
    if actions != [] {
      StepKeeps(s, actions[0]);
      RunKeeps(Step(s, actions[0]), actions[1..]);
    }
  }

  // ---- The theorems, for every reachable state ----

  ghost predicate Reachable(s: State) {
    exists epoch: u64, snapshotCore: u64, directory: u64, actions: seq<Action> ::
      s == Run(Initial(epoch, snapshotCore, directory), actions)
  }

  lemma ReachableInv(s: State)
    requires Reachable(s)
    ensures Inv(s)
  {
    var epoch: u64, snapshotCore: u64, directory: u64, actions: seq<Action> :|
      s == Run(Initial(epoch, snapshotCore, directory), actions);
    RunKeeps(Initial(epoch, snapshotCore, directory), actions);
  }

  lemma SentMeansPastRollback(s: State, payload: Payload)
    requires Inv(s) && payload in s.parentSent && payload.Commit?
    ensures PastRollback(s.parent) && payload.parentEpoch == s.epoch && payload.directory == s.directory
  {
    var i :| 0 <= i < |s.parentSent| && s.parentSent[i] == payload;
    assert CommitInv(s, i);
  }

  /**
   * No split brain: parent and child never both serve. Indeed once the child has started serving,
   * even if it has died since, the parent does not serve.
   */
  lemma NeverBothServing(s: State)
    requires Reachable(s)
    ensures !(ParentServes(s.parent) && ChildServes(s.child))
    ensures s.activated != [] ==> !ParentServes(s.parent)
    ensures ChildServes(s.child) ==> s.activated != []
  {
    ReachableInv(s);
    if s.activated != [] {
      var a := s.activated[0];
      SentMeansPastRollback(s, Commit(a.core, a.directory, a.childEpoch - 1));
    }
  }

  /**
   * Commit is written only after the child acknowledged exactly the final revisions: it directly
   * follows the frozen update it repeats, which the child has answered.
   */
  lemma CommitOnlyAfterExactAcknowledgement(s: State, i: nat)
    requires Reachable(s) && i < |s.parentSent| && s.parentSent[i].Commit?
    ensures
      var commit := s.parentSent[i];
      && i > 0 && s.parentSent[i - 1] == Prestage(true, commit.core, commit.directory)
      && i <= |s.childSent| && s.childSent[i - 1] == Ready(commit.core, commit.directory)
      && commit.parentEpoch == s.epoch
  {
    ReachableInv(s);
    assert CommitInv(s, i);
  }

  /** When rollback authority is consumed, a live child is waiting for Commit with the final state imported. */
  lemma ChildIsReadyForCommit(s: State)
    requires Reachable(s) && (s.parent.Acknowledged? || s.parent.OutcomePending?)
    ensures s.child == AwaitCommit(s.parent.core, s.directory) || s.child == Stopped
  {
    ReachableInv(s);
    forall i | 0 <= i < |s.parentSent| ensures !s.parentSent[i].Commit? {
      assert CommitInv(s, i);
    }
    assert AnswerInv(s, |s.parentSent| - 1);
  }

  /** The parent concludes success only if the child took over exactly what was frozen, one epoch later. */
  lemma SuccessMeansActivated(s: State)
    requires Reachable(s) && s.parent.Succeeded?
    ensures s.parent.childEpoch as int == s.epoch + 1
    ensures exists core: u64 ::
              && Commit(core, s.directory, s.epoch) in s.parentSent
              && s.activated == [Active(core, s.directory, s.parent.childEpoch)]
  {
    ReachableInv(s);
    var a := s.activated[0];
    SentMeansPastRollback(s, Commit(a.core, a.directory, a.childEpoch - 1));
  }

  lemma StepAfterCommit(s: State, a: Action, i: nat)
    requires i < |s.parentSent| && s.parentSent[i].Commit?
    ensures i < |Step(s, a).parentSent| && Step(s, a).parentSent[i].Commit?
  {
  }

  /** After Commit the parent never resumes, whatever happens: it succeeds, retires or is gone. */
  lemma {:induction false} AfterCommitNeverResumes(s: State, i: nat, later: seq<Action>)
    requires Inv(s) && i < |s.parentSent| && s.parentSent[i].Commit?
    ensures PastRollback(Run(s, later).parent) && !ParentServes(Run(s, later).parent)
    decreases |later|
  {
    if later == [] {
      assert CommitInv(s, i);
    } else {
      StepKeeps(s, later[0]);
      StepAfterCommit(s, later[0], i);
      AfterCommitNeverResumes(Step(s, later[0]), i, later[1..]);
    }
  }

  lemma {:induction false} WithoutCommitChildNeverServes(s: State, later: seq<Action>)
    requires Inv(s) && (s.parent.Restored? || s.parent.Gone?) && forall p <- s.parentSent :: !p.Commit?
    ensures !ChildServes(Run(s, later).child) && Run(s, later).activated == []
    decreases |later|
  {
    if later != [] {
      StepKeeps(s, later[0]);
      assert Step(s, later[0]).parentSent == s.parentSent;
      WithoutCommitChildNeverServes(Step(s, later[0]), later[1..]);
    }
  }

  /** A parent that resumed keeps its authority: the child never has served and never will. */
  lemma RestoredParentStaysAlone(s: State, later: seq<Action>)
    requires Reachable(s) && s.parent.Restored?
    ensures !ChildServes(Run(s, later).child) && Run(s, later).activated == []
  {
    ReachableInv(s);
    forall i | 0 <= i < |s.parentSent| ensures !s.parentSent[i].Commit? {
      assert CommitInv(s, i);
    }
    WithoutCommitChildNeverServes(s, later);
  }

  predicate Unreconciled(p: ParentPhase) { p.AwaitStatus? || p.Uncertain? || p.Gone? }

  lemma StepStaysUnreconciled(s: State, a: Action)
    requires Inv(s) && Unreconciled(s.parent)
    ensures Unreconciled(Step(s, a).parent)
  {
    if s.parent.AwaitStatus? && s.parentAccepted < |s.childSent| {
      StatusCannotBeNext(s);
    }
  }

  /**
   * The status query cannot reconcile a timed-out wait. The child writes Committed before any
   * Status, so the next envelope in sequence is never a Status: from the timeout on, the parent
   * can only end uncertain, even when the child did take over.
   */
  lemma {:induction false} StatusQueryNeverReconciles(s: State, later: seq<Action>)
    requires Inv(s) && Unreconciled(s.parent)
    ensures Unreconciled(Run(s, later).parent)
    decreases |later|
  {
    if later != [] {
      StepKeeps(s, later[0]);
      StepStaysUnreconciled(s, later[0]);
      StatusQueryNeverReconciles(Step(s, later[0]), later[1..]);
    }
  }

  /** The protocol is bounded: the parent writes at most 37 envelopes. */
  lemma ParentWritesBoundedly(s: State)
    requires Reachable(s)
    ensures |s.parentSent| <= ROUND_LIMIT + 5
  {
    ReachableInv(s);
  }

  lemma {:induction false} RunAppends(s: State, actions: seq<Action>, more: seq<Action>)
    ensures Run(s, actions + more) == Run(Run(s, actions), more)
    decreases |actions|
  {
    if actions == [] {
      assert actions + more == more;
    } else {
      assert (actions + more)[1..] == actions[1..] + more;
      RunAppends(Step(s, actions[0]), actions[1..], more);
    }
  }

  lemma RunFour(s: State, a: Action, b: Action, c: Action, d: Action)
    ensures Run(s, [a, b, c, d]) == Step(Step(Step(Step(s, a), b), c), d)
  {
    assert [a, b, c, d][1..] == [b, c, d] && [b, c, d][1..] == [c, d];
    RunTwo(Step(Step(s, a), b), c, d);
  }

  lemma RunTwo(s: State, a: Action, b: Action)
    ensures Run(s, [a, b]) == Step(Step(s, a), b)
  {
    assert [a, b][1..] == [b];
    assert Run(Step(s, a), [b]) == Run(Step(Step(s, a), b), []);
  }

  function StagingScript(): seq<Action> {
    [ChildProceed, ParentReceive(0, true), ParentProceed(0, false, true), ChildReceive(0, true)]
  }

  function PrestageScript(core: u64): seq<Action> {
    [ChildReceive(1, true), ParentReceive(1, true), ParentProceed(core, false, true), ChildReceive(2, true)]
  }

  function FreezeScript(core: u64): seq<Action> {
    [ParentReceive(2, true), ParentProceed(core, true, true), ParentProceed(core, true, true),
        ParentProceed(core, true, true)]
  }

  function CommitScript(core: u64): seq<Action> {
    [ChildReceive(3, true), ParentReceive(3, true), ParentProceed(core, true, true), ParentProceed(core, true, true)]
  }

  /** A run without faults up to the moment Commit is under way. */
  function ToCommit(core: u64): seq<Action> {
    StagingScript() + PrestageScript(core) + FreezeScript(core) + CommitScript(core)
  }

  function Committing(epoch: u64, core: u64, directory: u64): State {
    State(epoch, core, directory,
          AwaitCommitted,
          [Bootstrap, Prestage(false, core, directory), Prestage(false, core, directory),
           Prestage(true, core, directory), Commit(core, directory, epoch)], 4,
          AwaitCommit(core, directory),
          [Hello, Ready(core, directory), Ready(core, directory), Ready(core, directory)], 4, [])
  }

  function Staging1(epoch: u64, core: u64, directory: u64): State {
    State(epoch, core, directory,
          AwaitReady(0, core), [Bootstrap, Prestage(false, core, directory)], 1,
          AwaitFirstPrestage, [Hello], 1, [])
  }

  function Staging2(epoch: u64, core: u64, directory: u64): State {
    State(epoch, core, directory,
          AwaitReady(1, core),
          [Bootstrap, Prestage(false, core, directory), Prestage(false, core, directory)], 2,
          AwaitPrestage(core, directory), [Hello, Ready(core, directory), Ready(core, directory)], 3, [])
  }

  function Freezing(epoch: u64, core: u64, directory: u64): State {
    State(epoch, core, directory,
          AwaitFinalReady(core),
          [Bootstrap, Prestage(false, core, directory), Prestage(false, core, directory),
              Prestage(true, core, directory)], 3,
          AwaitPrestage(core, directory), [Hello, Ready(core, directory), Ready(core, directory)], 3, [])
  }

  lemma RunStaging(epoch: u64, core: u64, directory: u64)
    ensures Run(Initial(epoch, core, directory), StagingScript()) == Staging1(epoch, core, directory)
  {
    var t := StagingScript();
    RunFour(Initial(epoch, core, directory), t[0], t[1], t[2], t[3]);
  }

  lemma RunPrestage(epoch: u64, core: u64, directory: u64)
    ensures Run(Staging1(epoch, core, directory), PrestageScript(core)) == Staging2(epoch, core, directory)
  {
    var t := PrestageScript(core);
    RunFour(Staging1(epoch, core, directory), t[0], t[1], t[2], t[3]);
  }

  lemma RunFreeze(epoch: u64, core: u64, directory: u64)
    ensures Run(Staging2(epoch, core, directory), FreezeScript(core)) == Freezing(epoch, core, directory)
  {
    var t := FreezeScript(core);
    RunFour(Staging2(epoch, core, directory), t[0], t[1], t[2], t[3]);
  }

  lemma RunCommit(epoch: u64, core: u64, directory: u64)
    requires epoch < USIZE_MAX
    ensures Run(Freezing(epoch, core, directory), CommitScript(core)) == Committing(epoch, core, directory)
  {
    var t := CommitScript(core);
    RunFour(Freezing(epoch, core, directory), t[0], t[1], t[2], t[3]);
  }

  lemma RunToCommit(epoch: u64, core: u64, directory: u64)
    requires epoch < USIZE_MAX
    ensures Run(Initial(epoch, core, directory), ToCommit(core)) == Committing(epoch, core, directory)
  {
    var s0 := Initial(epoch, core, directory);
    RunStaging(epoch, core, directory);
    RunPrestage(epoch, core, directory);
    RunFreeze(epoch, core, directory);
    RunCommit(epoch, core, directory);
    RunAppends(s0, StagingScript() + PrestageScript(core) + FreezeScript(core), CommitScript(core));
    RunAppends(s0, StagingScript() + PrestageScript(core), FreezeScript(core));
    RunAppends(s0, StagingScript(), PrestageScript(core));
  }

  /** Without faults the hand-off completes: the child serves one epoch later and the parent knows it. */
  lemma HandoffCanSucceed(epoch: u64, core: u64, directory: u64)
    requires epoch < USIZE_MAX
    ensures
      var finish := [ChildReceive(4, true), ChildProceed, ChildProceed, ParentReceive(4, true)];
      var s := Run(Initial(epoch, core, directory), ToCommit(core) + finish);
      s.parent == Succeeded(epoch + 1) && s.child == Reported(core, directory, epoch + 1, true)
  {
    var finish := [ChildReceive(4, true), ChildProceed, ChildProceed, ParentReceive(4, true)];
    var s := Run(Initial(epoch, core, directory), ToCommit(core));
    RunToCommit(epoch, core, directory);
    RunAppends(Initial(epoch, core, directory), ToCommit(core), finish);
    RunFour(s, finish[0], finish[1], finish[2], finish[3]);
  }

  function LateTakeOver(): seq<Action> { [ParentTimeout(true), ChildReceive(4, true), ChildProceed, ChildProceed] }

  function LateQuery(): seq<Action> { [ChildReceive(5, true), ParentReceive(4, true)] }

  function TakenOverLate(epoch: u64, core: u64, directory: u64): State
    requires epoch < USIZE_MAX
  {
    State(epoch, core, directory,
          AwaitStatus,
          [Bootstrap, Prestage(false, core, directory), Prestage(false, core, directory),
           Prestage(true, core, directory), Commit(core, directory, epoch), Query(epoch + 1)], 4,
          Reported(core, directory, epoch + 1, true),
          [Hello, Ready(core, directory), Ready(core, directory), Ready(core, directory), Committed(epoch + 1)], 5,
          [Active(core, directory, epoch + 1)])
  }

  lemma RunLateTakeOver(epoch: u64, core: u64, directory: u64)
    requires epoch < USIZE_MAX
    ensures Run(Committing(epoch, core, directory), LateTakeOver()) == TakenOverLate(epoch, core, directory)
  {
    var t := LateTakeOver();
    RunFour(Committing(epoch, core, directory), t[0], t[1], t[2], t[3]);
  }

  lemma RunLateQuery(epoch: u64, core: u64, directory: u64)
    requires epoch < USIZE_MAX
    ensures
      var s := Run(TakenOverLate(epoch, core, directory), LateQuery());
      && s.parent == Uncertain && s.child == Reported(core, directory, epoch + 1, true)
      && |s.childSent| == 6 && s.childSent[5] == Status(epoch + 1)
  {
    RunTwo(TakenOverLate(epoch, core, directory), LateQuery()[0], LateQuery()[1]);
  }

  /** A child slower than the timeout takes over all the same, and the parent retires uncertain of it. */
  lemma SlowChildIsNotRecognised(epoch: u64, core: u64, directory: u64)
    requires epoch < USIZE_MAX
    ensures
      var s := Run(Initial(epoch, core, directory), ToCommit(core) + LateTakeOver() + LateQuery());
      && s.parent == Uncertain && s.child == Reported(core, directory, epoch + 1, true)
      && |s.childSent| == 6 && s.childSent[5] == Status(epoch + 1)
  {
    var s0 := Initial(epoch, core, directory);
    RunAppends(s0, ToCommit(core) + LateTakeOver(), LateQuery());
    RunAppends(s0, ToCommit(core), LateTakeOver());
    RunToCommit(epoch, core, directory);
    RunLateTakeOver(epoch, core, directory);
    RunLateQuery(epoch, core, directory);
  }
}

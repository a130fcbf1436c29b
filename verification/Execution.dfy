/** The actor loop: freezing, sealing a checkpoint, deferring sends, resuming and handing over. */
module Execution {
  import opened Wrappers
  import opened Bytes
  import opened Budget
  import opened Peer
  import opened PeerInvariant
  import opened Snapshot
  import opened Delivery

  datatype Command = SendCommand(payload: bytes) | FreezeCommand | SealCommand | ResumeCommand | TransferCommand

  /** What the loop may find ready; `Proceed` lets it take a deferred send. */
  datatype Input =
    | Order(command: Command, env: Env)
    | Ingress(datagram: bytes, env: Env)
    | TimerFires(env: Env)
    | Admitted(at: Instant)      // the router admitted a datagram to the ingress queue
    | Collected                  // the application took the oldest queued payload
    | Proceed(env: Env)

  datatype Mode = Running | Frozen(since: Instant)

  datatype Reply = SendReply(error: Option<RakNetError>) | QueueFullReply | DoneReply | SealReply(sealed: PeerSnapshot)

  datatype Actor = Actor(
    peer: Peer,
    mode: Mode,
    deferred: seq<bytes>,
    stopped: bool,
    replies: seq<Reply>,
    admitted: seq<bytes>,        // sends not refused with QueueFull, in submission order
    applied: seq<bytes>,         // sends handed to SendApplication, in order
    positions: seq<nat>)         // where each successful one stands among the messages sent

  function NewActor(p: Peer, mode: Mode): Actor { Actor(p, mode, [], false, [], [], [], []) }

  // ---- Timers across a freeze ----

  function ResumeUnacked(d: Unacked, since: Instant, now: Instant): Unacked {
    d.(sentAt := Rewind(now, SaturatingSub(since, d.sentAt)))
  }

  function ResumeAll(m: map<u24, Unacked>, since: Instant, now: Instant): (r: map<u24, Unacked>)
    ensures r.Keys == m.Keys
  {
    map s | s in m :: ResumeUnacked(m[s], since, now)
  }

  /** Frozen time does not count: every timer keeps the age it had when the freeze began. */
  function ResumeTimers(p: Peer, since: Instant, now: Instant): Peer {
    p.(lastObserved := Rewind(now, SaturatingSub(since, p.lastObserved)),
       tx := p.tx.(unacked := ResumeAll(p.tx.unacked, since, now)))
  }

  lemma ResumedTimer(limit: nat, started: Instant, since: Instant, now: Instant)
    requires since <= now
    ensures Remaining(limit, Rewind(now, SaturatingSub(since, started)), now) == Remaining(limit, started, since)
  {
  }

  lemma ResumedListing(m: map<u24, Unacked>, since: Instant, now: Instant)
    requires since <= now
    ensures ListUnacked(ResumeAll(m, since, now), now) == ListUnacked(m, since)
  {
    var keys := SortedSequences(m.Keys);
    var list, list' := ListUnacked(m, since), ListUnacked(ResumeAll(m, since, now), now);
    forall i | 0 <= i < |keys| ensures keys[i] in m && list[i] == list'[i] {
      var d := m[keys[i]];
      ResumedTimer(RetransmitDelay(d.attempts), d.sentAt, since, now);
    }
  }

  /** The checkpoint at resume time equals the checkpoint at freeze time. */
  lemma ResumeCostsNothing(p: Peer, since: Instant, now: Instant)
    requires since <= now
    ensures TakeSnapshot(ResumeTimers(p, since, now), now) == TakeSnapshot(p, since)
  {
    ResumedListing(p.tx.unacked, since, now);
    ResumedTimer(PEER_TIMEOUT, p.lastObserved, since, now);
  }

  // ---- The loop ----

  function Apply(a: Actor, payload: bytes, env: Env): Actor {
    var r := SendApplication(a.peer, payload, env);
    a.(peer := r.peer, stopped := r.error.Some?, replies := a.replies + [SendReply(r.error)],
       applied := a.applied + [payload],
       positions := if r.error.None? then a.positions + [|a.peer.tx.sent|] else a.positions)
  }

  ghost function ApplyCommand(a: Actor, command: Command, env: Env): Actor {
    match command
    case SendCommand(payload) => Apply(a.(admitted := a.admitted + [payload]), payload, env)
    case FreezeCommand => a.(mode := Frozen(env.now), replies := a.replies + [DoneReply])
    case SealCommand => a.(replies := a.replies + [SealReply(TakeSnapshot(a.peer, env.now))])
    case ResumeCommand => a
    case TransferCommand => a.(stopped := true, replies := a.replies + [DoneReply])
  }

  ghost function FrozenCommand(a: Actor, since: Instant, command: Command, env: Env): Actor {
    match command
    case FreezeCommand => a.(replies := a.replies + [DoneReply])
    case SealCommand => a.(replies := a.replies + [SealReply(TakeSnapshot(a.peer, since))])
    case ResumeCommand => a.(peer := ResumeTimers(a.peer, since, env.now), mode := Running)
    case TransferCommand => a.(stopped := true, replies := a.replies + [DoneReply])
    case SendCommand(payload) =>
      if |a.deferred| < a.peer.budgets.peerCommandQueue then
        a.(deferred := a.deferred + [payload], admitted := a.admitted + [payload])
      else a.(replies := a.replies + [QueueFullReply])
  }

  function Settle(a: Actor, r: Outcome): Actor { a.(peer := r.peer, stopped := r.error.Some?) }

  /** One iteration. What is not ready for the current mode stays queued and changes nothing. */
  ghost function LoopStep(a: Actor, input: Input): Actor {
    if input.Admitted? then a.(peer := Observe(a.peer, input.at))
    else if input.Collected? then a.(peer := Step(a.peer, Consume).peer)
    else if a.stopped then a
    else if a.mode.Frozen? then
      if input.Order? then FrozenCommand(a, a.mode.since, input.command, input.env) else a
    else if a.deferred != [] then
      if input.Proceed? then Apply(a.(deferred := a.deferred[1..]), a.deferred[0], input.env) else a
    else match input
      case Order(command, env) => ApplyCommand(a, command, env)
      case Ingress(datagram, env) => Settle(a, ReceiveDatagram(a.peer, datagram, env))
      case TimerFires(env) => Settle(a, OnTimer(a.peer, env))
      case Proceed(_) => a
      case Admitted(_) => a
      case Collected => a
  }

  ghost function Loop(a: Actor, inputs: seq<Input>): Actor
    decreases |inputs|
  {
    if inputs == [] then a else LoopStep(Loop(a, inputs[..|inputs| - 1]), inputs[|inputs| - 1])
  }

  // ---- A running actor satisfies the peer invariant ----

  ghost predicate Healthy(a: Actor) { !a.stopped ==> Inv(a.peer) }

  lemma ResumeKeeps(p: Peer, since: Instant, now: Instant)
    requires Inv(p)
    ensures Inv(ResumeTimers(p, since, now))
  {
    var m, m' := p.tx.unacked, ResumeAll(p.tx.unacked, since, now);
    assert |m'| == |m'.Keys| == |m.Keys| == |m|;
  }

  lemma RunningStepKeeps(a: Actor, input: Input)
    requires Inv(a.peer) && a.mode.Running? && !a.stopped && !input.Admitted? && !input.Collected?
    ensures Healthy(LoopStep(a, input))
  {
    if a.deferred != [] {
      if input.Proceed? {
        StepKeeps(a.peer, Submit(a.deferred[0], input.env));
      }
    } else if input.Order? && input.command.SendCommand? {
      StepKeeps(a.peer, Submit(input.command.payload, input.env));
    } else if input.Ingress? {
      StepKeeps(a.peer, Arrive(input.datagram, input.env));
    } else if input.TimerFires? {
      StepKeeps(a.peer, Tick(input.env));
    }
  }

  lemma LoopStepKeeps(a: Actor, input: Input)
    requires Healthy(a)
    ensures Healthy(LoopStep(a, input))
  {
    if !a.stopped && !input.Admitted? {
      if input.Collected? {
        StepKeeps(a.peer, Consume);
      } else if a.mode.Running? {
        RunningStepKeeps(a, input);
      } else if input.Order? && input.command.ResumeCommand? {
        ResumeKeeps(a.peer, a.mode.since, input.env.now);
      }
    }
  }

  /** Whatever commands, datagrams, timers and freezes come, the actor is healthy until it stops. */
  lemma {:induction false} LoopKeeps(a: Actor, inputs: seq<Input>)
    requires Healthy(a)
    ensures Healthy(Loop(a, inputs))
    decreases |inputs|
  {
    if inputs != [] {
      LoopKeeps(a, inputs[..|inputs| - 1]);
      LoopStepKeeps(Loop(a, inputs[..|inputs| - 1]), inputs[|inputs| - 1]);
    }
  }

  // ---- Sends leave in submission order ----

  /**
   * What was admitted is what has been applied followed by what is still deferred, and the applied
   * sends stand among the peer's messages in that order.
   */
  ghost predicate InSubmissionOrder(a: Actor) {
    && a.admitted == a.applied + a.deferred
    && |a.positions| <= |a.applied| <= |a.positions| + 1
    && (!a.stopped ==> |a.positions| == |a.applied|)
    && (forall i, j :: 0 <= i < j < |a.positions| ==> a.positions[i] < a.positions[j])
    && (forall i :: 0 <= i < |a.positions| ==>
          a.positions[i] < |a.peer.tx.sent| && a.peer.tx.sent[a.positions[i]] == a.applied[i])
  }

  lemma SendAppends(p: Peer, payload: bytes, env: Env)
    requires SendApplication(p, payload, env).error.None?
    ensures SendApplication(p, payload, env).peer.tx.sent == p.tx.sent + [payload]
  {
    var capacity := FragmentCapacity(p.mtu);
    var tx := Numbering(p.tx, payload);
    SendFragmentsKeepsSent(tx, Fragments(payload, capacity), 0, p.tx.nextOrdered, p.tx.nextSplitId, p.budgets, env.now);
  }

  lemma ApplyKeepsOrder(a: Actor, payload: bytes, env: Env)
    requires !a.stopped && a.admitted == a.applied + [payload] + a.deferred
    requires |a.positions| == |a.applied|
    requires forall i, j :: 0 <= i < j < |a.positions| ==> a.positions[i] < a.positions[j]
    requires forall i :: 0 <= i < |a.positions| ==>
               a.positions[i] < |a.peer.tx.sent| && a.peer.tx.sent[a.positions[i]] == a.applied[i]
    ensures InSubmissionOrder(Apply(a, payload, env))
  {
    StepEvolves(a.peer, Submit(payload, env));
    if SendApplication(a.peer, payload, env).error.None? {
      SendAppends(a.peer, payload, env);
    }
  }

  lemma SettleKeepsOrder(a: Actor, r: Outcome)
    requires InSubmissionOrder(a) && a.peer.tx.sent <= r.peer.tx.sent && !a.stopped
    ensures InSubmissionOrder(Settle(a, r))
  {
  }

  lemma CommandKeepsOrder(a: Actor, command: Command, env: Env)
    requires InSubmissionOrder(a) && !a.stopped && (a.mode.Frozen? || a.deferred == [])
    ensures a.mode.Running? ==> InSubmissionOrder(ApplyCommand(a, command, env))
    ensures a.mode.Frozen? ==> InSubmissionOrder(FrozenCommand(a, a.mode.since, command, env))
  {
    if command.SendCommand? && a.mode.Running? {
      ApplyKeepsOrder(a.(admitted := a.admitted + [command.payload]), command.payload, env);
    }
  }

  lemma DeferredKeepsOrder(a: Actor, env: Env)
    requires InSubmissionOrder(a) && !a.stopped && a.deferred != []
    ensures InSubmissionOrder(Apply(a.(deferred := a.deferred[1..]), a.deferred[0], env))
  {
    assert a.deferred == [a.deferred[0]] + a.deferred[1..];
    ApplyKeepsOrder(a.(deferred := a.deferred[1..]), a.deferred[0], env);
  }

  lemma LoopStepKeepsOrder(a: Actor, input: Input)
    requires InSubmissionOrder(a)
    ensures InSubmissionOrder(LoopStep(a, input))
  {
    if !a.stopped && !input.Admitted? {
      if input.Order? && (a.mode.Frozen? || a.deferred == []) {
        CommandKeepsOrder(a, input.command, input.env);
      } else if a.mode.Running? && a.deferred != [] && input.Proceed? {
        DeferredKeepsOrder(a, input.env);
      } else if input.Ingress? {
        StepEvolves(a.peer, Arrive(input.datagram, input.env));
        SettleKeepsOrder(a, ReceiveDatagram(a.peer, input.datagram, input.env));
      } else if input.TimerFires? {
        StepEvolves(a.peer, Tick(input.env));
        SettleKeepsOrder(a, OnTimer(a.peer, input.env));
      }
    }
  }

  /** Over every run of the loop, from a fresh or an imported peer. */
  lemma {:induction false} SendsLeaveInSubmissionOrder(p: Peer, mode: Mode, inputs: seq<Input>)
    ensures InSubmissionOrder(Loop(NewActor(p, mode), inputs))
    decreases |inputs|
  {
    if inputs != [] {
      SendsLeaveInSubmissionOrder(p, mode, inputs[..|inputs| - 1]);
      LoopStepKeepsOrder(Loop(NewActor(p, mode), inputs[..|inputs| - 1]), inputs[|inputs| - 1]);
    }
  }

  // ---- A freeze holds everything still ----

  ghost predicate Quiet(input: Input) {
    !(input.Order? && (input.command.ResumeCommand? || input.command.TransferCommand?))
  }

  /** The last instant at which the router admitted something, or `start`. */
  function LastAdmitted(inputs: seq<Input>, start: Instant): Instant {
    if inputs == [] then start else
    var before, last := LastAdmitted(inputs[..|inputs| - 1], start), inputs[|inputs| - 1];
    if last.Admitted? then Max(before, last.at) else before
  }

  /** What the application has left in the queue. */
  function LeftQueued(inputs: seq<Input>, queue: seq<bytes>): seq<bytes> {
    if inputs == [] then queue else
    var before := LeftQueued(inputs[..|inputs| - 1], queue);
    if inputs[|inputs| - 1].Collected? && before != [] then before[1..] else before
  }

  /**
   * Until it is resumed or handed over, a frozen actor keeps its first freeze instant and its
   * whole protocol state, whatever arrives; only the router's activity mark moves, and the
   * application may go on emptying its queue.
   */
  lemma {:induction false} FrozenHoldsStill(a: Actor, inputs: seq<Input>)
    requires a.mode.Frozen? && !a.stopped && forall i :: 0 <= i < |inputs| ==> Quiet(inputs[i])
    ensures
      var r := Loop(a, inputs);
      && r.mode == a.mode && !r.stopped
      && r.peer == a.peer.(lastObserved := LastAdmitted(inputs, a.peer.lastObserved),
                           inbox := LeftQueued(inputs, a.peer.inbox))
    decreases |inputs|
  {
    if inputs != [] {
      FrozenHoldsStill(a, inputs[..|inputs| - 1]);
    }
  }

  /**
   * Freezing, staying frozen through any run and resuming leaves the checkpoint as it was at the
   * freeze, except that traffic admitted meanwhile restarts the idle timer and that payloads the
   * application took are gone.
   */
  lemma FreezeAndResumeCostNothing(a: Actor, inputs: seq<Input>, env: Env)
    requires a.mode.Frozen? && !a.stopped && a.mode.since <= env.now
    requires forall i :: 0 <= i < |inputs| ==> Quiet(inputs[i])
    ensures
      var r := LoopStep(Loop(a, inputs), Order(ResumeCommand, env));
      var observed := LastAdmitted(inputs, a.peer.lastObserved);
      && r.mode.Running? && !r.stopped
      && TakeSnapshot(r.peer, env.now) ==
           TakeSnapshot(a.peer, a.mode.since).(timeoutRemaining := Remaining(PEER_TIMEOUT, observed, a.mode.since),
                                               queued := LeftQueued(inputs, a.peer.inbox))
  {
    FrozenHoldsStill(a, inputs);
    var frozen := Loop(a, inputs);
    ResumeStep(frozen, env);
    ResumeCostsNothing(frozen.peer, a.mode.since, env.now);
    OnlyTheTimeoutMoves(a.peer, LastAdmitted(inputs, a.peer.lastObserved), LeftQueued(inputs, a.peer.inbox),
                        a.mode.since);
  }

  lemma ResumeStep(a: Actor, env: Env)
    requires a.mode.Frozen? && !a.stopped
    ensures LoopStep(a, Order(ResumeCommand, env)) ==
            a.(peer := ResumeTimers(a.peer, a.mode.since, env.now), mode := Running)
  {
  }

  lemma OnlyTheTimeoutMoves(p: Peer, observed: Instant, queue: seq<bytes>, at: Instant)
    ensures TakeSnapshot(p.(lastObserved := observed, inbox := queue), at)
            == TakeSnapshot(p, at).(timeoutRemaining := Remaining(PEER_TIMEOUT, observed, at), queued := queue)
  {
  }
}

/**
  The shutdown protocol of a QAT session, as interleaved atomic steps: submitters and
  droppers of in-flight tickets, the owner that requests the stop, and the poll task
  that must not leave before the last operation has been drained. The shared state is
  a stop flag, an in-flight counter and a one-permit notification; memory is
  sequentially consistent.
 */
module QatShutdown {

  /** Where the owner is: alive, between storing `stop` and notifying, or done. */
  datatype Owner = Alive | StopStored | Released

  /** Inside a drained completion: nothing pending, about to read `stop`, about to notify. */
  datatype Callback = Idle | ReadStop | Wake

  datatype Poll =
    | Registering
    | CheckStop
    | CheckInflight
    | Parked
    | Draining(callback: Callback)
    | Exited
    | FdFailed

  /**
    `tickets` counts the live in-flight guards; `reading` and `waking` count the threads
    that have dropped the last ticket and are about to read `stop`, or about to notify.
   */
  datatype State = State(
    stop: bool,
    inflight: int,
    permit: bool,
    owner: Owner,
    poll: Poll,
    tickets: nat,
    reading: nat,
    waking: nat)

  datatype Action =
    | Submit
    | DropTicket | ReadStopFlag | NotifyZero
    | StoreStop | NotifyStop
    | Register(ok: bool)
    | PollReadStop | PollReadInflight
    | PollNotified | PollReadable | PollFdError
    | Complete | CompleteReadStop | CompleteNotify | DrainDone

  /** A session can only be submitted to while its owner is alive. */
  predicate Enabled(s: State, a: Action) {
    match a
    case Submit => s.owner.Alive?
    case DropTicket => s.tickets > 0
    case ReadStopFlag => s.reading > 0
    case NotifyZero => s.waking > 0
    case StoreStop => s.owner.Alive?
    case NotifyStop => s.owner.StopStored?
    case Register(_) => s.poll.Registering?
    case PollReadStop => s.poll.CheckStop?
    case PollReadInflight => s.poll.CheckInflight?
    case PollNotified => s.poll.Parked? && s.permit
    case PollReadable => s.poll.Parked?
    case PollFdError => s.poll.Parked?
    case Complete => s.poll == Draining(Idle) && s.tickets > 0
    case CompleteReadStop => s.poll == Draining(ReadStop)
    case CompleteNotify => s.poll == Draining(Wake)
    case DrainDone => s.poll == Draining(Idle)
  }

  function Next(s: State, a: Action): (r: State)
    requires Enabled(s, a)
  {
    match a
    case Submit => s.(inflight := s.inflight + 1, tickets := s.tickets + 1)
    case DropTicket =>
      s.(inflight := s.inflight - 1, tickets := s.tickets - 1,
         reading := if s.inflight == 1 then s.reading + 1 else s.reading)
    case ReadStopFlag => s.(reading := s.reading - 1, waking := if s.stop then s.waking + 1 else s.waking)
    case NotifyZero => s.(waking := s.waking - 1, permit := true)
    case StoreStop => s.(stop := true, owner := StopStored)
    case NotifyStop => s.(permit := true, owner := Released)
    case Register(ok) => s.(poll := if ok then CheckStop else FdFailed)
    case PollReadStop => s.(poll := if s.stop then CheckInflight else Parked)
    case PollReadInflight => s.(poll := if s.inflight == 0 then Exited else Parked)
    case PollNotified => s.(permit := false, poll := Draining(Idle))
    case PollReadable => s.(poll := Draining(Idle))
    case PollFdError => s.(poll := FdFailed)
    case Complete =>
      s.(inflight := s.inflight - 1, tickets := s.tickets - 1,
         poll := Draining(if s.inflight == 1 then ReadStop else Idle))
    case CompleteReadStop => s.(poll := Draining(if s.stop then Wake else Idle))
    case CompleteNotify => s.(permit := true, poll := Draining(Idle))
    case DrainDone => s.(poll := CheckStop)
  }

  /** A step that is not possible is not taken. */
  function Step(s: State, a: Action): (r: State) {
    if Enabled(s, a) then Next(s, a) else s
  }

  const INITIAL := State(false, 0, false, Alive, Registering, 0, 0, 0)

  function Run(actions: seq<Action>): (s: State) {
    if actions == [] then INITIAL else Step(Run(actions[..|actions| - 1]), actions[|actions| - 1])
  }

  // ---------------------------------------------------------------------------
  // Safety

  /** Some step that will leave a permit behind is already under way. */
  predicate WakeupUnderWay(s: State) {
    s.permit || s.owner.StopStored? || s.reading > 0 || s.waking > 0
  }

  predicate Finished(s: State) {
    s.poll.Exited? || s.poll.FdFailed?
  }

  predicate Inv(s: State) {
    && s.tickets == s.inflight
    && (s.stop <==> !s.owner.Alive?)
    && (s.poll.CheckInflight? ==> s.stop)
    && (s.poll.Exited? ==> s.stop && s.inflight == 0)
    && (s.stop && s.poll.Registering? ==> s.permit || s.owner.StopStored?)
    && (s.stop && s.inflight == 0 && s.poll.Parked? ==> WakeupUnderWay(s))
  }

  lemma StepKeepsInv(s: State, a: Action)
    requires Inv(s)
    ensures Inv(Step(s, a))
  {
  }

  lemma {:induction false} RunKeepsInv(actions: seq<Action>)
    ensures Inv(Run(actions))
  {
    if actions != [] {
      RunKeepsInv(actions[..|actions| - 1]);
      StepKeepsInv(Run(actions[..|actions| - 1]), actions[|actions| - 1]);
    }
  }

  /**
    Over every interleaving: the poll task leaves on its own only with the stop requested
    and nothing in flight; the counter counts the live tickets, so it never drops below
    zero; and once the stop is requested with nothing in flight, the poller is gone, awake,
    or will be woken.
   */
  lemma NoLostWakeup(actions: seq<Action>)
    ensures var s := Run(actions);
            && (s.poll.Exited? ==> s.stop && s.inflight == 0)
            && s.inflight == s.tickets
            && (s.stop && s.inflight == 0 ==> Finished(s) || !s.poll.Parked? || WakeupUnderWay(s))
  {
    RunKeepsInv(actions);
  }

  /** A permit exists, or a step that will issue one is pending, in a draining callback too. */
  predicate PermitOrPending(s: State) {
    WakeupUnderWay(s) || s.poll == Draining(ReadStop) || s.poll == Draining(Wake)
  }

  lemma ExtendedBy(actions: seq<Action>, a: Action) returns (more: seq<Action>)
    ensures more == actions + [a] && Run(more) == Step(Run(actions), a)
  {
    more := actions + [a];
    assert more[..|actions|] == actions;
  }

  /** A run in which the poller has taken the only permit and is on its way to the exit check. */
  lemma PermitTaken() returns (actions: seq<Action>)
    ensures Run(actions) == State(true, 0, false, Released, Draining(Idle), 0, 0, 0)
  {
    actions := ExtendedBy([], Register(true));
    actions := ExtendedBy(actions, PollReadStop);
    actions := ExtendedBy(actions, StoreStop);
    actions := ExtendedBy(actions, NotifyStop);
    actions := ExtendedBy(actions, PollNotified);
  }

  /** Between taking the permit and the exit check, no permit is left and none is coming. */
  predicate OnItsWay(p: Poll) {
    p == Draining(Idle) || p == CheckStop || p == CheckInflight
  }

  lemma TakenOnTheWay(p: Poll) returns (actions: seq<Action>)
    requires OnItsWay(p)
    ensures Run(actions) == State(true, 0, false, Released, p, 0, 0, 0)
  {
    actions := PermitTaken();
    if p != Draining(Idle) {
      actions := ExtendedBy(actions, DrainDone);
      if p != CheckStop {
        actions := ExtendedBy(actions, PollReadStop);
      }
    }
  }

  /** What is claimed of a quiet session: its poller is gone, or there is or will be a permit. */
  predicate Claim(s: State) {
    s.stop && s.inflight == 0 ==> Finished(s) || PermitOrPending(s)
  }

  /**
    The claim alone does not hold of every state: it holds throughout all runs at exactly
    those places of the poll task that are not between its wake-up and its exit check.
   */
  lemma ClaimIff(p: Poll)
    ensures (forall actions :: Run(actions).poll == p ==> Claim(Run(actions))) <==> !OnItsWay(p)
  {
    if OnItsWay(p) {
      var actions := TakenOnTheWay(p);
      assert !Claim(Run(actions));
    } else {
      forall actions | Run(actions).poll == p ensures Claim(Run(actions)) {
        RunKeepsInv(actions);
        assert p.Draining? ==> p.callback.ReadStop? || p.callback.Wake? by {
          assert p.Draining? && p.callback.Idle? ==> p == Draining(Idle);
        }
      }
    }
  }

  // ---------------------------------------------------------------------------
  // Once the stop is requested and nothing is in flight, the poller exits

  predicate Quiet(s: State) {
    s.stop && s.inflight == 0
  }

  /** Nothing revives a quiet session, and an exited poller stays exited with nothing in flight. */
  lemma QuietIsStable(s: State, a: Action)
    requires Inv(s) && Quiet(s)
    ensures Quiet(Step(s, a))
    ensures s.poll.Exited? ==> Step(s, a).poll.Exited?
  {
  }

  function PollRank(p: Poll): (n: nat) {
    match p
    case Registering => 8
    case Parked => 7
    case Draining(ReadStop) => 6
    case Draining(Wake) => 5
    case Draining(Idle) => 4
    case CheckStop => 3
    case CheckInflight => 2
    case Exited => 0
    case FdFailed => 0
  }

  function Rank(s: State): (n: nat) {
    2 * s.reading + s.waking + (if s.owner.StopStored? then 1 else 0) + PollRank(s.poll)
  }

  /** Every step a quiet session can take brings it closer to the end. */
  lemma QuietStepsEnd(s: State, a: Action)
    requires Inv(s) && Quiet(s) && Enabled(s, a)
    ensures Rank(Step(s, a)) < Rank(s)
  {
  }

  predicate Failing(a: Action) {
    a.PollFdError? || a == Register(false)
  }

  /** A quiet session whose poller is still there can always take a step that is not a failure. */
  lemma QuietHasAStep(s: State) returns (a: Action)
    requires Inv(s) && Quiet(s) && !Finished(s)
    ensures Enabled(s, a) && !Failing(a)
  {
    match s.poll {
      case Registering => a := Register(true);
      case CheckStop => a := PollReadStop;
      case CheckInflight => a := PollReadInflight;
      case Parked =>
        a := if s.permit then PollNotified
             else if s.owner.StopStored? then NotifyStop
             else if s.reading > 0 then ReadStopFlag
             else NotifyZero;
      case Draining(c) =>
        a := match c case Idle => DrainDone case ReadStop => CompleteReadStop case Wake => CompleteNotify;
      case Exited =>
      case FdFailed =>
    }
  }

  function Steps(s: State, actions: seq<Action>): (r: State)
    decreases |actions|
  {
    if actions == [] then s else Steps(Step(s, actions[0]), actions[1..])
  }

  ghost predicate AllEnabled(s: State, actions: seq<Action>)
    decreases |actions|
  {
    actions == [] || (Enabled(s, actions[0]) && AllEnabled(Step(s, actions[0]), actions[1..]))
  }

  /**
    Termination under every schedule: a quiet session takes at most `Rank` further steps,
    whichever they are, and when none is possible any more the poller has finished.
   */
  lemma {:induction false} ShutdownCompletes(s: State, actions: seq<Action>)
    requires Inv(s) && Quiet(s) && AllEnabled(s, actions)
    ensures |actions| <= Rank(s)
    ensures Quiet(Steps(s, actions)) && Inv(Steps(s, actions))
    ensures (forall a :: !Enabled(Steps(s, actions), a)) ==> Finished(Steps(s, actions))
    ensures s.poll != FdFailed && (forall i :: 0 <= i < |actions| ==> !Failing(actions[i])) ==>
              Steps(s, actions).poll != FdFailed
    decreases |actions|
  {
    if actions == [] {
      if !Finished(s) {
        var a := QuietHasAStep(s);
      }
    } else {
      QuietStepsEnd(s, actions[0]);
      QuietIsStable(s, actions[0]);
      StepKeepsInv(s, actions[0]);
      ShutdownCompletes(Step(s, actions[0]), actions[1..]);
    }
  }
}

/**
  What the log-shipping thread does, as functions of what happens to it. An attempt is a
  script: the outcomes of the writes, the events on a live connection, or the arrivals
  while there is no connection. Scripts are arbitrary, so every run is covered.
 */
module FluentdScripts {
  import opened Basics

  type Message = seq<Byte>

  datatype WriteOutcome = Written | WriteFailed(sent: nat) | WriteTimedOut(sent: nat)

  datatype Event =
    | Received(data: Message, outcome: WriteOutcome)
    | ChannelClosed
    | PeerSpoke
    | Flushed(ok: bool)

  datatype Attempt =
    | Connected(retries: seq<WriteOutcome>, events: seq<Event>)
    | Refused(arrivals: seq<Message>, closed: bool)

  /** `Done` ends the thread, `Lost` leads to another attempt, `Unfinished` is a run still in progress. */
  datatype Status = Done | Lost | Unfinished

  /**
    The thread as a value: its queue and counters, and what it has received and written in
    full so far. `retried` counts the messages written out of the queue.
   */
  datatype Thread = Thread(
    queue: seq<Message>,
    received: seq<Message>,
    log: seq<Message>,
    passed: nat,
    passedSize: nat,
    retried: nat,
    drops: nat)

  const START := Thread([], [], [], 0, 0, 0, 0)

  function Join(ms: seq<Message>): (bs: seq<Byte>) {
    if ms == [] then [] else Join(ms[..|ms| - 1]) + ms[|ms| - 1]
  }

  lemma {:induction false} JoinConcat(a: seq<Message>, b: seq<Message>)
    ensures Join(a + b) == Join(a) + Join(b)
  {
    if b == [] {
      assert a + b == a;
    } else {
      var n := |b| - 1;
      JoinConcat(a, b[..n]);
      assert (a + b)[..|a + b| - 1] == a + b[..n];
    }
  }

  lemma Assoc(a: seq<Message>, b: seq<Message>, c: seq<Message>)
    ensures a + b + c == a + (b + c)
  {
  }

  /** The bytes of a message that reach the connection. */
  function Sent(data: Message, outcome: WriteOutcome): (bs: seq<Byte>)
    ensures bs <= data
    ensures outcome.Written? ==> bs == data
    ensures !outcome.Written? ==> |bs| == if outcome.sent < |data| then outcome.sent else |data|
  {
    match outcome
    case Written => data
    case WriteFailed(n) => if n < |data| then data[..n] else data
    case WriteTimedOut(n) => if n < |data| then data[..n] else data
  }

  // ---------------------------------------------------------------------------
  // Without a connection

  /** A message that must wait; beyond the limit the oldest one goes. */
  function Push(t: Thread, limit: nat, m: Message): (r: Thread) {
    var queue := t.queue + [m];
    if |queue| > limit
    then t.(received := t.received + [m], queue := queue[1..], drops := t.drops + 1)
    else t.(received := t.received + [m], queue := queue)
  }

  function Waits(t: Thread, limit: nat, arrivals: seq<Message>): (r: Thread) {
    if arrivals == [] then t
    else Push(Waits(t, limit, arrivals[..|arrivals| - 1]), limit, arrivals[|arrivals| - 1])
  }

  function Newest(ms: seq<Message>, limit: nat): (r: seq<Message>)
    ensures |r| <= limit && |r| <= |ms|
  {
    if |ms| <= limit then ms else ms[|ms| - limit..]
  }

  lemma PushNewest(t: Thread, all: seq<Message>, limit: nat, m: Message)
    requires t.queue == Newest(all, limit)
    ensures Push(t, limit, m)
            == t.(queue := Newest(all + [m], limit),
                  received := t.received + [m],
                  drops := t.drops + 1 + |Newest(all, limit)| - |Newest(all + [m], limit)|)
  {
  }

  lemma Snoc(head: seq<Message>, ms: seq<Message>)
    requires ms != []
    ensures head + ms == head + ms[..|ms| - 1] + [ms[|ms| - 1]]
  {
  }

  /** Waiting keeps the newest messages that the queue can hold and drops the others. */
  lemma {:induction false} WaitsIs(t: Thread, limit: nat, arrivals: seq<Message>)
    requires |t.queue| <= limit
    ensures Waits(t, limit, arrivals)
            == t.(queue := Newest(t.queue + arrivals, limit),
                  received := t.received + arrivals,
                  drops := t.drops + |t.queue + arrivals| - |Newest(t.queue + arrivals, limit)|)
    decreases |arrivals|
  {
    if arrivals == [] {
      assert t.queue + [] == t.queue && t.received + [] == t.received;
    } else {
      var init, m := arrivals[..|arrivals| - 1], arrivals[|arrivals| - 1];
      WaitsIs(t, limit, init);
      PushNewest(Waits(t, limit, init), t.queue + init, limit, m);
      Snoc(t.queue, arrivals);
      Snoc(t.received, arrivals);
    }
  }

  // ---------------------------------------------------------------------------
  // The queue on a new connection

  /** How many writes of a series succeed before the first that does not, at most `max`. */
  function Successes(outcomes: seq<WriteOutcome>, max: nat): (n: nat)
    ensures n <= max && n <= |outcomes|
    ensures forall i :: 0 <= i < n ==> outcomes[i].Written?
    ensures n < max && n < |outcomes| ==> !outcomes[n].Written?
  {
    if max == 0 || outcomes == [] || !outcomes[0].Written? then 0
    else 1 + Successes(outcomes[1..], max - 1)
  }

  /** The oldest queued message is written: gone, back in front after an error, dropped on timeout. */
  function ResendFront(t: Thread, outcome: WriteOutcome): (r: Thread)
    requires t.queue != []
  {
    match outcome
    case Written => t.(queue := t.queue[1..], log := t.log + [t.queue[0]], retried := t.retried + 1)
    case WriteFailed(_) => t
    case WriteTimedOut(_) => t.(queue := t.queue[1..], drops := t.drops + 1)
  }

  /** The first `n` queued messages are written. */
  function Partly(t: Thread, n: nat): (r: Thread)
    requires n <= |t.queue|
  {
    t.(queue := t.queue[n..], log := t.log + t.queue[..n], retried := t.retried + n)
  }

  lemma PartlyStep(t: Thread, n: nat)
    requires n < |t.queue|
    ensures Partly(t, n).queue != [] && Partly(t, n).queue[0] == t.queue[n]
    ensures ResendFront(Partly(t, n), Written) == Partly(t, n + 1)
    ensures Join(t.queue[..n]) + t.queue[n] == Join(t.queue[..n + 1])
  {
    assert t.queue[..n + 1][..n] == t.queue[..n];
  }

  function Resend(t: Thread, outcomes: seq<WriteOutcome>): (r: Thread) {
    var n := Successes(outcomes, |t.queue|);
    if n < |t.queue| && n < |outcomes| then ResendFront(Partly(t, n), outcomes[n]) else Partly(t, n)
  }

  lemma ResendAdds(t: Thread, outcomes: seq<WriteOutcome>)
    ensures var n, t' := Successes(outcomes, |t.queue|), Resend(t, outcomes);
            && t'.log == t.log + t.queue[..n] && t'.retried == t.retried + n
            && t'.received == t.received && t'.passed == t.passed && t'.passedSize == t.passedSize
  {
  }

  function ResendStatus(queue: seq<Message>, outcomes: seq<WriteOutcome>): (s: Status) {
    var n := Successes(outcomes, |queue|);
    if n == |queue| then Done else if n == |outcomes| then Unfinished else Lost
  }

  function ResendTail(queue: seq<Message>, outcomes: seq<WriteOutcome>): (bs: seq<Byte>) {
    var n := Successes(outcomes, |queue|);
    if n < |queue| && n < |outcomes| then Sent(queue[n], outcomes[n]) else []
  }

  function ResendWire(queue: seq<Message>, outcomes: seq<WriteOutcome>): (bs: seq<Byte>) {
    Join(queue[..Successes(outcomes, |queue|)]) + ResendTail(queue, outcomes)
  }

  // ---------------------------------------------------------------------------
  // The live connection

  /** Events after which a connection is given up, or the thread ends. */
  predicate Stops(e: Event) {
    match e
    case Received(_, outcome) => !outcome.Written?
    case ChannelClosed => true
    case PeerSpoke => true
    case Flushed(ok) => !ok
  }

  /** Closing the channel is the only good end. */
  function StatusAfter(e: Event): (s: Status) {
    if !Stops(e) then Unfinished else if e.ChannelClosed? then Done else Lost
  }

  /** How many events are handled: up to and including the first that stops. */
  function Until(events: seq<Event>): (n: nat)
    ensures n <= |events|
    ensures forall i :: 0 <= i < n - 1 ==> !Stops(events[i])
    ensures n < |events| ==> n > 0 && Stops(events[n - 1])
  {
    if events == [] then 0 else if Stops(events[0]) then 1 else 1 + Until(events[1..])
  }

  function LiveStatus(events: seq<Event>): (s: Status) {
    var n := Until(events);
    if n == 0 then Unfinished else StatusAfter(events[n - 1])
  }

  function AfterEvent(t: Thread, limit: nat, e: Event): (r: Thread) {
    match e
    case Received(m, Written) =>
      t.(received := t.received + [m], log := t.log + [m], passed := t.passed + 1, passedSize := t.passedSize + |m|)
    case Received(m, WriteFailed(_)) => Push(t, limit, m)
    case Received(m, WriteTimedOut(_)) => t.(received := t.received + [m], drops := t.drops + 1)
    case _ => t
  }

  function Live(t: Thread, limit: nat, events: seq<Event>): (r: Thread) {
    if events == [] then t
    else AfterEvent(Live(t, limit, events[..|events| - 1]), limit, events[|events| - 1])
  }

  function SentBy(e: Event): (bs: seq<Byte>) {
    if e.Received? then Sent(e.data, e.outcome) else []
  }

  function LiveWire(events: seq<Event>): (bs: seq<Byte>) {
    if events == [] then [] else LiveWire(events[..|events| - 1]) + SentBy(events[|events| - 1])
  }

  function NewArrival(e: Event): (ms: seq<Message>) {
    if e.Received? then [e.data] else []
  }

  function NewDelivery(e: Event): (ms: seq<Message>) {
    if e.Received? && e.outcome.Written? then [e.data] else []
  }

  /** The messages that arrive in a stretch of events, and those of them that are written. */
  function Arrivals(events: seq<Event>): (ms: seq<Message>) {
    if events == [] then [] else Arrivals(events[..|events| - 1]) + NewArrival(events[|events| - 1])
  }

  function Delivered(events: seq<Event>): (ms: seq<Message>) {
    if events == [] then [] else Delivered(events[..|events| - 1]) + NewDelivery(events[|events| - 1])
  }

  lemma EventAdds(t: Thread, limit: nat, e: Event)
    ensures var t' := AfterEvent(t, limit, e);
            && t'.received == t.received + NewArrival(e)
            && t'.log == t.log + NewDelivery(e)
            && t'.passed == t.passed + |NewDelivery(e)|
            && t'.passedSize == t.passedSize + |Join(NewDelivery(e))|
            && t'.retried == t.retried
  {
    if e.Received? {
      assert [e.data][..0] == [] && Join([e.data]) == Join([]) + e.data;
    }
    assert t.received + [] == t.received && t.log + [] == t.log;
  }

  /** Arrivals are received, successful ones are written, passed and counted, in order. */
  lemma {:induction false} LiveAdds(t: Thread, limit: nat, events: seq<Event>)
    ensures var t' := Live(t, limit, events);
            && t'.received == t.received + Arrivals(events)
            && t'.log == t.log + Delivered(events)
            && t'.passed == t.passed + |Delivered(events)|
            && t'.passedSize == t.passedSize + |Join(Delivered(events))|
            && t'.retried == t.retried
    decreases |events|
  {
    if events == [] {
      assert t.received + [] == t.received && t.log + [] == t.log;
    } else {
      var init, last := events[..|events| - 1], events[|events| - 1];
      LiveAdds(t, limit, init);
      EventAdds(Live(t, limit, init), limit, last);
      Assoc(t.received, Arrivals(init), NewArrival(last));
      Assoc(t.log, Delivered(init), NewDelivery(last));
      JoinConcat(Delivered(init), NewDelivery(last));
    }
  }

  predicate OnlyLastStops(events: seq<Event>) {
    forall i :: 0 <= i < |events| - 1 ==> !Stops(events[i])
  }

  /** While nothing goes wrong, nothing is queued or dropped, and only whole messages are sent. */
  lemma {:induction false} LiveSmooth(t: Thread, limit: nat, events: seq<Event>)
    requires forall i :: 0 <= i < |events| ==> !Stops(events[i])
    ensures Live(t, limit, events).queue == t.queue && Live(t, limit, events).drops == t.drops
    ensures LiveWire(events) == Join(Delivered(events))
    decreases |events|
  {
    if events != [] {
      var init, last := events[..|events| - 1], events[|events| - 1];
      LiveSmooth(t, limit, init);
      JoinConcat(Delivered(init), NewDelivery(last));
      assert last.Received? ==> [last.data][..0] == [] && Join([last.data]) == last.data;
    }
  }

  function LiveTail(events: seq<Event>): (bs: seq<Byte>) {
    if events != [] && Stops(events[|events| - 1]) then SentBy(events[|events| - 1]) else []
  }

  /** One live message may be lost: after a timeout, or after an error with no room to keep it. */
  function LiveDrops(events: seq<Event>, limit: nat): (n: nat) {
    if events == [] || !events[|events| - 1].Received? then 0
    else
      match events[|events| - 1].outcome
      case Written => 0
      case WriteFailed(_) => if limit == 0 then 1 else 0
      case WriteTimedOut(_) => 1
  }

  function LiveLeft(events: seq<Event>, limit: nat): (ms: seq<Message>) {
    if events != [] && events[|events| - 1].Received? && events[|events| - 1].outcome.WriteFailed? && limit > 0
    then [events[|events| - 1].data] else []
  }

  lemma {:induction false} LiveLeaves(t: Thread, limit: nat, events: seq<Event>)
    requires t.queue == [] && OnlyLastStops(events)
    ensures Live(t, limit, events).queue == LiveLeft(events, limit)
    ensures Live(t, limit, events).drops == t.drops + LiveDrops(events, limit)
  {
    if events != [] {
      LiveSmooth(t, limit, events[..|events| - 1]);
    }
  }

  lemma {:induction false} LiveFramed(events: seq<Event>)
    requires OnlyLastStops(events)
    ensures LiveWire(events) == Join(Delivered(events)) + LiveTail(events)
  {
    if events != [] {
      var init, last := events[..|events| - 1], events[|events| - 1];
      if Stops(last) {
        LiveSmooth(START, 0, init);
        assert Delivered(events) == Delivered(init);
      } else {
        LiveSmooth(START, 0, events);
      }
    }
  }

  // ---------------------------------------------------------------------------
  // Attempts

  function After(t: Thread, limit: nat, a: Attempt): (r: Thread) {
    match a
    case Refused(arrivals, _) => Waits(t, limit, arrivals)
    case Connected(retries, events) =>
      if ResendStatus(t.queue, retries).Done? then Live(Resend(t, retries), limit, events[..Until(events)])
      else Resend(t, retries)
  }

  function StatusOf(queue: seq<Message>, a: Attempt): (s: Status) {
    match a
    case Refused(_, closed) => if closed then Done else Lost
    case Connected(retries, events) =>
      if ResendStatus(queue, retries).Done? then LiveStatus(events) else ResendStatus(queue, retries)
  }

  /** The bytes an attempt puts on its connection. */
  function WireOf(queue: seq<Message>, a: Attempt): (bs: seq<Byte>) {
    match a
    case Refused(_, _) => []
    case Connected(retries, events) =>
      ResendWire(queue, retries)
        + if ResendStatus(queue, retries).Done? then LiveWire(events[..Until(events)]) else []
  }

  function AfterAll(t: Thread, limit: nat, attempts: seq<Attempt>): (r: Thread) {
    if attempts == [] then t
    else After(AfterAll(t, limit, attempts[..|attempts| - 1]), limit, attempts[|attempts| - 1])
  }

  /** What is queued when an attempt begins. */
  function QueueAt(t: Thread, limit: nat, attempts: seq<Attempt>, i: nat): (queue: seq<Message>)
    requires i <= |attempts|
  {
    AfterAll(t, limit, attempts[..i]).queue
  }

  /** The attempts so far: all but the last lost their connection, and each put its bytes on its own. */
  ghost predicate Ran(t: Thread, limit: nat, attempts: seq<Attempt>, n: nat, status: Status, wires: seq<seq<Byte>>) {
    && |wires| == n <= |attempts|
    && (forall i :: 0 <= i < n ==> wires[i] == WireOf(QueueAt(t, limit, attempts, i), attempts[i]))
    && (forall i :: 0 <= i < n - 1 ==> StatusOf(QueueAt(t, limit, attempts, i), attempts[i]) == Lost)
    && status == if n == 0 then Lost else StatusOf(QueueAt(t, limit, attempts, n - 1), attempts[n - 1])
  }

  lemma RanMore(t: Thread, limit: nat, attempts: seq<Attempt>, n: nat, wires: seq<seq<Byte>>)
    requires Ran(t, limit, attempts, n, Lost, wires) && n < |attempts|
    ensures var queue := QueueAt(t, limit, attempts, n);
            Ran(t, limit, attempts, n + 1, StatusOf(queue, attempts[n]), wires + [WireOf(queue, attempts[n])])
    ensures AfterAll(t, limit, attempts[..n + 1]) == After(AfterAll(t, limit, attempts[..n]), limit, attempts[n])
  {
    assert attempts[..n + 1][..n] == attempts[..n];
  }

  // ---------------------------------------------------------------------------
  // When the thread ends, and when it tries again

  /** The retries write the whole queue. */
  ghost predicate WritesAll(queue: seq<Message>, retries: seq<WriteOutcome>) {
    |queue| <= |retries| && forall i :: 0 <= i < |queue| ==> retries[i].Written?
  }

  /** The retry at `k` is the first that does not succeed, and there is something to write. */
  ghost predicate FirstFailure(queue: seq<Message>, retries: seq<WriteOutcome>, k: int) {
    0 <= k < |queue| && k < |retries| && !retries[k].Written? && forall i :: 0 <= i < k ==> retries[i].Written?
  }

  /** The event at `k` is the first that is not a message written in full or a flush that worked. */
  ghost predicate FirstTrouble(events: seq<Event>, k: int) {
    && 0 <= k < |events|
    && !((events[k].Received? && events[k].outcome.Written?) || events[k] == Flushed(true))
    && forall i :: 0 <= i < k ==> (events[i].Received? && events[i].outcome.Written?) || events[i] == Flushed(true)
  }

  ghost predicate EndsThread(queue: seq<Message>, a: Attempt) {
    match a
    case Refused(_, closed) => closed
    case Connected(retries, events) =>
      WritesAll(queue, retries) && exists k :: FirstTrouble(events, k) && events[k] == ChannelClosed
  }

  ghost predicate TriesAgain(queue: seq<Message>, a: Attempt) {
    match a
    case Refused(_, closed) => !closed
    case Connected(retries, events) =>
      || (exists k :: FirstFailure(queue, retries, k))
      || (WritesAll(queue, retries) && exists k :: FirstTrouble(events, k) && events[k] != ChannelClosed)
  }

  lemma {:induction false} TroubleIsLast(events: seq<Event>, k: int)
    requires FirstTrouble(events, k)
    ensures Until(events) == k + 1 && Stops(events[k])
    decreases k
  {
    if k > 0 {
      assert FirstTrouble(events[1..], k - 1);
      TroubleIsLast(events[1..], k - 1);
    }
  }

  lemma LiveStatusIff(events: seq<Event>)
    ensures LiveStatus(events) == Done <==> exists k :: FirstTrouble(events, k) && events[k] == ChannelClosed
    ensures LiveStatus(events) == Lost <==> exists k :: FirstTrouble(events, k) && events[k] != ChannelClosed
  {
    var n := Until(events);
    if n > 0 && Stops(events[n - 1]) {
      assert FirstTrouble(events, n - 1);
    }
    forall k | FirstTrouble(events, k) ensures n == k + 1 && Stops(events[k]) {
      TroubleIsLast(events, k);
    }
  }

  lemma {:induction false} FailureIsNext(outcomes: seq<WriteOutcome>, max: nat, k: int)
    requires 0 <= k < max && k < |outcomes| && !outcomes[k].Written?
    requires forall i :: 0 <= i < k ==> outcomes[i].Written?
    ensures Successes(outcomes, max) == k
    decreases k
  {
    if k > 0 {
      FailureIsNext(outcomes[1..], max - 1, k - 1);
    }
  }

  lemma ResendStatusIff(queue: seq<Message>, retries: seq<WriteOutcome>)
    ensures ResendStatus(queue, retries) == Done <==> WritesAll(queue, retries)
    ensures ResendStatus(queue, retries) == Lost <==> exists k :: FirstFailure(queue, retries, k)
  {
    var n := Successes(retries, |queue|);
    if n < |queue| && n < |retries| {
      assert FirstFailure(queue, retries, n);
    }
    forall k | FirstFailure(queue, retries, k) ensures n == k {
      FailureIsNext(retries, |queue|, k);
    }
  }

  /**
    An attempt ends the thread if and only if the channel was found closed without a
    connection, or the whole queue was written and the first trouble after that is the
    closed channel. A write that fails or times out, a failed flush and anything from the
    peer lead to another attempt.
   */
  lemma StatusIff(queue: seq<Message>, a: Attempt)
    ensures StatusOf(queue, a) == Done <==> EndsThread(queue, a)
    ensures StatusOf(queue, a) == Lost <==> TriesAgain(queue, a)
  {
    if a.Connected? {
      ResendStatusIff(queue, a.retries);
      LiveStatusIff(a.events);
    }
  }

  /** Of a whole run: every attempt but the last is followed by another, and only `EndsThread` ends it well. */
  lemma RunEndsIff(t: Thread, limit: nat, attempts: seq<Attempt>, n: nat, status: Status, wires: seq<seq<Byte>>)
    requires Ran(t, limit, attempts, n, status, wires)
    ensures forall i :: 0 <= i < n - 1 ==> TriesAgain(QueueAt(t, limit, attempts, i), attempts[i])
    ensures status == Done <==> n > 0 && EndsThread(QueueAt(t, limit, attempts, n - 1), attempts[n - 1])
    ensures status == Lost <==> n > 0 ==> TriesAgain(QueueAt(t, limit, attempts, n - 1), attempts[n - 1])
  {
    forall i | 0 <= i < n
      ensures StatusOf(QueueAt(t, limit, attempts, i), attempts[i]) == Done
              <==> EndsThread(QueueAt(t, limit, attempts, i), attempts[i])
      ensures StatusOf(QueueAt(t, limit, attempts, i), attempts[i]) == Lost
              <==> TriesAgain(QueueAt(t, limit, attempts, i), attempts[i])
    {
      StatusIff(QueueAt(t, limit, attempts, i), attempts[i]);
    }
  }

  // ---------------------------------------------------------------------------
  // What an attempt adds, in terms of its script

  function ResentIn(queue: seq<Message>, a: Attempt): (n: nat)
    ensures n <= |queue|
  {
    match a
    case Refused(_, _) => 0
    case Connected(retries, _) => Successes(retries, |queue|)
  }

  /** The events handled on a live connection. */
  function EventsIn(queue: seq<Message>, a: Attempt): (es: seq<Event>) {
    if a.Connected? && ResentIn(queue, a) == |queue| then a.events[..Until(a.events)] else []
  }

  function ArrivedIn(queue: seq<Message>, a: Attempt): (ms: seq<Message>) {
    if a.Refused? then a.arrivals else Arrivals(EventsIn(queue, a))
  }

  function WrittenIn(queue: seq<Message>, a: Attempt): (ms: seq<Message>) {
    queue[..ResentIn(queue, a)] + Delivered(EventsIn(queue, a))
  }

  function TailIn(queue: seq<Message>, a: Attempt): (bs: seq<Byte>) {
    if a.Refused? then []
    else if ResentIn(queue, a) < |queue| then ResendTail(queue, a.retries)
    else LiveTail(EventsIn(queue, a))
  }

  /**
    Everything that arrives is received; what is written is the front of the queue and
    then the live messages that succeed; and only the latter are passed and counted.
   */
  lemma {:induction false} AttemptAdds(t: Thread, limit: nat, a: Attempt)
    requires |t.queue| <= limit
    ensures var t' := After(t, limit, a);
            && t'.received == t.received + ArrivedIn(t.queue, a)
            && t'.log == t.log + WrittenIn(t.queue, a)
            && t'.passed == t.passed + |Delivered(EventsIn(t.queue, a))|
            && t'.passedSize == t.passedSize + |Join(Delivered(EventsIn(t.queue, a)))|
            && t'.retried == t.retried + ResentIn(t.queue, a)
  {
    match a {
      case Refused(arrivals, _) =>
        WaitsIs(t, limit, arrivals);
        assert t.log + [] == t.log;
      case Connected(retries, events) =>
        ResendAdds(t, retries);
        LiveAdds(Resend(t, retries), limit, EventsIn(t.queue, a));
        Assoc(t.log, t.queue[..ResentIn(t.queue, a)], Delivered(EventsIn(t.queue, a)));
    }
  }

  /** Messages are dropped only by overflow, by a write that times out, or for want of any room. */
  function DropsIn(queue: seq<Message>, a: Attempt, limit: nat): (n: nat) {
    match a
    case Refused(arrivals, _) => |queue + arrivals| - |Newest(queue + arrivals, limit)|
    case Connected(retries, _) =>
      if ResentIn(queue, a) < |queue| then
        if ResentIn(queue, a) < |retries| && retries[ResentIn(queue, a)].WriteTimedOut? then 1 else 0
      else LiveDrops(EventsIn(queue, a), limit)
  }

  function LeftIn(queue: seq<Message>, a: Attempt, limit: nat): (left: seq<Message>) {
    match a
    case Refused(arrivals, _) => Newest(queue + arrivals, limit)
    case Connected(retries, _) =>
      var n := ResentIn(queue, a);
      if n < |queue| then
        if n < |retries| && retries[n].WriteTimedOut? then queue[n + 1..] else queue[n..]
      else LiveLeft(EventsIn(queue, a), limit)
  }

  lemma {:induction false} AttemptLeaves(t: Thread, limit: nat, a: Attempt)
    requires |t.queue| <= limit
    ensures After(t, limit, a).queue == LeftIn(t.queue, a, limit)
    ensures After(t, limit, a).drops == t.drops + DropsIn(t.queue, a, limit)
    ensures |After(t, limit, a).queue| <= limit
  {
    match a {
      case Refused(arrivals, _) => WaitsIs(t, limit, arrivals);
      case Connected(retries, events) =>
        if ResentIn(t.queue, a) == |t.queue| {
          LiveLeaves(Resend(t, retries), limit, EventsIn(t.queue, a));
        }
    }
  }

  ghost predicate Begins(tail: seq<Byte>, ms: seq<Message>) {
    exists i :: 0 <= i < |ms| && tail <= ms[i]
  }

  lemma BeginsIn(tail: seq<Byte>, a: seq<Message>, b: seq<Message>)
    requires Begins(tail, a) || Begins(tail, b)
    ensures Begins(tail, a + b)
  {
    if Begins(tail, a) {
      var i :| 0 <= i < |a| && tail <= a[i];
      assert (a + b)[i] == a[i];
    } else {
      var i :| 0 <= i < |b| && tail <= b[i];
      assert (a + b)[|a| + i] == b[i];
    }
  }

  lemma LiveTailBegins(events: seq<Event>)
    requires LiveTail(events) != []
    ensures Begins(LiveTail(events), Arrivals(events))
  {
    var ms := Arrivals(events);
    assert ms[|ms| - 1] == events[|events| - 1].data;
  }

  /**
    The part of a message that did not go through is on the wire: as much of the first
    message whose write failed or timed out as was sent, and nothing in any other case.
   */
  lemma TailIs(queue: seq<Message>, retries: seq<WriteOutcome>, events: seq<Event>, k: int)
    ensures FirstFailure(queue, retries, k) ==>
              TailIn(queue, Connected(retries, events)) == Sent(queue[k], retries[k])
    ensures WritesAll(queue, retries) && FirstTrouble(events, k) ==>
              TailIn(queue, Connected(retries, events))
              == if events[k].Received? then Sent(events[k].data, events[k].outcome) else []
    ensures StatusOf(queue, Connected(retries, events)) == Unfinished ==>
              TailIn(queue, Connected(retries, events)) == []
  {
    ResendStatusIff(queue, retries);
    if FirstFailure(queue, retries, k) {
      FailureIsNext(retries, |queue|, k);
    }
    if FirstTrouble(events, k) {
      TroubleIsLast(events, k);
    }
  }

  /** What is left over on a connection is the beginning of a message it had or received. */
  lemma {:induction false} TailBegins(queue: seq<Message>, a: Attempt)
    requires TailIn(queue, a) != []
    ensures Begins(TailIn(queue, a), queue + ArrivedIn(queue, a))
  {
    var n := ResentIn(queue, a);
    if n < |queue| {
      assert TailIn(queue, a) <= queue[n];
    } else {
      LiveTailBegins(EventsIn(queue, a));
    }
    BeginsIn(TailIn(queue, a), queue, ArrivedIn(queue, a));
  }

  lemma WireParts(a: seq<Byte>, b: seq<Byte>, tail: seq<Byte>)
    ensures a + [] + (b + tail) == (a + b) + tail
  {
  }

  /** A connection carries whole messages, then at most the beginning of one it had or received. */
  lemma {:induction false} WireFramed(queue: seq<Message>, a: Attempt)
    ensures WireOf(queue, a) == Join(WrittenIn(queue, a)) + TailIn(queue, a)
    ensures TailIn(queue, a) != [] ==> Begins(TailIn(queue, a), queue + ArrivedIn(queue, a))
  {
    var n, es := ResentIn(queue, a), EventsIn(queue, a);
    JoinConcat(queue[..n], Delivered(es));
    if a.Connected? && n == |queue| {
      LiveFramed(es);
      WireParts(Join(queue[..n]), Join(Delivered(es)), LiveTail(es));
    } else {
      assert Join(queue[..n]) + [] == Join(queue[..n]);
    }
    if TailIn(queue, a) != [] {
      TailBegins(queue, a);
    }
  }

  // ---------------------------------------------------------------------------
  // What a run adds

  function AllWritten(t: Thread, limit: nat, attempts: seq<Attempt>): (ms: seq<Message>) {
    if attempts == [] then []
    else
      var init := attempts[..|attempts| - 1];
      AllWritten(t, limit, init) + WrittenIn(AfterAll(t, limit, init).queue, attempts[|attempts| - 1])
  }

  function AllArrived(t: Thread, limit: nat, attempts: seq<Attempt>): (ms: seq<Message>) {
    if attempts == [] then []
    else
      var init := attempts[..|attempts| - 1];
      AllArrived(t, limit, init) + ArrivedIn(AfterAll(t, limit, init).queue, attempts[|attempts| - 1])
  }

  function AllDrops(t: Thread, limit: nat, attempts: seq<Attempt>): (n: nat) {
    if attempts == [] then 0
    else
      var init := attempts[..|attempts| - 1];
      AllDrops(t, limit, init) + DropsIn(AfterAll(t, limit, init).queue, attempts[|attempts| - 1], limit)
  }

  lemma {:induction false} QueueBounded(t: Thread, limit: nat, attempts: seq<Attempt>)
    requires |t.queue| <= limit
    ensures |AfterAll(t, limit, attempts).queue| <= limit
    decreases |attempts|
  {
    if attempts != [] {
      var init := attempts[..|attempts| - 1];
      QueueBounded(t, limit, init);
      AttemptLeaves(AfterAll(t, limit, init), limit, attempts[|attempts| - 1]);
    }
  }

  /** What a last attempt adds to a run. */
  lemma {:induction false} LastAdds(t: Thread, limit: nat, attempts: seq<Attempt>)
    requires attempts != [] && |t.queue| <= limit
    ensures var init, a := attempts[..|attempts| - 1], attempts[|attempts| - 1];
            var mid, end := AfterAll(t, limit, init), AfterAll(t, limit, attempts);
            && end.log == mid.log + WrittenIn(mid.queue, a)
            && end.received == mid.received + ArrivedIn(mid.queue, a)
            && end.drops == mid.drops + DropsIn(mid.queue, a, limit)
  {
    var init, a := attempts[..|attempts| - 1], attempts[|attempts| - 1];
    QueueBounded(t, limit, init);
    AttemptAdds(AfterAll(t, limit, init), limit, a);
    AttemptLeaves(AfterAll(t, limit, init), limit, a);
  }

  /**
    Over any attempts: what is written is what the connections carry whole, one after the
    other; what is received is what arrives; and the drop counter grows as the scripts say.
   */
  lemma {:induction false} RunAdds(t: Thread, limit: nat, attempts: seq<Attempt>)
    requires |t.queue| <= limit
    ensures AfterAll(t, limit, attempts).log == t.log + AllWritten(t, limit, attempts)
    ensures AfterAll(t, limit, attempts).received == t.received + AllArrived(t, limit, attempts)
    ensures AfterAll(t, limit, attempts).drops == t.drops + AllDrops(t, limit, attempts)
    decreases |attempts|
  {
    if attempts == [] {
      assert t.log + [] == t.log && t.received + [] == t.received;
    } else {
      var init, a := attempts[..|attempts| - 1], attempts[|attempts| - 1];
      var queue := AfterAll(t, limit, init).queue;
      RunAdds(t, limit, init);
      LastAdds(t, limit, attempts);
      Assoc(t.log, AllWritten(t, limit, init), WrittenIn(queue, a));
      Assoc(t.received, AllArrived(t, limit, init), ArrivedIn(queue, a));
    }
  }

  // ---------------------------------------------------------------------------
  // Which messages the passed counter counts

  /** A new connection finds a queued message and succeeds in writing it. */
  predicate ResendsIn(queue: seq<Message>, a: Attempt) {
    a.Connected? && queue != [] && a.retries != [] && a.retries[0].Written?
  }

  predicate NothingResent(t: Thread, limit: nat, attempts: seq<Attempt>) {
    attempts == [] ||
    var init, last := attempts[..|attempts| - 1], attempts[|attempts| - 1];
    NothingResent(t, limit, init) && !ResendsIn(AfterAll(t, limit, init).queue, last)
  }

  /** Over any attempts: written = passed + retried, and none is retried exactly if nothing was resent. */
  lemma {:induction false} PassedAndRetried(t: Thread, limit: nat, attempts: seq<Attempt>)
    requires |t.queue| <= limit
    ensures var t' := AfterAll(t, limit, attempts);
            && |t'.log| - |t.log| == (t'.passed - t.passed) + (t'.retried - t.retried)
            && t'.retried >= t.retried
            && (t'.retried == t.retried <==> NothingResent(t, limit, attempts))
    decreases |attempts|
  {
    if attempts != [] {
      var init, a := attempts[..|attempts| - 1], attempts[|attempts| - 1];
      PassedAndRetried(t, limit, init);
      QueueBounded(t, limit, init);
      AttemptAdds(AfterAll(t, limit, init), limit, a);
    }
  }

  /**
    The passed counter grows by the number of messages written, if and only if no new
    connection finds a queued message and succeeds in writing it.
   */
  lemma PassedIff(t: Thread, limit: nat, attempts: seq<Attempt>)
    requires |t.queue| <= limit
    ensures var t' := AfterAll(t, limit, attempts);
            t'.passed - t.passed == |t'.log| - |t.log| <==> NothingResent(t, limit, attempts)
  {
    PassedAndRetried(t, limit, attempts);
  }

  lemma TwoAttempts(t: Thread, limit: nat, a: Attempt, b: Attempt)
    ensures AfterAll(t, limit, [a, b]) == After(After(t, limit, a), limit, b)
  {
    assert [a, b][..1] == [a] && [a][..0] == [];
    assert AfterAll(t, limit, [a]) == After(t, limit, a);
  }

  lemma OneWaits(limit: nat, m: Message)
    requires limit >= 1
    ensures After(START, limit, Refused([m], false)) == START.(queue := [m], received := [m])
  {
    WaitsIs(START, limit, [m]);
    assert [] + [m] == [m];
  }

  lemma OneIsResent(t: Thread, limit: nat, m: Message)
    requires t.queue == [m]
    ensures After(t, limit, Connected([Written], [])) == t.(queue := [], log := t.log + [m], retried := t.retried + 1)
  {
    assert Successes([Written], 1) == 1 + Successes([Written][1..], 0);
    assert [m][..1] == [m];
  }

  /** A run in which it does not: one message waits for a connection and is written on it. */
  lemma PassedFalls(limit: nat, m: Message) returns (attempts: seq<Attempt>)
    requires limit >= 1
    ensures AfterAll(START, limit, attempts) == START.(received := [m], log := [m], retried := 1)
  {
    attempts := [Refused([m], false), Connected([Written], [])];
    TwoAttempts(START, limit, Refused([m], false), Connected([Written], []));
    OneWaits(limit, m);
    OneIsResent(START.(queue := [m], received := [m]), limit, m);
    assert [] + [m] == [m];
  }
}

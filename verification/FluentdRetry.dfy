/**
  The log-shipping thread: it sends received messages over one connection after another
  and keeps those it could not send in a bounded retry queue. Each method is proved to do
  what `FluentdScripts` says of its script; the ledger adds the order of messages.
 */
module FluentdRetry {
  import opened Basics
  import opened Options
  import opened FluentdScripts
  import opened FluentdLedgers

  lemma WaitsMore(t: Thread, limit: nat, arrivals: seq<Message>, i: nat)
    requires i < |arrivals|
    ensures Waits(t, limit, arrivals[..i + 1]) == Push(Waits(t, limit, arrivals[..i]), limit, arrivals[i])
  {
    assert arrivals[..i + 1][..i] == arrivals[..i];
  }

  lemma LiveMore(t: Thread, limit: nat, events: seq<Event>, i: nat)
    requires i < |events|
    ensures Live(t, limit, events[..i + 1]) == AfterEvent(Live(t, limit, events[..i]), limit, events[i])
    ensures LiveWire(events[..i + 1]) == LiveWire(events[..i]) + SentBy(events[i])
  {
    assert events[..i + 1][..i] == events[..i];
  }

  class IoThread {
    const retryQueueLen: nat
    var retryQueue: seq<Message>

    /** Counters: dropped as unreachable, and passed (and their size) while live. */
    var dropCount: nat
    var passed: nat
    var passedSize: nat

    ghost var ledger: Ledger
    ghost var retried: nat

    ghost function View(): (t: Thread)
      reads this
    {
      Thread(retryQueue, ledger.received, ledger.log, passed, passedSize, retried, dropCount)
    }

    ghost predicate Valid()
      reads this
    {
      && Sound(ledger)
      && |retryQueue| <= retryQueueLen
      && Holds()
    }

    /** The queue, the counters and the ledger agree. */
    ghost predicate Holds()
      reads this
    {
      && Below(ledger.queued, |ledger.received|)
      && retryQueue == Pick(ledger.received, ledger.queued)
      && dropCount + |ledger.written| + |ledger.queued| == |ledger.received|
    }

    constructor (retryQueueLen: nat)
      ensures Valid() && View() == START && this.retryQueueLen == retryQueueLen
    {
      this.retryQueueLen := retryQueueLen;
      retryQueue := [];
      dropCount, passed, passedSize, retried := 0, 0, 0, 0;
      ledger := Ledger([], [], [], []);
    }

    /** Queues a message that has just arrived; beyond the limit the oldest one is dropped and counted. */
    method PushToRetry(data: Message) returns (overflow: Option<Message>)
      requires Valid()
      modifies this
      ensures Valid() && View() == Push(old(View()), retryQueueLen, data)
      ensures var queue := old(retryQueue) + [data];
              && retryQueue == (if |queue| > retryQueueLen then queue[1..] else queue)
              && dropCount == old(dropCount) + if |queue| > retryQueueLen then 1 else 0
      ensures overflow == if |old(retryQueue)| < retryQueueLen then None else Some((old(retryQueue) + [data])[0])
    {
      ArriveSound(ledger, data);
      ledger := Arrive(ledger, data);
      retryQueue := retryQueue + [data];
      if |retryQueue| > retryQueueLen {
        DropSound(ledger);
        ledger := DropFront(ledger);
        dropCount := dropCount + 1;
        overflow := Some(retryQueue[0]);
        retryQueue := retryQueue[1..];
      } else {
        overflow := None;
      }
      SoundSplit(ledger);
    }

    /** Nothing to send over: messages are queued until the delay runs out or the channel closes. */
    method RunWithoutConnection(arrivals: seq<Message>, closed: bool) returns (status: Status, drops: nat)
      requires Valid()
      modifies this
      ensures Valid() && View() == After(old(View()), retryQueueLen, Refused(arrivals, closed))
      ensures status == StatusOf(old(retryQueue), Refused(arrivals, closed))
      ensures drops == dropCount - old(dropCount)
    {
      drops := 0;
      for i := 0 to |arrivals|
        invariant Valid() && View() == Waits(old(View()), retryQueueLen, arrivals[..i])
        invariant drops == dropCount - old(dropCount)
      {
        WaitsMore(old(View()), retryQueueLen, arrivals, i);
        var overflow := PushToRetry(arrivals[i]);
        if overflow.Some? {
          drops := drops + 1;
        }
      }
      assert arrivals[..|arrivals|] == arrivals;
      status := if closed then Done else Lost;
    }

    /** Writes the oldest queued message: gone if written, back in front if it failed, dropped on timeout. */
    method ResendOne(outcome: WriteOutcome) returns (sent: seq<Byte>)
      requires Valid() && retryQueue != []
      modifies this
      ensures Valid() && View() == ResendFront(old(View()), outcome)
      ensures retryQueue == if outcome.WriteFailed? then old(retryQueue) else old(retryQueue)[1..]
      ensures ledger.log == old(ledger).log + if outcome.Written? then [old(retryQueue)[0]] else []
      ensures dropCount == old(dropCount) + if outcome.WriteTimedOut? then 1 else 0
      ensures passed == old(passed) && passedSize == old(passedSize)
      ensures sent == Sent(old(retryQueue)[0], outcome)
    {
      var data := retryQueue[0];
      assert data == ledger.received[ledger.queued[0]];
      retryQueue := retryQueue[1..];
      sent := Sent(data, outcome);
      match outcome {
        case Written =>
          WriteSound(ledger);
          ledger := WriteFront(ledger);
          retried := retried + 1;
        case WriteFailed(_) =>
          retryQueue := [data] + retryQueue;
        case WriteTimedOut(_) =>
          DropSound(ledger);
          ledger := DropFront(ledger);
          dropCount := dropCount + 1;
      }
      SoundSplit(ledger);
    }

    /** Sends the queue, oldest first, until it is empty or a write goes wrong. */
    method ResendQueue(outcomes: seq<WriteOutcome>) returns (status: Status, wire: seq<Byte>)
      requires Valid()
      modifies this
      ensures Valid() && View() == Resend(old(View()), outcomes)
      ensures status == ResendStatus(old(retryQueue), outcomes)
      ensures wire == ResendWire(old(retryQueue), outcomes)
    {
      ghost var t, total := View(), Successes(outcomes, |retryQueue|);
      wire, status := [], Unfinished;
      var n := 0;
      while n < |outcomes| && retryQueue != [] && status == Unfinished
        invariant Valid()
        invariant n <= total <= |t.queue| && total <= |outcomes|
        invariant status == Unfinished ==> View() == Partly(t, n) && wire == Join(t.queue[..n])
        invariant status != Unfinished ==> status == Lost && n == total < |t.queue| && n < |outcomes|
        invariant status != Unfinished ==>
                    && View() == ResendFront(Partly(t, n), outcomes[n])
                    && wire == Join(t.queue[..n]) + Sent(t.queue[n], outcomes[n])
        decreases |outcomes| - n, status == Unfinished
      {
        PartlyStep(t, n);
        var sent := ResendOne(outcomes[n]);
        wire := wire + sent;
        if outcomes[n].Written? {
          n := n + 1;
        } else {
          status := Lost;
        }
      }
      if retryQueue == [] && status == Unfinished {
        status := Done;
      }
    }

    /** Writes a message that has just arrived: passed, queued for the next connection, or dropped. */
    method SendOne(data: Message, outcome: WriteOutcome) returns (sent: seq<Byte>)
      requires Valid() && retryQueue == []
      modifies this
      ensures Valid() && View() == AfterEvent(old(View()), retryQueueLen, Received(data, outcome))
      ensures retryQueue == if outcome.WriteFailed? && retryQueueLen > 0 then [data] else []
      ensures ledger.log == old(ledger).log + if outcome.Written? then [data] else []
      ensures dropCount == old(dropCount)
                + if outcome.WriteTimedOut? || (outcome.WriteFailed? && retryQueueLen == 0) then 1 else 0
      ensures passed == old(passed) + if outcome.Written? then 1 else 0
      ensures passedSize == old(passedSize) + if outcome.Written? then |data| else 0
      ensures sent == Sent(data, outcome)
    {
      sent := Sent(data, outcome);
      match outcome {
        case Written =>
          ArriveSound(ledger, data);
          WriteSound(Arrive(ledger, data));
          ledger := WriteFront(Arrive(ledger, data));
          passed := passed + 1;
          passedSize := passedSize + |data|;
        case WriteFailed(_) =>
          var overflow := PushToRetry(data);
        case WriteTimedOut(_) =>
          ArriveSound(ledger, data);
          DropSound(Arrive(ledger, data));
          ledger := DropFront(Arrive(ledger, data));
          dropCount := dropCount + 1;
      }
      SoundSplit(ledger);
    }

    /** One thing that can happen on a live connection. */
    method LiveEvent(e: Event) returns (status: Status, sent: seq<Byte>)
      requires Valid() && retryQueue == []
      modifies this
      ensures Valid() && View() == AfterEvent(old(View()), retryQueueLen, e)
      ensures status == StatusAfter(e) && sent == SentBy(e)
    {
      sent, status := [], Unfinished;
      match e {
        case Received(data, outcome) =>
          sent := SendOne(data, outcome);
          if !outcome.Written? { status := Lost; }
        case ChannelClosed => status := Done;
        case PeerSpoke => status := Lost;
        case Flushed(ok) => if !ok { status := Lost; }
      }
    }

    /** The queue is empty: each message is written as it arrives, until something goes wrong. */
    method SendLive(events: seq<Event>) returns (status: Status, wire: seq<Byte>)
      requires Valid() && retryQueue == []
      modifies this
      ensures Valid() && View() == Live(old(View()), retryQueueLen, events[..Until(events)])
      ensures status == LiveStatus(events) && wire == LiveWire(events[..Until(events)])
    {
      ghost var t, total := View(), Until(events);
      wire, status := [], Unfinished;
      var n := 0;
      while n < |events| && status == Unfinished
        invariant Valid()
        invariant n <= total <= |events|
        invariant View() == Live(t, retryQueueLen, events[..n]) && wire == LiveWire(events[..n])
        invariant status == Unfinished ==> retryQueue == []
        invariant status == if n == 0 then Unfinished else StatusAfter(events[n - 1])
        invariant status != Unfinished ==> n == total
      {
        LiveMore(t, retryQueueLen, events, n);
        var sent;
        status, sent := LiveEvent(events[n]);
        wire, n := wire + sent, n + 1;
      }
    }

    method RunWithConnection(retries: seq<WriteOutcome>, events: seq<Event>) returns (status: Status, wire: seq<Byte>)
      requires Valid()
      modifies this
      ensures Valid() && View() == After(old(View()), retryQueueLen, Connected(retries, events))
      ensures status == StatusOf(old(retryQueue), Connected(retries, events))
      ensures wire == WireOf(old(retryQueue), Connected(retries, events))
    {
      status, wire := ResendQueue(retries);
      if status == Done {
        var more;
        status, more := SendLive(events);
        wire := wire + more;
      }
    }

    /** One attempt to connect and what follows from it. */
    method TryOnce(attempt: Attempt) returns (status: Status, wire: seq<Byte>)
      requires Valid()
      modifies this
      ensures Valid() && View() == After(old(View()), retryQueueLen, attempt)
      ensures status == StatusOf(old(retryQueue), attempt)
      ensures wire == WireOf(old(retryQueue), attempt)
    {
      match attempt {
        case Connected(retries, events) =>
          status, wire := RunWithConnection(retries, events);
        case Refused(arrivals, closed) =>
          var drops;
          status, drops := RunWithoutConnection(arrivals, closed);
          wire := [];
      }
    }

    /**
      The whole life of the thread: attempts until one of them ends it. State, counters and
      the bytes on each connection are those of the scripts; messages stay in order.
     */
    method RunToEnd(attempts: seq<Attempt>) returns (status: Status, wires: seq<seq<Byte>>, handled: nat)
      requires Valid()
      modifies this
      ensures Valid()
      ensures Ran(old(View()), retryQueueLen, attempts, handled, status, wires)
      ensures handled < |attempts| ==> status != Lost
      ensures forall i :: 0 <= i < handled - 1 ==>
                TriesAgain(QueueAt(old(View()), retryQueueLen, attempts, i), attempts[i])
      ensures status == Done
              <==> handled > 0
                   && EndsThread(QueueAt(old(View()), retryQueueLen, attempts, handled - 1), attempts[handled - 1])
      ensures View() == AfterAll(old(View()), retryQueueLen, attempts[..handled])
      ensures passed - old(passed) == |ledger.log| - |old(ledger).log|
              <==> NothingResent(old(View()), retryQueueLen, attempts[..handled])
    {
      ghost var t := View();
      wires, handled, status := [], 0, Lost;
      while handled < |attempts| && status == Lost
        invariant Valid()
        invariant Ran(t, retryQueueLen, attempts, handled, status, wires)
        invariant View() == AfterAll(t, retryQueueLen, attempts[..handled])
      {
        RanMore(t, retryQueueLen, attempts, handled, wires);
        var wire;
        status, wire := TryOnce(attempts[handled]);
        wires, handled := wires + [wire], handled + 1;
      }
      PassedIff(t, retryQueueLen, attempts[..handled]);
      RunEndsIff(t, retryQueueLen, attempts, handled, status, wires);
    }
  }

  /** The drop counter is exact, and at every moment every message is accounted for. */
  lemma CountersExact(t: IoThread)
    requires t.Valid()
    ensures t.dropCount == |Dropped(t.ledger)|
    ensures |t.ledger.received| == |t.ledger.log| + |t.retryQueue| + t.dropCount
    ensures |t.retryQueue| <= t.retryQueueLen
  {
    Partition(t.ledger);
  }
}
